/** What the answer check, the hint generator and the marks rule promise. */
module TutorFacts {

  import opened Optional
  import opened Text
  import opened TextFacts
  import opened Types
  import opened TutorLogic

  // ------------------------------------------------ layout and letter case

  lemma AllWhitespaceLower(s: string)
    ensures AllWhitespace(Lower(s)) <==> AllWhitespace(s)
  {
  }

  /** Normalisation sees the answer only through its lower-case form. */
  lemma NormalizeIgnoresCase(s: string)
    ensures Normalize(Lower(s)) == Normalize(s)
  {
    LowerIdempotent(s);
  }

  /** Leading and trailing whitespace do not reach the normalised text. */
  lemma NormalizeIgnoresPadding(w1: string, s: string, w2: string)
    requires AllWhitespace(w1) && AllWhitespace(w2)
    ensures Normalize(w1 + s + w2) == Normalize(s)
  {
    LowerAppend(w1 + s, w2);
    LowerAppend(w1, s);
    LowerOfWhitespace(w1);
    LowerOfWhitespace(w2);
    TrimPadding(w1, Lower(s), w2);
  }

  /** A whitespace run of any length and kind normalises like one space. */
  lemma NormalizeIgnoresRunLength(x: string, r: string, y: string)
    requires |r| > 0 && AllWhitespace(r)
    ensures Normalize(x + r + y) == Normalize(x + " " + y)
  {
    var lx, ly := Lower(x), Lower(y);
    LowerAppend(x + r, y);
    LowerAppend(x, r);
    LowerOfWhitespace(r);
    LowerAppend(x + " ", y);
    LowerAppend(x, " ");
    LowerOfWhitespace(" ");
    assert Lower(x + r + y) == lx + r + ly;
    assert Lower(x + " " + y) == lx + " " + ly;
    AllWhitespaceLower(x);
    AllWhitespaceLower(y);
    if AllWhitespace(lx) {
      AllWhitespaceAppend(lx, r);
      AllWhitespaceAppend(lx, " ");
      assert lx + r + ly == (lx + r) + ly + [];
      assert lx + " " + ly == (lx + " ") + ly + [];
      TrimPadding(lx + r, ly, []);
      TrimPadding(lx + " ", ly, []);
    } else if AllWhitespace(ly) {
      AllWhitespaceAppend(r, ly);
      AllWhitespaceAppend(" ", ly);
      assert lx + r + ly == [] + lx + (r + ly);
      assert lx + " " + ly == [] + lx + (" " + ly);
      TrimPadding([], lx, r + ly);
      TrimPadding([], lx, " " + ly);
    } else {
      TrimAround(lx, r, ly);
      TrimAround(lx, " ", ly);
      CollapseRun(TrimStart(lx), r, TrimEnd(ly));
    }
  }

  /** The verdict depends on the two answers only through their normal forms. */
  lemma CheckAnswerDependsOnNormalForms(u1: string, u2: string, c1: string, c2: string, isLongAnswer: bool)
    requires Normalize(u1) == Normalize(u2) && Normalize(c1) == Normalize(c2)
    ensures CheckAnswer(u1, c1, isLongAnswer) == CheckAnswer(u2, c2, isLongAnswer)
  {
  }

  /** Letter case in either answer does not change the verdict. */
  lemma CheckAnswerIgnoresCase(u: string, c: string, isLongAnswer: bool)
    ensures CheckAnswer(Lower(u), Lower(c), isLongAnswer) == CheckAnswer(u, c, isLongAnswer)
  {
    NormalizeIgnoresCase(u);
    NormalizeIgnoresCase(c);
  }

  /** Whitespace padding around either answer does not change the verdict. */
  lemma CheckAnswerIgnoresPadding(w1: string, u: string, w2: string, w3: string, c: string, w4: string, isLongAnswer: bool)
    requires AllWhitespace(w1) && AllWhitespace(w2) && AllWhitespace(w3) && AllWhitespace(w4)
    ensures CheckAnswer(w1 + u + w2, w3 + c + w4, isLongAnswer) == CheckAnswer(u, c, isLongAnswer)
  {
    NormalizeIgnoresPadding(w1, u, w2);
    NormalizeIgnoresPadding(w3, c, w4);
  }

  /** Repeated or mixed whitespace inside either answer counts as one space. */
  lemma CheckAnswerIgnoresRunLength(x: string, r: string, y: string, c: string, isLongAnswer: bool)
    requires |r| > 0 && AllWhitespace(r)
    ensures CheckAnswer(x + r + y, c, isLongAnswer) == CheckAnswer(x + " " + y, c, isLongAnswer)
    ensures CheckAnswer(c, x + r + y, isLongAnswer) == CheckAnswer(c, x + " " + y, isLongAnswer)
  {
    NormalizeIgnoresRunLength(x, r, y);
  }

  // ------------------------------------------------------ short-answer path

  /** Delete every comma and every whitespace character. */
  function Strip(s: string): (r: string)
    ensures forall i :: 0 <= i < |r| ==> r[i] != ',' && !IsWhitespace(r[i])
  {
    if |s| == 0 then []
    else (if s[0] == ',' || IsWhitespace(s[0]) then [] else [s[0]]) + Strip(s[1..])
  }

  lemma {:induction false} StripKeepsVisible(s: string)
    requires forall i :: 0 <= i < |s| ==> s[i] != ',' && !IsWhitespace(s[i])
    ensures Strip(s) == s
    decreases |s|
  {
    if |s| > 0 {
      StripKeepsVisible(s[1..]);
    }
  }

  lemma {:induction false} CleanAppend(a: string, b: string)
    ensures Clean(a + b) == Clean(a) + Clean(b)
    decreases |a|
  {
    if |a| > 0 {
      assert (a + b)[1..] == a[1..] + b;
      CleanAppend(a[1..], b);
    } else {
      assert a + b == b;
    }
  }

  lemma {:induction false} CleanWhitespace(w: string)
    requires AllWhitespace(w)
    ensures Clean(w) == []
    decreases |w|
  {
    if |w| > 0 {
      CleanWhitespace(w[1..]);
    }
  }

  lemma CleanThree(a: string, b: string, c: string)
    ensures Clean(a + b + c) == Clean(a) + Clean(b) + Clean(c)
  {
    CleanAppend(a + b, c);
    CleanAppend(a, b);
  }

  lemma CleanTrim(x: string)
    ensures Clean(Trim(x)) == Clean(x)
  {
    TrimDecompose(x);
    var a := x[..LeadingWs(x)];
    var c := x[LeadingWs(x) + |Trim(x)|..];
    CleanThree(a, Trim(x), c);
    CleanWhitespace(a);
    CleanWhitespace(c);
  }



  lemma {:induction false} CleanCollapse(x: string)
    ensures Clean(Collapse(x)) == Clean(x)
    decreases |x|
  {
    if |x| > 0 {
      if IsWhitespace(x[0]) {
        var n := LeadingWs(x);
        assert x == x[..n] + TrimStart(x);
        CleanAppend(x[..n], TrimStart(x));
        CleanWhitespace(x[..n]);
        CleanAppend([' '], Collapse(TrimStart(x)));
        CleanCollapse(TrimStart(x));
      } else {
        CollapseVisibleHead(x);
        CleanAppend([x[0]], Collapse(x[1..]));
        CleanCollapse(x[1..]);
      }
    }
  }

  /** Without an upper-case `R` present, the class `[,\sR]` deletes exactly
      the commas and whitespace. */
  lemma {:induction false} CleanWithoutCapitalR(x: string)
    requires forall i :: 0 <= i < |x| ==> x[i] != 'R'
    ensures Clean(x) == Strip(x)
    decreases |x|
  {
    if |x| > 0 {
      CleanWithoutCapitalR(x[1..]);
    }
  }

  /** The short path compares the lower-cased answers with every comma and
      whitespace character deleted. The `R` of `[,\sR]` never fires, because
      the answers were lower-cased first; a lower-case `r` is kept. */
  lemma ShortAnswerIff(u: string, c: string)
    ensures CheckAnswer(u, c, false) <==> Strip(Lower(u)) == Strip(Lower(c))
  {
    CleanNormalize(u);
    CleanNormalize(c);
  }

  lemma CleanNormalize(s: string)
    ensures Clean(Normalize(s)) == Strip(Lower(s))
  {
    var t := Trim(Lower(s));
    CleanCollapse(t);
    CleanTrim(Lower(s));
    CleanWithoutCapitalR(Lower(s));
  }

  /** The short path does not care which answer is the learner's. */
  lemma ShortAnswerSymmetric(u: string, c: string)
    ensures CheckAnswer(u, c, false) == CheckAnswer(c, u, false)
  {
  }

  // ------------------------------------------------------- long-answer path

  /** Every keyword is a whitespace-free word of more than three characters
      taken from the normalised correct answer. */
  lemma KeywordsAreWords(c: string)
    ensures forall k :: 0 <= k < |Keywords(Normalize(c))| ==>
              var kw := Keywords(Normalize(c))[k];
              |kw| > 3 && NoWhitespace(kw) && kw in Split(Normalize(c), ' ')
  {
    KeywordsOfSingleSpaced(Normalize(c));
  }

  /** The keywords of single-spaced text are whitespace-free parts of it. */
  lemma KeywordsOfSingleSpaced(s: string)
    requires SingleSpaced(s)
    ensures forall k :: 0 <= k < |Keywords(s)| ==>
              |Keywords(s)[k]| > 3 && NoWhitespace(Keywords(s)[k]) && Keywords(s)[k] in Split(s, ' ')
  {
    var parts, kws := Split(s, ' '), Keywords(s);
    forall k | 0 <= k < |kws|
      ensures NoWhitespace(kws[k]) && kws[k] in parts
    {
      var kw := kws[k];
      assert multiset(kws)[kw] > 0;
      assert kw in parts;
      var j :| 0 <= j < |parts| && parts[j] == kw;
      PartOfSingleSpacedIsWord(s, j);
    }
  }

  /** A space-separated part of single-spaced text holds no whitespace. */
  lemma PartOfSingleSpacedIsWord(s: string, j: nat)
    requires SingleSpaced(s) && j < |Split(s, ' ')|
    ensures NoWhitespace(Split(s, ' ')[j])
  {
    var parts := Split(s, ' ');
    SplitJoin(s, ' ');
    PartsIncluded(parts, ' ', j);
    var w := parts[j];
    var p :| 0 <= p <= |s| && OccursAt(s, w, p);
    forall i | 0 <= i < |w|
      ensures !IsWhitespace(w[i])
    {
      assert w[i] == s[p + i];
      assert w[i] != ' ';
    }
  }

  /** A whitespace-free word occurs in the normalised text exactly when it
      occurs in the lower-cased original. */
  lemma NormalizeKeepsWords(s: string, t: string)
    requires NoWhitespace(t)
    ensures Includes(Normalize(s), t) <==> Includes(Lower(s), t)
  {
    CollapseIncludes(Trim(Lower(s)), t);
    TrimIncludes(Lower(s), t);
  }

  /** Appending a keyword adds one to the count exactly when it occurs. */
  lemma {:induction false} MatchCountSnoc(keywords: seq<string>, kw: string, u: string)
    ensures MatchCount(keywords + [kw], u) == MatchCount(keywords, u) + if Includes(u, kw) then 1 else 0
    decreases |keywords|
  {
    if |keywords| == 0 {
      assert keywords + [kw] == [kw];
      assert [kw][1..] == [];
    } else {
      assert (keywords + [kw])[1..] == keywords[1..] + [kw];
      MatchCountSnoc(keywords[1..], kw, u);
    }
  }

  /** The count over the first `m` keywords is the number of positions below
      `m` whose keyword occurs in the answer. */
  lemma {:induction false} MatchCountPrefix(keywords: seq<string>, u: string, m: nat)
    requires m <= |keywords|
    ensures MatchCount(keywords[..m], u) == |set k | 0 <= k < m && Includes(u, keywords[k])|
    decreases m
  {
    var hits := set k | 0 <= k < m && Includes(u, keywords[k]);
    if m == 0 {
      assert hits == {};
    } else {
      var earlier := set k | 0 <= k < m - 1 && Includes(u, keywords[k]);
      MatchCountPrefix(keywords, u, m - 1);
      assert keywords[..m] == keywords[..m - 1] + [keywords[m - 1]];
      MatchCountSnoc(keywords[..m - 1], keywords[m - 1], u);
      if Includes(u, keywords[m - 1]) {
        assert hits == earlier + {m - 1};
      } else {
        assert hits == earlier;
      }
    }
  }

  /** `matchCount` is the number of keyword positions, repeats included,
      whose keyword occurs in the normalised answer. */
  lemma MatchCountCountsPositions(keywords: seq<string>, u: string)
    ensures MatchCount(keywords, u) == |set k | 0 <= k < |keywords| && Includes(u, keywords[k])|
  {
    MatchCountPrefix(keywords, u, |keywords|);
    assert keywords[..|keywords|] == keywords;
  }

  lemma {:induction false} MatchCountMonotone(keywords: seq<string>, a: string, b: string)
    requires forall k :: 0 <= k < |keywords| && Includes(a, keywords[k]) ==> Includes(b, keywords[k])
    ensures MatchCount(keywords, a) <= MatchCount(keywords, b)
    decreases |keywords|
  {
    if |keywords| > 0 {
      assert Includes(a, keywords[0]) ==> Includes(b, keywords[0]);
      MatchCountMonotone(keywords[1..], a, b);
    }
  }

  /** Counting keywords in the normalised answer is the same as counting them
      in the merely lower-cased answer. */
  lemma MatchCountOnLowerCase(c: string, u: string)
    ensures MatchCount(Keywords(Normalize(c)), Normalize(u)) == MatchCount(Keywords(Normalize(c)), Lower(u))
  {
    KeywordsAreWords(c);
    WordCountOnLowerCase(Keywords(Normalize(c)), u);
  }

  /** Whitespace-free keywords are counted alike in the normalised and the
      lower-cased answer. */
  lemma WordCountOnLowerCase(kws: seq<string>, u: string)
    requires forall k :: 0 <= k < |kws| ==> NoWhitespace(kws[k])
    ensures MatchCount(kws, Normalize(u)) == MatchCount(kws, Lower(u))
  {
    forall k | 0 <= k < |kws|
      ensures Includes(Normalize(u), kws[k]) <==> Includes(Lower(u), kws[k])
    {
      NormalizeKeepsWords(u, kws[k]);
    }
    MatchCountMonotone(kws, Normalize(u), Lower(u));
    MatchCountMonotone(kws, Lower(u), Normalize(u));
  }

  /** The long-answer rule: an answer passes exactly when at least 60% of
      the keyword positions of the correct answer occur in it, lower-cased,
      compared on integers as five occurrences per three keywords. */
  lemma LongAnswerIff(u: string, c: string)
    ensures var kws := Keywords(Normalize(c));
      CheckAnswer(u, c, true) <==> 5 * |set k | 0 <= k < |kws| && Includes(Lower(u), kws[k])| >= 3 * |kws|
  {
    MatchCountOnLowerCase(c, u);
    MatchCountCountsPositions(Keywords(Normalize(c)), Lower(u));
  }

  /** The long-answer verdict counted on the lower-cased answer. */
  lemma LongAnswerByCount(u: string, c: string)
    ensures var kws := Keywords(Normalize(c));
      CheckAnswer(u, c, true) <==> 5 * MatchCount(kws, Lower(u)) >= 3 * |kws|
  {
    MatchCountOnLowerCase(c, u);
  }

  /** A long answer that passes still passes when more text surrounds it. */
  lemma LongAnswerMonotone(u: string, u2: string, c: string)
    requires Includes(u2, u)
    requires CheckAnswer(u, c, true)
    ensures CheckAnswer(u2, c, true)
  {
    var kws := Keywords(Normalize(c));
    MatchCountOnLowerCase(c, u);
    MatchCountOnLowerCase(c, u2);
    LowerIncludes(u2, u);
    forall k | 0 <= k < |kws| && Includes(Lower(u), kws[k])
      ensures Includes(Lower(u2), kws[k])
    {
      IncludesTransitive(Lower(u2), Lower(u), kws[k]);
    }
    MatchCountMonotone(kws, Lower(u), Lower(u2));
  }

  /** A correct answer without any word longer than three characters accepts everything. */
  lemma NoKeywordsAcceptsAll(u: string, c: string)
    requires Keywords(Normalize(c)) == []
    ensures CheckAnswer(u, c, true)
  {
  }

  // -------------------------------------------------------------------- hints

  /** With a cap of two the conceptual tier and the final tier collide on one
      remaining attempt, and the conceptual hint wins. */
  lemma CapTwoConceptWins(q: Question)
    requires EffectiveCap(q) == 2
    ensures GenerateHint(q, 1) == ConceptHint(q)
  {
  }

  /** The generic hint is given exactly when no tier is keyed on the number
      of attempts left. */
  lemma ReviewHintExactly(q: Question, attemptNumber: int)
    ensures GenerateHint(q, attemptNumber) == ReviewHint <==>
              if EffectiveCap(q) <= 3 then attemptNumber != EffectiveCap(q) - 1 && attemptNumber != 1
              else !(1 <= attemptNumber <= 4)
  {
    assert ReviewHint[0] == 'R';
  }

  /** The tier table of `GenerateHint`, one case at a time. */
  lemma GenerateHintCases(q: Question, attemptNumber: int)
    ensures var cap, h := EffectiveCap(q), GenerateHint(q, attemptNumber);
            if cap <= 3 then
              (attemptNumber == cap - 1 ==> h == ConceptHint(q)) &&
              (attemptNumber != cap - 1 && attemptNumber == 1 ==> h == OptionsHint(q, true)) &&
              (attemptNumber != cap - 1 && attemptNumber != 1 ==> h == ReviewHint)
            else
              (attemptNumber == 4 ==> h == ConceptHint(q)) &&
              (attemptNumber == 3 ==> h == WorkingsHint(q)) &&
              (attemptNumber == 2 ==> h == ContrastHint(q)) &&
              (attemptNumber == 1 ==> h == OptionsHint(q, false)) &&
              (!(1 <= attemptNumber <= 4) ==> h == ReviewHint)
  {
    var cap, h := EffectiveCap(q), GenerateHint(q, attemptNumber);
    if cap <= 3 {
      if attemptNumber == cap - 1 {
        assert h == ConceptHint(q);
      } else if attemptNumber == 1 {
        assert h == OptionsHint(q, true);
      } else {
        assert h == ReviewHint;
      }
    } else {
      if attemptNumber == 4 {
        assert h == ConceptHint(q);
      } else if attemptNumber == 3 {
        assert h == WorkingsHint(q);
      } else if attemptNumber == 2 {
        assert h == ContrastHint(q);
      } else if attemptNumber == 1 {
        assert h == OptionsHint(q, false);
      } else {
        assert h == ReviewHint;
      }
    }
  }

  /** The conceptual hint is given exactly on its tier's count: one below the
      cap when the cap is at most three, four otherwise. */
  lemma ConceptHintExactly(q: Question, attemptNumber: int)
    ensures GenerateHint(q, attemptNumber) == ConceptHint(q) <==>
              if EffectiveCap(q) <= 3 then attemptNumber == EffectiveCap(q) - 1 else attemptNumber == 4
  {
    GenerateHintCases(q, attemptNumber);
    ConceptHintDistinct(q, EffectiveCap(q) <= 3);
  }

  /** The workings hint is given exactly with three attempts left under a cap
      above three. */
  lemma WorkingsHintExactly(q: Question, attemptNumber: int)
    ensures GenerateHint(q, attemptNumber) == WorkingsHint(q) <==> EffectiveCap(q) > 3 && attemptNumber == 3
  {
    GenerateHintCases(q, attemptNumber);
    ConceptHintDistinct(q, EffectiveCap(q) <= 3);
    WorkingsHintDistinct(q, EffectiveCap(q) <= 3);
  }

  /** The contrast hint is given exactly with two attempts left under a cap
      above three. */
  lemma ContrastHintExactly(q: Question, attemptNumber: int)
    ensures GenerateHint(q, attemptNumber) == ContrastHint(q) <==> EffectiveCap(q) > 3 && attemptNumber == 2
  {
    GenerateHintCases(q, attemptNumber);
    ConceptHintDistinct(q, EffectiveCap(q) <= 3);
    WorkingsHintDistinct(q, EffectiveCap(q) <= 3);
    ContrastHintDistinct(q, EffectiveCap(q) <= 3);
  }

  /** The final-attempt hint is given exactly with one attempt left, except
      under a cap of two, where the conceptual tier claims that count. It
      lists the options only when the cap is at most three. */
  lemma OptionsHintExactly(q: Question, attemptNumber: int)
    ensures GenerateHint(q, attemptNumber) == OptionsHint(q, EffectiveCap(q) <= 3) <==>
              attemptNumber == 1 && EffectiveCap(q) != 2
  {
    GenerateHintCases(q, attemptNumber);
    ConceptHintDistinct(q, EffectiveCap(q) <= 3);
    WorkingsHintDistinct(q, EffectiveCap(q) <= 3);
    ContrastHintDistinct(q, EffectiveCap(q) <= 3);
  }

  /** The option-list regex captures the text inside the first parentheses
      when nothing before them opens a parenthesis. */
  lemma FirstParenGroupOf(a: string, g: string, b: string)
    requires '(' !in a && ')' !in g
    requires forall k :: 0 <= k < |g| ==> !IsLineTerminator(g[k])
    ensures FirstParenGroup(a + "(" + g + ")" + b) == Some(g)
  {
    var s := a + "(" + g + ")" + b;
    var i, j := |a|, |a| + 1 + |g|;
    assert s[i] == '(' && s[j] == ')';
    forall k | i < k < j
      ensures s[k] != ')' && !IsLineTerminator(s[k])
    {
      assert s[k] == g[k - i - 1];
    }
    match OpenFrom(s, 0)
    case None =>
      assert false;
    case Some((i', j')) =>
      assert i' == i;
      if j' < j {
        assert false;
      } else if j' > j {
        assert false;
      }
      assert s[i + 1..j] == g;
  }

  /** In the low-cap regime the final hint quotes the parenthesised options. */
  lemma FinalHintListsOptions(q: Question, a: string, g: string, b: string)
    requires 1 < EffectiveCap(q) - 1 && EffectiveCap(q) <= 3
    requires q.questionText == a + "(" + g + ")" + b
    requires '(' !in a && ')' !in g
    requires forall k :: 0 <= k < |g| ==> !IsLineTerminator(g[k])
    ensures GenerateHint(q, 1) == OptionsLead + ": " + g + ". Eliminate what doesn't fit the definition."
  {
    FirstParenGroupOf(a, g, b);
    assert q.questionText[|a|] == '(' && q.questionText[|a| + 1 + |g|] == ')';
    assert GenerateHint(q, 1) == OptionsHint(q, true);
  }

  // -------------------------------------------------------------------- marks

  /** More attempts never earn more marks. */
  lemma MarksNonIncreasing(a: int, b: int, maxMarks: int)
    requires 1 <= a <= b && maxMarks >= 0
    ensures CalculateMarks(true, b, maxMarks) <= CalculateMarks(true, a, maxMarks)
  {
  }
}
