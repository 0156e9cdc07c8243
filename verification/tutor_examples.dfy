/** Concrete answers and marks taken from the behaviour the tutor promises. */
module TutorExamples {

  import opened Text
  import opened TutorLogic
  import opened TextFacts
  import opened TutorFacts

  // The steps below are kept apart so that each literal is evaluated on its own.

  lemma LowerOfAmounts(u: string)
    requires u == "r1,704,000" || u == "1704000"
    ensures Lower(u) == u
  {
  }

  lemma LowerOfCapitalAmount(u: string)
    requires u == "R1 704 000"
    ensures Lower(u) == "r1 704 000"
  {
  }

  lemma StripOfSpacedAmount()
    ensures Strip("r1 704 000") == "r1704000"
  {
  }

  lemma StripOfCommaAmount()
    ensures Strip("r1,704,000") == "r1704000"
  {
  }

  lemma StripOfDigits()
    ensures Strip("1704000") == "1704000"
  {
    StripKeepsVisible("1704000");
  }

  /** Formatting noise in a currency amount is tolerated ... */
  lemma CurrencyFormattingTolerated(u: string, c: string)
    requires u == "r1,704,000" && c == "R1 704 000"
    ensures CheckAnswer(u, c, false)
  {
    LowerOfAmounts(u);
    LowerOfCapitalAmount(c);
    StripOfCommaAmount();
    StripOfSpacedAmount();
    ShortAnswerIff(u, c);
  }

  /** ... but the currency letter itself is not removed. */
  lemma CurrencyLetterKept(u: string, c: string)
    requires u == "R1 704 000" && c == "1704000"
    ensures !CheckAnswer(u, c, false)
  {
    LowerOfCapitalAmount(u);
    LowerOfAmounts(c);
    StripOfSpacedAmount();
    StripOfDigits();
    ShortAnswerIff(u, c);
  }

  // A four-keyword long answer: "cash bank loan debt".

  const Ledger := "cash bank loan debt"

  lemma LedgerIsTrimmed(c: string)
    requires c == Ledger
    ensures Lower(c) == c && Trim(c) == c
  {
    assert LeadingWs(c) == 0 && TrailingWs(c) == 0;
  }

  lemma LedgerIsSingleSpaced(c: string)
    requires c == Ledger
    ensures SingleSpaced(c)
  {
  }

  lemma LedgerIsNormal(c: string)
    requires c == Ledger
    ensures Normalize(c) == c
  {
    LedgerIsTrimmed(c);
    LedgerIsSingleSpaced(c);
    CollapseFixesSingleSpaced(c);
  }

  lemma LedgerWords(c: string, w1: string, w2: string, w3: string, w4: string)
    requires c == Ledger
    requires w1 == "cash" && w2 == "bank" && w3 == "loan" && w4 == "debt"
    ensures c == w1 + [' '] + (w2 + [' '] + (w3 + [' '] + w4))
    ensures ' ' !in w1 && ' ' !in w2 && ' ' !in w3 && ' ' !in w4
    ensures |w1| > 3 && |w2| > 3 && |w3| > 3 && |w4| > 3
  {
  }

  // Lists of four words are written `[w1] + ([w2] + ([w3] + [w4]))`, the
  // shape in which splitting, filtering and counting take them apart.

  /** Four space-free words joined by single spaces split back into them. */
  lemma SplitFourWords(w1: string, w2: string, w3: string, w4: string)
    requires ' ' !in w1 && ' ' !in w2 && ' ' !in w3 && ' ' !in w4
    ensures Split(w1 + [' '] + (w2 + [' '] + (w3 + [' '] + w4)), ' ') == [w1] + ([w2] + ([w3] + [w4]))
  {
    SplitWord(w3, ' ', w4);
    SplitWord(w2, ' ', w3 + [' '] + w4);
    SplitWord(w1, ' ', w2 + [' '] + (w3 + [' '] + w4));
  }

  /** Tokens that are all longer than three characters are all kept. */
  lemma {:induction false} LongTokensKeepsLong(tokens: seq<string>)
    requires forall t :: t in tokens ==> |t| > 3
    ensures LongTokens(tokens) == tokens
  {
    if |tokens| > 0 {
      assert tokens[0] in tokens;
      assert forall t :: t in tokens[1..] ==> t in tokens;
      LongTokensKeepsLong(tokens[1..]);
    }
  }

  lemma LongTokensOfFour(w1: string, w2: string, w3: string, w4: string)
    requires |w1| > 3 && |w2| > 3 && |w3| > 3 && |w4| > 3
    ensures LongTokens([w1] + ([w2] + ([w3] + [w4]))) == [w1] + ([w2] + ([w3] + [w4]))
  {
    LongTokensKeepsLong([w1] + ([w2] + ([w3] + [w4])));
  }

  /** Four long words joined by single spaces are exactly the keywords of
      their own normal form. */
  lemma FourWordKeywords(c: string, w1: string, w2: string, w3: string, w4: string)
    requires c == w1 + [' '] + (w2 + [' '] + (w3 + [' '] + w4)) && Normalize(c) == c
    requires ' ' !in w1 && ' ' !in w2 && ' ' !in w3 && ' ' !in w4
    requires |w1| > 3 && |w2| > 3 && |w3| > 3 && |w4| > 3
    ensures Keywords(Normalize(c)) == [w1] + ([w2] + ([w3] + [w4]))
  {
    SplitFourWords(w1, w2, w3, w4);
    LongTokensOfFour(w1, w2, w3, w4);
  }

  lemma LedgerKeywords(c: string, w1: string, w2: string, w3: string, w4: string)
    requires c == Ledger
    requires w1 == "cash" && w2 == "bank" && w3 == "loan" && w4 == "debt"
    ensures Keywords(Normalize(c)) == [w1] + ([w2] + ([w3] + [w4]))
  {
    LedgerIsNormal(c);
    LedgerWords(c, w1, w2, w3, w4);
    FourWordKeywords(c, w1, w2, w3, w4);
  }

  /** Counting a keyword in front adds one exactly when it occurs. */
  lemma MatchCountCons(u: string, t: string, rest: seq<string>)
    ensures MatchCount([t] + rest, u) == (if Includes(u, t) then 1 else 0) + MatchCount(rest, u)
  {
    assert ([t] + rest)[1..] == rest;
  }

  lemma MatchCountOfFour(u: string, w1: string, w2: string, w3: string, w4: string)
    ensures MatchCount([w1] + ([w2] + ([w3] + [w4])), u)
         == (if Includes(u, w1) then 1 else 0) + (if Includes(u, w2) then 1 else 0)
          + (if Includes(u, w3) then 1 else 0) + (if Includes(u, w4) then 1 else 0)
  {
    assert [w4][1..] == [];
    MatchCountCons(u, w3, [w4]);
    MatchCountCons(u, w2, [w3] + [w4]);
    MatchCountCons(u, w1, [w2] + ([w3] + [w4]));
  }

  /** Which keywords of the ledger answer occur in the first sample answer. */
  lemma ThreeOfFourOccur(lu: string, w1: string, w2: string, w3: string, w4: string)
    requires lu == "cash, bank and loan"
    requires w1 == "cash" && w2 == "bank" && w3 == "loan" && w4 == "debt"
    ensures MatchCount([w1] + ([w2] + ([w3] + [w4])), lu) == 3
  {
    assert OccursAt(lu, w1, 0);
    assert OccursAt(lu, w2, 6);
    assert OccursAt(lu, w3, 15);
    NotIncluded(lu, w4);
    MatchCountOfFour(lu, w1, w2, w3, w4);
  }

  /** Which keywords of the ledger answer occur in the second sample answer. */
  lemma TwoOfFourOccur(lu: string, w1: string, w2: string, w3: string, w4: string)
    requires lu == "cash and bank"
    requires w1 == "cash" && w2 == "bank" && w3 == "loan" && w4 == "debt"
    ensures MatchCount([w1] + ([w2] + ([w3] + [w4])), lu) == 2
  {
    assert OccursAt(lu, w1, 0);
    assert OccursAt(lu, w2, 9);
    NotIncluded(lu, w3);
    NotIncluded(lu, w4);
    MatchCountOfFour(lu, w1, w2, w3, w4);
  }

  lemma LowerOfSample(u: string)
    requires u == "Cash, bank and loan" || u == "Cash and bank"
    ensures u == "Cash, bank and loan" ==> Lower(u) == "cash, bank and loan"
    ensures u == "Cash and bank" ==> Lower(u) == "cash and bank"
  {
  }

  /** Three of four keywords reach the 60% bar, so the answer passes. */
  lemma ThreeOfFourKeywordsAccepted(u: string, c: string)
    requires u == "Cash, bank and loan" && c == Ledger
    ensures CheckAnswer(u, c, true)
  {
    var w1, w2, w3, w4 := "cash", "bank", "loan", "debt";
    LedgerKeywords(c, w1, w2, w3, w4);
    LowerOfSample(u);
    ThreeOfFourOccur(Lower(u), w1, w2, w3, w4);
    LongAnswerByCount(u, c);
  }

  /** Two of four keywords fall short of it, so the answer fails. */
  lemma TwoOfFourKeywordsRejected(u: string, c: string)
    requires u == "Cash and bank" && c == Ledger
    ensures !CheckAnswer(u, c, true)
  {
    var w1, w2, w3, w4 := "cash", "bank", "loan", "debt";
    LedgerKeywords(c, w1, w2, w3, w4);
    LowerOfSample(u);
    TwoOfFourOccur(Lower(u), w1, w2, w3, w4);
    LongAnswerByCount(u, c);
  }

  /** The partial-credit table on a ten-mark question. */
  lemma MarksOnTenMarkQuestion(attemptsUsed: int)
    ensures CalculateMarks(true, 1, 10) == 10
    ensures CalculateMarks(true, 2, 10) == 9
    ensures CalculateMarks(true, 3, 10) == 8
    ensures CalculateMarks(false, attemptsUsed, 10) == 0
  {
  }
}
