/** The tutor's three pure decisions: whether an answer is right, which hint
    to give after a wrong answer, and how many marks a right answer earns. */
module TutorLogic {

  import opened Optional
  import opened Text
  import opened Types

  // ------------------------------------------------------------ answer check

  /** Lower-case, trim, then turn every whitespace run into one space. */
  function Normalize(s: string): (r: string)
    ensures SingleSpaced(r)
    ensures |r| > 0 ==> !IsWhitespace(r[0]) && !IsWhitespace(r[|r| - 1])
  {
    var t := Trim(Lower(s));
    CollapseShape(t);
    Collapse(t)
  }

  /** Collapsing a string with visible ends gives single-spaced text with
      visible ends. */
  lemma CollapseShape(t: string)
    requires |t| > 0 ==> !IsWhitespace(t[0]) && !IsWhitespace(t[|t| - 1])
    ensures SingleSpaced(Collapse(t))
    ensures |Collapse(t)| > 0 ==> !IsWhitespace(Collapse(t)[0]) && !IsWhitespace(Collapse(t)[|Collapse(t)| - 1])
  {
    CollapseSingleSpaced(t);
    CollapseEnds(t);
  }

  /** Collapsing a trimmed string keeps its ends visible. */
  lemma {:induction false} CollapseEnds(t: string)
    requires |t| > 0 ==> !IsWhitespace(t[0]) && !IsWhitespace(t[|t| - 1])
    ensures |Collapse(t)| > 0 ==> !IsWhitespace(Collapse(t)[0]) && !IsWhitespace(Collapse(t)[|Collapse(t)| - 1])
    decreases |t|
  {
    if |t| > 0 {
      CollapseSingleSpaced(t);
      if |t| == 1 {
        assert Collapse(t) == [t[0]];
      } else {
        assert Collapse(t) == [t[0]] + Collapse(t[1..]);
        CollapseLast(t[1..]);
      }
    }
  }

  /** The last character of a collapsed string is visible when the input's was. */
  lemma {:induction false} CollapseLast(s: string)
    requires |s| > 0 && !IsWhitespace(s[|s| - 1])
    ensures |Collapse(s)| > 0 && !IsWhitespace(Collapse(s)[|Collapse(s)| - 1])
    decreases |s|
  {
    if IsWhitespace(s[0]) {
      var t := TrimStart(s);
      assert LeadingWs(s) < |s|;
      assert t[|t| - 1] == s[|s| - 1];
      CollapseLast(t);
    } else if |s| > 1 {
      CollapseLast(s[1..]);
    }
  }

  /** The characters the short-answer path deletes: the class `[,\sR]`. */
  predicate IsCleaned(c: char) {
    c == ',' || IsWhitespace(c) || c == 'R'
  }

  /** The text with every comma, whitespace character and capital `R` deleted. */
  function Clean(s: string): (r: string)
    ensures forall i :: 0 <= i < |r| ==> !IsCleaned(r[i])
    ensures |s| == 1 ==> (r == [] <==> IsCleaned(s[0])) && (!IsCleaned(s[0]) ==> r == s)
  {
    if |s| == 0 then []
    else (if IsCleaned(s[0]) then [] else [s[0]]) + Clean(s[1..])
  }

  /** The long-answer keywords: the space-separated tokens of the
      normalised correct answer longer than three characters, repeats kept. */
  function Keywords(normalizedCorrect: string): (kws: seq<string>)
    ensures forall k :: 0 <= k < |kws| ==> |kws[k]| > 3
    ensures forall t :: multiset(kws)[t] == if |t| > 3 then multiset(Split(normalizedCorrect, ' '))[t] else 0
  {
    LongTokens(Split(normalizedCorrect, ' '))
  }

  /** The tokens longer than three characters, in order, repeats kept. */
  function LongTokens(tokens: seq<string>): (r: seq<string>)
    ensures |r| <= |tokens|
    ensures forall k :: 0 <= k < |r| ==> |r[k]| > 3
    ensures forall t :: multiset(r)[t] == if |t| > 3 then multiset(tokens)[t] else 0
  {
    if |tokens| == 0 then []
    else
      var head := if |tokens[0]| > 3 then [tokens[0]] else [];
      var rest := LongTokens(tokens[1..]);
      LongTokensStep(tokens, head, rest);
      head + rest
  }

  /** One step of the filter: keeping the first token when it is long, in
      front of a filtered tail, filters the whole sequence. */
  lemma LongTokensStep(tokens: seq<string>, head: seq<string>, rest: seq<string>)
    requires |tokens| > 0 && head == if |tokens[0]| > 3 then [tokens[0]] else []
    requires forall t :: multiset(rest)[t] == if |t| > 3 then multiset(tokens[1..])[t] else 0
    ensures forall t :: multiset(head + rest)[t] == if |t| > 3 then multiset(tokens)[t] else 0
  {
    assert tokens == [tokens[0]] + tokens[1..];
    assert multiset(tokens) == multiset{tokens[0]} + multiset(tokens[1..]);
    assert multiset(head + rest) == multiset(head) + multiset(rest);
  }

  /** How many keywords (counting repeats) occur in the normalised user answer. */
  function MatchCount(keywords: seq<string>, normalizedUser: string): (n: nat)
    ensures n <= |keywords|
  {
    if |keywords| == 0 then 0
    else (if Includes(normalizedUser, keywords[0]) then 1 else 0) + MatchCount(keywords[1..], normalizedUser)
  }

  /** `checkAnswer`. A long answer passes when at least 60% of the keywords
      occur in it, compared exactly on integers as five matches per three
      keywords; a short answer passes when both sides agree once cleaned. */
  function CheckAnswer(userAnswer: string, correctAnswer: string, isLongAnswer: bool): (r: bool)
    ensures Normalize(userAnswer) == Normalize(correctAnswer) ==> r
  {
    var normalizedUser := Normalize(userAnswer);
    var normalizedCorrect := Normalize(correctAnswer);
    if isLongAnswer then
      var keywords := Keywords(normalizedCorrect);
      KeywordsOccur(normalizedCorrect);
      5 * MatchCount(keywords, normalizedUser) >= 3 * |keywords|
    else
      Clean(normalizedUser) == Clean(normalizedCorrect)
  }

  /** Every keyword occurs in the text it was drawn from. */
  lemma KeywordsOccur(s: string)
    ensures MatchCount(Keywords(s), s) == |Keywords(s)|
  {
    var parts, kws := Split(s, ' '), Keywords(s);
    SplitJoin(s, ' ');
    forall k | 0 <= k < |kws|
      ensures Includes(s, kws[k])
    {
      assert multiset(kws)[kws[k]] > 0;
      assert kws[k] in parts;
      var j :| 0 <= j < |parts| && parts[j] == kws[k];
      PartsIncluded(parts, ' ', j);
    }
    MatchCountAll(kws, s);
  }

  /** When every keyword occurs, every keyword is counted. */
  lemma {:induction false} MatchCountAll(keywords: seq<string>, u: string)
    requires forall k :: 0 <= k < |keywords| ==> Includes(u, keywords[k])
    ensures MatchCount(keywords, u) == |keywords|
    decreases |keywords|
  {
    if |keywords| > 0 {
      MatchCountAll(keywords[1..], u);
    }
  }

  // ------------------------------------------------------------------ hints

  // The fixed hint texts and the lead-ins of the variable ones. The tiers
  // are told apart by these openings.
  const ReviewHint: string := "Review" + " the concept and try again."
  const LastTryHint: string := "Last try!" + " Think carefully about the formula or principle involved."
  const ConceptLead: string := "Think about the core concept. "
  const OptionsLead: string := "The answer is one of these options"
  const KeyPointsLead: string := "Consider these key points: "
  const ClueLead: string := "Here's a clue: The answer relates to "
  const CloserLead: string := "You're getting closer. Try thinking about: "
  const FocusLead: string := "Focus on: "

  /** The explanation's first clause: the text before its first period. */
  function FirstClause(explanation: string): (r: string)
    ensures '.' !in r && r <= explanation
    ensures |r| < |explanation| ==> explanation[|r|] == '.'
  {
    BeforeFirst(explanation, '.')
  }

  /** The clause the focus hint names: the explanation's second
      period-separated clause when it is non-empty, else the first. */
  function FocusClause(explanation: string): (r: string)
    ensures '.' !in r
    ensures Includes(explanation, r)
    ensures '.' !in explanation ==> r == explanation
    ensures '.' in explanation ==>
              var first := FirstClause(explanation);
              |first| < |explanation| &&
              var second := BeforeFirst(explanation[|first| + 1..], '.');
              r == if second != "" then second else first
  {
    var parts := Split(explanation, '.');
    SplitJoin(explanation, '.');
    PartsIncluded(parts, '.', 0);
    if |parts| > 1 && parts[1] != "" then
      PartsIncluded(parts, '.', 1);
      parts[1]
    else parts[0]
  }

  /** Every part of a split occurs in the joined text. */
  lemma {:induction false} PartsIncluded(parts: seq<string>, sep: char, k: nat)
    requires |parts| >= 1 && k < |parts|
    ensures Includes(Join(parts, sep), parts[k])
    decreases k
  {
    if |parts| == 1 {
      IncludesAt(parts[0], parts[0], 0);
    } else if k == 0 {
      assert Join(parts, sep)[0..|parts[0]|] == parts[0];
      IncludesAt(Join(parts, sep), parts[0], 0);
    } else {
      PartsIncluded(parts[1..], sep, k - 1);
      IncludesInContext(parts[0] + [sep], Join(parts[1..], sep), []);
      assert Join(parts, sep) == parts[0] + [sep] + Join(parts[1..], sep) + [];
      IncludesTransitive(Join(parts, sep), Join(parts[1..], sep), parts[k]);
    }
  }

  /** The first-tier hint: the explanation's first clause, re-terminated. */
  function ConceptHint(q: Question): (r: string)
    ensures ConceptLead <= r
  {
    ConceptLead + FirstClause(q.solutionDetails.explanation) + "."
  }

  /** The final-attempt hint. With `listOptions` (the low-cap regime) it quotes
      the question's first parenthesised group; otherwise it only mentions it. */
  function OptionsHint(q: Question, listOptions: bool): (r: string)
    ensures r == LastTryHint <==>
              !('(' in q.questionText && ')' in q.questionText && FirstParenGroup(q.questionText).Some?)
    ensures r == LastTryHint || OptionsLead <= r
  {
    var text := q.questionText;
    if '(' in text && ')' in text then
      match FirstParenGroup(text)
      case Some(options) =>
        var r :=
          if listOptions then OptionsLead + ": " + options + ". Eliminate what doesn't fit the definition."
          else OptionsLead + ". Eliminate what doesn't fit the definition.";
        assert r[0] == OptionsLead[0] == 'T' && LastTryHint[0] == 'L';
        r
      case None => LastTryHint
    else LastTryHint
  }

  /** The third-tier hint of the standard regime, drawn from the workings. */
  function WorkingsHint(q: Question): (r: string)
    ensures (if q.isLongAnswer then KeyPointsLead else ClueLead) <= r
  {
    var workings := q.solutionDetails.workings;
    if q.isLongAnswer then
      KeyPointsLead + Take(workings, 80) + "..."
    else
      ClueLead + Take(Trim(BeforeFirst(workings, '[')), 50) + "..."
  }

  /** The second-tier hint of the standard regime. */
  function ContrastHint(q: Question): (r: string)
    ensures (if !q.isLongAnswer && '/' in q.solutionDetails.correctAnswer then CloserLead else FocusLead) <= r
  {
    var correctAnswer := q.solutionDetails.correctAnswer;
    if !q.isLongAnswer && '/' in correctAnswer then
      CloserLead + BeforeFirst(correctAnswer, '/') + " vs the alternatives."
    else
      FocusLead + FocusClause(q.solutionDetails.explanation) + "."
  }

  /** Two texts opening with lead-ins that differ at some position differ. */
  lemma DifferentLeads(r1: string, h1: string, r2: string, h2: string, k: nat)
    requires h1 <= r1 && h2 <= r2
    requires k < |h1| && k < |h2| && h1[k] != h2[k]
    ensures r1 != r2
  {
    assert r1[k] == h1[k] && r2[k] == h2[k];
  }

  /** The characters that tell the lead-ins apart. */
  lemma LeadOpenings()
    ensures |ConceptLead| > 2 && ConceptLead[0] == 'T' && ConceptLead[2] == 'i'
    ensures |OptionsLead| > 2 && OptionsLead[0] == 'T' && OptionsLead[2] == 'e'
    ensures LastTryHint[0] == 'L' && ReviewHint[0] == 'R'
    ensures |KeyPointsLead| > 0 && KeyPointsLead[0] == 'C' && |ClueLead| > 0 && ClueLead[0] == 'H'
    ensures |CloserLead| > 0 && CloserLead[0] == 'Y' && |FocusLead| > 0 && FocusLead[0] == 'F'
  {
  }

  /** The conceptual hint differs from every other kind. */
  lemma ConceptHintDistinct(q: Question, listOptions: bool)
    ensures ConceptHint(q) != WorkingsHint(q) && ConceptHint(q) != ContrastHint(q)
    ensures ConceptHint(q) != OptionsHint(q, listOptions) && ConceptHint(q) != ReviewHint
  {
    LeadOpenings();
    var concept, options := ConceptHint(q), OptionsHint(q, listOptions);
    DifferentLeads(concept, ConceptLead, WorkingsHint(q), if q.isLongAnswer then KeyPointsLead else ClueLead, 0);
    DifferentLeads(concept, ConceptLead, ContrastHint(q),
                   if !q.isLongAnswer && '/' in q.solutionDetails.correctAnswer then CloserLead else FocusLead, 0);
    if options == LastTryHint {
      DifferentLeads(concept, ConceptLead, options, LastTryHint, 0);
    } else {
      DifferentLeads(concept, ConceptLead, options, OptionsLead, 2);
    }
    DifferentLeads(concept, ConceptLead, ReviewHint, ReviewHint, 0);
  }

  /** The workings hint differs from the contrast, final and review hints. */
  lemma WorkingsHintDistinct(q: Question, listOptions: bool)
    ensures WorkingsHint(q) != ContrastHint(q) && WorkingsHint(q) != OptionsHint(q, listOptions)
    ensures WorkingsHint(q) != ReviewHint
  {
    LeadOpenings();
    var workings, options := WorkingsHint(q), OptionsHint(q, listOptions);
    var lead := if q.isLongAnswer then KeyPointsLead else ClueLead;
    DifferentLeads(workings, lead, ContrastHint(q),
                   if !q.isLongAnswer && '/' in q.solutionDetails.correctAnswer then CloserLead else FocusLead, 0);
    DifferentLeads(workings, lead, options, if options == LastTryHint then LastTryHint else OptionsLead, 0);
    DifferentLeads(workings, lead, ReviewHint, ReviewHint, 0);
  }

  /** The contrast hint differs from the final and review hints, and the
      final hint from the review hint. */
  lemma ContrastHintDistinct(q: Question, listOptions: bool)
    ensures ContrastHint(q) != OptionsHint(q, listOptions) && ContrastHint(q) != ReviewHint
    ensures OptionsHint(q, listOptions) != ReviewHint
  {
    LeadOpenings();
    var contrast, options := ContrastHint(q), OptionsHint(q, listOptions);
    var lead := if !q.isLongAnswer && '/' in q.solutionDetails.correctAnswer then CloserLead else FocusLead;
    var oLead := if options == LastTryHint then LastTryHint else OptionsLead;
    DifferentLeads(contrast, lead, options, oLead, 0);
    DifferentLeads(contrast, lead, ReviewHint, ReviewHint, 0);
    DifferentLeads(options, oLead, ReviewHint, ReviewHint, 0);
  }

  /** `generateHint`: `attemptNumber` is the count of attempts left after the
      wrong answer just given. Caps up to three use two tiers keyed on
      `cap - 1` and `1`; larger caps use four tiers keyed on 4, 3, 2 and 1.
      Which tier answers which count is stated by the lemmas in `TutorFacts`. */
  function GenerateHint(q: Question, attemptNumber: int): string
  {
    var maxAttempts := EffectiveCap(q);
    if maxAttempts <= 3 then
      if attemptNumber == maxAttempts - 1 then ConceptHint(q)
      else if attemptNumber == 1 then OptionsHint(q, true)
      else ReviewHint
    else
      match attemptNumber
      case 4 => ConceptHint(q)
      case 3 => WorkingsHint(q)
      case 2 => ContrastHint(q)
      case 1 => OptionsHint(q, false)
      case _ => ReviewHint
  }

  // ------------------------------------------------------------------ marks

  /** `tenths` tenths of `m`, rounded up, computed exactly on integers. */
  function CeilTenths(m: int, tenths: int): (r: int)
    ensures 10 * r - 10 < m * tenths <= 10 * r
  {
    (m * tenths + 9) / 10
  }

  /** `calculateMarks`: full marks on the first attempt, 90% (rounded up)
      within two, 80% (rounded up) after that, nothing when wrong. */
  function CalculateMarks(isCorrect: bool, attemptsUsed: int, maxMarks: int): (r: int)
    ensures !isCorrect ==> r == 0
    ensures isCorrect && attemptsUsed == 1 ==> r == maxMarks
    ensures isCorrect && attemptsUsed != 1 && attemptsUsed <= 2 ==> 10 * r - 10 < 9 * maxMarks <= 10 * r
    ensures isCorrect && attemptsUsed > 2 ==> 10 * r - 10 < 8 * maxMarks <= 10 * r
    ensures maxMarks >= 0 ==> 0 <= r <= maxMarks
  {
    if !isCorrect then 0
    else if attemptsUsed == 1 then maxMarks
    else if attemptsUsed <= 2 then CeilTenths(maxMarks, 9)
    else CeilTenths(maxMarks, 8)
  }
}
