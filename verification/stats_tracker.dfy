/** The practice-statistics record kept across sessions: one stored slot,
    read, changed and written back on every answer and every new session.
    Calendar days are whole numbers supplied by the caller. */
module StatsTracker {

  import opened Optional
  import opened Text

  datatype PracticeStats = PracticeStats(
    totalSessions: int,
    totalQuestions: int,
    correctAnswers: int,
    incorrectAnswers: int,
    averageScore: real,
    totalTimeSpent: int,
    streakDays: int,
    lastPracticeDate: Option<int>,   // None is the empty date string
    improvementRate: real,
    weakAreas: seq<string>,
    strongAreas: seq<string>)

  predicate NoDuplicates(xs: seq<string>) {
    forall i, j :: 0 <= i < j < |xs| ==> xs[i] != xs[j]
  }

  predicate Disjoint(xs: seq<string>, ys: seq<string>) {
    forall x :: x in xs ==> x !in ys
  }

  /** Accuracy as a percentage, 0 before any question was answered. */
  function Accuracy(correct: int, total: int): real {
    if total == 0 then 0.0 else (correct as real / total as real) * 100.0
  }

  /** What every record this module produces satisfies. */
  predicate Valid(s: PracticeStats) {
    && s.totalSessions >= 0
    && s.correctAnswers >= 0 && s.incorrectAnswers >= 0
    && s.correctAnswers + s.incorrectAnswers == s.totalQuestions
    && s.averageScore == Accuracy(s.correctAnswers, s.totalQuestions)
    && s.streakDays >= 0
    && NoDuplicates(s.weakAreas) && NoDuplicates(s.strongAreas)
    && Disjoint(s.weakAreas, s.strongAreas)
  }

  /** `getDefaultStats`. */
  function DefaultStats(): (s: PracticeStats)
    ensures Valid(s)
    ensures s.totalSessions == 0 && s.totalQuestions == 0 && s.streakDays == 0
    ensures s.averageScore == 0.0 && s.improvementRate == 0.0
    ensures s.correctAnswers == 0 && s.incorrectAnswers == 0 && s.totalTimeSpent == 0
    ensures s.lastPracticeDate.None? && |s.weakAreas| == 0 && |s.strongAreas| == 0
  {
    PracticeStats(0, 0, 0, 0, 0.0, 0, 0, None, 0.0, [], [])
  }

  // ------------------------------------------------------------- storage

  /** The storage slot: nothing saved yet, or the record saved last. */
  type Slot = Option<PracticeStats>

  /** `loadStats`. */
  function LoadStats(slot: Slot): PracticeStats {
    match slot
    case None => DefaultStats()
    case Some(saved) => saved
  }

  /** `saveStats`. */
  function SaveStats(stats: PracticeStats): Slot {
    Some(stats)
  }

  /** Loading returns what was saved last. */
  lemma LoadAfterSave(stats: PracticeStats)
    ensures LoadStats(SaveStats(stats)) == stats
  {
  }

  /** Before anything is saved, loading gives a fresh valid record. */
  lemma LoadBeforeSave(slot: Slot)
    requires slot.None?
    ensures Valid(LoadStats(slot))
    ensures LoadStats(slot) == DefaultStats()
    ensures LoadStats(slot).totalSessions == 0 && LoadStats(slot).totalQuestions == 0
  {
  }

  /** Saving what was just loaded changes nothing that a later load can see. */
  lemma SaveLoadIdempotent(slot: Slot)
    ensures LoadStats(SaveStats(LoadStats(slot))) == LoadStats(slot)
  {
  }

  // -------------------------------------------------------- topic areas

  /** The list without any occurrence of `tag`, order kept. */
  function RemoveArea(areas: seq<string>, tag: string): (r: seq<string>)
    ensures forall x :: x in r <==> x in areas && x != tag
    ensures NoDuplicates(areas) ==> NoDuplicates(r)
    ensures |areas| == 1 ==> r == if areas[0] == tag then [] else areas
  {
    if |areas| == 0 then []
    else
      NoDuplicatesTail(areas);
      if areas[0] == tag then RemoveArea(areas[1..], tag)
      else [areas[0]] + RemoveArea(areas[1..], tag)
  }

  /** Removing from a concatenation removes from each part in place; with
      the one-element case of `RemoveArea` this fixes the order of the result. */
  lemma {:induction false} RemoveAreaAppend(a: seq<string>, b: seq<string>, tag: string)
    ensures RemoveArea(a + b, tag) == RemoveArea(a, tag) + RemoveArea(b, tag)
    decreases |a|
  {
    if |a| > 0 {
      RemoveAreaAppend(a[1..], b, tag);
      assert (a + b)[1..] == a[1..] + b;
    } else {
      assert a + b == b;
    }
  }

  lemma NoDuplicatesTail(xs: seq<string>)
    requires |xs| > 0
    ensures NoDuplicates(xs) ==> NoDuplicates(xs[1..]) && xs[0] !in xs[1..]
  {
  }

  /** The list with `tag` appended unless it is already there. */
  function AddArea(areas: seq<string>, tag: string): (r: seq<string>)
    ensures forall x :: x in r <==> x in areas || x == tag
    ensures NoDuplicates(areas) ==> NoDuplicates(r)
    ensures areas <= r
  {
    if tag in areas then areas else areas + [tag]
  }

  // ------------------------------------------------------------- streak

  /** The streak rule: practising the day after the last practice extends
      the streak, practising again the same day keeps it, anything else
      (including no earlier practice) starts a new streak of one day. */
  function NextStreak(lastDate: Option<int>, streak: int, today: int): (r: int)
    ensures lastDate == Some(today - 1) ==> r == streak + 1
    ensures lastDate == Some(today) ==> r == streak
    ensures lastDate != Some(today - 1) && lastDate != Some(today) ==> r == 1
  {
    var yesterday := Some(today - 1);
    if lastDate == yesterday || lastDate == Some(today) then
      streak + (if lastDate == yesterday then 1 else 0)
    else if lastDate != Some(today) then 1
    else streak
  }

  // ---------------------------------------------------------- question type

  /** The ordered topic table: the first key contained in the number wins. */
  const QuestionTypes: seq<(string, string)> := [
    ("1.1", "Basic Concepts"),
    ("1.2", "Transaction Analysis"),
    ("1.3", "Audit & Reporting"),
    ("2.1", "Stock Valuation"),
    ("2.2", "Income Statement"),
    ("2.3", "Retained Income"),
    ("3.1", "Financial Ratios"),
    ("3.2", "Cash Flow"),
    ("3.3", "Cash Flow Calculations"),
    ("4.1", "Advanced Topics")
  ]

  const GeneralAccounting: string := "General Accounting"

  /** The label of the first entry whose key occurs anywhere in `number`. */
  function FirstMatch(table: seq<(string, string)>, number: string): (kind: string)
    ensures (forall i :: 0 <= i < |table| ==> !Includes(number, table[i].0)) ==> kind == GeneralAccounting
    ensures forall i :: (0 <= i < |table| && Includes(number, table[i].0) &&
                         forall j :: 0 <= j < i ==> !Includes(number, table[j].0)) ==> kind == table[i].1
  {
    if |table| == 0 then GeneralAccounting
    else if Includes(number, table[0].0) then table[0].1
    else
      var r := FirstMatch(table[1..], number);
      assert forall i :: 1 <= i < |table| ==> table[i] == table[1..][i - 1];
      r
  }

  /** `getQuestionType`. */
  function GetQuestionType(questionNumber: string): string {
    FirstMatch(QuestionTypes, questionNumber)
  }

  // ------------------------------------------------------- the two updates

  /** The record `updateStats` computes from the loaded one, given the
      topic area of the question answered. */
  function RecordOutcome(cur: PracticeStats, isCorrect: bool, area: string, timeSpent: int, today: int)
    : (next: PracticeStats)
    ensures next.totalQuestions == cur.totalQuestions + 1
    ensures next.correctAnswers == cur.correctAnswers + (if isCorrect then 1 else 0)
    ensures next.incorrectAnswers == cur.incorrectAnswers + (if isCorrect then 0 else 1)
    ensures next.totalTimeSpent == cur.totalTimeSpent + timeSpent
    ensures next.totalSessions == cur.totalSessions
    ensures next.lastPracticeDate == Some(today)
    ensures next.totalQuestions != 0 ==> next.averageScore * next.totalQuestions as real == next.correctAnswers as real * 100.0
    ensures next.improvementRate == next.averageScore - cur.averageScore
    ensures next.streakDays == NextStreak(cur.lastPracticeDate, cur.streakDays, today)
    ensures if isCorrect then area in next.strongAreas && area !in next.weakAreas
            else area in next.weakAreas && area !in next.strongAreas
    ensures forall x :: x != area ==>
              (x in next.weakAreas <==> x in cur.weakAreas) && (x in next.strongAreas <==> x in cur.strongAreas)
    ensures isCorrect ==>
              && cur.strongAreas <= next.strongAreas && |next.strongAreas| <= |cur.strongAreas| + 1
              && next.weakAreas == RemoveArea(cur.weakAreas, area)
    ensures !isCorrect ==>
              && cur.weakAreas <= next.weakAreas && |next.weakAreas| <= |cur.weakAreas| + 1
              && next.strongAreas == RemoveArea(cur.strongAreas, area)
    ensures Valid(cur) ==> Valid(next)
  {
    var totalQuestions := cur.totalQuestions + 1;
    var correctAnswers := cur.correctAnswers + (if isCorrect then 1 else 0);
    var accuracy := Accuracy(correctAnswers, totalQuestions);
    var strong := if isCorrect then AddArea(cur.strongAreas, area) else RemoveArea(cur.strongAreas, area);
    var weak := if isCorrect then RemoveArea(cur.weakAreas, area) else AddArea(cur.weakAreas, area);
    PracticeStats(
      cur.totalSessions,
      totalQuestions,
      correctAnswers,
      cur.incorrectAnswers + (if isCorrect then 0 else 1),
      accuracy,
      cur.totalTimeSpent + timeSpent,
      NextStreak(cur.lastPracticeDate, cur.streakDays, today),
      Some(today),
      accuracy - cur.averageScore,
      weak,
      strong)
  }

  /** `updateStats`: load, record one outcome, save; returns the new record and slot. */
  function UpdateStats(slot: Slot, isCorrect: bool, questionNumber: string, timeSpent: int, today: int)
    : (r: (PracticeStats, Slot))
    ensures r.0 == RecordOutcome(LoadStats(slot), isCorrect, GetQuestionType(questionNumber), timeSpent, today)
    ensures LoadStats(r.1) == r.0
  {
    var next := RecordOutcome(LoadStats(slot), isCorrect, GetQuestionType(questionNumber), timeSpent, today);
    (next, SaveStats(next))
  }

  /** `startNewSession`: load, count one more session, save. */
  function StartNewSession(slot: Slot): (r: (PracticeStats, Slot))
    ensures r.0 == LoadStats(slot).(totalSessions := LoadStats(slot).totalSessions + 1)
    ensures LoadStats(r.1) == r.0
    ensures Valid(LoadStats(slot)) ==> Valid(r.0)
  {
    var cur := LoadStats(slot);
    var next := cur.(totalSessions := cur.totalSessions + 1);
    (next, SaveStats(next))
  }

  // ------------------------------------------------------------ properties

  /** The stored accuracy of a valid record is a percentage. */
  lemma AccuracyBounds(s: PracticeStats)
    requires Valid(s)
    ensures 0.0 <= s.averageScore <= 100.0
  {
    if s.totalQuestions != 0 {
      var c := s.correctAnswers as real;
      var t := s.totalQuestions as real;
      assert 0.0 <= c <= t;
      assert c / t <= 1.0;
    }
  }

  /** Practising twice on the same day leaves the streak where the first
      practice of that day put it. */
  lemma SameDayStreakStable(lastDate: Option<int>, streak: int, today: int)
    ensures NextStreak(Some(today), NextStreak(lastDate, streak, today), today) == NextStreak(lastDate, streak, today)
  {
  }

  /** The streak after practising on each of `days` in turn. */
  function StreakAfter(lastDate: Option<int>, streak: int, days: seq<int>): int
    decreases |days|
  {
    if |days| == 0 then streak
    else StreakAfter(Some(days[0]), NextStreak(lastDate, streak, days[0]), days[1..])
  }

  /** `n` consecutive days starting the day after the last practice each add one. */
  function Consecutive(first: int, n: nat): (days: seq<int>)
    ensures |days| == n
    ensures forall k :: 0 <= k < n ==> days[k] == first + k
  {
    seq(n, k requires 0 <= k < n => first + k)
  }

  lemma {:induction false} ConsecutiveDaysExtendStreak(last: int, streak: int, n: nat)
    ensures StreakAfter(Some(last), streak, Consecutive(last + 1, n)) == streak + n
    decreases n
  {
    if n > 0 {
      var days := Consecutive(last + 1, n);
      assert days[1..] == Consecutive(last + 2, n - 1);
      ConsecutiveDaysExtendStreak(last + 1, streak + 1, n - 1);
    }
  }

  /** A missed day resets the streak to one, whatever it was. */
  lemma MissedDayResetsStreak(last: int, streak: int, today: int)
    requires today > last + 1
    ensures StreakAfter(Some(last), streak, [today]) == 1
  {
  }

  /** A correct answer followed by a wrong one on the same topic leaves the
      topic weak and not strong; other topics keep their standing. */
  lemma AreaFollowsLatestOutcome(cur: PracticeStats, area: string, t1: int, d1: int, t2: int, d2: int)
    requires Valid(cur)
    ensures var next := RecordOutcome(RecordOutcome(cur, true, area, t1, d1), false, area, t2, d2);
            && area in next.weakAreas && area !in next.strongAreas
            && Valid(next)
            && next.correctAnswers == cur.correctAnswers + 1
            && next.incorrectAnswers == cur.incorrectAnswers + 1
  {
  }

  /** A topic that becomes strong or weak for the first time is listed after
      the topics already there, whose order is kept. */
  lemma NewAreaGoesLast(cur: PracticeStats, isCorrect: bool, area: string, t: int, d: int)
    requires area !in (if isCorrect then cur.strongAreas else cur.weakAreas)
    ensures var next := RecordOutcome(cur, isCorrect, area, t, d);
            if isCorrect then next.strongAreas == cur.strongAreas + [area]
            else next.weakAreas == cur.weakAreas + [area]
  {
    var next := RecordOutcome(cur, isCorrect, area, t, d);
    var before, after := if isCorrect then cur.strongAreas else cur.weakAreas,
                         if isCorrect then next.strongAreas else next.weakAreas;
    assert before <= after && |after| <= |before| + 1 && area in after;
    assert after != before;
    assert after == after[..|before|] + [after[|before|]];
  }

  // -------------------------------------------------- the topic table, by example

  /** Keys are searched anywhere in the number, so the `1.1` inside `3.1.1`
      wins over `3.1`, which comes later in the table. */
  lemma SubQuestionMatchesEarlierKey(n: string)
    requires n == "3.1.1"
    ensures GetQuestionType(n) == "Basic Concepts"
  {
    assert OccursAt(n, QuestionTypes[0].0, 2);
  }

  /** `4.2.1` holds no key before `2.1`, so it is filed under stock valuation. */
  lemma LaterPaperMatchesInnerKey(n: string)
    requires n == "4.2.1"
    ensures GetQuestionType(n) == "Stock Valuation"
  {
    assert OccursAt(n, QuestionTypes[3].0, 2);
    NotIncluded(n, QuestionTypes[0].0);
    NotIncluded(n, QuestionTypes[1].0);
    NotIncluded(n, QuestionTypes[2].0);
  }

  /** A number too short to hold any key falls back to the general label. */
  lemma ShortNumberIsGeneral(n: string)
    requires n == "5"
    ensures GetQuestionType(n) == GeneralAccounting
  {
  }
}
