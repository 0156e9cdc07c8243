/** The tutoring session around one open paper. Each handler of the chat
    screen is a pure transition on the session record. A handler that ends
    by scheduling the move to the next question reports that in its result;
    the move itself is the separate transition `Advance`. */
module App {

  import opened Optional
  import opened Types
  import opened TutorLogic
  import opened StatsTracker

  /** What the tutor says, by kind; the exact wording is not modelled. */
  datatype TutorLine =
    | Greeting(questionNumber: string, maxMarks: int, attempts: int)
    | ShortcutReply(shortcut: string)
    | Praise(marks: int, maxMarks: int)
    | TryAgain(hint: string)
    | Reveal(correctAnswer: string, explanation: string)
    | SkipNotice
    | MovedTo(questionNumber: string, maxMarks: int, attempts: int)
    | BackTo(questionNumber: string, attempts: int)
    | PaperDone(totalMarks: int, maxPossibleMarks: int, answered: int, questionCount: int)

  datatype Message = FromLearner(text: string) | FromTutor(line: TutorLine)

  datatype Session = Session(
    activePaper: Option<Paper>,
    currentQuestionIndex: int,
    messages: seq<Message>,
    questionStates: seq<QuestionState>,
    isProcessing: bool,
    isInitialized: bool,
    stats: Slot)

  /** The result of a handler: the new session, and whether it scheduled
      the move to the next question. */
  datatype Transition = Transition(session: Session, advanceScheduled: bool)

  /** The landing screen, before any paper is chosen. */
  function Landing(stats: Slot): (s: Session)
    ensures s.activePaper.None? && s.currentQuestionIndex == 0 && !s.isProcessing && !s.isInitialized
    ensures s.stats == stats
  {
    Session(None, 0, [], [], false, false, stats)
  }

  // ------------------------------------------------------------- invariant

  /** A paper the session can run: it has a question (opening an empty one
      fails in the source), and every question's marks and attempt budget
      are sensible. */
  predicate WellFormedPaper(p: Paper) {
    && |p.questions| > 0
    && forall i :: 0 <= i < |p.questions| ==> p.questions[i].maxMarks >= 0 && EffectiveCap(p.questions[i]) >= 1
  }

  /** Progress on a question agrees with it: marks within the maximum, and an
      open question has an attempt left and no marks yet. */
  predicate StateFits(st: QuestionState, q: Question) {
    && 0 <= st.marksEarned <= q.maxMarks
    && (!st.isCompleted ==> st.attemptsRemaining >= 1 && st.marksEarned == 0)
  }

  /** What every handler preserves. */
  predicate Consistent(s: Session) {
    && StatsTracker.Valid(LoadStats(s.stats))
    && (s.activePaper.None? ==> s.currentQuestionIndex == 0)
    && (s.activePaper.Some? ==>
          var qs := s.activePaper.value.questions;
          && WellFormedPaper(s.activePaper.value)
          && |s.questionStates| == |qs|
          && 0 <= s.currentQuestionIndex < |qs|
          && forall i :: 0 <= i < |qs| ==> StateFits(s.questionStates[i], qs[i]))
  }

  // ---------------------------------------------------------- select paper

  /** One fresh state per question: the question's attempt budget, nothing done. */
  function InitialStates(questions: seq<Question>): (states: seq<QuestionState>)
    ensures |states| == |questions|
    ensures forall i :: 0 <= i < |questions| ==>
              states[i].attemptsRemaining == EffectiveCap(questions[i]) &&
              !states[i].isCompleted && states[i].marksEarned == 0 && !states[i].isSkipped
  {
    seq(|questions|, i requires 0 <= i < |questions| => QuestionState(EffectiveCap(questions[i]), false, 0, false))
  }

  /** `handleSelectPaper`: open the paper at its first question and count a
      new practice session. */
  function SelectPaper(s: Session, paper: Paper): (t: Session)
    ensures t.activePaper == Some(paper) && t.currentQuestionIndex == 0 && t.isInitialized
    ensures t.questionStates == InitialStates(paper.questions)
    ensures LoadStats(t.stats) == LoadStats(s.stats).(totalSessions := LoadStats(s.stats).totalSessions + 1)
    ensures |paper.questions| == 0 ==> t.messages == []
    ensures |paper.questions| > 0 ==> |t.messages| == 1 && t.messages[0].FromTutor? && t.messages[0].line.Greeting?
    ensures WellFormedPaper(paper) && StatsTracker.Valid(LoadStats(s.stats)) ==> Consistent(t)
  {
    var started := StartNewSession(s.stats);
    var greeting :=
      if |paper.questions| > 0 then
        var first := paper.questions[0];
        [FromTutor(Greeting(first.questionNumber, first.maxMarks, EffectiveCap(first)))]
      else [];
    s.(activePaper := Some(paper),
       currentQuestionIndex := 0,
       messages := greeting,
       questionStates := InitialStates(paper.questions),
       isInitialized := true,
       stats := started.1)
  }

  // ---------------------------------------------------------------- submit

  /** The four quick replies offered under the input, matched case-sensitively. */
  const Shortcuts: seq<string> := ["Simplify", "Explain", "Summarize", "Example"]

  predicate IsShortcut(answer: string) {
    answer in Shortcuts
  }

  /** The submit guards: a paper is open and initialised, nothing is in
      flight, and the current question exists and is still open. */
  predicate ReadyForAnswer(s: Session) {
    && s.activePaper.Some? && !s.isProcessing && s.isInitialized
    && |s.questionStates| > 0
    && 0 <= s.currentQuestionIndex < |s.questionStates|
    && s.currentQuestionIndex < |s.activePaper.value.questions|
    && !s.questionStates[s.currentQuestionIndex].isCompleted
  }

  /** The attempt count the marks are computed from, as the handler derives
      it: from a fixed budget of five, whatever the question's own cap. */
  function AttemptsUsed(st: QuestionState): int {
    6 - st.attemptsRemaining
  }

  /** The delayed evaluation `handleSubmitAnswer` schedules for an answer
      that is not a shortcut: only the current question's state and the
      statistics can change, and exactly one tutor reply follows the answer. */
  function Grade(s: Session, answer: string, today: int): (t: Transition)
    requires ReadyForAnswer(s)
    ensures t.session.activePaper == s.activePaper
    ensures t.session.currentQuestionIndex == s.currentQuestionIndex
    ensures |t.session.questionStates| == |s.questionStates|
    ensures forall j :: 0 <= j < |s.questionStates| && j != s.currentQuestionIndex ==>
              t.session.questionStates[j] == s.questionStates[j]
    ensures exists reply :: t.session.messages == s.messages + [FromLearner(answer), FromTutor(reply)]
  {
    var i := s.currentQuestionIndex;
    var q := s.activePaper.value.questions[i];
    var st := s.questionStates[i];
    var left := st.attemptsRemaining - 1;
    var (next, reply, stats, advance) :=
      if CheckAnswer(answer, q.solutionDetails.correctAnswer, q.isLongAnswer) then
        var marks := CalculateMarks(true, AttemptsUsed(st), q.maxMarks);
        (st.(isCompleted := true, marksEarned := marks), Praise(marks, q.maxMarks),
         UpdateStats(s.stats, true, q.questionNumber, 1, today).1, true)
      else if left == 0 then
        (st.(isCompleted := true, attemptsRemaining := 0, marksEarned := 0),
         Reveal(q.solutionDetails.correctAnswer, q.solutionDetails.explanation),
         UpdateStats(s.stats, false, q.questionNumber, 1, today).1, true)
      else
        (st.(attemptsRemaining := left), TryAgain(GenerateHint(q, left)), s.stats, false);
    Transition(
      s.(questionStates := s.questionStates[i := next],
         messages := s.messages + [FromLearner(answer), FromTutor(reply)],
         stats := stats),
      advance)
  }

  /** `handleSubmitAnswer`: the guards, then a shortcut reply or the
      evaluation of the answer. */
  function Submit(s: Session, answer: string, today: int): (t: Transition)
    ensures !ReadyForAnswer(s) ==> t == Transition(s, false)
    ensures ReadyForAnswer(s) ==>
              && t.session.activePaper == s.activePaper
              && t.session.currentQuestionIndex == s.currentQuestionIndex
              && |t.session.questionStates| == |s.questionStates|
              && (forall j :: 0 <= j < |s.questionStates| && j != s.currentQuestionIndex ==>
                    t.session.questionStates[j] == s.questionStates[j])
              && |t.session.messages| == |s.messages| + 2
              && t.session.messages[..|s.messages|] == s.messages
              && t.session.messages[|s.messages|] == FromLearner(answer)
  {
    if !ReadyForAnswer(s) then Transition(s, false)
    else if IsShortcut(answer) then
      Transition(s.(messages := s.messages + [FromLearner(answer), FromTutor(ShortcutReply(answer))]), false)
    else
      Grade(s, answer, today)
  }

  // ------------------------------------------------------------------ skip

  /** `handleSkip`: set the open question aside with a fresh budget of five. */
  function Skip(s: Session): (t: Transition)
    ensures s.activePaper.None? || s.isProcessing ==> t == Transition(s, false)
    ensures t.session.activePaper == s.activePaper && t.session.currentQuestionIndex == s.currentQuestionIndex
    ensures t.session.stats == s.stats
    ensures |t.session.questionStates| == |s.questionStates|
    ensures forall j :: 0 <= j < |s.questionStates| && j != s.currentQuestionIndex ==>
              t.session.questionStates[j] == s.questionStates[j]
  {
    var i := s.currentQuestionIndex;
    if s.activePaper.None? || s.isProcessing then Transition(s, false)
    else if !(0 <= i < |s.questionStates|) then Transition(s, false)
    else if s.questionStates[i].isCompleted then Transition(s, false)
    else
      var st := s.questionStates[i];
      Transition(
        s.(questionStates := s.questionStates[i := st.(isCompleted := false, isSkipped := true,
                                                          marksEarned := 0, attemptsRemaining := DefaultAttempts)],
           messages := s.messages + [FromTutor(SkipNotice)]),
        true)
  }

  // ------------------------------------------------------------------ back

  /** `handleBack`: one question back, or from the first question back to
      the paper list. Question progress is kept either way. */
  function Back(s: Session): (t: Session)
    ensures s.isProcessing ==> t == s
    ensures t.questionStates == s.questionStates && t.stats == s.stats
    ensures !s.isProcessing && s.currentQuestionIndex > 0 ==>
              t.activePaper == s.activePaper && t.currentQuestionIndex == s.currentQuestionIndex - 1 && |t.messages| <= 1
    ensures !s.isProcessing && s.currentQuestionIndex <= 0 ==>
              t.activePaper.None? && t.currentQuestionIndex == 0 && t.messages == [] && !t.isInitialized
  {
    if s.isProcessing then s
    else if s.currentQuestionIndex > 0 then
      var j := s.currentQuestionIndex - 1;
      var note :=
        if s.activePaper.Some? && j < |s.activePaper.value.questions| then
          var q := s.activePaper.value.questions[j];
          [FromTutor(BackTo(q.questionNumber, EffectiveCap(q)))]
        else [];
      s.(currentQuestionIndex := j, messages := note)
    else
      s.(activePaper := None, currentQuestionIndex := 0, messages := [], isInitialized := false)
  }

  // --------------------------------------------------------------- advance

  /** Σ `marksEarned` over all states. */
  function TotalMarks(states: seq<QuestionState>): int {
    if |states| == 0 then 0 else states[0].marksEarned + TotalMarks(states[1..])
  }

  /** Σ `maxMarks` over all questions. */
  function MaxPossibleMarks(questions: seq<Question>): int {
    if |questions| == 0 then 0 else questions[0].maxMarks + MaxPossibleMarks(questions[1..])
  }

  /** How many questions were completed without being skipped. */
  function AnsweredCount(states: seq<QuestionState>): (n: nat)
    ensures n <= |states|
  {
    if |states| == 0 then 0
    else (if states[0].isCompleted && !states[0].isSkipped then 1 else 0) + AnsweredCount(states[1..])
  }

  /** `moveToNextQuestion`: open the next question, or after the last one
      announce the totals. */
  function Advance(s: Session): (t: Session)
    ensures s.activePaper.None? ==> t == s
    ensures t.activePaper == s.activePaper && t.questionStates == s.questionStates && t.stats == s.stats
    ensures s.activePaper.Some? && s.currentQuestionIndex < |s.activePaper.value.questions| - 1 ==>
              t.currentQuestionIndex == s.currentQuestionIndex + 1 && t.isInitialized && |t.messages| <= 1
    ensures s.activePaper.Some? && s.currentQuestionIndex >= |s.activePaper.value.questions| - 1 ==>
              t.currentQuestionIndex == s.currentQuestionIndex &&
              t.messages == s.messages + [FromTutor(PaperDone(TotalMarks(s.questionStates),
                                                              MaxPossibleMarks(s.activePaper.value.questions),
                                                              AnsweredCount(s.questionStates),
                                                              |s.activePaper.value.questions|))]
  {
    match s.activePaper
    case None => s
    case Some(paper) =>
      if s.currentQuestionIndex < |paper.questions| - 1 then
        var j := s.currentQuestionIndex + 1;
        var note :=
          if 0 <= j then
            var q := paper.questions[j];
            [FromTutor(MovedTo(q.questionNumber, q.maxMarks, EffectiveCap(q)))]
          else [];
        s.(currentQuestionIndex := j, messages := note, isInitialized := true)
      else
        s.(messages := s.messages + [FromTutor(PaperDone(TotalMarks(s.questionStates),
                                                         MaxPossibleMarks(paper.questions),
                                                         AnsweredCount(s.questionStates),
                                                         |paper.questions|))])
  }
}
