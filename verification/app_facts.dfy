/** What the session handlers guarantee: the submit guards, the shortcut
    words, the attempt countdown, skipping, the final tally, and that every
    handler keeps the session consistent. */
module AppFacts {

  import opened Optional
  import opened Types
  import opened TutorLogic
  import opened StatsTracker
  import opened App

  // ---------------------------------------------------------------- guards

  /** Each submit guard on its own turns a submission away untouched. */
  lemma SubmitGuards(s: Session, answer: string, today: int)
    requires || s.activePaper.None? || s.isProcessing || !s.isInitialized
             || |s.questionStates| == 0
             || !(0 <= s.currentQuestionIndex < |s.questionStates|)
             || (0 <= s.currentQuestionIndex < |s.questionStates| && s.questionStates[s.currentQuestionIndex].isCompleted)
    ensures Submit(s, answer, today) == Transition(s, false)
  {
  }

  /** A submission that passes the guards always consumes an attempt or
      completes the question, unless it is one of the shortcut words; those
      touch neither the progress, the statistics nor the schedule. */
  lemma ShortcutIff(s: Session, answer: string, today: int)
    requires ReadyForAnswer(s)
    ensures var t := Submit(s, answer, today);
            (t.session.questionStates == s.questionStates && t.session.stats == s.stats && !t.advanceScheduled)
            <==> IsShortcut(answer)
  {
    var t := Submit(s, answer, today);
    var i := s.currentQuestionIndex;
    if !IsShortcut(answer) {
      var st := s.questionStates[i];
      assert t.session.questionStates[i].isCompleted != st.isCompleted
          || t.session.questionStates[i].attemptsRemaining != st.attemptsRemaining;
    }
  }

  /** The shortcut words are matched exactly: a lower-case spelling is an answer. */
  lemma ShortcutsAreCaseSensitive(w: string, lower: string)
    requires w == "Simplify" && lower == "simplify"
    ensures IsShortcut(w) && !IsShortcut(lower)
  {
    assert Shortcuts[0] == w;
    assert lower[0] != Shortcuts[0][0];
  }

  // ------------------------------------------------------- answer outcomes

  /** A right answer completes the question with the marks for the attempt
      count `6 - attemptsRemaining`, keeps its attempt count, records one
      correct outcome and schedules the move on. */
  lemma CorrectAnswerCompletes(s: Session, answer: string, today: int)
    requires ReadyForAnswer(s) && !IsShortcut(answer)
    requires var q := s.activePaper.value.questions[s.currentQuestionIndex];
             CheckAnswer(answer, q.solutionDetails.correctAnswer, q.isLongAnswer)
    ensures var t := Submit(s, answer, today);
            var i := s.currentQuestionIndex;
            var q := s.activePaper.value.questions[i];
            var st := s.questionStates[i];
            && t.session.questionStates[i].isCompleted
            && t.session.questionStates[i].attemptsRemaining == st.attemptsRemaining
            && t.session.questionStates[i].isSkipped == st.isSkipped
            && t.session.questionStates[i].marksEarned == CalculateMarks(true, 6 - st.attemptsRemaining, q.maxMarks)
            && LoadStats(t.session.stats) == RecordOutcome(LoadStats(s.stats), true, GetQuestionType(q.questionNumber), 1, today)
            && LoadStats(t.session.stats).correctAnswers == LoadStats(s.stats).correctAnswers + 1
            && t.advanceScheduled
  {
  }

  /** A wrong answer with attempts to spare costs one attempt, gives the hint
      for the attempts now left and records nothing. */
  lemma WrongAnswerCountsDown(s: Session, answer: string, today: int)
    requires ReadyForAnswer(s) && !IsShortcut(answer)
    requires var q := s.activePaper.value.questions[s.currentQuestionIndex];
             !CheckAnswer(answer, q.solutionDetails.correctAnswer, q.isLongAnswer)
    requires s.questionStates[s.currentQuestionIndex].attemptsRemaining != 1
    ensures var t := Submit(s, answer, today);
            var i := s.currentQuestionIndex;
            var q := s.activePaper.value.questions[i];
            var st := s.questionStates[i];
            && t.session.questionStates[i] == st.(attemptsRemaining := st.attemptsRemaining - 1)
            && t.session.messages[|t.session.messages| - 1] == FromTutor(TryAgain(GenerateHint(q, st.attemptsRemaining - 1)))
            && t.session.stats == s.stats
            && !t.advanceScheduled
  {
  }

  /** A wrong answer on the last attempt closes the question with no marks,
      reveals the answer, records one incorrect outcome and moves on. */
  lemma WrongAnswerExhausts(s: Session, answer: string, today: int)
    requires ReadyForAnswer(s) && !IsShortcut(answer)
    requires var q := s.activePaper.value.questions[s.currentQuestionIndex];
             !CheckAnswer(answer, q.solutionDetails.correctAnswer, q.isLongAnswer)
    requires s.questionStates[s.currentQuestionIndex].attemptsRemaining == 1
    ensures var t := Submit(s, answer, today);
            var i := s.currentQuestionIndex;
            var q := s.activePaper.value.questions[i];
            && t.session.questionStates[i].isCompleted
            && t.session.questionStates[i].attemptsRemaining == 0
            && t.session.questionStates[i].marksEarned == 0
            && t.session.messages[|t.session.messages| - 1].line.Reveal?
            && LoadStats(t.session.stats).incorrectAnswers == LoadStats(s.stats).incorrectAnswers + 1
            && LoadStats(t.session.stats).correctAnswers == LoadStats(s.stats).correctAnswers
            && t.advanceScheduled
  {
  }

  /** The attempt count is derived from a budget of five, so a question with
      a smaller cap never reaches the full-marks tier: on a two-attempt
      question a right first answer counts as the fourth attempt and earns
      80% rounded up, which falls short of the maximum exactly when the
      maximum is five or more. */
  lemma FirstTryOnTwoAttemptQuestion(s: Session, answer: string, today: int)
    requires ReadyForAnswer(s) && !IsShortcut(answer)
    requires var q := s.activePaper.value.questions[s.currentQuestionIndex];
             && CheckAnswer(answer, q.solutionDetails.correctAnswer, q.isLongAnswer)
             && q.maxAttempts == Some(2) && q.maxMarks >= 0
             && s.questionStates[s.currentQuestionIndex].attemptsRemaining == 2
    ensures var q := s.activePaper.value.questions[s.currentQuestionIndex];
            var marks := Submit(s, answer, today).session.questionStates[s.currentQuestionIndex].marksEarned;
            && marks == CeilTenths(q.maxMarks, 8)
            && (marks < q.maxMarks <==> q.maxMarks >= 5)
  {
  }

  // ------------------------------------------------------------------ skip

  /** Skipping an open question sets it aside with no marks and a fresh
      budget of five, announces it and schedules the move on; a closed
      question cannot be skipped. */
  lemma SkipSetsAside(s: Session)
    requires s.activePaper.Some? && !s.isProcessing
    requires 0 <= s.currentQuestionIndex < |s.questionStates|
    ensures var t := Skip(s);
            var i := s.currentQuestionIndex;
            if s.questionStates[i].isCompleted then t == Transition(s, false)
            else
              && t.session.questionStates[i].isSkipped
              && !t.session.questionStates[i].isCompleted
              && t.session.questionStates[i].marksEarned == 0
              && t.session.questionStates[i].attemptsRemaining == DefaultAttempts
              && t.session.messages == s.messages + [FromTutor(SkipNotice)]
              && t.advanceScheduled
  {
  }

  /** A skipped question stays open: returning to it, it passes the submit
      guards again. */
  lemma SkippedStillSubmittable(s: Session)
    requires ReadyForAnswer(s)
    ensures var t := Skip(s).session;
            t.questionStates[s.currentQuestionIndex].isSkipped && ReadyForAnswer(t)
  {
  }

  // ------------------------------------------------------------ the tally

  /** The total announced never exceeds the maximum when no question's
      marks exceed its own maximum. */
  lemma {:induction false} TotalWithinMaximum(states: seq<QuestionState>, questions: seq<Question>)
    requires |states| == |questions|
    requires forall i :: 0 <= i < |states| ==> 0 <= states[i].marksEarned <= questions[i].maxMarks
    ensures 0 <= TotalMarks(states) <= MaxPossibleMarks(questions)
    decreases |states|
  {
    if |states| > 0 {
      TotalWithinMaximum(states[1..], questions[1..]);
    }
  }

  /** The closing announcement of a consistent session reports a total
      between zero and the paper's maximum, and no more answered questions
      than the paper has. */
  lemma FinalTallyWithinMaximum(s: Session)
    requires Consistent(s) && s.activePaper.Some?
    requires s.currentQuestionIndex >= |s.activePaper.value.questions| - 1
    ensures var line := Advance(s).messages[|Advance(s).messages| - 1].line;
            && line.PaperDone?
            && 0 <= line.totalMarks <= line.maxPossibleMarks
            && 0 <= line.answered <= line.questionCount
  {
    var qs := s.activePaper.value.questions;
    forall i | 0 <= i < |s.questionStates|
      ensures 0 <= s.questionStates[i].marksEarned <= qs[i].maxMarks
    {
      assert StateFits(s.questionStates[i], qs[i]);
    }
    TotalWithinMaximum(s.questionStates, qs);
    var t := Advance(s);
    var done := PaperDone(TotalMarks(s.questionStates), MaxPossibleMarks(qs),
                          AnsweredCount(s.questionStates), |qs|);
    assert t.messages == s.messages + [FromTutor(done)];
    assert t.messages[|t.messages| - 1].line == done;
  }

  /** Appending a state adds one to the count exactly when it is answered. */
  lemma {:induction false} AnsweredCountSnoc(states: seq<QuestionState>, st: QuestionState)
    ensures AnsweredCount(states + [st]) == AnsweredCount(states) + if st.isCompleted && !st.isSkipped then 1 else 0
    decreases |states|
  {
    if |states| == 0 {
      assert states + [st] == [st];
      assert [st][1..] == [];
    } else {
      assert (states + [st])[1..] == states[1..] + [st];
      AnsweredCountSnoc(states[1..], st);
    }
  }

  /** The count over the first `m` states is the number of answered
      positions below `m`. */
  lemma {:induction false} AnsweredCountPrefix(states: seq<QuestionState>, m: nat)
    requires m <= |states|
    ensures AnsweredCount(states[..m]) == |set i | 0 <= i < m && states[i].isCompleted && !states[i].isSkipped|
    decreases m
  {
    var answered := set i | 0 <= i < m && states[i].isCompleted && !states[i].isSkipped;
    if m == 0 {
      assert answered == {};
    } else {
      var earlier := set i | 0 <= i < m - 1 && states[i].isCompleted && !states[i].isSkipped;
      AnsweredCountPrefix(states, m - 1);
      assert states[..m] == states[..m - 1] + [states[m - 1]];
      AnsweredCountSnoc(states[..m - 1], states[m - 1]);
      if states[m - 1].isCompleted && !states[m - 1].isSkipped {
        assert answered == earlier + {m - 1};
      } else {
        assert answered == earlier;
      }
    }
  }

  /** The closing announcement's answered count is the number of questions
      completed without being skipped. */
  lemma AnsweredCountCountsAnswered(states: seq<QuestionState>)
    ensures AnsweredCount(states) == |set i | 0 <= i < |states| && states[i].isCompleted && !states[i].isSkipped|
  {
    AnsweredCountPrefix(states, |states|);
    assert states[..|states|] == states;
  }

  /** Changing one state that is not counted as answered into another that
      is not leaves the answered count alone. */
  lemma {:induction false} AnsweredCountUpdate(states: seq<QuestionState>, i: int, st: QuestionState)
    requires 0 <= i < |states|
    requires !(states[i].isCompleted && !states[i].isSkipped) && !(st.isCompleted && !st.isSkipped)
    ensures AnsweredCount(states[i := st]) == AnsweredCount(states)
    decreases |states|
  {
    if i > 0 {
      assert states[i := st][1..] == states[1..][i - 1 := st];
      AnsweredCountUpdate(states[1..], i - 1, st);
    }
  }

  /** A skip never adds to the answered count of the closing announcement. */
  lemma SkipNotCountedAsAnswered(s: Session)
    requires Consistent(s)
    ensures AnsweredCount(Skip(s).session.questionStates) == AnsweredCount(s.questionStates)
  {
    var i := s.currentQuestionIndex;
    if s.activePaper.Some? && !s.isProcessing && 0 <= i < |s.questionStates| && !s.questionStates[i].isCompleted {
      AnsweredCountUpdate(s.questionStates, i, Skip(s).session.questionStates[i]);
    }
  }

  // ------------------------------------------------------ the invariant kept

  lemma LandingConsistent(stats: Slot)
    requires StatsTracker.Valid(LoadStats(stats))
    ensures Consistent(Landing(stats))
  {
  }

  /** The updated state of the current question still fits it. */
  lemma SubmitKeepsConsistent(s: Session, answer: string, today: int)
    requires Consistent(s)
    ensures Consistent(Submit(s, answer, today).session)
  {
    if ReadyForAnswer(s) && !IsShortcut(answer) {
      var t := Submit(s, answer, today).session;
      var qs := s.activePaper.value.questions;
      var i := s.currentQuestionIndex;
      assert StateFits(s.questionStates[i], qs[i]);
      forall j | 0 <= j < |qs|
        ensures StateFits(t.questionStates[j], qs[j])
      {
        if j != i {
          assert StateFits(s.questionStates[j], qs[j]);
        }
      }
    }
  }

  lemma SkipKeepsConsistent(s: Session)
    requires Consistent(s)
    ensures Consistent(Skip(s).session)
  {
    var t := Skip(s).session;
    if s.activePaper.Some? {
      var qs := s.activePaper.value.questions;
      forall j | 0 <= j < |qs|
        ensures StateFits(t.questionStates[j], qs[j])
      {
        assert StateFits(s.questionStates[j], qs[j]);
      }
    }
  }

  /** A session that keeps the paper, the states and the record, and points
      at a question of the paper, stays consistent. */
  lemma MoveKeepsConsistent(s: Session, t: Session)
    requires Consistent(s) && s.activePaper.Some?
    requires t.activePaper == s.activePaper && t.questionStates == s.questionStates && t.stats == s.stats
    requires 0 <= t.currentQuestionIndex < |s.activePaper.value.questions|
    ensures Consistent(t)
  {
    var qs := s.activePaper.value.questions;
    forall i | 0 <= i < |qs|
      ensures StateFits(t.questionStates[i], qs[i])
    {
      assert StateFits(s.questionStates[i], qs[i]);
    }
  }

  lemma BackLeavesPaper(s: Session)
    requires Consistent(s) && !s.isProcessing && s.currentQuestionIndex <= 0
    ensures Consistent(Back(s))
  {
    var t := Back(s);
    assert t.activePaper.None? && t.currentQuestionIndex == 0 && t.stats == s.stats;
  }

  lemma BackKeepsConsistent(s: Session)
    requires Consistent(s)
    ensures Consistent(Back(s))
  {
    var t := Back(s);
    if s.isProcessing {
      assert t == s;
    } else if s.currentQuestionIndex > 0 {
      MoveKeepsConsistent(s, t);
    } else {
      BackLeavesPaper(s);
    }
  }

  lemma AdvanceKeepsConsistent(s: Session)
    requires Consistent(s)
    ensures Consistent(Advance(s))
  {
  }

  /** Every open question keeps at least one attempt, whatever sequence of
      handlers ran since the paper was selected. */
  lemma OpenQuestionsHaveAttempts(s: Session, i: int)
    requires Consistent(s) && s.activePaper.Some?
    requires 0 <= i < |s.questionStates| && !s.questionStates[i].isCompleted
    ensures s.questionStates[i].attemptsRemaining >= 1 && s.questionStates[i].marksEarned == 0
  {
    assert StateFits(s.questionStates[i], s.activePaper.value.questions[i]);
  }

  // --------------------------------------------------------------- scenarios

  /** A paper of one question worth five marks with two attempts. */
  predicate OneShortQuestion(paper: Paper) {
    && |paper.questions| == 1
    && paper.questions[0].maxMarks == 5
    && paper.questions[0].maxAttempts == Some(2)
  }

  predicate Wrong(q: Question, answer: string) {
    !IsShortcut(answer) && !CheckAnswer(answer, q.solutionDetails.correctAnswer, q.isLongAnswer)
  }

  /** Two wrong answers: the first leaves one attempt and gives the
      low-cap first hint, the second closes the question with no marks,
      reveals the answer and records one incorrect outcome. */
  lemma TwoWrongAnswers(stats: Slot, paper: Paper, a1: string, a2: string, d1: int, d2: int)
    requires OneShortQuestion(paper)
    requires Wrong(paper.questions[0], a1) && Wrong(paper.questions[0], a2)
    ensures var s0 := SelectPaper(Landing(stats), paper);
            var t1 := Submit(s0, a1, d1);
            var t2 := Submit(t1.session, a2, d2);
            && t1.session.questionStates[0].attemptsRemaining == 1
            && t1.session.messages[|t1.session.messages| - 1] == FromTutor(TryAgain(ConceptHint(paper.questions[0])))
            && !t1.advanceScheduled
            && t2.session.questionStates[0].isCompleted
            && t2.session.questionStates[0].attemptsRemaining == 0
            && t2.session.questionStates[0].marksEarned == 0
            && t2.session.messages[|t2.session.messages| - 1].line.Reveal?
            && LoadStats(t2.session.stats).incorrectAnswers == LoadStats(stats).incorrectAnswers + 1
            && t2.advanceScheduled
  {
    var q := paper.questions[0];
    var s0 := SelectPaper(Landing(stats), paper);
    assert s0.questionStates[0].attemptsRemaining == 2;
    WrongAnswerCountsDown(s0, a1, d1);
    var t1 := Submit(s0, a1, d1);
    assert GenerateHint(q, 1) == ConceptHint(q);
    WrongAnswerExhausts(t1.session, a2, d2);
  }

  /** A right first answer, with no answers recorded yet: four of five marks (the
      attempt count is taken as four, see `FirstTryOnTwoAttemptQuestion`),
      one correct outcome, and an accuracy of 100. */
  lemma RightFirstAnswer(stats: Slot, paper: Paper, answer: string, today: int)
    requires OneShortQuestion(paper)
    requires LoadStats(stats).totalQuestions == 0 && LoadStats(stats).correctAnswers == 0
    requires !IsShortcut(answer)
    requires var q := paper.questions[0]; CheckAnswer(answer, q.solutionDetails.correctAnswer, q.isLongAnswer)
    ensures var t := Submit(SelectPaper(Landing(stats), paper), answer, today);
            && t.session.questionStates[0].isCompleted
            && t.session.questionStates[0].marksEarned == 4
            && LoadStats(t.session.stats).correctAnswers == 1
            && LoadStats(t.session.stats).averageScore == 100.0
            && t.advanceScheduled
  {
    var s0 := SelectPaper(Landing(stats), paper);
    assert ReadyForAnswer(s0);
    CorrectAnswerCompletes(s0, answer, today);
    FirstOutcomeOfFreshRecord(LoadStats(s0.stats), GetQuestionType(paper.questions[0].questionNumber), today);
  }

  lemma FirstOutcomeOfFreshRecord(cur: PracticeStats, area: string, today: int)
    requires cur.totalQuestions == 0 && cur.correctAnswers == 0
    ensures RecordOutcome(cur, true, area, 1, today).correctAnswers == 1
    ensures RecordOutcome(cur, true, area, 1, today).averageScore == 100.0
  {
  }

  /** Skipping the only question and moving on closes the paper with no
      marks and no question answered. */
  lemma SkipOnlyQuestion(stats: Slot, paper: Paper)
    requires OneShortQuestion(paper)
    ensures var t := Skip(SelectPaper(Landing(stats), paper));
            var done := Advance(t.session);
            && t.session.questionStates[0].isSkipped
            && !t.session.questionStates[0].isCompleted
            && t.session.questionStates[0].attemptsRemaining == DefaultAttempts
            && done.messages[|done.messages| - 1] == FromTutor(PaperDone(0, 5, 0, 1))
  {
    SkipSetsAside(SelectPaper(Landing(stats), paper));
    var t := Skip(SelectPaper(Landing(stats), paper));
    var states := t.session.questionStates;
    assert |states| == 1 && |states[1..]| == 0 && |paper.questions[1..]| == 0;
    assert states[0].marksEarned == 0 && states[0].isSkipped;
    assert TotalMarks(states) == states[0].marksEarned + TotalMarks(states[1..]) == 0;
    assert AnsweredCount(states) == 0 + AnsweredCount(states[1..]) == 0;
    assert MaxPossibleMarks(paper.questions) == paper.questions[0].maxMarks + MaxPossibleMarks(paper.questions[1..]);
  }
}
