/** The records the tutor works on: questions, papers and the per-question
    progress kept while a paper is open. */
module Types {

  import opened Optional

  datatype SolutionDetails = SolutionDetails(
    correctAnswer: string,
    workings: string,
    markingGuidelines: string,
    explanation: string)

  /** One exam question; `maxAttempts` is the optional per-question attempt cap. */
  datatype Question = Question(
    questionNumber: string,
    questionText: string,
    maxMarks: int,
    solutionDetails: SolutionDetails,
    isLongAnswer: bool,
    maxAttempts: Option<int>)

  datatype Paper = Paper(id: string, subject: string, year: int, questions: seq<Question>)

  /** Progress on one question, index-aligned with the paper's questions. */
  datatype QuestionState = QuestionState(
    attemptsRemaining: int,
    isCompleted: bool,
    marksEarned: int,
    isSkipped: bool)

  /** The attempt budget when a question sets none, and the budget a skip restores. */
  const DefaultAttempts: int := 5

  /** The question's attempt cap: an absent cap and a cap of 0 both mean five. */
  function EffectiveCap(q: Question): (cap: int)
    ensures cap != 0
    ensures q.maxAttempts.None? || q.maxAttempts == Some(0) ==> cap == DefaultAttempts
    ensures q.maxAttempts.Some? && q.maxAttempts.value != 0 ==> cap == q.maxAttempts.value
  {
    match q.maxAttempts
    case None => DefaultAttempts
    case Some(n) => if n == 0 then DefaultAttempts else n
  }
}
