# Exam-practice tutor — a Dafny model

The modelled program is a chat tutor for past exam papers ("Ruby"). A learner opens a paper and answers one question at a time. For each answer the tutor does three things:

- it decides whether the answer is right: a normalised string comparison for short answers, or a 60% keyword rule for long ones;
- after a wrong answer it picks a hint, which depends on how many attempts are left and how many the question allows;
- after a right answer it awards marks, fewer for later attempts.

Alongside the session it keeps one stored practice-statistics record:

- counters and an accuracy percentage;
- a day streak;
- lists of weak and strong topic areas.

The tutor's topic table maps a question number to a topic.

The model has four layers:

| file | module | models |
|---|---|---|
| `optional.dfy` | `Optional` | the optional value used for absent fields |
| `text.dfy`, `text_facts.dfy` | `Text`, `TextFacts` | the JavaScript string operations the tutor uses, on ASCII |
| `types.dfy` | `Types` | questions, papers, per-question progress, the attempt cap |
| `tutor_logic.dfy`, `tutor_facts.dfy`, `tutor_examples.dfy` | `TutorLogic`, `TutorFacts`, `TutorExamples` | `checkAnswer`, `generateHint`, `calculateMarks` |
| `stats_tracker.dfy` | `StatsTracker` | load/save, `updateStats`, `startNewSession`, `getQuestionType` |
| `app.dfy`, `app_facts.dfy` | `App`, `AppFacts` | the select, submit, skip, back and advance handlers |

### The JavaScript string operations, on ASCII

- `toLowerCase` is an ASCII map.
- `\s` is the set {space, tab, LF, CR, VT, FF}.
- `trim` is modelled.
- `replace(/\s+/g, ' ')` is modelled.
- `split` is on one character.
- `includes` is modelled.
- The regex `/\((.*?)\)/` is modelled, with `.` stopping at the four line terminators of JavaScript regular expressions (line feed, carriage return, U+2028 and U+2029).

### How the session handlers are modelled

Each handler is a pure function from one `Session` to the next.

- A handler that schedules the move to the next question returns `advanceScheduled`. The move is the separate function `Advance`.
- A handler's delayed reply is part of the handler's own transition.
- `isProcessing` is a guard that the transitions read but never leave set.
- The stored statistics are a `Slot` inside the session. An empty slot means nothing has been saved yet.
- Calendar days are integers supplied by the caller (`today`).
- Accuracy and improvement are `real`s.
- `Math.ceil(m * 0.9)` and `Math.ceil(m * 0.8)` are exact integer ceilings.

### Behaviour worth knowing

- **Short answers.** The short-answer comparison deletes `,`, whitespace and `R`, but only after lower-casing. So a capital `R` can never be deleted, and the currency letter still matters:
  - `"R1 704 000"` and `"1704000"` are judged different (`TutorExamples.CurrencyLetterKept`);
  - `"r1,704,000"` and `"R1 704 000"` are judged equal (`TutorExamples.CurrencyFormattingTolerated`).
- **Long answers.** A long answer passes when at least 60% of the keywords of the correct answer occur in it as substrings, compared as `5 * matches >= 3 * keywords` (`TutorFacts.LongAnswerIff`). Against `cash bank loan debt`, three keywords pass and two, exactly half, do not (`TutorExamples.ThreeOfFourKeywordsAccepted`, `TutorExamples.TwoOfFourKeywordsRejected`).
- **Attempts used.** The number of attempts used is derived as `6 - attemptsRemaining` whatever the question's own cap. So a right first answer on a two-attempt question counts as the fourth attempt: 80% rounded up, 4 of 5 marks, not 5. `AppFacts.FirstTryOnTwoAttemptQuestion` states exactly when this falls short of full marks, and `AppFacts.RightFirstAnswer` gives the 4-of-5 case.
- **Topic keys.** A topic key matches anywhere in the question number, not only as a prefix. So `3.1.1` is filed under "Basic Concepts" (it contains `1.1`), and `4.2.1` under "Stock Valuation".
- **Back from the first question.** Going back from the first question closes the paper but keeps the question states; the next `SelectPaper` replaces them.
- **The closing total.** The closing total adds up `marksEarned` over every state.

## Model

| member | source | states |
|---|---|---|
| Text.LowerChar | src/utils/tutorLogic.ts:4 | a capital becomes the small letter at the same place in the alphabet, every other character is unchanged, and the result is never a capital |
| Text.Lower | src/utils/tutorLogic.ts:4 | same length, each character lower-cased in place |
| Text.LowerIncludes | src/utils/tutorLogic.ts:4 | lower-casing keeps every occurrence of a substring |
| Text.IncludesTransitive | src/utils/tutorLogic.ts:11 | a substring of a substring is a substring |
| Text.LeadingWs | src/utils/tutorLogic.ts:4 | counts exactly the leading whitespace run |
| Text.TrailingWs | src/utils/tutorLogic.ts:4 | counts exactly the trailing whitespace run |
| Text.Trim | src/utils/tutorLogic.ts:4 | the result has visible ends and occurs inside the input; `TextFacts.TrimDecompose` pins it as the input minus its leading and trailing whitespace runs |
| TextFacts.TrimDecompose | src/utils/tutorLogic.ts:4 | the input is its leading whitespace, then the trimmed text, then its trailing whitespace |
| Text.Collapse | src/utils/tutorLogic.ts:4 | never longer than the input; what the result looks like is stated by `Text.CollapseSingleSpaced`, and which words survive by `TextFacts.CollapseIncludes` |
| Text.CollapseSingleSpaced | src/utils/tutorLogic.ts:4 | after collapsing, whitespace is single spaces and never two in a row |
| Text.Split | src/utils/tutorLogic.ts:10 | at least one part, and no part contains the separator |
| Text.SplitJoin | src/utils/tutorLogic.ts:10 | joining the parts with the separator gives back the input |
| Text.BeforeFirst | src/utils/tutorLogic.ts:29 | the longest separator-free prefix: a prefix without the separator, followed by the separator or the end |
| Text.Take | src/utils/tutorLogic.ts:52-54 | the prefix of length n, or the whole text when it is shorter |
| Text.CloseFrom | src/utils/tutorLogic.ts:33 | the first `)` reached before any line terminator, or none exists there |
| Text.OpenFrom | src/utils/tutorLogic.ts:33 | the leftmost `(`…`)` pair with no `)` or line terminator between, and every earlier pair is broken by a line terminator |
| Text.FirstParenGroup | src/utils/tutorLogic.ts:33 | a found group holds no `)` and no line terminator and sits in parentheses at a position before which no `(` closes on its own line; there is no group exactly when no `(` anywhere closes on its own line |
| TextFacts.TrimPadding | src/utils/tutorLogic.ts:4 | whitespace padding on either side does not change `trim` |
| TextFacts.CollapseFixesSingleSpaced | src/utils/tutorLogic.ts:4 | collapsing leaves single-spaced text unchanged, so collapsing twice is collapsing once |
| TextFacts.SplitWord | src/utils/tutorLogic.ts:10 | splitting text that begins with a separator-free word yields that word followed by the parts of the rest |
| TextFacts.CollapseRun | src/utils/tutorLogic.ts:4 | any non-empty whitespace run collapses exactly like one space |
| TextFacts.CollapseIncludes | src/utils/tutorLogic.ts:4-11 | collapsing neither creates nor destroys an occurrence of a whitespace-free word |
| TextFacts.TrimIncludes | src/utils/tutorLogic.ts:4-11 | trimming neither creates nor destroys an occurrence of a whitespace-free word |
| Types.EffectiveCap | src/utils/tutorLogic.ts:23 | an absent cap and a cap of 0 both mean five; any other cap is kept |
| TutorLogic.Normalize | src/utils/tutorLogic.ts:4-7 | the normal form is single-spaced with visible ends |
| TutorLogic.Clean | src/utils/tutorLogic.ts:15-16 | no comma, whitespace or capital `R` remains; a single character is deleted exactly when it is one of those and kept otherwise |
| TutorFacts.CleanAppend | src/utils/tutorLogic.ts:15-16 | cleaning a concatenation cleans each part; with the single-character case of `TutorLogic.Clean` this fixes the result on every text |
| TutorLogic.Keywords | src/utils/tutorLogic.ts:10 | every keyword is longer than three characters, and a space-separated token longer than three occurs among the keywords exactly as often as in the text; shorter tokens never do |
| TutorLogic.LongTokens | src/utils/tutorLogic.ts:10 | every kept token is longer than three characters; each longer token is kept as many times as it occurs, each shorter one never |
| TutorLogic.MatchCount | src/utils/tutorLogic.ts:11 | never more matches than keywords; the exact count is stated by `TutorFacts.MatchCountCountsPositions` |
| TutorFacts.MatchCountCountsPositions | src/utils/tutorLogic.ts:11 | the count is the number of keyword positions, repeats included, whose keyword occurs in the normalised answer |
| TutorLogic.CheckAnswer | src/utils/tutorLogic.ts:3-19 | an answer with the same normal form as the correct one is always accepted, on both paths; the short path is characterised by `TutorFacts.ShortAnswerIff`, the long path by `TutorFacts.LongAnswerIff` |
| TutorLogic.KeywordsOccur | src/utils/tutorLogic.ts:10-11 | every keyword occurs in the text it was drawn from, so all of them match there |
| TutorLogic.FirstClause | src/utils/tutorLogic.ts:29 | the explanation up to its first period |
| TutorLogic.FocusClause | src/utils/tutorLogic.ts:61 | with no period, the whole explanation; otherwise the text between the first and second periods when that is non-empty, else the text before the first period |
| TutorLogic.PartsIncluded | src/utils/tutorLogic.ts:61 | every part of a split occurs in the text |
| TutorLogic.ConceptHint | src/utils/tutorLogic.ts:29 | opens with the core-concept lead-in; when it is given is stated by `TutorFacts.ConceptHintExactly` |
| TutorLogic.OptionsHint | src/utils/tutorLogic.ts:31-38 | the "last try" text exactly when the question has no parenthesised group, the options lead-in otherwise |
| TutorLogic.WorkingsHint | src/utils/tutorLogic.ts:50-54 | opens with the key-points lead-in for long answers and the clue lead-in otherwise; when it is given is stated by `TutorFacts.WorkingsHintExactly` |
| TutorLogic.ContrastHint | src/utils/tutorLogic.ts:56-61 | opens with the getting-closer lead-in for a short answer containing `/`, the focus lead-in otherwise; when it is given is stated by `TutorFacts.ContrastHintExactly` |
| TutorLogic.ConceptHintDistinct | src/utils/tutorLogic.ts:21-75 | the conceptual hint never coincides with any other hint |
| TutorLogic.WorkingsHintDistinct | src/utils/tutorLogic.ts:21-75 | the workings hint never coincides with the contrast, final or review hint |
| TutorLogic.ContrastHintDistinct | src/utils/tutorLogic.ts:21-75 | the contrast hint never coincides with the final or review hint, nor the final hint with the review hint |
| TutorLogic.CeilTenths | src/utils/tutorLogic.ts:80-81 | the least integer at or above `m*tenths/10` |
| TutorLogic.CalculateMarks | src/utils/tutorLogic.ts:77-82 | 0 when wrong, full marks on attempt 1, 90% and 80% rounded up after, always within `[0, maxMarks]` |
| TutorFacts.NormalizeIgnoresCase | src/utils/tutorLogic.ts:4 | lower-casing first does not change the normal form |
| TutorFacts.NormalizeIgnoresPadding | src/utils/tutorLogic.ts:4 | surrounding whitespace does not change the normal form |
| TutorFacts.NormalizeIgnoresRunLength | src/utils/tutorLogic.ts:4 | a whitespace run and a single space normalise alike |
| TutorFacts.CheckAnswerDependsOnNormalForms | src/utils/tutorLogic.ts:3-19 | the verdict depends only on the two normal forms |
| TutorFacts.CheckAnswerIgnoresCase | src/utils/tutorLogic.ts:3-19 | the verdict ignores letter case |
| TutorFacts.CheckAnswerIgnoresPadding | src/utils/tutorLogic.ts:3-19 | the verdict ignores leading and trailing whitespace on both sides |
| TutorFacts.CheckAnswerIgnoresRunLength | src/utils/tutorLogic.ts:3-19 | the verdict ignores the length of whitespace runs on both sides |
| TutorFacts.CleanCollapse | src/utils/tutorLogic.ts:15-16 | deleting whitespace after collapsing equals deleting it outright |
| TutorFacts.CleanWithoutCapitalR | src/utils/tutorLogic.ts:15-16 | on lower-cased text the capital `R` in the class deletes nothing |
| TutorFacts.ShortAnswerIff | src/utils/tutorLogic.ts:15-18 | a short answer is right iff both sides agree after lower-casing and deleting commas and whitespace |
| TutorFacts.ShortAnswerSymmetric | src/utils/tutorLogic.ts:15-18 | the short-answer verdict is symmetric |
| TutorFacts.KeywordsAreWords | src/utils/tutorLogic.ts:10 | every keyword is whitespace-free |
| TutorFacts.NormalizeKeepsWords | src/utils/tutorLogic.ts:4-11 | a whitespace-free word occurs in the normal form iff it occurs in the lower-cased input |
| TutorFacts.MatchCountMonotone | src/utils/tutorLogic.ts:11 | a text containing every keyword another contains matches at least as many |
| TutorFacts.MatchCountOnLowerCase | src/utils/tutorLogic.ts:4-11 | counting keywords in the normal form equals counting in the lower-cased answer |
| TutorFacts.LongAnswerIff | src/utils/tutorLogic.ts:9-13 | a long answer is accepted exactly when five times the number of keyword positions occurring in the lower-cased answer is at least three times the number of keywords, the 60% rule on integers |
| TutorFacts.LongAnswerByCount | src/utils/tutorLogic.ts:9-13 | the same rule stated with the keyword count taken on the lower-cased answer |
| TutorFacts.LongAnswerMonotone | src/utils/tutorLogic.ts:9-13 | adding text around an accepted long answer keeps it accepted |
| TutorFacts.NoKeywordsAcceptsAll | src/utils/tutorLogic.ts:12 | with no keywords every long answer is accepted |
| TutorFacts.CapTwoConceptWins | src/utils/tutorLogic.ts:27-29 | on a two-attempt question the concept hint wins at one attempt left |
| TutorLogic.GenerateHint | src/utils/tutorLogic.ts:21-75 | the hint for the attempts left; which count gets which hint is stated tier by tier by the five lemmas below |
| TutorFacts.ConceptHintExactly | src/utils/tutorLogic.ts:26-48 | the conceptual hint is given exactly with one attempt fewer than the cap when the cap is at most three, and with four attempts left otherwise |
| TutorFacts.WorkingsHintExactly | src/utils/tutorLogic.ts:50-54 | the workings hint is given exactly with three attempts left under a cap above three |
| TutorFacts.ContrastHintExactly | src/utils/tutorLogic.ts:56-61 | the contrast hint is given exactly with two attempts left under a cap above three |
| TutorFacts.OptionsHintExactly | src/utils/tutorLogic.ts:31-70 | the final hint is given exactly with one attempt left unless the cap is two; it lists the options only when the cap is at most three |
| TutorFacts.ReviewHintExactly | src/utils/tutorLogic.ts:21-75 | the review text appears exactly when no tier matches |
| TutorFacts.FirstParenGroupOf | src/utils/tutorLogic.ts:33 | the regex captures the first parenthesised group on one line |
| TutorFacts.FinalHintListsOptions | src/utils/tutorLogic.ts:31-35 | on a three-attempt question, the last hint quotes the options |
| TutorFacts.MarksNonIncreasing | src/utils/tutorLogic.ts:77-82 | marks never grow with the attempt count |
| TutorExamples.CurrencyFormattingTolerated | src/utils/tutorLogic.ts:15-18 | `r1,704,000` is accepted for `R1 704 000` |
| TutorExamples.CurrencyLetterKept | src/utils/tutorLogic.ts:15-18 | `R1 704 000` is rejected for `1704000` |
| TutorExamples.FourWordKeywords | src/utils/tutorLogic.ts:9-10 | four words longer than three characters, single-spaced and already normal, are exactly the keywords |
| TutorExamples.ThreeOfFourKeywordsAccepted | src/utils/tutorLogic.ts:9-13 | `Cash, bank and loan` is accepted for `cash bank loan debt`: three of four keywords is at least 60% |
| TutorExamples.TwoOfFourKeywordsRejected | src/utils/tutorLogic.ts:9-13 | `Cash and bank` is rejected for `cash bank loan debt`: two of four keywords is below 60% |
| TutorExamples.MarksOnTenMarkQuestion | src/utils/tutorLogic.ts:77-82 | 10, 9, 8 and 0 marks for attempt 1, 2, 3 and a wrong answer |
| StatsTracker.DefaultStats | src/utils/statsTracker.ts:15-27 | a valid record with every counter, the time spent, the accuracy and the improvement zero, no date and empty lists |
| StatsTracker.LoadStats | src/utils/statsTracker.ts:29-32 | the saved record, or the default one; stated by `StatsTracker.LoadAfterSave` and `StatsTracker.LoadBeforeSave` |
| StatsTracker.SaveStats | src/utils/statsTracker.ts:34-36 | stores the record; stated by `StatsTracker.LoadAfterSave` and `StatsTracker.SaveLoadIdempotent` |
| StatsTracker.LoadAfterSave | src/utils/statsTracker.ts:29-36 | loading returns what was saved last |
| StatsTracker.LoadBeforeSave | src/utils/statsTracker.ts:29-32 | with nothing saved, loading gives the default record |
| StatsTracker.SaveLoadIdempotent | src/utils/statsTracker.ts:29-36 | saving what was loaded changes nothing a later load sees |
| StatsTracker.RemoveArea | src/utils/statsTracker.ts:77 | removes exactly the tag and keeps the list free of duplicates; a one-element list loses its element exactly when it is the tag |
| StatsTracker.RemoveAreaAppend | src/utils/statsTracker.ts:77 | removal works on each part of a concatenation in place, so with the one-element case the remaining areas keep their order |
| StatsTracker.AddArea | src/utils/statsTracker.ts:73-75 | adds exactly the tag at the end if absent, keeping the list free of duplicates |
| StatsTracker.NextStreak | src/utils/statsTracker.ts:59-68 | yesterday extends the streak, today keeps it, anything else restarts it at 1 |
| StatsTracker.SameDayStreakStable | src/utils/statsTracker.ts:59-68 | a second practice on the same day leaves the streak alone |
| StatsTracker.ConsecutiveDaysExtendStreak | src/utils/statsTracker.ts:59-68 | n consecutive days each add one to the streak |
| StatsTracker.MissedDayResetsStreak | src/utils/statsTracker.ts:66-67 | a gap of more than a day resets the streak to 1 |
| StatsTracker.GetQuestionType | src/utils/statsTracker.ts:104-118 | the topic table searched by `StatsTracker.FirstMatch`, whose contract states the result |
| StatsTracker.FirstMatch | src/utils/statsTracker.ts:104-118 | the label of the first key contained in the number, else the general label |
| StatsTracker.SubQuestionMatchesEarlierKey | src/utils/statsTracker.ts:106 | `3.1.1` is filed under Basic Concepts |
| StatsTracker.LaterPaperMatchesInnerKey | src/utils/statsTracker.ts:106-109 | `4.2.1` is filed under Stock Valuation |
| Text.NotIncluded | src/utils/statsTracker.ts:106-115 | a word whose ends match no window of the text does not occur in it, as `includes` decides |
| StatsTracker.ShortNumberIsGeneral | src/utils/statsTracker.ts:117 | a number with no key falls back to General Accounting |
| StatsTracker.RecordOutcome | src/utils/statsTracker.ts:43-91 | one more question, exactly one of correct or incorrect, time added, accuracy and improvement recomputed, streak rule, the tag moved between the area lists: the list it joins keeps its old order as a prefix and grows by at most the tag, the list it leaves is that list with the tag filtered out in order (pinned by `StatsTracker.RemoveAreaAppend`); other tags keep their membership, validity kept |
| StatsTracker.NewAreaGoesLast | src/utils/statsTracker.ts:73-82 | a topic joining the strong or weak list for the first time is appended after the topics already there, in their old order |
| StatsTracker.UpdateStats | src/utils/statsTracker.ts:38-92 | the saved record is the recorded outcome for the question's topic |
| StatsTracker.AccuracyBounds | src/utils/statsTracker.ts:55-57 | a valid record's accuracy lies between 0 and 100 |
| StatsTracker.AreaFollowsLatestOutcome | src/utils/statsTracker.ts:70-84 | after a right then a wrong answer on a topic, it is weak and not strong |
| StatsTracker.StartNewSession | src/utils/statsTracker.ts:94-102 | one more session and no other field changed |
| App.Landing | src/App.tsx:13-19 | no paper, index 0, nothing in flight, not initialised |
| App.InitialStates | src/App.tsx:73-78 | one fresh state per question with the question's cap |
| App.SelectPaper | src/App.tsx:62-89 | paper open at index 0, fresh states, one more session, a greeting if there is a question, consistency established |
| App.Grade | src/App.tsx:189-260 | evaluating a non-shortcut answer changes only the current question's state (and the statistics), keeps the position, and appends the answer followed by exactly one tutor reply |
| App.Submit | src/App.tsx:122-262 | a guarded no-op, or a change to the current state only, with the learner's message and one reply appended |
| App.Skip | src/App.tsx:264-294 | only the current state can change; position and statistics are kept |
| App.Back | src/App.tsx:296-317 | one question back, or out to the paper list from the first; progress and statistics kept |
| App.TotalMarks | src/App.tsx:109 | the marks earned over all states; bounded by `AppFacts.TotalWithinMaximum` |
| App.MaxPossibleMarks | src/App.tsx:110 | the maximum marks over all questions; compared by `AppFacts.TotalWithinMaximum` |
| App.AnsweredCount | src/App.tsx:111 | never more than the number of states; the exact count is stated by `AppFacts.AnsweredCountCountsAnswered` |
| AppFacts.AnsweredCountCountsAnswered | src/App.tsx:111 | the count is the number of states completed without being skipped |
| App.Advance | src/App.tsx:91-120 | the next question, or the closing totals after the last |
| AppFacts.SubmitGuards | src/App.tsx:130-158 | each guard alone makes submission a no-op |
| AppFacts.ShortcutIff | src/App.tsx:160-188 | progress, statistics and schedule stay unchanged exactly for the four shortcut words |
| AppFacts.ShortcutsAreCaseSensitive | src/App.tsx:161 | `Simplify` is a shortcut, `simplify` is not |
| AppFacts.CorrectAnswerCompletes | src/App.tsx:198-221 | completed with the marks for attempt `6 - attemptsRemaining`, attempts kept, one correct outcome recorded, move scheduled |
| AppFacts.WrongAnswerCountsDown | src/App.tsx:247-257 | one attempt fewer, the hint for the attempts left, nothing recorded |
| AppFacts.WrongAnswerExhausts | src/App.tsx:222-246 | closed with no marks and no attempts, answer revealed, one incorrect outcome, move scheduled |
| AppFacts.FirstTryOnTwoAttemptQuestion | src/App.tsx:199-200 | a right first answer on a two-attempt question earns 80% rounded up, short of full marks iff the maximum is at least 5 |
| AppFacts.SkipSetsAside | src/App.tsx:264-294 | an open question is set aside with no marks and five attempts, a closed one is left alone |
| AppFacts.SkippedStillSubmittable | src/App.tsx:154 | a skipped question still passes the submit guards |
| AppFacts.TotalWithinMaximum | src/App.tsx:109-110 | the sum of marks lies between 0 and the sum of maxima |
| AppFacts.FinalTallyWithinMaximum | src/App.tsx:108-119 | the closing total lies within the maximum and the answered count within the question count |
| AppFacts.AnsweredCountUpdate | src/App.tsx:111 | changing an unanswered state to another unanswered one keeps the count |
| AppFacts.SkipNotCountedAsAnswered | src/App.tsx:111 | a skip never adds to the answered count |
| AppFacts.LandingConsistent | src/App.tsx:13-19 | the landing state is consistent |
| AppFacts.SubmitKeepsConsistent | src/App.tsx:122-262 | submission keeps the session consistent, so an open question always has an attempt left |
| AppFacts.SkipKeepsConsistent | src/App.tsx:264-294 | skipping keeps the session consistent |
| AppFacts.BackKeepsConsistent | src/App.tsx:296-317 | going back keeps the session consistent |
| AppFacts.AdvanceKeepsConsistent | src/App.tsx:91-120 | advancing keeps the session consistent |
| AppFacts.OpenQuestionsHaveAttempts | src/App.tsx:223-258 | in a consistent session an open question has an attempt left and no marks |
| AppFacts.TwoWrongAnswers | src/App.tsx:222-258 | on a five-mark two-attempt question, two wrong answers give the concept hint and then close the question with no marks |
| AppFacts.RightFirstAnswer | src/App.tsx:198-221 | the same question answered right first time with nothing recorded before: 4 marks, one correct answer, accuracy 100 |
| AppFacts.FirstOutcomeOfFreshRecord | src/utils/statsTracker.ts:46-57 | the first right answer on a record with no answers gives accuracy 100 |
| AppFacts.SkipOnlyQuestion | src/App.tsx:264-294 | skipping the only question then moving on reports 0 of 5 marks and 0 of 1 answered |

## Left out

- **Rendering.** The rendering components, the dashboard, file/camera/voice uploads (`src/App.tsx:319-330`) and the mobile-keyboard and image hooks are presentation or I/O.
- **Timers.**
  - The timers are dropped. A handler's delayed reply happens inside its transition, and the delayed move to the next question is the separate function `Advance`.
  - Interleavings are not modelled: a learner's action landing between a handler and its delayed step.
  - Nor are the stale reads a delayed `moveToNextQuestion` makes of the progress captured when it was scheduled.
- **`isProcessing`.** It is only a guard. The model never leaves it set.
- **`hasUserMessage` and `showDashboard`.** They drive the display only.
- **Message text.** Message wording, ids and timestamps are left out. A message is its kind plus the values it reports.
- **Storage.** `localStorage` and JSON are replaced by an in-memory slot. A stored record that fails to parse is not modelled.
- **Dates.** Locale date strings, and how they parse back, are replaced by integer day numbers.
- **Floating point.** There is no IEEE rounding. The division by zero that `updateStats` would do on a corrupt record with `totalQuestions == -1` yields 0 here.
- **Unicode.** Case mapping and the whitespace class cover ASCII only. A Dafny string is a sequence of characters, while JavaScript's `length` and `substring` count UTF-16 code units. Outside the Basic Multilingual Plane the two differ, and with them the keyword test (longer than three) and the 80- and 50-character cuts in the workings hint.
- **Empty papers.** Opening a paper without questions makes the source's delayed greeting fail, and a skip on it fails when it reads the missing state (`src/App.tsx:268-270`). `App.WellFormedPaper` requires at least one question, so no consistent session holds such a paper; outside that invariant the model's `SelectPaper` sends no greeting and its `Skip` does nothing. A submission with no state returns early in the source as in the model (`src/App.tsx:148-152`).
- **`handleSelectPaper`.** It always opens the one bundled paper. The model takes the paper as a parameter and sends the greeting only when the paper has a question.
- **Static data.** The bundled question data (`src/data/papers.ts`) is not modelled.
