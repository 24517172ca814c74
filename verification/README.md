# Study-Mate AI front end: session controllers and page helpers

This project models the client-side logic of the Study-Mate AI web front end in Dafny. Users
upload a document and are sent to pages that show AI-generated flashcards and quizzes. The model
covers four pieces and proves properties about them:

- **Quiz page** (`quiz.dfy`, module `Quiz`). Backend questions are mapped to `QuizQuestion`
  records. The session controller is a class whose fields are the page's React state: lifecycle
  state, questions, index, selection, results, the two timestamps and the feedback flag. It has
  the handlers `startQuiz`, the option selector, `submitAnswer`, `nextQuestion` and
  `restartQuiz`. The completed screen derives the score, percentage, message and colour tiers,
  the per-question review lookup and the "hard questions correct" tile.
- **Flashcards page** (`flashcards.dfy`, module `Flashcards`). Backend cards are mapped to
  `Flashcard` records. The study controller is a class holding the deck, the current index, the
  flip side, the view mode and the set of mastered ids. Its handlers are next, previous, flip,
  "shuffle" (a jump to one random card), toggling mastery, the grid click and the view switch.
  The page also shows mastered and to-review counts.
- **Results dashboard** (`results.dfy`, module `Results`). It models `formatDuration`, the
  scored-quiz filter with the rounded average score, and the per-category counts and percentages.
- **Upload page** (`upload.dfy`, module `Upload`). It models the synchronous part of
  `handleFileSelect` (records appended to the file list), `removeFile`, and the `handleProcessing`
  routing decision.

`common.dfy` (module `Common`) holds the JavaScript number semantics the pages rely on:
- `String(n)` and its inverse.
- The truncating `%` operator.
- `Math.round` of a quotient, on exact rationals as `(2a + b) / (2b)`.
- The rounded percentage shared by the quiz score and the category shares.

Clock readings (`Date.now()`), `Math.random()`, the random file ids and whether a document id is
stored are parameters of the handlers. Navigation is a returned `Route`. Backend responses are
plain inputs to the mapping functions.

The page handlers are not guarded themselves. A user can only reach them through controls the
page renders, so the quiz controller states those render conditions as predicates
(`StartShown`, `OptionsEnabled`, `SubmitEnabled`, `NextShown`, `RestartShown`). It proves that
the invariant `Consistent` survives every click on a rendered, enabled control. `Consistent` says:
- The state is never `Feedback`.
- `results[k]` answers `questions[k]`.
- There is exactly one result per question answered so far.

Where the code does something other than its names suggest, the model follows the code:
- `submitAnswer` never moves to a `feedback` state. The `Feedback` value of the state type is
  never assigned, and the feedback phase is `Active` with `showFeedback` set.
- `restartQuiz` does not reset `startTime`.
- The option selector stores `parseInt` of the chosen value without checking it against the
  number of options.
- "Summary" leads to the results page. "Simple Explanation" leads nowhere and only clears the
  processing type.

## Model

| member | source | states |
|---|---|---|
| Common.NatToString | frontend/app/quiz/page.tsx:79 | `String(n)` of a natural number is a non-empty digit string without a leading zero |
| Common.IntToString | frontend/app/results/page.tsx:122-125 | `String(i)` of an integer is non-empty and starts with '-' exactly when i is negative |
| Common.ParseNatToString | frontend/app/quiz/page.tsx:79 | reading the decimal rendering of n back gives n |
| Common.ParseIntToString | frontend/app/results/page.tsx:122-125 | the rendering of any integer is well formed and reads back as that integer |
| Common.NatToStringInjective | frontend/app/flashcards/page.tsx:45 | distinct numbers render as distinct strings |
| Common.JsRem | frontend/app/flashcards/page.tsx:114 | JavaScript `%` for a positive divisor: below the divisor in magnitude, equal to the Euclidean remainder for a non-negative dividend, never positive for a negative one, and always congruent to the dividend modulo the divisor, so it is JavaScript's truncated remainder |
| Common.RoundDiv | frontend/app/results/page.tsx:182 | `Math.round(a / b)` is the integer within half a unit of a/b, halves rounded up |
| Common.RoundDivBetween | frontend/app/results/page.tsx:182 | a quotient between lo and hi rounds to a value between lo and hi |
| Common.RoundDivExact | frontend/app/results/page.tsx:182 | an exact quotient k is left as k by rounding |
| Common.Percentage | frontend/app/quiz/page.tsx:263 | `Math.round((part / whole) * 100)` lies in 0..100 for 0 <= part <= whole, is 100 for the whole and 0 for nothing |
| Common.PercentageBounds | frontend/app/quiz/page.tsx:263 | the rounded percentage stays within 0..100 and hits 100 and 0 at the ends |
| Common.PercentageMonotone | frontend/app/quiz/page.tsx:263 | a larger part never shows a lower percentage |
| Quiz.MapQuestions | frontend/app/quiz/page.tsx:78-86 | question i gets id "i+1" (digits without a leading zero, reading back as i+1); text, options and answer index are copied; explanation "", difficulty medium, category "General" |
| Quiz.MappedQuestionIdsDistinct | frontend/app/quiz/page.tsx:79 | the loaded questions have pairwise distinct ids |
| Quiz.CorrectResults | frontend/app/quiz/page.tsx:47 | the filter keeps exactly the correct results and never grows the list |
| Quiz.Score | frontend/app/quiz/page.tsx:47 | the score never exceeds the number of results |
| Quiz.ScoreAppend | frontend/app/quiz/page.tsx:109 | appending a result raises the score by one exactly when that result is correct |
| Quiz.ScoreAllCorrect | frontend/app/quiz/page.tsx:47 | the score equals the number of results exactly when every result is correct |
| Quiz.ThresholdsReached | frontend/app/quiz/page.tsx:145-157 | a tier number never exceeds the number of thresholds |
| Quiz.ThresholdsReachedMonotone | frontend/app/quiz/page.tsx:145-157 | a higher percentage never reaches a lower tier |
| Quiz.MessageTier | frontend/app/quiz/page.tsx:151-157 | the message tier counts the inclusive bounds 60, 70, 80 and 90 that the percentage reaches |
| Quiz.ColorTier | frontend/app/quiz/page.tsx:145-149 | the colour tier counts the inclusive bounds 60 and 80 that the percentage reaches |
| Quiz.ScoreMessage | frontend/app/quiz/page.tsx:151-157 | `getScoreMessage` returns the message of the highest tier (>=90, >=80, >=70, >=60, else) the percentage reaches |
| Quiz.ScoreColor | frontend/app/quiz/page.tsx:145-149 | `getScoreColor` returns the colour of the highest tier (>=80, >=60, else) the percentage reaches |
| Quiz.ScoreMessageDistinguishesTiers | frontend/app/quiz/page.tsx:151-157 | two percentages get the same message exactly when they reach the same tier |
| Quiz.ColorFollowsMessage | frontend/app/quiz/page.tsx:145-157 | each colour tier spans two message tiers, with red for the lowest tier alone |
| Quiz.FourOfFiveExample | frontend/app/quiz/page.tsx:263 | four correct out of five show 80%, the lowest "Great job" percentage; 79 would be "Good work" |
| Quiz.FindIndex | frontend/app/quiz/page.tsx:333 | `find` stops at the first result for the question id, or reports that none exists |
| Quiz.FindIndexFirst | frontend/app/quiz/page.tsx:333 | a match with no match before it is exactly where `find` stops |
| Quiz.FindResult | frontend/app/quiz/page.tsx:333 | the review finds nothing exactly when no result carries the id, else the first result for it |
| Quiz.ReviewCorrect | frontend/app/quiz/page.tsx:334 | a question is marked correct exactly when its first result is correct, and never without a correct result for it |
| Quiz.ReviewFindsOwnResult | frontend/app/quiz/page.tsx:332-334 | with distinct ids and results[k] answering questions[k], the review of question i shows results[i] |
| Quiz.FindQuestion | frontend/app/quiz/page.tsx:316 | `questions.find` returns a question of the list with the requested id, namely the first such one, and nothing exactly when none has it |
| Quiz.HardCorrect | frontend/app/quiz/page.tsx:315-317 | the "Hard Questions Correct" tile never exceeds the score |
| Quiz.HardCorrectOfLoaded | frontend/app/quiz/page.tsx:315-317 | for loaded questions, all marked medium, the tile always reads 0 |
| Quiz.Grade | frontend/app/quiz/page.tsx:99-107 | the recorded result names the current question, the selection and the elapsed time, and is correct exactly when the selection is the correct answer |
| Quiz.QuizSession.StartShown | frontend/app/quiz/page.tsx:195-257 | the setup screen with "Start Quiz" never shows with the completed screen, and in a consistent session it shows only with no results |
| Quiz.QuizSession.ActiveView | frontend/app/quiz/page.tsx:181-192 | with questions loaded exactly one of the setup, question and completed screens is rendered; on the question screen the index names a question |
| Quiz.QuizSession.OptionsEnabled | frontend/app/quiz/page.tsx:421-424 | the options accept a choice only on the question screen, and in a consistent session only while the current question has no result yet |
| Quiz.QuizSession.SubmitEnabled | frontend/app/quiz/page.tsx:487-490 | "Submit Answer" is enabled only with a selection and enabled options, and then the index names a question |
| Quiz.QuizSession.NextShown | frontend/app/quiz/page.tsx:491-495 | "Next Question" replaces "Submit Answer" and disables the options; in a consistent session the current question's result has just been recorded |
| Quiz.QuizSession.RestartShown | frontend/app/quiz/page.tsx:260 | the completed screen with "Retake Quiz" shows, in a consistent session, only once every question has a result |
| Quiz.QuizSession.Consistent | frontend/app/quiz/page.tsx:484 | the score never exceeds the results or the question count, and during a quiz the running score `score/(index + feedback)` never exceeds its denominator |
| Quiz.QuizSession.constructor | frontend/app/quiz/page.tsx:34-41 | after mount and a load, the session is in setup with the mapped questions, nothing selected and no results; it is consistent and its question ids are distinct |
| Quiz.QuizSession.SyncQuestionClock | frontend/app/quiz/page.tsx:50-54 | the question clock is stamped only when the quiz is active and no stamp exists |
| Quiz.QuizSession.StartQuiz | frontend/app/quiz/page.tsx:56-68 | with no questions it alerts and changes nothing; otherwise it starts at question 0, with no selection, no results, no feedback and both clocks at `now` |
| Quiz.QuizSession.SelectAnswer | frontend/app/quiz/page.tsx:421-424 | the selection becomes the parsed option index; consistency is kept |
| Quiz.QuizSession.SubmitAnswer | frontend/app/quiz/page.tsx:96-111 | without a selection nothing changes; otherwise exactly one graded result is appended after the old ones and feedback is shown; a click on the enabled button keeps consistency and swaps in the Next button |
| Quiz.QuizSession.NextQuestion | frontend/app/quiz/page.tsx:113-122 | before the last question it advances, clearing selection and feedback and restarting the question clock; on the last it completes and keeps the index; the index stays in range |
| Quiz.QuizSession.RestartQuiz | frontend/app/quiz/page.tsx:124-130 | from any state back to setup with index 0, no selection, no results and no feedback; the session start time is kept |
| Quiz.QuizSession.CompletedPercentage | frontend/app/quiz/page.tsx:260-263 | the completed screen's percentage lies in 0..100 and is 100 when every answer is correct |
| Quiz.QuizSession.CompletedReview | frontend/app/quiz/page.tsx:333-334 | on the completed screen of a consistent session whose question ids are distinct (as the constructor leaves them, and no handler changes the questions), the review marks question i correct exactly when the answer recorded for it was correct |
| Flashcards.MapCards | frontend/app/flashcards/page.tsx:44-51 | card i gets id "i+1" (digits without a leading zero, reading back as i+1); question and answer are copied in order; category "General", difficulty medium, not mastered |
| Flashcards.MappedCardIdsDistinct | frontend/app/flashcards/page.tsx:45 | the loaded cards have pairwise distinct ids |
| Flashcards.CardIds | frontend/app/flashcards/page.tsx:330 | the id set holds every card's id and has at most one id per card |
| Flashcards.NotInCardIds | frontend/app/flashcards/page.tsx:330 | an id that no card carries is not in the id set |
| Flashcards.DistinctCardIdsCount | frontend/app/flashcards/page.tsx:190 | a deck with distinct ids has one id per card |
| Flashcards.LoadedDeckIdCount | frontend/app/flashcards/page.tsx:44-51 | a loaded deck has as many distinct ids as cards, so nothing is counted twice in the tiles |
| Flashcards.NextIndex | frontend/app/flashcards/page.tsx:114 | `(i + 1) % n` stays in range and wraps from the last card to the first |
| Flashcards.PrevIndex | frontend/app/flashcards/page.tsx:119 | `(i - 1 + n) % n` stays in range and wraps from the first card to the last |
| Flashcards.PrevUndoesNext | frontend/app/flashcards/page.tsx:113-121 | previous after next, and next after previous, restore the index |
| Flashcards.Advance | frontend/app/flashcards/page.tsx:113-116 | any number of "next" presses keeps the index in range |
| Flashcards.AdvanceIsRemainder | frontend/app/flashcards/page.tsx:114 | k presses of "next" from i land on (i + k) mod n |
| Flashcards.FullCycle | frontend/app/flashcards/page.tsx:113-116 | n presses of "next" return to the starting card |
| Flashcards.ShuffleIndex | frontend/app/flashcards/page.tsx:129 | `Math.floor(r * n)` for r in [0, 1) is a valid index and the floor of r * n |
| Flashcards.ThreeCardExample | frontend/app/flashcards/page.tsx:113-131 | on three cards, next from 0 gives 1 and a shuffle drawing 0.5 gives 1 |
| Flashcards.Toggled | frontend/app/flashcards/page.tsx:133-143 | toggling flips the membership of the given id and leaves every other id as it was |
| Flashcards.ToggleTwice | frontend/app/flashcards/page.tsx:133-143 | toggling the same id twice restores the set |
| Flashcards.ToReview | frontend/app/flashcards/page.tsx:190 | with mastered ids drawn from the deck, "to review" is non-negative and adds up with "mastered" to the deck size |
| Flashcards.FlashcardSession.constructor | frontend/app/flashcards/page.tsx:23-28 | after mount and a load, the deck is the mapped cards at index 0, unflipped, in study view, nothing mastered |
| Flashcards.FlashcardSession.NextCard | frontend/app/flashcards/page.tsx:113-116 | the index moves to the next card cyclically and the card shows its question |
| Flashcards.FlashcardSession.PrevCard | frontend/app/flashcards/page.tsx:118-121 | the index moves to the previous card cyclically and the card shows its question |
| Flashcards.FlashcardSession.FlipCard | frontend/app/flashcards/page.tsx:123-125 | the flip side is negated, so two flips restore it |
| Flashcards.FlashcardSession.ShuffleCards | frontend/app/flashcards/page.tsx:127-131 | the index jumps to `floor(r * n)`, the card is unflipped and the deck order is untouched |
| Flashcards.FlashcardSession.ToggleMastered | frontend/app/flashcards/page.tsx:133-143 | the mastered set is toggled at the given id; an id of the deck keeps the mastered set inside the deck |
| Flashcards.FlashcardSession.ToggleCurrentMastered | frontend/app/flashcards/page.tsx:330 | the mastery button toggles the card on screen and keeps the mastered set inside the deck |
| Flashcards.FlashcardSession.SelectFromGrid | frontend/app/flashcards/page.tsx:202-206 | a grid click opens the clicked card, unflipped, in study view |
| Flashcards.FlashcardSession.SetViewMode | frontend/app/flashcards/page.tsx:168 | the view switch sets the view mode |
| Flashcards.FlashcardSession.MasteryCounts | frontend/app/flashcards/page.tsx:184-190 | the "Mastered" and "To Review" tiles are non-negative and add up to the deck size |
| Results.FormatDuration | frontend/app/results/page.tsx:119-126 | the label ends in "m" and mentions hours exactly when the duration is at least an hour |
| Results.HourBranchSplitsMinutes | frontend/app/results/page.tsx:120-123 | in the hour branch the minutes shown are below 60 and, with the hours, make up the whole minutes |
| Results.ParseDuration | frontend/app/results/page.tsx:119-126 | reading a label back yields a value only for labels ending in "m" |
| Results.ParseFormatDuration | frontend/app/results/page.tsx:119-126 | every label reads back as the duration's whole minutes `floor(seconds / 60)` |
| Results.FormatDurationSameMinutes | frontend/app/results/page.tsx:119-126 | two durations get the same label exactly when they have the same whole minutes |
| Results.QuizSessions | frontend/app/results/page.tsx:179 | the filter keeps exactly the quiz sessions with a score and never grows the list |
| Results.QuizSessionsAppend | frontend/app/results/page.tsx:179 | filtering a concatenation concatenates the filtered parts, so the original order is kept |
| Results.ScoreSumBounds | frontend/app/results/page.tsx:182 | a sum of scores between lo and hi lies between count * lo and count * hi |
| Results.AverageQuizScore | frontend/app/results/page.tsx:180-183 | 0 without scored quizzes; within 0..100 whenever every score is |
| Results.AverageBounds | frontend/app/results/page.tsx:180-183 | the rounded mean of percentage scores is a percentage |
| Results.AverageOfEqualScores | frontend/app/results/page.tsx:180-183 | when every scored quiz has score v, the average is v |
| Results.FirstIndex | frontend/app/results/page.tsx:323 | the first occurrence of a value is at a position holding it, with no earlier occurrence |
| Results.FirstIndexSnoc | frontend/app/results/page.tsx:323 | appending a value moves no first occurrence, and a new value first occurs at the end |
| Results.Dedup | frontend/app/results/page.tsx:323 | `Array.from(new Set(xs))` holds each value of xs exactly once and nothing else, in the order of first appearance in xs |
| Results.CategoryNames | frontend/app/results/page.tsx:323 | the mapped list holds each session's category at its position |
| Results.Categories | frontend/app/results/page.tsx:323 | the category list is duplicate-free and holds exactly the categories of the sessions |
| Results.CategoryCount | frontend/app/results/page.tsx:324 | a category's count never exceeds the number of sessions; it is 0 exactly when no session has the category and the full session count exactly when every session has it |
| Results.CategoryShare | frontend/app/results/page.tsx:324-325 | the percentage shown for a category lies in 0..100, the count is the category's count, and the percentage is 100 when every session has the category and 0 when none does |
| Results.SumCountsCover | frontend/app/results/page.tsx:323-324 | over a duplicate-free list covering every session's category, the counts add up to the number of sessions |
| Results.CategoryCountsSum | frontend/app/results/page.tsx:323-324 | the per-category counts on the dashboard add up to the number of sessions |
| Upload.NewFiles | frontend/app/upload/page.tsx:31-36 | one record per selected file, in selection order, with its drawn id and the name, size and type copied |
| Upload.WithoutId | frontend/app/upload/page.tsx:87 | removal keeps exactly the files with another id and never grows the list |
| Upload.WithoutIdAppend | frontend/app/upload/page.tsx:87 | removal works piecewise over a concatenation, so the kept files stay in order |
| Upload.WithoutAbsentId | frontend/app/upload/page.tsx:87 | removing an id no file carries leaves the list unchanged |
| Upload.WithoutIdIdempotent | frontend/app/upload/page.tsx:86-88 | removing the same id twice is the same as removing it once |
| Upload.RouteFor | frontend/app/upload/page.tsx:107-110 | "Flashcards", "Quiz" and "Summary" each lead to the page named by that type; any other type leads nowhere |
| Upload.RouteForKindFor | frontend/app/upload/page.tsx:107-109 | each of the three pages is reached from its processing type |
| Upload.RoutesDistinctPaths | frontend/app/upload/page.tsx:107-109 | the three pages have distinct paths |
| Upload.ExplanationHasNoRoute | frontend/app/upload/page.tsx:110 | the "Simple Explanation" type opens no page |
| Upload.ProcessingRoute | frontend/app/upload/page.tsx:98-111 | a page opens exactly when a document id is stored and the type has a route, and then it is the page of that type |
| Upload.Path | frontend/app/upload/page.tsx:107-109 | each page opens at an absolute path other than the upload page |
| Upload.UploadPage.ButtonsEnabled | frontend/app/upload/page.tsx:219 | the four processing buttons are disabled exactly while the type of a page being opened is recorded |
| Upload.UploadPage.constructor | frontend/app/upload/page.tsx:22-26 | the page starts with no files, not uploading, progress 0 and no processing type |
| Upload.UploadPage.HandleFileSelect | frontend/app/upload/page.tsx:28-40 | a null selection changes nothing; otherwise the new records follow the existing files, uploading is on and progress is 15 |
| Upload.UploadPage.RemoveFile | frontend/app/upload/page.tsx:86-88 | the file list becomes the old list without the given id |
| Upload.UploadPage.HandleProcessing | frontend/app/upload/page.tsx:98-111 | returns the decided route; the processing type stays set exactly when a page opens, and is null otherwise, re-enabling the buttons; a type left set always has a page |

## Left out

- The HTTP client (`frontend/lib/api.ts`) is not part of this model. Its responses are inputs to
  `MapQuestions` and `MapCards`, and its error paths are not modelled.
- Browser I/O is left out: the `useEffect` loaders with their loading and error flags,
  `localStorage`, `alert`, `window.location` and `console`. Document-id presence is a boolean
  parameter, the quiz's alert is a returned flag, and navigation is a returned `Route`.
- The `await`, `catch` and `finally` part of `handleFileSelect` (the upload call, storing the
  document id, progress 100, the delayed reset of `isUploading`) is not modelled, because it is
  asynchronous network I/O.
- The drag-over handlers and the `isDragOver` flag are not modelled. They only toggle a CSS class
  and forward to `handleFileSelect`.
- Floating-point display values are not modelled: quiz and flashcard `progress`, the quiz's
  `averageTime`, and `formatFileSize` (`Math.log`, `toFixed`). `formatDate` is locale-dependent
  and `simulateUpload` is timer-driven, so both are left out too.
- JSX rendering, CSS colour and icon lookups, the hard-coded sample sessions and statistics, and
  the flashcards page's `isAutoPlay` flag (never set to true) are not modelled.
- Common.Percentage: computed on exact rationals. The source's `Math.round((a / b) * 100)` works
  in binary floating point, which can differ from the exact value at a .5 boundary.
- Results.AverageQuizScore: computed on exact rationals, like `Percentage`. A score of 0 and a
  missing score both add 0 (`s.score || 0`); a NaN score is not modelled.
- Flashcards.ShuffleIndex: the random draw is a `real` in [0, 1). Floating-point rounding of
  `r * n` is not modelled.
- Quiz.QuizSession.CompletedPercentage: proves only that every answer correct gives 100, not the
  converse. With 200 or more questions, one wrong answer still rounds to 100.
- Quiz.QuizSession.SubmitAnswer: requires a non-empty question list and a valid index. The page
  returns its empty state before any question is rendered, so `currentQuestion` always exists
  when the button can be pressed.
- Flashcards.FlashcardSession.NextCard: requires a non-empty deck, as do `PrevCard`,
  `ShuffleCards` and `ToggleCurrentMastered`. The page renders its empty state instead of these
  controls when there are no cards. With no cards the source would compute `% 0`, which is NaN.
- Quiz.QuizSession.SelectAnswer: requires a non-empty digit string. The radio values are the
  option indices rendered by the page, and `parseInt` of anything else (NaN) is not modelled.
- Common.Percentage: requires a positive whole. The quiz divides by the question count only after
  the empty-list screen has returned (frontend/app/quiz/page.tsx:181-192). The results page divides
  by the session count only inside the map over the category list, which is empty when there are
  no sessions, so the division never runs with zero (frontend/app/results/page.tsx:323-325).
- Upload.NewFiles: the random id drawn for each file is a parameter. The model does not prove the
  ids distinct, because random strings need not be.
