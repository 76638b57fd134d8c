# SAT vocabulary trainer: a verified model of its core

The application is a Next.js trainer for SAT vocabulary. Its catalogue of
words (word, definition, synonym, numeric id) is produced once from a text
list by `parse-words.js`. It offers two study modes:

- a **quiz**: multiple-choice questions whose word is drawn by a roulette
  wheel weighted by the student's own error rate and by the error rate of all
  students;
- a **learning slideshow**: a weighted sample of words drawn without
  replacement.

Every answer updates two counter maps from word id to counts:

- the student's record (kept in browser storage for a guest);
- the shared global statistics file.

From those maps the app derives:

- a per-user statistics page (totals plus four top-10 lists);
- a "top missed words" ranking;
- the end-of-quiz summary.

This project models that core in Dafny and proves what each part promises.

| module (file) | what it models |
|---|---|
| `Wrappers` (`wrappers.dfy`) | `Option`, standing for `undefined`/`null` and for a call that throws |
| `Vocab` (`vocab.dfy`) | words, performance and statistics records, answers, questions; the `Map` lookup of a word by id |
| `RandomSource` (`random_source.dfy`) | `Math.random` as an injected sequence of draws in [0, 1), class `Random` |
| `JsArrays` (`js_arrays.dfy`) | `filter`, `map`, `slice` with JavaScript's index rules, `reverse`, the stable `sort`, `Object.entries` in ascending integer-key order |
| `JsMath` (`js_math.dfy`) | `Math.round`, and `Math.round(100 * c / t)` as the integer formula `(200c + t) div 2t` |
| `JsText` (`js_text.dfy`) | `trim` (ECMAScript white space and line terminators), `split`/`join`, decimal rendering, `padStart(2, '0')`, capitalising the first letter |
| `Roulette` (`roulette.dfy`) | prefix sums of a weight list, and the first index whose running sum reaches a target |
| `QuestionGen` (`question_generator.dfy`) | `lib/questionGenerator.ts`: weights, the wheel, Fisher–Yates, distractors, options, questions; class `QuestionGenerator` |
| `LearningSession` (`learning_session.dfy`) | `components/LearningSession.tsx`: the weighted sample without replacement; class `Slideshow` for next/previous/pause/timer |
| `GlobalStats` (`global_stats.dfy`) | `lib/globalStats.ts`: the counter update and the difficulty weight; class `StatsFile` |
| `Storage` (`storage.dfy`) | `lib/storage.ts`: the guest counter update, word accuracy, the user cache; class `BrowserStorage` |
| `UserStats` (`user_stats.dfy`) | `app/api/user/stats/route.ts`: `calculateUserStats` |
| `TopMissed` (`top_missed.dfy`) | `app/api/stats/top-missed/route.ts`: the ranking pipeline |
| `ResultsSummary` (`results_summary.dfy`) | `components/ResultsSummary.tsx`: counts, missed words, duration text, the message band |
| `QuizSession` (`quiz_session.dfy`) | `components/QuizSession.tsx`: class `Quiz` for answering, auto-advance, the end rules, the timer and submissions; `formatTime` |
| `ParseWords` (`parse_words.dfy`) | `parse-words.js`: the line pattern, trimming, capitalisation, consecutive ids |

Modelling choices:

- **Randomness.** A `Random` object hands out `draw(0), draw(1), …` in order,
  and a method that draws states how many draws it used.
- **Draw-dependent results.** These are specified by pure functions of the
  draws: `Shuffled`, `Distractors`, `Options`, `QuestionFrom`, `Sampled`.
- **Per-call properties.** Facts true for every draw are proved about those
  functions. Examples: the shuffle permutes its input; the sample never takes a
  position twice; the pick is the word whose slot on the wheel holds the draw.
- **State.** Component state (React `useState`) and module-level variables are
  fields of classes, and event handlers are methods over them.
- **Timers.** A `setTimeout`/`setInterval` callback is a separate method
  (`AutoAdvance`, `Tick`), called as an event.
- **Numbers.**
  - Rates and weights are `real`.
  - Counts are `nat`.
  - `Math.round` of a non-negative ratio is its integer formula, proved equal to
    `Math.round` of the real quotient.

Where the code and its own comments or documentation disagree, the model
follows the code:

- The three global-weight multipliers are modelled as written:
  - ×3 in the quiz (`lib/questionGenerator.ts:74`);
  - ×2 in the slideshow (`components/LearningSession.tsx:59`);
  - ×4 in `getGlobalDifficultyWeight` (`lib/globalStats.ts:78`).
- The comment at `lib/globalStats.ts:75-76` promises weight 1 to words with a
  low error rate. The formula gives `1 + 4 × score` to every word with at least
  5 attempts; `GlobalStats.WeightAfterUpdate` states the formula.
- **Fewer than four words in the catalogue.** The question then has fewer than
  four options: `min(4, |words|)` with unique ids.
- **Empty catalogue.** The weighted pick is `undefined`, and `generateOptions`
  then throws a `TypeError` on `correctWord.id`. The throw leaves the quiz
  screen's effect and goes to React's error handling, which replaces the
  screen. The model returns `None` and leaves the quiz state unchanged;
  `generateQuestions` yields `None` unless it is asked for no question.
- **Fallback positions.** When the subtraction loop never reaches zero, the
  quiz's fallback is the last word and the slideshow's is position 0. Both
  fallbacks are modelled; with difficulty scores in [0, 1] the quiz's is proved
  unreachable.
- `recentWords` is the ten entries with the highest word ids, newest first,
  because `Object.entries` lists integer keys in ascending order.
- `parse-words.js`:
  - A line ending in a carriage return never matches, because `.` does not
    match `\r`. A file with CRLF line ends therefore yields no words.
  - The pattern's `[a-z]` with the `i` flag admits ASCII letters only, so
    upper-casing the word's first letter is exact. The definition may start
    with any character, and there the model upper-cases ASCII letters only
    (see `JsText.Capitalize` under "## Left out").
  - A synonym or definition consisting only of spaces trims to the empty string.

## Model

All source paths are in the repository (`sat-vocab-app/…` for the app, `parse-words.js` at the top).

| member | source | states |
|---|---|---|
| `QuestionGen.LocalWeight` | sat-vocab-app/lib/questionGenerator.ts:54-66 | the personal weight lies in [1, 6] and is exactly 1 when the word has no record or no wrong answer |
| `QuestionGen.QuizGlobalWeight` | sat-vocab-app/lib/questionGenerator.ts:69-75 | the global weight is 1 unless the word has an entry with at least 5 attempts; with scores in [0, 1] it lies in [1, 4] |
| `QuestionGen.CombinedWeight` | sat-vocab-app/lib/questionGenerator.ts:80 | local × global weight lies in [1, 24] when scores are in [0, 1] |
| `QuestionGen.Weights` | sat-vocab-app/lib/questionGenerator.ts:50-83 | one weight per catalogue word, in catalogue order, each the word's combined weight |
| `QuestionGen.Pick` | sat-vocab-app/lib/questionGenerator.ts:86-97 | a word is returned exactly when the catalogue is non-empty, and it is a catalogue word |
| `QuestionGen.PickFollowsWheel` | sat-vocab-app/lib/questionGenerator.ts:86-97 | with scores in [0, 1] the pick is the word at the first index whose running weight sum reaches `u × total`; the fallback is never taken |
| `QuestionGen.QuestionGenerator.Spin` | sat-vocab-app/lib/questionGenerator.ts:87-97 | the subtraction loop returns the wheel's pick for the draw |
| `QuestionGen.QuestionGenerator.ComputeWeights` | sat-vocab-app/lib/questionGenerator.ts:53-83 | the `forEach` pushes exactly the combined weights of the catalogue words |
| `QuestionGen.QuestionGenerator.SelectWeightedWord` | sat-vocab-app/lib/questionGenerator.ts:47-98 | uses the user's record when set, else the guest record; makes one draw and returns the wheel's pick for it |
| `QuestionGen.QuestionGenerator.constructor` | sat-vocab-app/lib/questionGenerator.ts:9-12 | holds the catalogue and the statistics given (the quiz screen relies on the default `{}`, passed as `map[]`); no user record |
| `QuestionGen.QuestionGenerator.SetGlobalStats` | sat-vocab-app/lib/questionGenerator.ts:15-17 | replaces the statistics and nothing else |
| `QuestionGen.QuestionGenerator.SetUserPerformance` | sat-vocab-app/lib/questionGenerator.ts:20-22 | sets the user record and nothing else |
| `QuestionGen.Swap` | sat-vocab-app/lib/questionGenerator.ts:128 | the destructuring swap exchanges positions `i` and `j` and keeps every other position |
| `QuestionGen.ShuffledPermutes` | sat-vocab-app/lib/questionGenerator.ts:124-131 | the shuffle returns a permutation of its input: same length, same elements with the same multiplicities |
| `QuestionGen.QuestionGenerator.ShuffleArray` | sat-vocab-app/lib/questionGenerator.ts:124-131 | the descending swap loop on a copy computes the Fisher–Yates shuffle for its draws, using one draw per position above 0; the input is a value and is left as it was |
| `QuestionGen.OtherWordsMembers` | sat-vocab-app/lib/questionGenerator.ts:118 | the filter keeps exactly the catalogue words whose id differs from the correct word's |
| `QuestionGen.OtherWordsLength` | sat-vocab-app/lib/questionGenerator.ts:118 | the filter drops exactly the words carrying the correct id |
| `QuestionGen.Distractors` | sat-vocab-app/lib/questionGenerator.ts:117-121 | `min(count, number of other words)` distractors |
| `QuestionGen.DistractorsMembers` | sat-vocab-app/lib/questionGenerator.ts:117-121 | every distractor is a catalogue word whose id differs from the correct word's |
| `QuestionGen.DistractorsSubMultiset` | sat-vocab-app/lib/questionGenerator.ts:117-121 | the distractors are drawn from the other words without repetition (a sub-multiset) |
| `QuestionGen.DistractorsDistinct` | sat-vocab-app/lib/questionGenerator.ts:117-121 | with unique ids no word is offered twice as a distractor |
| `QuestionGen.QuestionGenerator.GetRandomDistractors` | sat-vocab-app/lib/questionGenerator.ts:117-121 | computes the distractors for its draws, using the draws of one shuffle of the other words |
| `QuestionGen.OptionsFrom` | sat-vocab-app/lib/questionGenerator.ts:110-113 | one option per word, in order: the word's id, with its word when the definition is asked and its definition otherwise |
| `QuestionGen.OptionsSpec` | sat-vocab-app/lib/questionGenerator.ts:101-114 | the options number one more than the distractors, contain the correct word's option, carry the correct id exactly once and show only catalogue words |
| `QuestionGen.OptionsWithUniqueIds` | sat-vocab-app/lib/questionGenerator.ts:101-114 | with unique ids there are `min(4, catalogue size)` options, with distinct ids |
| `QuestionGen.ArrangedPermutes` | sat-vocab-app/lib/questionGenerator.ts:104-107 | the shuffled options are a permutation of the correct word followed by its distractors |
| `QuestionGen.QuestionGenerator.GenerateOptions` | sat-vocab-app/lib/questionGenerator.ts:101-114 | computes the options for its draws: distractors, then a shuffle of the correct word and the distractors |
| `QuestionGen.FindOption` | sat-vocab-app/lib/questionGenerator.ts:32 | `find` returns an option carrying the id, or nothing exactly when no option carries it |
| `QuestionGen.QuestionFromSpec` | sat-vocab-app/lib/questionGenerator.ts:25-35 | a question exists exactly for a non-empty catalogue; it asks a catalogue word, its correct id is the word's id, it contains that option once, it has 1 to 4 options of catalogue words, and with unique ids `min(4, size)` options with distinct ids |
| `QuestionGen.QuestionGenerator.GenerateQuestion` | sat-vocab-app/lib/questionGenerator.ts:25-35 | returns the question drawn from the wheel and the options for its draws, and accounts for every draw made |
| `QuestionGen.QuestionGenerator.GenerateQuestions` | sat-vocab-app/lib/questionGenerator.ts:38-44 | succeeds exactly when no question is needed or the catalogue is non-empty, and then returns `max(count, 0)` questions, each well formed and of the asked type |
| `Roulette.FirstReaching` | sat-vocab-app/lib/questionGenerator.ts:89-94 | the first index whose running sum reaches the target, or none exactly when no prefix sum reaches it |
| `Roulette.ChosenIffInSlot` | sat-vocab-app/lib/questionGenerator.ts:89-94 | with non-negative weights, index `i` is chosen exactly when the target lies in `i`'s slot `(prefix(i), prefix(i+1)]` |
| `Roulette.SpinLands` | sat-vocab-app/lib/questionGenerator.ts:86-94 | with non-negative weights and a positive total, a draw in [0, 1) always lands on some slot |
| `LearningSession.LearningWeight` | sat-vocab-app/components/LearningSession.tsx:52-63 | the weight is 1 unless the word has an entry with at least 5 attempts; with scores in [0, 1] it lies in [1, 3] |
| `LearningSession.LearningWeights` | sat-vocab-app/components/LearningSession.tsx:52-63 | one weight per available word, in order |
| `LearningSession.SpinFromReaches` | sat-vocab-app/components/LearningSession.tsx:69-76 | the subtraction loop stops at the first index whose running sum reaches the target, and at 0 when none does |
| `LearningSession.PickIndex` | sat-vocab-app/components/LearningSession.tsx:66-76 | the picked position names an available word |
| `LearningSession.SampledLength` | sat-vocab-app/components/LearningSession.tsx:50 | the sample holds exactly `min(max(count, 0), number of words)` words |
| `LearningSession.SampledSubMultiset` | sat-vocab-app/components/LearningSession.tsx:79-80 | every pick is removed from the available words, so the sample is a sub-multiset of the catalogue |
| `LearningSession.SampledDistinct` | sat-vocab-app/components/LearningSession.tsx:79-80 | from distinct words, the sample is distinct |
| `LearningSession.FirstPickFollowsWheel` | sat-vocab-app/components/LearningSession.tsx:66-80 | with scores in [0, 1] the first word taken is the one whose slot holds `u × total` |
| `LearningSession.SelectWeightedWords` | sat-vocab-app/components/LearningSession.tsx:46-84 | the push/splice loop on a copy computes the sample for its draws, with one draw per word taken; the catalogue is a value and is left as it was |
| `LearningSession.SpinLoop` | sat-vocab-app/components/LearningSession.tsx:66-76 | the loop over the weights returns the subtraction loop's index for `u × total` |
| `LearningSession.Slideshow.constructor` | sat-vocab-app/components/LearningSession.tsx:13-18 | the slideshow starts at the first word with 5 seconds, not complete and not paused |
| `LearningSession.Slideshow.HandleNext` | sat-vocab-app/components/LearningSession.tsx:108-115 | before the last word it moves up one and resets the countdown to 5; at the last word it completes without moving; the index stays in range |
| `LearningSession.Slideshow.HandlePrevious` | sat-vocab-app/components/LearningSession.tsx:117-122 | above 0 it moves down one and resets the countdown to 5; at 0 nothing changes |
| `LearningSession.Slideshow.TogglePause` | sat-vocab-app/components/LearningSession.tsx:124-126 | flips the pause flag and nothing else |
| `LearningSession.Slideshow.TimerEffect` | sat-vocab-app/components/LearningSession.tsx:87-106 | when running with no time left it acts exactly as `handleNext`; with time left it starts the interval; otherwise nothing happens |
| `LearningSession.Slideshow.Tick` | sat-vocab-app/components/LearningSession.tsx:101-103 | one tick takes one second off and changes nothing else |
| `GlobalStats.EntryOf` | sat-vocab-app/lib/globalStats.ts:39-46 | a missing entry starts at all zeros |
| `GlobalStats.Recorded` | sat-vocab-app/lib/globalStats.ts:49-59 | one more attempt, counted as correct exactly when the answer was, and an error rate of at least 0 that stays at most 1 whenever the old incorrect count is within the old total |
| `GlobalStats.UpdatedEntries` | sat-vocab-app/lib/globalStats.ts:36-54 | the update `Updated` adds the answered id to the keys and keeps every other entry; a missing entry starts at zero and then records the answer |
| `GlobalStats.UpdatedConsistent` | sat-vocab-app/lib/globalStats.ts:36-62 | the update keeps every entry consistent: attempts = correct + incorrect and score = incorrect / attempts |
| `GlobalStats.RecordedConsistent` | sat-vocab-app/lib/globalStats.ts:49-59 | recording keeps the entry consistent, with a score in [0, 1] |
| `GlobalStats.StatsFile.UpdateGlobalStats` | sat-vocab-app/lib/globalStats.ts:36-63 | the answered entry is recorded, the other entries are kept, and the updated entry is returned |
| `GlobalStats.StatsFile.constructor` | sat-vocab-app/lib/globalStats.ts:15-24 | holds the statistics as loaded |
| `GlobalStats.GlobalDifficultyWeight` | sat-vocab-app/lib/globalStats.ts:67-79 | 1 without an entry of at least 5 attempts; otherwise with a score in [0, 1] a weight in [1, 5] |
| `GlobalStats.WeightAfterUpdate` | sat-vocab-app/lib/globalStats.ts:67-79 | after an update the weight is `1 + 4 × error rate` from 5 attempts on and 1 before, and lies in [1, 5] |
| `Storage.Counted` | sat-vocab-app/lib/storage.ts:127-131 | exactly one counter grows by one: `correct` when the answer was correct, `incorrect` otherwise |
| `Storage.GuestUpdatedEntries` | sat-vocab-app/lib/storage.ts:119-133 | the guest update `GuestUpdated` adds the answered id to the keys and keeps every other entry; a missing entry starts at `{correct: 0, incorrect: 0}`, so it ends as one correct or one incorrect answer; an existing entry gains one on the side `isCorrect` names |
| `Storage.WordAccuracy` | sat-vocab-app/lib/storage.ts:138-148 | accuracy lies in [0, 1]; it is 0 exactly without an entry or without a correct answer, and 1 exactly when every answer was correct |
| `Storage.AccuracyAfterAnswer` | sat-vocab-app/lib/storage.ts:119-148 | a correct answer never lowers the word's accuracy and a wrong one never raises it |
| `Storage.LocalWeightFromAccuracy` | sat-vocab-app/lib/storage.ts:138-148 | the quiz's personal weight is `1 + 5 × (1 − accuracy)` for an answered word |
| `Storage.BrowserStorage.constructor` | sat-vocab-app/lib/storage.ts:6-8 | no user cached and the cache not yet checked |
| `Storage.BrowserStorage.GetCurrentUser` | sat-vocab-app/lib/storage.ts:10-52 | once checked it returns the cached user and changes nothing; otherwise it returns the stored user, else the signed-in one, and caches it |
| `Storage.BrowserStorage.ClearUserCache` | sat-vocab-app/lib/storage.ts:54-60 | the cache is emptied and marked unchecked, and the stored user removed |
| `Storage.BrowserStorage.UpdateWordPerformance` | sat-vocab-app/lib/storage.ts:103-135 | the current user is looked up as `getCurrentUser` does (the cache once checked, else the stored user, else the server's answer, which is then stored and cached); when that user is null the guest record counts the answer on the answered word only, otherwise the browser record is untouched |
| `UserStats.WordStatOf` | sat-vocab-app/app/api/user/stats/route.ts:43-64 | per word: the counts copied, `total = correct + incorrect`, accuracy the rounded percentage (0 with no answers) and at most 100, "Unknown" for an id not in the catalogue |
| `UserStats.Percent` | sat-vocab-app/app/api/user/stats/route.ts:62 | the integer formula is `Math.round(c / t × 100)`, at most 100 |
| `UserStats.TallyEntries` | sat-vocab-app/app/api/user/stats/route.ts:43-64 | the accumulating `map` callback yields one word record per entry and the running totals of entries, attempts, correct and incorrect answers |
| `UserStats.CalculateUserStats` | sat-vocab-app/app/api/user/stats/route.ts:35-110 | computes the whole report: overview, four ranked lists and recent words |
| `UserStats.OverviewTotals` | sat-vocab-app/app/api/user/stats/route.ts:43-94 | words studied = entries; attempts = correct + incorrect; overall accuracy the rounded percentage, 0 without attempts, at most 100 |
| `UserStats.AttemptsSplit` | sat-vocab-app/app/api/user/stats/route.ts:49-52 | the attempts total is the correct total plus the incorrect total |
| `UserStats.StrongestWordsRanked` | sat-vocab-app/app/api/user/stats/route.ts:70-73 | at most ten words, each with at least 3 answers, by non-increasing accuracy, and no omitted eligible word beats the last one listed |
| `UserStats.WeakestWordsRanked` | sat-vocab-app/app/api/user/stats/route.ts:76-79 | at most ten words, each with at least 3 answers, by non-decreasing accuracy, the lowest ones |
| `UserStats.MostPracticedRanked` | sat-vocab-app/app/api/user/stats/route.ts:82-84 | at most ten words by non-increasing answer count, the most practised ones |
| `UserStats.MostMissedRanked` | sat-vocab-app/app/api/user/stats/route.ts:87-90 | at most ten words, each missed at least once, by non-increasing wrong answers, the most missed ones |
| `UserStats.RecentWordsAreHighestIds` | sat-vocab-app/app/api/user/stats/route.ts:108 | the last `min(10, n)` entries reversed: ids descending, each higher than every id left out |
| `UserStats.WordStatsAscending` | sat-vocab-app/app/api/user/stats/route.ts:43 | the word records come in ascending id order |
| `JsArrays.SortBySorted` | sat-vocab-app/app/api/user/stats/route.ts:71 | the sort orders by its key |
| `JsArrays.SortByPermutes` | sat-vocab-app/app/api/user/stats/route.ts:71 | the sort is a permutation of its input |
| `JsArrays.SortByStable` | sat-vocab-app/app/api/user/stats/route.ts:71 | the sort is stable: records with the same key keep their order |
| `TopMissed.Joined` | sat-vocab-app/app/api/stats/top-missed/route.ts:23-40 | an entry yields a record exactly when its id is in the catalogue, with the word's text, the counts copied and `errorPercentage = round(100 × score)` |
| `TopMissed.CandidatesComplete` | sat-vocab-app/app/api/stats/top-missed/route.ts:21-41 | an entry with enough attempts is a candidate exactly when its id is in the catalogue |
| `TopMissed.TopMissedSpec` | sat-vocab-app/app/api/stats/top-missed/route.ts:21-48 | `min(limit, candidates)` records, each from an entry with at least `minAttempts` attempts and a catalogue word, by non-increasing score, the hardest ones; all keys counted as tracked |
| `TopMissed.RankingLength` | sat-vocab-app/app/api/stats/top-missed/route.ts:43 | a non-negative limit bounds the ranking's length |
| `TopMissed.TopMissedRoute` | sat-vocab-app/app/api/stats/top-missed/route.ts:9-10 | absent parameters default to a limit of 20 and a minimum of 5 attempts |
| `TopMissed.ErrorPercentageOfCounts` | sat-vocab-app/app/api/stats/top-missed/route.ts:27 | on consistent statistics the percentage is the rounded share of wrong answers, at most 100 |
| `ResultsSummary.SummaryCounts` | sat-vocab-app/components/ResultsSummary.tsx:13-16 | correct + incorrect = total; incorrect counts the wrong answers; accuracy the rounded percentage, 0 without answers, at most 100 |
| `ResultsSummary.MissedWordsSpec` | sat-vocab-app/components/ResultsSummary.tsx:19-20 | the missed words are exactly the catalogue words answered wrongly at least once, in catalogue order, each once |
| `ResultsSummary.PerfectScorePanel` | sat-vocab-app/components/ResultsSummary.tsx:106-137 | the missed list is empty exactly when no wrong answer names a catalogue word, hence exactly when nothing was wrong if every answer names one |
| `ResultsSummary.FormatDurationReadsBack` | sat-vocab-app/components/ResultsSummary.tsx:22-26 | minutes, "m ", seconds, "s"; the numbers read back as the duration with fewer than 60 seconds |
| `ResultsSummary.ExactlyOneMessage` | sat-vocab-app/components/ResultsSummary.tsx:82-101 | the four conditions select exactly one message, that of the accuracy's band |
| `ResultsSummary.BandMonotone` | sat-vocab-app/components/ResultsSummary.tsx:82-101 | a higher accuracy never gets a lower message |
| `QuizSession.SubmittedCorrect` | sat-vocab-app/components/QuizSession.tsx:87-92 | one submission per answer, in order, with its word and outcome; the number of correct submissions is the summary's correct count |
| `QuizSession.RecordedSummary` | sat-vocab-app/components/QuizSession.tsx:159-161 | for a quiz's recorded answers the perfect-score panel shows exactly when none was wrong |
| `QuizSession.FormatTimeReadsBack` | sat-vocab-app/components/QuizSession.tsx:153-157 | minutes, a colon, two second digits; the numbers read back as the time with fewer than 60 seconds |
| `QuizSession.NextQuestion` | sat-vocab-app/components/QuizSession.tsx:64 | a question drawn from the wheel, present exactly for a non-empty catalogue and then well formed |
| `QuizSession.Quiz.constructor` | sat-vocab-app/components/QuizSession.tsx:18-28 | no question, no answers, not finished, no feedback, 300 seconds on a timed quiz |
| `QuizSession.Quiz.LoadPerformanceData` | sat-vocab-app/components/QuizSession.tsx:31-59 | loaded statistics replace the generator's; a non-empty user record becomes the generator's |
| `QuizSession.Quiz.ShowFirstQuestion` | sat-vocab-app/components/QuizSession.tsx:62-66 | shows the wheel's question once loaded; with an empty catalogue, where the source throws out of the effect, the result is `None` and the state is unchanged |
| `QuizSession.Quiz.HandleAnswer` | sat-vocab-app/components/QuizSession.tsx:107-150 | ignored without a question or while feedback shows; otherwise exactly one answer appended with the word, chosen and correct option, correct exactly when the correct option was chosen, one more answered, feedback shown, the user looked up and cached as `getCurrentUser` does, the guest record updated exactly when that user is null, and the auto-advance scheduled |
| `QuizSession.Quiz.AutoAdvance` | sat-vocab-app/components/QuizSession.tsx:138-149 | a word-count quiz whose count is reached finishes and posts every answer; otherwise the next question is shown and the feedback cleared |
| `QuizSession.Quiz.TimerEffect` | sat-vocab-app/components/QuizSession.tsx:69-84 | a running timed quiz with no time left finishes and posts every answer; with time left the interval starts; otherwise nothing changes |
| `QuizSession.Quiz.Tick` | sat-vocab-app/components/QuizSession.tsx:79-81 | one tick takes one second off and changes nothing else |
| `QuizSession.Quiz.SubmitAnswersToBackend` | sat-vocab-app/components/QuizSession.tsx:87-105 | one post carrying every answer's word and outcome |
| `QuizSession.FinishedWordCountQuiz` | sat-vocab-app/components/QuizSession.tsx:138-149 | a finished word-count quiz holds exactly the chosen number of answers (one for a negative number), and its last post carries them all |
| `ParseWords.MatchesIffDecomposes` | parse-words.js:15 | a line matches exactly when it is letters, `...syn:`, whitespace, non-`;` text, `;`, whitespace and text to the end of the line |
| `ParseWords.GreedyDecomposes` | parse-words.js:15 | the match the engine finds is such a decomposition |
| `ParseWords.DecomposedIsFound` | parse-words.js:15 | any decomposition is found, with the same word and the same `;` |
| `ParseWords.EntryFields` | parse-words.js:18-27 | the entry's word is the letters with the first one upper-cased; the synonym is the trimmed text before the first `;`, free of `;`; the definition is the trimmed rest, with an ASCII first letter upper-cased, on one line |
| `ParseWords.CarriageReturnLineSkipped` | parse-words.js:15 | a line ending in a carriage return never matches |
| `ParseWords.ParsedSpec` | parse-words.js:11-29 | one entry per matching line, in order, the `k`-th built from the `k`-th matching line with id `start + k`; other lines use no id |
| `ParseWords.ParsedIds` | parse-words.js:11-37 | as many words as matching lines, with ids 1, 2, 3, … |
| `ParseWords.ParseWords` | parse-words.js:7-29 | the loop over the lines split at `\n` computes the parsed entries with ids from 1 |
| `JsText.JoinSplit` | parse-words.js:7 | joining the split lines gives the content back |
| `JsText.SplitJoin` | parse-words.js:7 | splitting joined lines without `\n` gives the lines back |
| `JsText.TrimIgnoresLeadingWhitespace` | parse-words.js:19-20 | leading whitespace does not change a trim |
| `JsText.NatToStringRoundTrip` | sat-vocab-app/components/ResultsSummary.tsx:25 | a number's decimal digits read back as the number |
| `JsText.Capitalize` | parse-words.js:24-25 | an ASCII first letter upper-cased, any other first character kept, the rest unchanged, same length |
| `JsMath.RoundPercentIsMathRound` | sat-vocab-app/components/ResultsSummary.tsx:16 | the integer formula `(200c + t) div 2t` equals `Math.round(c / t × 100)` |
| `Vocab.LookupFindsWord` | sat-vocab-app/app/api/stats/top-missed/route.ts:15-18 | with unique ids, the id lookup finds the word carrying that id |

## Left out

- `JsText.Capitalize`: upper-cases an ASCII first letter only. JavaScript's
  `toUpperCase` also maps other characters (`é` to `É`), and some to two
  characters (`ß` to `SS`); full Unicode case mapping is not modelled. This
  matters only for a definition, whose first character may be any character.
- `ParseWords.EntryFields`: the stored definition is stated with the
  ASCII-only `Capitalize` above, so a definition starting with a non-ASCII
  letter is not upper-cased in the model. The stored word is exact, because
  the pattern admits ASCII letters only.

- **File, database and network I/O.** This covers reading and writing the
  statistics file (`lib/globalStats.ts:8-33`), `localStorage`, every `fetch`,
  the JSON bodies and every `NextResponse` status. The maps are values passed
  in and out. `StatsFile` holds the entries as loaded; `BrowserStorage` holds
  the guest record and the stored user.
- **Storage reads.** `getPerformance`, `savePerformance` and
  `clearPerformance` (`lib/storage.ts:64-100`, `151-154`) only read, write or
  remove the browser record. The model's guest record is the
  `BrowserStorage.performance` field.
- **Signed-in updates.** The signed-in branch of `updateWordPerformance` posts
  to the server, and the server's SQLite update is not part of this model. The
  browser record is then unchanged.
- **Stored user.** A stored user whose JSON is `null` is not distinguished from
  no stored user.
- **Other modules.** The SQLite wrapper (`lib/db.ts`), authentication
  (`lib/auth.ts`) and sounds (`lib/sounds.ts`) are not part of this model. The
  same goes for the pages, setup screens, header, statistics page and question
  card, which are presentation only.
- **Concurrency.** Concurrent requests that update the statistics file are not
  modelled: each update is atomic here.
- **Render and effect scheduling.** React's render and effect scheduling is
  not modelled. Effects and timer callbacks are methods called as events.
- `QuizSession.Quiz.Tick`: the precondition that the quiz is running with time
  left stands for the interval's lifetime, which ends when the effect is
  cleaned up.
- `QuizSession.Quiz.HandleAnswer`: requires an unfinished quiz, because the
  question card that calls it is not rendered once the quiz is finished.
- `LearningSession.Slideshow.Tick`: the precondition that the slideshow is
  running with time left stands for the interval's lifetime.
- **Elapsed time.** The quiz duration comes from the clock
  (`Date.now() - startTime`), and the answer timestamp is a parameter.
- **Floating point.** IEEE-754 rounding of rates and weights is not modelled:
  reals are exact. `parseInt` of a malformed query parameter (`NaN`) is not
  modelled: the route takes optional integers.
- **Decoration.** The accuracy bar's colour, the progress bar, the progress
  percentage and the "time remaining" colour are presentation only.
- **Unused sort.** The unused `sortedByAccuracy` (`route.ts:67`) has no
  effect on the result.
- **Fallback shuffle.** After a failed statistics fetch, the slideshow shuffles
  with a random comparator (`LearningSession.tsx:35-36`). This is not
  modelled: it has no defined result beyond some reordering.
- **Statistical claims.** "Hard words appear more often" is a statement about
  distributions, and is left out. Per-draw facts are proved instead.
- **Sounds and feedback display.** The sounds played on an answer and the 1.5 s
  delay before the auto-advance are not modelled. The delay is a separate
  event.
