# js_quiz core, modelled in Dafny

The program is a browser trivia quiz written as a single script. The script has a small sequential core under its DOM wiring. This project models that core and proves properties of it:

- **Shuffle** (`shuffle.dfy`): the in-place Fisher–Yates shuffle `shuffleArray`. The random choice `Math.floor(Math.random() * (i + 1))` made at loop index `i` becomes an input `draws[i]`, which must lie in `[0, i]`. The shuffle is proved to be a permutation. It is also proved that iteration `i` fixes cell `i` for good. Shuffling the keys `0..n-1` is proved to deal every index exactly once.
- **Question bank** (`bank.dfy`): a question is its text, its answer and its list of distractors (wrong answers). The startup check asserts that every question has at least three distractors. It is modelled as a loop that returns the indices of the questions whose assertion message would be logged.
- **Scoring** (`scoring.dfy`): the game constants and the final-score rule. Without a correct answer the score is 0. Otherwise it is 5 per correct answer plus 1 per second left, where a negative timer counts as 0.
- **High scores** (`highscores.dfy`): score entries, the `String.prototype.trim` applied to the typed initials (with the exact ECMAScript white-space set), the in-place descending sort, and the list update `registerScore` performs.
- **Quiz session** (`quiz.dfy`): class `Game` holds the script's global state. That is the timer, a `running` flag that stands for the interval handle, the queue of unpicked question indices, the correct-answer count, the final score, the answer order of the question on screen, and the stored high-score list. Its methods mirror `playQuiz`, `displayQuestion`, `timerTick`, `endGameAndShowQuizResult`, `checkQuestionAnswer`, `registerScore` and `clearScores`. An answer slot holds the index of the distractor it shows, or `-1` for the correct answer. A ghost field `shown` records the questions shown so far in the current game.

The randomness is an input throughout. `questionDraws` and `answerDraws` are shuffle draws, and `position` stands for `Math.floor(Math.random() * 4)`. The storage key `scores` is an `Option<seq<Entry>>` field. `None` is the key being absent, which is the `null` case of `localStorage.getItem`.

## Model

| member | source | states |
|---|---|---|
| `Shuffle.Swap` | assets/script.js:354 | the destructuring swap exchanges cells `i` and `j` and leaves every other cell and the length alone |
| `Shuffle.SwapPermutes` | assets/script.js:354 | a swap keeps the multiset of elements |
| `Shuffle.SwapInPlace` | assets/script.js:354 | the array contents after the in-place swap are the `Swap` of the contents before, with the same multiset |
| `Shuffle.ShuffleFrom` | assets/script.js:352-355 | running the loop from index `i` down to 1 keeps the length |
| `Shuffle.Shuffled` | assets/script.js:351-356 | the whole loop, started at the last index, keeps the length |
| `Shuffle.ShuffleFromPermutes` | assets/script.js:351-356 | the shuffle only reorders: the result has the same multiset as the input, for every choice of in-range draws |
| `Shuffle.ShuffleFromSettles` | assets/script.js:352-355 | iteration `i` settles position `i`, and the later iterations (smaller indices) never change it or any cell above it |
| `Shuffle.ShuffleArray` | assets/script.js:350-356 | the array afterwards is `Shuffled(old contents, draws)` and holds the same multiset of elements |
| `Shuffle.Range` | assets/script.js:157 | `Array.from(xs.keys())` has one key per element |
| `Shuffle.RangeAt` | assets/script.js:157 | key `k` sits at position `k` |
| `Shuffle.RangeMultiplicity` | assets/script.js:157 | every index below `n` occurs exactly once among the keys, and nothing else occurs |
| `Shuffle.PermutationOfRange` | assets/script.js:157-158 | any permutation of the keys `0..n-1` has length `n`, holds only indices below `n`, holds each of them, and has no repeats |
| `Shuffle.ShuffledRangeDealsEachOnce` | assets/script.js:157-158 | shuffling the keys `0..n-1` yields a permutation of them |
| `QuestionBank.CheckDistractors` | assets/script.js:90-94 | the reported indices are exactly the questions with fewer than three distractors, in increasing order; nothing is reported if and only if the bank is well formed |
| `QuestionBank.ShippedBankPasses` | assets/script.js:21-87 | a bank whose seven questions have the shipped distractor counts (3, 5, 3, 3, 4, 4 and 3) is well formed, so `CheckDistractors` reports nothing for it |
| `Scoring.SecondsLeft` | assets/script.js:226 | `Math.max(timer, 0)` is the timer when it is non-negative and 0 otherwise |
| `Scoring.ScoreBounds` | assets/script.js:220-227 | the score is 0 exactly when no answer was correct; otherwise it exceeds the answer points by exactly the non-negative seconds left; it is never below 5 per correct answer |
| `Scoring.ScoreMonotone` | assets/script.js:220-227 | more correct answers or more time left never lower the score |
| `Scoring.PenaltyCost` | assets/script.js:123 | with the same correct answers, losing the 10-second penalty lowers the final score by at most 10 and never raises it |
| `Scoring.ScoreExamples` | assets/script.js:220-227 | `score(0, t) = 0` for every `t`, `score(3, 7) = 22` and `score(2, -5) = 10` |
| `HighScores.TrimStart` | assets/script.js:243 | the result is a suffix of the input; everything dropped is white space; the result does not start with white space |
| `HighScores.TrimEnd` | assets/script.js:243 | the result is a prefix of the input; everything dropped is white space; the result does not end with white space |
| `HighScores.TrimStrips` | assets/script.js:243-246 | `trim()` drops only white space: the trimmed initials are no longer than the input, empty exactly when the input is all white space, and otherwise neither start nor end with white space |
| `HighScores.TrimIsSlice` | assets/script.js:243 | the trimmed initials are one contiguous piece of the typed text, and everything outside that piece is white space |
| `HighScores.TrimIdempotent` | assets/script.js:243 | trimming twice gives the same as trimming once |
| `HighScores.SwapAdjacent` | assets/script.js:260 | one exchange of neighbours keeps every other cell and the multiset |
| `HighScores.SinkInto` | assets/script.js:260 | one insertion step extends the descending prefix by one cell; the cells after it are untouched, and both the prefix and the whole array keep their multisets |
| `HighScores.SortByScoreDescending` | assets/script.js:260 | with comparator `b.score - a.score` the array ends up non-increasing by score and holds the same entries |
| `HighScores.AddEntry` | assets/script.js:253-261 | with nothing stored the list is the new entry alone; otherwise it is the stored entries plus the new one, sorted non-increasing; either way exactly one entry is gained and the new entry is in the list |
| `HighScores.SortedWithDistinctScoresUnique` | assets/script.js:260 | when scores are distinct, the sorted order of a set of entries is unique |
| `HighScores.SecondRegistration` | assets/script.js:253-261 | registering a higher score after one entry puts the new entry first |
| `HighScores.ThirdRegistration` | assets/script.js:253-261 | registering a score below two sorted entries puts it last |
| `HighScores.ThreeRegistrations` | assets/script.js:253-261 | registering 50 (AAA), 80 (BBB) and 30 (CCC) on an empty store gives the list 80, 50, 30 |
| `Quiz.ShuffledKeys` | assets/script.js:157-158 | the keys of a list, shuffled in place, are `Shuffled(Range(n), draws)`: each index below `n` exactly once |
| `Quiz.BuildAnswerOrder` | assets/script.js:176-179 | the answer order is the shuffled distractor indices, cut to three, with `-1` spliced in at `position` (or at the end when the list is shorter) |
| `Quiz.OrderAt` | assets/script.js:176-179 | each slot other than the marker's shows the shuffled index it was dealt, shifted by one after the marker |
| `Quiz.AnswerOrderShape` | assets/script.js:176-179 | with at least three distractors the order has exactly four slots and `-1` at `position`; in every case `-1` occurs once, and the other slots are distinct valid distractor indices |
| `Quiz.Game.constructor` | assets/script.js:130-135 | at load the timer and the counts are 0, no game is running, and the stored list is whatever the key holds |
| `Quiz.Game.PlayQuiz` | assets/script.js:147-163 | the timer is 10 per question; there are no correct answers; the questions shown and still queued are the shuffled keys, each index exactly once; then the first question is shown and the previous score is kept, or with an empty bank the game ends at once with score 0 and the answer order left as it was |
| `Quiz.Game.ResetRound` | assets/script.js:148-158 | the set-up of a game: the timer is 10 per question, the interval runs, there are no correct answers, nothing is shown yet, and the queue is the shuffled keys, each index exactly once |
| `Quiz.Game.DisplayQuestion` | assets/script.js:166-195 | with a non-empty queue, it takes exactly the front index, keeps the rest in order and builds that question's answer order; with an empty queue it ends the game; shown plus queued never changes |
| `Quiz.Game.TimerTick` | assets/script.js:198-205 | the timer drops by exactly 1, and the game ends exactly when the new value is 0 or below |
| `Quiz.Game.EndGame` | assets/script.js:214-227 | the interval stops and the score is `Score(correctAnswers, timer)` |
| `Quiz.Game.CheckAnswer` | assets/script.js:327-347 | a slot holding `-1` adds one correct answer and leaves the timer; any other slot, including one past the order's end, takes exactly 10 seconds (the timer may go negative, and the game does not end for that) and leaves the count; either way the next question is then drawn |
| `Quiz.Game.RegisterScore` | assets/script.js:241-265 | initials that trim to nothing are refused and the stored list is untouched; otherwise the stored list holds the old entries plus `{score, initials}` and is sorted non-increasing |
| `Quiz.Game.ClearScores` | assets/script.js:309-312 | no list is stored afterwards |
| `Quiz.ShownAtMostOnce` | assets/script.js:166-172 | during a game no question index is shown twice, and no shown index is still queued |
| `Quiz.OneWrongAnswer` | assets/script.js:328-336 | in a one-question game a wrong answer takes the timer from 10 to 0; the empty queue then ends the game at once, with score 0 |

## Left out

- DOM rendering is not modelled: `showWelcome`, `displayTimer`, the list drawn by `showHighScores`, section visibility, the question and answer texts written to the page, and the "Correct!" / "Wrong answer!" feedback text. It is presentation only.
- Click handling in `checkQuestionAnswer` is not modelled: the walk from the click target up to the `li`, and the early return for clicks outside the answers. The event-listener registration is left out too. `CheckAnswer` takes the slot number directly.
- `setInterval` and `clearInterval` are reduced to the `running` flag. Starting a second game while one runs would leave two intervals in the script; the flag cannot count them.
- The feedback `setTimeout` and its cancellation are browser scheduling and are not modelled.
- `jumpToHighScores` is not modelled. It depends on `window.confirm` and on which page section is visible.
- The JSON layer over `localStorage` is not modelled; the stored value is the list itself. A malformed stored value makes `JSON.parse` throw in the script, and the model has no such value.
- Probability is not modelled. The random draws are bounded inputs, so nothing here says the shuffle or the answer position is uniform.
- `randomChoice` is never called and is not modelled.
- The texts of the shipped questions are not reproduced; only their distractor counts are. Distinct distractor indices need not mean distinct texts: question 2 lists `x += 1;` twice.
- `HighScores.SortByScoreDescending`: does not state that equal scores keep their relative order. `Array.prototype.sort` is stable in current engines, but the program relies only on the descending order.
- `Quiz.Game.constructor`: the script's `score` is `undefined` until the first game ends; the model starts it at 0. The score form is only reachable after a game ends.
- JavaScript numbers are doubles. The model uses unbounded integers, which agree with them at the small values the timer and the scores take.
- The comment at assets/script.js:224 says 10 points per correct answer, but the constant at assets/script.js:125 is 5. The model uses 5.
