# Flashcard study logic, modelled in Dafny

This project models the logic of a small flashcard app: the study screen
that processes answers (`app/study.tsx`) and the card and session utilities
(`utils/cardUtils.ts`). The records come from `types/card.ts`.

- `card_types.dfy` (module `CardTypes`): the `FlashCard` and `StudySession`
  records and the `Difficulty` enum as datatypes. Dates are integer day
  numbers. Timestamps are opaque integers.
- `seqs.dfy` (module `Seqs`): the JavaScript built-ins the code relies on.
  These are `filter`, a `map` that rewrites the selected elements, `join`,
  and integer `toString`. It also holds `split`, used only as the reference
  for reading the CSV back, and the lemmas about these.
- `card_utils.dfy` (module `CardUtils`): `getCardsForReview`,
  `getCardsByCategory`, `calculateCorrectRate`, `getStreakDays` and
  `exportCardsToCSV`.
  - `getStreakDays` is imperative. It sorts the caller's array in place,
    newest date first (`SortNewestFirst`), then runs the counting loop
    (`CountStreak`).
- `study.dfy` (module `Study`): the answer rule for one card, the rewrite
  of the card list, the unlearned list and the current card, and the
  session-record merge.
  - The whole screen step is the function `Answer` over a `Screen` value.
  - The class `StudyScreen` holds the screen's fields. Its methods
    `HandleAnswer` and `FinishSession` update those fields in place and
    are proved to agree with `Answer` and `FinishedSessions`.

Behaviour of the code as written, which the lemmas make explicit:

- **Learning needs one extra correct answer.** A card becomes learned only
  when it is answered correctly while its wrong count is already 0. A card
  with `w` misses therefore needs `w + 1` correct answers in a row
  (`CorrectAnswersToLearn`).
- **A learned card makes the screen skip the next card.** The index is
  advanced against the unlearned list as it was before the answer. A card
  that becomes learned leaves that list, so the next card slides into its
  place, behind the index, and is skipped (`LearningSkipsNextCard`).
- **The index can run past the end.** When the learned card was the last
  but one, the index ends up past the end of the list and the session is
  never finished. No record is written, and every further answer changes
  nothing (`IndexRunsPastEnd`).
- **The streak loop does not count consecutive days.** The app labels its
  streak statistic (`UserStats.streakDays`, `types/card.ts`, line 30) as
  連続学習日数, "consecutive study days" (`app/(tabs)/progress.tsx`, line
  66), and as 連続日数 on the home tab (`app/(tabs)/index.tsx`, line 104).
  Those screens fill the statistic with constants, and none of the screens
  shown calls `getStreakDays`. The loop compares each gap with the
  running streak, but it measures the gap from the last counted session.
  So the `j`-th counted session must lie j(j+1)/2 days before today
  (`StreakDatesAreTriangular`).
  - Two or more sessions on consecutive days ending today give exactly 2,
    however many there are (`ConsecutiveDaysGiveTwo`).
  - Distinct dates alone do not bound the result by 2: today, yesterday
    and three days ago give 3 (`StreakCanExceedTwoWithDistinctDates`).
  - The result is at most 2 when no session is dated three days before
    today (`StreakAtMostTwoWithoutThirdDay`).
  - The model follows the loop as written, not the label.
- **The tally is recorded once per session.** Answers only update a
  running tally. The tally is merged into today's record when the session
  finishes, and each finish adds 10 minutes to that record
  (`FinishedSessions`).

## Model

| member | source | states |
|---|---|---|
| `Seqs.Filter` | utils/cardUtils.ts:7-13 | `filter` keeps only elements that pass, taken from the list, and never lengthens it |
| `Seqs.FilterIsSubsequence` | utils/cardUtils.ts:7-13 | a filtered list is an order-preserving subsequence that keeps every passing element as often as it occurs |
| `Seqs.FilterIdempotent` | utils/cardUtils.ts:11-13 | filtering twice with the same predicate equals filtering once |
| `Seqs.MapWhere` | app/study.tsx:42-52 | `map` with a per-element choice: same length, each selected element rewritten in place, every other element kept |
| `Seqs.FilterAfterMapWhere` | app/study.tsx:42-52 | rewriting the one selected element (the i-th of a filtered list) removes it from the filtered list when it no longer passes, so every later element moves forward by one; otherwise it is rewritten in place |
| `Seqs.Join` | utils/cardUtils.ts:58 | `join`: no parts give the empty string, one part gives itself, and the first part always begins the result |
| `Seqs.SplitJoin` | utils/cardUtils.ts:58 | splitting a join on its separator gives the parts back when no part contains the separator |
| `Seqs.IntToDecimal` | utils/cardUtils.ts:54 | `toString` of an integer: a minus sign first exactly for negatives, digits everywhere else with no leading zero, and the digits read back as the magnitude |
| `Seqs.DecimalRoundTrip` | utils/cardUtils.ts:54 | the decimal rendering of a count reads back as that count |
| `CardUtils.GetCardsForReview` | utils/cardUtils.ts:7-9 | the result is, in original order, exactly the cards with `wrongCount > 0` or not learned, each with its multiplicity; every unlearned card is included |
| `CardUtils.GetCardsByCategory` | utils/cardUtils.ts:11-13 | the result is the order-preserving subsequence of the cards whose category equals the argument, each with its multiplicity |
| `CardUtils.GetCardsByCategoryIdempotent` | utils/cardUtils.ts:11-13 | filtering by the same category twice equals filtering once |
| `CardUtils.TotalStudied` | utils/cardUtils.ts:18 | the studied total; with no negative count, every session's count lies between 0 and the total |
| `CardUtils.TotalCorrect` | utils/cardUtils.ts:19 | the correct total; with no negative count, every session's count lies between 0 and the total |
| `CardUtils.TotalsOfAppend` | utils/cardUtils.ts:18-19 | the totals agree with `reduce`'s first-to-last accumulation: appending a session adds its counts |
| `CardUtils.CalculateCorrectRate` | utils/cardUtils.ts:15-22 | 0 for no sessions or when the studied total is not positive; otherwise the nearest integer to 100·C/S, with halves rounded up |
| `CardUtils.TotalsOrdered` | utils/cardUtils.ts:18-19 | when every session has 0 ≤ correct ≤ studied, so do the totals |
| `CardUtils.CorrectRateIsPercentage` | utils/cardUtils.ts:15-22 | when every session has 0 ≤ correct ≤ studied, the rate lies in 0..100 |
| `CardUtils.SortNewestFirst` | utils/cardUtils.ts:27 | the in-place sort leaves the array a permutation of itself, newest date first |
| `CardUtils.InsertNewest` | utils/cardUtils.ts:27 | one insertion step: with `a[..i]` sorted newest first, `a[..i+1]` ends sorted, the array is a permutation of itself, and `a[i+1..]` is left as it was |
| `CardUtils.SwapWithPrevious` | utils/cardUtils.ts:27 | exchanges two neighbouring sessions and nothing else, keeping the multiset |
| `CardUtils.GetStreakDays` | utils/cardUtils.ts:24-44 | sorts the caller's array (permutation, newest first) and returns the streak of the sorted sessions |
| `CardUtils.CountStreak` | utils/cardUtils.ts:28-43 | the loop returns the longest prefix whose j-th date is the one the loop accepts (today, then each j days before the previous one) |
| `CardUtils.StreakIsUnique` | utils/cardUtils.ts:28-43 | the streak is determined by the sessions and the day |
| `CardUtils.StreakZeroUnlessStudiedToday` | utils/cardUtils.ts:25-41 | no sessions, or a newest session not dated today, give 0 |
| `CardUtils.StreakDatesAreTriangular` | utils/cardUtils.ts:33-37 | the j-th counted session lies j(j+1)/2 days before today |
| `CardUtils.StreakAtMostTwoWithoutThirdDay` | utils/cardUtils.ts:33-37 | without a session three days before today the streak is at most 2 |
| `CardUtils.ConsecutiveDaysGiveTwo` | utils/cardUtils.ts:31-41 | two or more sessions on consecutive days ending today give exactly 2 |
| `CardUtils.StreakCanExceedTwoWithDistinctDates` | utils/cardUtils.ts:33-37 | sorted distinct dates today, today−1, today−3 give a streak of 3 |
| `CardUtils.MemoText` | utils/cardUtils.ts:52 | the memo, or an empty field when there is none |
| `CardUtils.DifficultyLabel` | utils/cardUtils.ts:53 | 簡単 exactly for easy, 普通 exactly for medium, 難しい exactly for hard |
| `CardUtils.Row` | utils/cardUtils.ts:48-56 | one field per header; a card whose own texts avoid `,` and newline gives a separator-free row |
| `CardUtils.RowShowsCard` | utils/cardUtils.ts:48-56 | a card's row has 7 fields: its texts, its memo or `''`, easy→簡単 / medium→普通 / hard→難しい, its wrong count in decimal, ○ if learned else × |
| `CardUtils.ExportCardsToCsv` | utils/cardUtils.ts:46-59 | the export begins with the comma-joined header line, and is exactly that line when there are no cards |
| `CardUtils.CsvSplitsIntoRows` | utils/cardUtils.ts:58 | with separator-free fields the export splits into `cards.length + 1` lines (header first, then one per card in order), each splitting back into its row |
| `CardUtils.CsvLayout` | utils/cardUtils.ts:46-59 | with separator-free fields every line of the export shows its card field by field, in order, after the header |
| `Study.AnswerCard` | app/study.tsx:44-49 | only `wrongCount`, `isLearned` and `lastReviewed` change; wrong → count+1 and unlearned; correct → max(0, count−1); learned iff correct and the old count was 0; learned implies count 0; a non-negative count stays non-negative |
| `Study.CorrectAnswersToLearn` | app/study.tsx:46-47 | a card with w ≥ 0 misses has max(0, w−k) misses after k correct answers and, for k ≥ 1, is learned exactly when k > w |
| `Study.AnswerCards` | app/study.tsx:42-52 | same length and order; each card whose id is the answered id is answered, every other card is unchanged; non-negative counts stay non-negative |
| `Study.Unstudied` | app/study.tsx:20 | the unlearned list holds only unlearned cards of the list |
| `Study.UnstudiedKeepsUnlearned` | app/study.tsx:20 | the unlearned list is an order-preserving subsequence of the cards holding every unlearned card as often as it occurs |
| `Study.CardAt` | app/study.tsx:20-21 | there is a current card exactly when the index is within the unlearned list, and it is the unlearned list's card at that index |
| `Study.FindSession` | app/study.tsx:88 | finds nothing exactly when no record has today's date; otherwise the first record dated today |
| `Study.AccumulateToday` | app/study.tsx:91-100 | same length and dates; every record dated today gets the tally added and 10 more minutes; all others unchanged |
| `Study.FinishedSessions` | app/study.tsx:86-110 | merges into today's records when one exists, else appends `{today, studied, correct, 10}`; afterwards today has a record; one record per date is preserved |
| `Study.FinishedSessionsAddTally` | app/study.tsx:86-110 | with one record per date, finishing adds exactly the tally to the studied and correct totals |
| `Study.Answer` | app/study.tsx:38-84 | with no current card nothing changes; otherwise the cards are rewritten by id, studied +1 and correct +1 iff correct, then the index advances while below the pre-answer list length − 1, else the session is finished |
| `Study.AnswerPreservesInvariants` | app/study.tsx:42-60 | an answer keeps correct ≤ studied, one record per date, non-negative wrong counts and the number of cards |
| `Study.UnstudiedAfterAnswer` | app/study.tsx:20-53 | with unique ids, the answered card leaves the unlearned list when it becomes learned (later cards move forward), and is rewritten in place otherwise |
| `Study.LearningSkipsNextCard` | app/study.tsx:74-83 | with unique ids, learning the current card that has a successor advances the index while the successor moves to the old index, so the card after it is shown |
| `Study.IndexRunsPastEnd` | app/study.tsx:74-83 | learning the last-but-one card leaves no current card, writes no record, does not finish, and every later answer changes nothing |
| `Study.StudyScreen.constructor` | app/study.tsx:10-15 | a fresh screen starts at index 0, answer hidden, tally {0, 0}, over the stored cards and records, with the class invariant established |
| `Study.StudyScreen.FlipCard` | app/study.tsx:29-36 | toggles whether the answer is shown |
| `Study.StudyScreen.HandleAnswer` | app/study.tsx:38-84 | updates the fields in place exactly as `Answer` describes and keeps the class invariant: index ≥ 0, 0 ≤ correct ≤ studied, one record per date, non-negative wrong counts |
| `Study.StudyScreen.FinishSession` | app/study.tsx:86-113 | replaces the records by `FinishedSessions` of the old ones and marks the screen as left |

## Left out

- Rendering, styles and animation (`flipAnim`, `scaleAnim`, `interpolate`) are not modelled. `FlipCard` keeps only its effect on the answer-shown flag.
- Navigation is reduced to the `ended` flag set by `finishSession`. Once it is set, the app leaves the screen; the model does not stop further calls. The redirect when the unlearned list is empty (`useEffect`) is not modelled.
- The 300 ms timer: the continuation runs right after the update, with the index and the unlearned list captured before the answer.
- Persistence through `useLocalStorage` is not part of this model. The stored lists are plain fields.
- `generateId` depends on the clock and on `Math.random`, so it is not modelled.
- `Date` objects and ISO-date parsing are not modelled. Dates are day numbers, and "today" and the review time are parameters. An unparsable date, which would make the sort comparator return NaN, is not modelled.
- The progress-bar percentage of the study screen is not modelled.
- `Category`, `UserStats` and the other screens are not part of this model.
- Seqs.IntToDecimal: JavaScript numbers are doubles. `toString` switches to exponent form from 1e21, and integers above 2^53 lose precision. The model uses unbounded integers for wrong counts, tallies and minutes, so neither effect is captured.
- CardUtils.CalculateCorrectRate: `Math.round(C / S * 100)` is computed on floating-point numbers; the model uses exact rational rounding, `(200·C + S) div (2·S)`, so float rounding error is not captured.
- CardUtils.SortNewestFirst: the engine's sort algorithm is not visible. It is modelled as an insertion sort that keeps equal dates in order, but its contract states only the permutation and the order, not stability.
- CardUtils.CsvLayout: the layout is stated only for fields without commas or newlines. The export does no quoting, so other fields break the layout.
- Study.StudyScreen.HandleAnswer: the screen offers the two answer buttons only while the answer is shown; the model does not require `showAnswer`, so it also allows answering with the answer hidden.
- Study.StudyScreen.constructor: requires the stored records to hold one record per date and the stored cards non-negative wrong counts. The operations modelled here keep both; records written by other screens or edited by hand are not covered.
- Study.LearningSkipsNextCard, Study.IndexRunsPastEnd and Study.UnstudiedAfterAnswer assume unique card ids. With duplicate ids, `Study.AnswerCards` still states what happens: every card with that id is rewritten.
