/**
 * The records of the flashcard app (types/card.ts). Dates are integer day
 * numbers and timestamps are opaque integers; the clock itself is not
 * modelled.
 */
module CardTypes {

  datatype Option<T> = None | Some(value: T)

  /** A calendar day, counted in whole days. */
  type Day = int

  /** An instant, as an opaque number; only ever copied, never inspected. */
  type Timestamp = int

  datatype Difficulty = Easy | Medium | Hard

  datatype FlashCard = FlashCard(
    id: string,
    front: string,
    back: string,
    category: string,
    memo: Option<string>,
    difficulty: Difficulty,
    wrongCount: int,
    lastReviewed: Option<Timestamp>,
    isLearned: bool,
    createdAt: Timestamp)

  /** One record per calendar day; `totalTime` is in minutes. */
  datatype StudySession = StudySession(
    date: Day,
    studiedCards: int,
    correctAnswers: int,
    totalTime: int)

  /** No two session records share a date. */
  ghost predicate OneRecordPerDate(sessions: seq<StudySession>)
  {
    forall i, j | 0 <= i < j < |sessions| :: sessions[i].date != sessions[j].date
  }

  /** No two cards share an identifier. */
  ghost predicate UniqueIds(cards: seq<FlashCard>)
  {
    forall i, j | 0 <= i < j < |cards| :: cards[i].id != cards[j].id
  }
}
