/**
 * The study screen of app/study.tsx as a state machine: the card list, the
 * per-day session records, the index into the list of unlearned cards, the
 * answer-shown flag and the running tally. Rendering, animation, the timer
 * and navigation are not modelled; the delayed continuation of an answer
 * runs right after the update, with the values captured before it, and
 * the redirect at the end of `finishSession` is recorded in the `ended`
 * flag.
 */
module Study {
  import opened CardTypes
  import opened Seqs
  import opened CardUtils

  /** The running `{studied, correct}` tally of one visit to the screen. */
  datatype Stats = Stats(studied: int, correct: int)

  /** The estimated length of one study session, in minutes. */
  const MinutesPerSession: int := 10

  ghost predicate AllCountsNonNegative(cards: seq<FlashCard>)
  {
    forall k | 0 <= k < |cards| :: cards[k].wrongCount >= 0
  }

  // ---------------------------------------------------------------------
  // One card answered
  // ---------------------------------------------------------------------

  /** The rewrite of the answered card: a wrong answer adds one miss and
      unlearns it; a correct answer takes one miss off (not below zero) and
      marks it learned only if it had no misses before. */
  function AnswerCard(card: FlashCard, correct: bool, now: Timestamp): (r: FlashCard)
    ensures r == card.(wrongCount := r.wrongCount, isLearned := r.isLearned, lastReviewed := r.lastReviewed)
    ensures r.lastReviewed == Some(now)
    ensures !correct ==> r.wrongCount == card.wrongCount + 1 && !r.isLearned
    ensures correct && card.wrongCount >= 1 ==> r.wrongCount == card.wrongCount - 1
    ensures correct && card.wrongCount <= 1 ==> r.wrongCount == 0
    ensures r.isLearned <==> correct && card.wrongCount == 0
    ensures r.isLearned ==> r.wrongCount == 0
    ensures card.wrongCount >= 0 ==> r.wrongCount >= 0
  {
    card.(wrongCount := if correct then (if card.wrongCount - 1 > 0 then card.wrongCount - 1 else 0)
                        else card.wrongCount + 1,
          isLearned := correct && card.wrongCount == 0,
          lastReviewed := Some(now))
  }

  /** `card` answered correctly `k` times in a row. */
  ghost function AnswerCorrectly(card: FlashCard, k: nat, now: Timestamp): FlashCard
  {
    if k == 0 then card else AnswerCard(AnswerCorrectly(card, k - 1, now), true, now)
  }

  /** A card with `w` misses needs `w + 1` correct answers in a row to
      become learned: `w` of them clear the misses and only the next one
      marks it learned. */
  lemma {:induction false} CorrectAnswersToLearn(card: FlashCard, k: nat, now: Timestamp)
    requires card.wrongCount >= 0
    ensures var r := AnswerCorrectly(card, k, now);
            && r.wrongCount == (if k <= card.wrongCount then card.wrongCount - k else 0)
            && (k >= 1 ==> (r.isLearned <==> k > card.wrongCount))
  {
    if k > 0 {
      CorrectAnswersToLearn(card, k - 1, now);
    }
  }

  /** Selects the cards carrying identifier `id`. */
  function HasId(id: string): FlashCard -> bool
  {
    (c: FlashCard) => c.id == id
  }

  function Answering(correct: bool, now: Timestamp): FlashCard -> FlashCard
  {
    (c: FlashCard) => AnswerCard(c, correct, now)
  }

  /** The rewrite of the whole card list: every card whose id is `id` is
      answered, every other card is kept, in place. */
  function AnswerCards(cards: seq<FlashCard>, id: string, correct: bool, now: Timestamp): (r: seq<FlashCard>)
    ensures |r| == |cards|
    ensures forall k | 0 <= k < |cards| ::
      r[k] == if cards[k].id == id then AnswerCard(cards[k], correct, now) else cards[k]
    ensures AllCountsNonNegative(cards) ==> AllCountsNonNegative(r)
  {
    MapWhere(HasId(id), Answering(correct, now), cards)
  }

  // ---------------------------------------------------------------------
  // The current card
  // ---------------------------------------------------------------------

  function Unlearned(c: FlashCard): bool
  {
    !c.isLearned
  }

  /** The unlearned cards, in list order. */
  function Unstudied(cards: seq<FlashCard>): (r: seq<FlashCard>)
    ensures forall c | c in r :: c in cards && !c.isLearned
  {
    Filter(Unlearned, cards)
  }

  /** The unlearned list keeps the order of the cards and every unlearned
      card as often as it occurs. */
  lemma UnstudiedKeepsUnlearned(cards: seq<FlashCard>)
    ensures Subsequence(Unstudied(cards), cards)
    ensures forall c | c in cards && !c.isLearned :: multiset(Unstudied(cards))[c] == multiset(cards)[c]
    ensures forall c | c in cards && !c.isLearned :: c in Unstudied(cards)
  {
    FilterIsSubsequence(Unlearned, cards);
  }

  /** The card on screen: the `index`-th unlearned card, if there is one. */
  function CardAt(cards: seq<FlashCard>, index: int): (r: Option<FlashCard>)
    ensures r.Some? <==> 0 <= index < |Unstudied(cards)|
    ensures r.Some? ==> r.value == Unstudied(cards)[index]
    ensures r.Some? ==> r.value in cards && !r.value.isLearned
  {
    var unstudied := Unstudied(cards);
    if 0 <= index < |unstudied| then Some(unstudied[index]) else None
  }

  // ---------------------------------------------------------------------
  // Session records
  // ---------------------------------------------------------------------

  /** `sessions.find(s => s.date === today)`: the first record dated
      today, if any. Only whether there is one matters to `finishSession`. */
  function FindSession(sessions: seq<StudySession>, today: Day): (r: Option<StudySession>)
    ensures r.None? <==> forall k | 0 <= k < |sessions| :: sessions[k].date != today
    ensures r.Some? ==> exists k | 0 <= k < |sessions| ::
      && sessions[k] == r.value && r.value.date == today
      && forall j | 0 <= j < k :: sessions[j].date != today
  {
    if sessions == [] then None
    else if sessions[0].date == today then Some(sessions[0])
    else FindSession(sessions[1..], today)
  }

  /** Today's record(s) with the tally and one more session's minutes
      added; every other record as it was. */
  function AccumulateToday(sessions: seq<StudySession>, stats: Stats, today: Day): (r: seq<StudySession>)
    ensures |r| == |sessions|
    ensures forall k | 0 <= k < |sessions| :: r[k].date == sessions[k].date
    ensures forall k | 0 <= k < |sessions| && sessions[k].date != today :: r[k] == sessions[k]
    ensures forall k | 0 <= k < |sessions| && sessions[k].date == today ::
      && r[k].studiedCards == sessions[k].studiedCards + stats.studied
      && r[k].correctAnswers == sessions[k].correctAnswers + stats.correct
      && r[k].totalTime == sessions[k].totalTime + MinutesPerSession
  {
    if sessions == [] then []
    else
      var s := sessions[0];
      [if s.date == today
       then s.(studiedCards := s.studiedCards + stats.studied,
               correctAnswers := s.correctAnswers + stats.correct,
               totalTime := s.totalTime + MinutesPerSession)
       else s]
      + AccumulateToday(sessions[1..], stats, today)
  }

  /** `finishSession` on the records: merge the tally into today's record
      when there is one, otherwise append a new record for today. */
  function FinishedSessions(sessions: seq<StudySession>, stats: Stats, today: Day): (r: seq<StudySession>)
    ensures FindSession(sessions, today).Some? ==> r == AccumulateToday(sessions, stats, today)
    ensures FindSession(sessions, today).None? ==>
      r == sessions + [StudySession(today, stats.studied, stats.correct, MinutesPerSession)]
    ensures exists k | 0 <= k < |r| :: r[k].date == today
    ensures forall k | 0 <= k < |r| :: r[k].date == today || r[k] in sessions
    ensures OneRecordPerDate(sessions) ==> OneRecordPerDate(r)
  {
    match FindSession(sessions, today)
    case Some(_) => AccumulateToday(sessions, stats, today)
    case None =>
      var r := sessions + [StudySession(today, stats.studied, stats.correct, MinutesPerSession)];
      assert r[|sessions|].date == today;
      r
  }

  lemma {:induction false} TotalsOfAccumulate(sessions: seq<StudySession>, stats: Stats, today: Day)
    requires OneRecordPerDate(sessions)
    requires exists k | 0 <= k < |sessions| :: sessions[k].date == today
    ensures TotalStudied(AccumulateToday(sessions, stats, today)) == TotalStudied(sessions) + stats.studied
    ensures TotalCorrect(AccumulateToday(sessions, stats, today)) == TotalCorrect(sessions) + stats.correct
  {
    var rest := sessions[1..];
    assert OneRecordPerDate(rest);
    if sessions[0].date == today {
      assert AccumulateToday(rest, stats, today) == rest;
    } else {
      var k :| 0 <= k < |sessions| && sessions[k].date == today;
      assert rest[k - 1].date == today;
      TotalsOfAccumulate(rest, stats, today);
    }
  }

  /** With one record per date, finishing a session adds exactly the tally
      to the overall totals that the correct rate is computed from. */
  lemma FinishedSessionsAddTally(sessions: seq<StudySession>, stats: Stats, today: Day)
    requires OneRecordPerDate(sessions)
    ensures TotalStudied(FinishedSessions(sessions, stats, today)) == TotalStudied(sessions) + stats.studied
    ensures TotalCorrect(FinishedSessions(sessions, stats, today)) == TotalCorrect(sessions) + stats.correct
  {
    if FindSession(sessions, today).Some? {
      TotalsOfAccumulate(sessions, stats, today);
    } else {
      TotalsOfAppend(sessions, StudySession(today, stats.studied, stats.correct, MinutesPerSession));
    }
  }

  // ---------------------------------------------------------------------
  // The screen
  // ---------------------------------------------------------------------

  /** The state of the study screen. */
  datatype Screen = Screen(
    cards: seq<FlashCard>,
    sessions: seq<StudySession>,
    index: int,
    showAnswer: bool,
    stats: Stats,
    ended: bool)

  /** `handleAnswer` followed by its delayed continuation. With no card on
      screen nothing happens. Otherwise the card is rewritten and the tally
      bumped; then, measured against the unlearned list as it was BEFORE
      the answer, the index moves on while it is below its last position,
      and otherwise the session is finished. */
  function Answer(s: Screen, correct: bool, now: Timestamp, today: Day): (r: Screen)
    ensures CardAt(s.cards, s.index).None? ==> r == s
    ensures CardAt(s.cards, s.index).Some? ==>
      var n := |Unstudied(s.cards)|;
      && r.cards == AnswerCards(s.cards, CardAt(s.cards, s.index).value.id, correct, now)
      && r.stats.studied == s.stats.studied + 1
      && r.stats.correct == s.stats.correct + (if correct then 1 else 0)
      && (s.index < n - 1 ==>
            r.index == s.index + 1 && !r.showAnswer && r.sessions == s.sessions && r.ended == s.ended)
      && (s.index >= n - 1 ==>
            r.index == s.index && r.showAnswer == s.showAnswer && r.ended
            && r.sessions == FinishedSessions(s.sessions, r.stats, today))
  {
    var unstudied := Unstudied(s.cards);
    match CardAt(s.cards, s.index)
    case None => s
    case Some(current) =>
      var cards := AnswerCards(s.cards, current.id, correct, now);
      var stats := Stats(s.stats.studied + 1, s.stats.correct + if correct then 1 else 0);
      if s.index < |unstudied| - 1 then
        s.(cards := cards, stats := stats, index := s.index + 1, showAnswer := false)
      else
        s.(cards := cards, stats := stats, sessions := FinishedSessions(s.sessions, stats, today), ended := true)
  }

  /** An answer keeps the tally plausible (never more correct than
      studied), keeps one record per date, keeps every wrong count
      non-negative, and keeps the number of cards. */
  lemma AnswerPreservesInvariants(s: Screen, correct: bool, now: Timestamp, today: Day)
    ensures var r := Answer(s, correct, now, today);
            && |r.cards| == |s.cards|
            && (0 <= s.stats.correct <= s.stats.studied ==> 0 <= r.stats.correct <= r.stats.studied)
            && (OneRecordPerDate(s.sessions) ==> OneRecordPerDate(r.sessions))
            && (AllCountsNonNegative(s.cards) ==> AllCountsNonNegative(r.cards))
  {
  }

  /** With unique ids, answering the `i`-th unlearned card either takes it
      out of the unlearned list (when it becomes learned), so that every
      later card moves one place forward, or rewrites it in place. */
  lemma UnstudiedAfterAnswer(cards: seq<FlashCard>, i: nat, correct: bool, now: Timestamp)
    requires UniqueIds(cards)
    requires i < |Unstudied(cards)|
    ensures var u := Unstudied(cards);
            var a := AnswerCard(u[i], correct, now);
            var after := Unstudied(AnswerCards(cards, u[i].id, correct, now));
            && (a.isLearned ==> after == u[..i] + u[i + 1..])
            && (!a.isLearned ==> after == u[i := a])
  {
    var id := Unstudied(cards)[i].id;
    assert SelectsAtMostOne(HasId(id), cards);
    FilterAfterMapWhere(Unlearned, HasId(id), Answering(correct, now), cards, i);
  }

  /** A correct answer that marks the card learned makes the screen skip a
      card: the next unlearned card slides into the answered card's place,
      behind the advanced index, and the one after it is shown instead. */
  lemma LearningSkipsNextCard(s: Screen, now: Timestamp, today: Day)
    requires UniqueIds(s.cards)
    requires 0 <= s.index && s.index + 1 < |Unstudied(s.cards)|
    requires Unstudied(s.cards)[s.index].wrongCount == 0
    ensures var u := Unstudied(s.cards);
            var r := Answer(s, true, now, today);
            && r.index == s.index + 1
            && CardAt(r.cards, s.index) == Some(u[s.index + 1])
            && CardAt(r.cards, r.index) == (if s.index + 2 < |u| then Some(u[s.index + 2]) else None)
  {
    UnstudiedAfterAnswer(s.cards, s.index, true, now);
  }

  /** When the learned card was the last but one, the index runs past the
      end of the shrunken list while the session is not finished: no card
      is on screen, no record is written, and every further answer changes
      nothing. */
  lemma IndexRunsPastEnd(s: Screen, now: Timestamp, today: Day)
    requires UniqueIds(s.cards)
    requires 0 <= s.index && s.index + 2 == |Unstudied(s.cards)|
    requires Unstudied(s.cards)[s.index].wrongCount == 0
    ensures var r := Answer(s, true, now, today);
            && CardAt(r.cards, r.index).None?
            && r.sessions == s.sessions && r.ended == s.ended
            && forall correct: bool, later: Timestamp, day: Day :: Answer(r, correct, later, day) == r
  {
    LearningSkipsNextCard(s, now, today);
  }

  /** The screen object: its fields are the state the screen keeps through
      its setters. */
  class StudyScreen {
    var cards: seq<FlashCard>
    var sessions: seq<StudySession>
    var currentCardIndex: int
    var showAnswer: bool
    var sessionStats: Stats
    var ended: bool

    ghost function State(): Screen
      reads this
    {
      Screen(cards, sessions, currentCardIndex, showAnswer, sessionStats, ended)
    }

    ghost predicate Valid()
      reads this
    {
      && 0 <= currentCardIndex && 0 <= sessionStats.correct <= sessionStats.studied
      && OneRecordPerDate(sessions) && AllCountsNonNegative(cards)
    }

    /** A fresh visit to the screen over the stored cards and records. */
    constructor (cards: seq<FlashCard>, sessions: seq<StudySession>)
      requires OneRecordPerDate(sessions) && AllCountsNonNegative(cards)
      ensures Valid()
      ensures State() == Screen(cards, sessions, 0, false, Stats(0, 0), false)
    {
      this.cards := cards;
      this.sessions := sessions;
      currentCardIndex := 0;
      showAnswer := false;
      sessionStats := Stats(0, 0);
      ended := false;
    }

    /** `flipCard`: shows or hides the answer. */
    method FlipCard()
      modifies this`showAnswer
      ensures showAnswer == !old(showAnswer)
    {
      showAnswer := !showAnswer;
    }

    /** `handleAnswer`, with the delayed continuation run right after. */
    method HandleAnswer(correct: bool, now: Timestamp, today: Day)
      requires Valid()
      modifies this
      ensures Valid()
      ensures State() == Answer(old(State()), correct, now, today)
    {
      AnswerPreservesInvariants(State(), correct, now, today);
      var unstudiedCards := Unstudied(cards);
      if !(0 <= currentCardIndex < |unstudiedCards|) {
        return;
      }
      var currentCard := unstudiedCards[currentCardIndex];
      cards := AnswerCards(cards, currentCard.id, correct, now);
      var newStats := Stats(sessionStats.studied + 1, sessionStats.correct + if correct then 1 else 0);
      sessionStats := newStats;
      if currentCardIndex < |unstudiedCards| - 1 {
        currentCardIndex := currentCardIndex + 1;
        showAnswer := false;
      } else {
        FinishSession(newStats, today);
      }
    }

    /** `finishSession`: records the tally for today and leaves the
        screen. */
    method FinishSession(stats: Stats, today: Day)
      modifies this`sessions, this`ended
      ensures sessions == FinishedSessions(old(sessions), stats, today)
      ensures ended
    {
      var existing := FindSession(sessions, today);
      if existing.Some? {
        sessions := AccumulateToday(sessions, stats, today);
      } else {
        sessions := sessions + [StudySession(today, stats.studied, stats.correct, MinutesPerSession)];
      }
      ended := true;
    }
  }
}
