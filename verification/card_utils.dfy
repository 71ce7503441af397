/**
 * The card and session utilities of utils/cardUtils.ts: the review and
 * category filters, the correct-rate aggregate, the streak counter and the
 * CSV export. `generateId` (clock and randomness) is not modelled.
 */
module CardUtils {
  import opened CardTypes
  import opened Seqs

  // ---------------------------------------------------------------------
  // Filters
  // ---------------------------------------------------------------------

  /** `getCardsForReview`: the cards that were ever missed or are not yet
      learned, in their original order. */
  function GetCardsForReview(cards: seq<FlashCard>): (r: seq<FlashCard>)
    ensures Subsequence(r, cards)
    ensures forall c | c in r :: c.wrongCount > 0 || !c.isLearned
    ensures forall c | c in cards && (c.wrongCount > 0 || !c.isLearned) :: multiset(r)[c] == multiset(cards)[c]
    ensures forall c | c in cards && !c.isLearned :: c in r
  {
    FilterIsSubsequence(NeedsReview, cards);
    Filter(NeedsReview, cards)
  }

  function NeedsReview(c: FlashCard): bool
  {
    c.wrongCount > 0 || !c.isLearned
  }

  function InCategory(category: string): FlashCard -> bool
  {
    (c: FlashCard) => c.category == category
  }

  /** `getCardsByCategory`: the cards of one category, in their original
      order. */
  function GetCardsByCategory(cards: seq<FlashCard>, category: string): (r: seq<FlashCard>)
    ensures Subsequence(r, cards)
    ensures forall c | c in r :: c.category == category
    ensures forall c | c in cards && c.category == category :: multiset(r)[c] == multiset(cards)[c]
  {
    FilterIsSubsequence(InCategory(category), cards);
    Filter(InCategory(category), cards)
  }

  lemma GetCardsByCategoryIdempotent(cards: seq<FlashCard>, category: string)
    ensures GetCardsByCategory(GetCardsByCategory(cards, category), category)
         == GetCardsByCategory(cards, category)
  {
    FilterIdempotent(InCategory(category), cards);
  }

  // ---------------------------------------------------------------------
  // Correct rate
  // ---------------------------------------------------------------------

  /** The sum of `studiedCards` over all sessions; with no negative count,
      it bounds every session's count. */
  function TotalStudied(sessions: seq<StudySession>): (r: int)
    ensures (forall k | 0 <= k < |sessions| :: sessions[k].studiedCards >= 0) ==>
      forall k | 0 <= k < |sessions| :: 0 <= sessions[k].studiedCards <= r
  {
    if sessions == [] then 0 else sessions[0].studiedCards + TotalStudied(sessions[1..])
  }

  /** The sum of `correctAnswers` over all sessions; with no negative count,
      it bounds every session's count. */
  function TotalCorrect(sessions: seq<StudySession>): (r: int)
    ensures (forall k | 0 <= k < |sessions| :: sessions[k].correctAnswers >= 0) ==>
      forall k | 0 <= k < |sessions| :: 0 <= sessions[k].correctAnswers <= r
  {
    if sessions == [] then 0 else sessions[0].correctAnswers + TotalCorrect(sessions[1..])
  }

  /** The totals agree with `reduce`, which adds the sessions from the
      first to the last: appending a session adds its counts. */
  lemma {:induction false} TotalsOfAppend(sessions: seq<StudySession>, s: StudySession)
    ensures TotalStudied(sessions + [s]) == TotalStudied(sessions) + s.studiedCards
    ensures TotalCorrect(sessions + [s]) == TotalCorrect(sessions) + s.correctAnswers
  {
    if sessions != [] {
      TotalsOfAppend(sessions[1..], s);
      assert (sessions + [s])[1..] == sessions[1..] + [s];
    }
  }

  /** `calculateCorrectRate`: the percentage of correct answers over all
      sessions, rounded to the nearest integer with halves rounded up; 0
      when there are no sessions or nothing was studied. */
  function CalculateCorrectRate(sessions: seq<StudySession>): (r: int)
    ensures |sessions| == 0 ==> r == 0
    ensures TotalStudied(sessions) <= 0 ==> r == 0
    ensures TotalStudied(sessions) > 0 ==>
      var s, c := TotalStudied(sessions), TotalCorrect(sessions);
      2 * s * r <= 200 * c + s < 2 * s * r + 2 * s
  {
    if |sessions| == 0 then 0
    else
      var totalStudied := TotalStudied(sessions);
      var totalCorrect := TotalCorrect(sessions);
      if totalStudied > 0 then (200 * totalCorrect + totalStudied) / (2 * totalStudied) else 0
  }

  /** A session never has more correct answers than cards studied. */
  ghost predicate PlausibleSession(s: StudySession)
  {
    0 <= s.correctAnswers <= s.studiedCards
  }

  lemma {:induction false} TotalsOrdered(sessions: seq<StudySession>)
    requires forall k | 0 <= k < |sessions| :: PlausibleSession(sessions[k])
    ensures 0 <= TotalCorrect(sessions) <= TotalStudied(sessions)
  {
    if sessions != [] {
      TotalsOrdered(sessions[1..]);
    }
  }

  lemma ScaleMonotone(s: int, x: int, y: int)
    requires s > 0 && x <= y
    ensures s * x <= s * y
  {
  }

  /** When every session is plausible the rate is a percentage. */
  lemma CorrectRateIsPercentage(sessions: seq<StudySession>)
    requires forall k | 0 <= k < |sessions| :: PlausibleSession(sessions[k])
    ensures 0 <= CalculateCorrectRate(sessions) <= 100
  {
    TotalsOrdered(sessions);
    var s, c, r := TotalStudied(sessions), TotalCorrect(sessions), CalculateCorrectRate(sessions);
    if s > 0 {
      assert 200 * c + s <= 201 * s;
      if r > 100 {
        ScaleMonotone(2 * s, 101, r);
        assert false;
      }
      if r < 0 {
        ScaleMonotone(2 * s, r + 1, 0);
        assert false;
      }
    }
  }

  // ---------------------------------------------------------------------
  // Streak
  // ---------------------------------------------------------------------

  /** Newest date first. */
  ghost predicate SortedNewestFirst(s: seq<StudySession>)
  {
    forall i, j | 0 <= i < j < |s| :: s[i].date >= s[j].date
  }

  /** The in-place `sort` with the comparator `b.date - a.date`. */
  method SortNewestFirst(a: array<StudySession>)
    modifies a
    ensures SortedNewestFirst(a[..])
    ensures multiset(a[..]) == multiset(old(a[..]))
  {
    var i := 0;
    while i < a.Length
      invariant 0 <= i <= a.Length
      invariant SortedNewestFirst(a[..i])
      invariant multiset(a[..]) == multiset(old(a[..]))
    {
      InsertNewest(a, i);
      i := i + 1;
    }
  }

  /** Moves `a[i]` down into the sorted prefix `a[..i]`, past every
      strictly older session, so that equal dates keep their order. */
  method InsertNewest(a: array<StudySession>, i: nat)
    requires i < a.Length
    requires SortedNewestFirst(a[..i])
    modifies a
    ensures SortedNewestFirst(a[..i + 1])
    ensures multiset(a[..]) == multiset(old(a[..]))
    ensures a[i + 1..] == old(a[i + 1..])
  {
    var j := i;
    while j > 0 && a[j - 1].date < a[j].date
      invariant 0 <= j <= i
      invariant multiset(a[..]) == multiset(old(a[..]))
      invariant a[i + 1..] == old(a[i + 1..])
      invariant forall p, q | 0 <= p < q <= i && q != j :: a[p].date >= a[q].date
      invariant 0 < j < i ==> a[j - 1].date >= a[j + 1].date
    {
      SwapWithPrevious(a, j);
      j := j - 1;
    }
  }

  method SwapWithPrevious(a: array<StudySession>, j: nat)
    requires 0 < j < a.Length
    modifies a
    ensures a[..] == old(a[..])[j - 1 := old(a[j])][j := old(a[j - 1])]
    ensures multiset(a[..]) == multiset(old(a[..]))
  {
    a[j - 1], a[j] := a[j], a[j - 1];
  }

  /** The date the loop accepts for the `j`-th session: the first must be
      today, and each later one must lie `j` days before the previously
      accepted one (the gap is compared with the running streak). */
  ghost function ExpectedDate(today: Day, j: nat): Day
  {
    if j == 0 then today else ExpectedDate(today, j - 1) - j
  }

  /** `k` is the streak of the (sorted) sessions: the first `k` sessions
      carry the accepted dates and the next one, if any, does not. */
  ghost predicate IsStreak(s: seq<StudySession>, today: Day, k: nat)
  {
    && k <= |s|
    && (forall j | 0 <= j < k :: s[j].date == ExpectedDate(today, j))
    && (k < |s| ==> s[k].date != ExpectedDate(today, k))
  }

  /** `getStreakDays`: sorts the caller's array newest first, then counts
      the streak of the sorted sessions. */
  method GetStreakDays(sessions: array<StudySession>, today: Day) returns (streak: nat)
    modifies sessions
    ensures SortedNewestFirst(sessions[..])
    ensures multiset(sessions[..]) == multiset(old(sessions[..]))
    ensures IsStreak(sessions[..], today, streak)
  {
    if sessions.Length == 0 {
      return 0;
    }
    SortNewestFirst(sessions);
    streak := CountStreak(sessions, today);
  }

  /** The loop of `getStreakDays`: walks the sessions from the first,
      counting each one whose distance in days from the last counted date
      (from today for the first) equals the count so far, and stops at the
      first that does not. */
  method CountStreak(sessions: array<StudySession>, today: Day) returns (streak: nat)
    ensures IsStreak(sessions[..], today, streak)
  {
    streak := 0;
    var currentDate := today;
    var i := 0;
    while i < sessions.Length
      invariant 0 <= i <= sessions.Length
      invariant streak == i
      invariant currentDate == ExpectedDate(today, if i == 0 then 0 else i - 1)
      invariant forall j | 0 <= j < i :: sessions[j].date == ExpectedDate(today, j)
    {
      var sessionDate := sessions[i].date;
      var diffDays := currentDate - sessionDate;
      if diffDays == streak {
        streak := streak + 1;
        currentDate := sessionDate;
      } else {
        break;
      }
      i := i + 1;
    }
  }

  /** The streak is determined by the sessions and the day. */
  lemma StreakIsUnique(s: seq<StudySession>, today: Day, k1: nat, k2: nat)
    requires IsStreak(s, today, k1) && IsStreak(s, today, k2)
    ensures k1 == k2
  {
  }

  /** No sessions, or a newest session that is not today, gives 0. */
  lemma StreakZeroUnlessStudiedToday(s: seq<StudySession>, today: Day, k: nat)
    requires IsStreak(s, today, k)
    requires |s| == 0 || s[0].date != today
    ensures k == 0
  {
  }

  lemma {:induction false} ExpectedDateClosedForm(today: Day, j: nat)
    ensures 2 * (today - ExpectedDate(today, j)) == j * (j + 1)
  {
    if j > 0 {
      ExpectedDateClosedForm(today, j - 1);
    }
  }

  /** The `j`-th counted session lies j(j+1)/2 days before today: the gaps
      between counted sessions grow by one day each time. */
  lemma StreakDatesAreTriangular(s: seq<StudySession>, today: Day, k: nat)
    requires IsStreak(s, today, k)
    ensures forall j | 0 <= j < k :: 2 * (today - s[j].date) == j * (j + 1)
  {
    forall j | 0 <= j < k
      ensures 2 * (today - s[j].date) == j * (j + 1)
    {
      ExpectedDateClosedForm(today, j);
    }
  }

  /** Without a session three days before today the streak is at most 2. */
  lemma StreakAtMostTwoWithoutThirdDay(s: seq<StudySession>, today: Day, k: nat)
    requires IsStreak(s, today, k)
    requires forall j | 0 <= j < |s| :: s[j].date != today - 3
    ensures k <= 2
  {
    ExpectedDateClosedForm(today, 2);
  }

  /** Sessions on consecutive days ending today (two or more) give a
      streak of exactly 2, whatever their number. */
  lemma ConsecutiveDaysGiveTwo(s: seq<StudySession>, today: Day, k: nat)
    requires |s| >= 2
    requires forall j | 0 <= j < |s| :: s[j].date == today - j
    requires IsStreak(s, today, k)
    ensures k == 2
  {
    ExpectedDateClosedForm(today, 0);
    ExpectedDateClosedForm(today, 1);
    ExpectedDateClosedForm(today, 2);
    assert IsStreak(s, today, 2);
    StreakIsUnique(s, today, k, 2);
  }

  /** Distinct dates do not bound the streak by 2: today, yesterday and
      three days ago give 3. */
  lemma StreakCanExceedTwoWithDistinctDates(today: Day)
    ensures var s := [StudySession(today, 1, 1, 10), StudySession(today - 1, 1, 1, 10),
                      StudySession(today - 3, 1, 1, 10)];
            SortedNewestFirst(s) && IsStreak(s, today, 3)
  {
    ExpectedDateClosedForm(today, 2);
  }

  // ---------------------------------------------------------------------
  // CSV export
  // ---------------------------------------------------------------------

  const Headers: seq<string> := ["表面", "裏面", "カテゴリ", "メモ", "難易度", "間違い回数", "習得済み"]

  /** The Japanese label of a difficulty; the three labels differ. */
  function DifficultyLabel(d: Difficulty): (r: string)
    ensures r == "簡単" <==> d == Easy
    ensures r == "普通" <==> d == Medium
    ensures r == "難しい" <==> d == Hard
  {
    assert "簡単"[0] != "普通"[0] && |"簡単"| < |"難しい"| && |"普通"| < |"難しい"|;
    match d
    case Easy => "簡単"
    case Medium => "普通"
    case Hard => "難しい"
  }

  /** `memo || ''`: the memo, or an empty field when there is none (an
      empty memo gives the same empty field). */
  function MemoText(memo: Option<string>): (r: string)
    ensures memo.None? ==> r == ""
    ensures memo.Some? ==> r == memo.value
  {
    match memo
    case None => ""
    case Some(m) => m
  }

  /** The seven fields of one card, in column order: one per header; no
      field the export adds contains a separator, so a card whose own texts
      avoid them gives a separator-free row. */
  function Row(card: FlashCard): (r: seq<string>)
    ensures |r| == |Headers|
    ensures PlainFields(card) ==> forall k | 0 <= k < |r| :: ',' !in r[k] && '\n' !in r[k]
  {
    [card.front, card.back, card.category, MemoText(card.memo),
     DifficultyLabel(card.difficulty), IntToDecimal(card.wrongCount),
     if card.isLearned then "○" else "×"]
  }

  /** The header row followed by one row per card. */
  function CsvTable(cards: seq<FlashCard>): (t: seq<seq<string>>)
  {
    [Headers] + seq(|cards|, i requires 0 <= i < |cards| => Row(cards[i]))
  }

  /** `exportCardsToCSV`: the header row and one row per card, fields
      joined by commas and rows by newlines, with no quoting. */
  function ExportCardsToCsv(cards: seq<FlashCard>): (r: string)
    ensures Join(Headers, ',') <= r
    ensures |cards| == 0 ==> r == Join(Headers, ',')
  {
    var table := CsvTable(cards);
    var lines := seq(|table|, i requires 0 <= i < |table| => Join(table[i], ','));
    assert lines[0] == Join(Headers, ',');
    Join(lines, '\n')
  }

  /** The card's own text fields contain neither separator. */
  ghost predicate PlainFields(c: FlashCard)
  {
    && ',' !in c.front && '\n' !in c.front
    && ',' !in c.back && '\n' !in c.back
    && ',' !in c.category && '\n' !in c.category
    && ',' !in MemoText(c.memo) && '\n' !in MemoText(c.memo)
  }

  /** What one CSV line shows of a card. */
  ghost predicate LineShows(fields: seq<string>, c: FlashCard)
  {
    && |fields| == 7
    && fields[0] == c.front && fields[1] == c.back && fields[2] == c.category
    && (c.memo.None? ==> fields[3] == "")
    && (c.memo.Some? ==> fields[3] == c.memo.value)
    && (c.difficulty == Easy ==> fields[4] == "簡単")
    && (c.difficulty == Medium ==> fields[4] == "普通")
    && (c.difficulty == Hard ==> fields[4] == "難しい")
    && |fields[5]| > 0
    && (forall k | 1 <= k < |fields[5]| :: '0' <= fields[5][k] <= '9')
    && (c.wrongCount >= 0 ==> '0' <= fields[5][0] <= '9' && DecimalValue(fields[5]) == c.wrongCount)
    && (c.wrongCount >= 0 && |fields[5]| > 1 ==> fields[5][0] != '0')
    && (c.wrongCount < 0 ==> |fields[5]| > 1 && fields[5][0] == '-' && fields[5][1] != '0'
                             && DecimalValue(fields[5][1..]) == -c.wrongCount)
    && (fields[6] == "○" <==> c.isLearned)
    && (fields[6] == "×" <==> !c.isLearned)
  }

  lemma RowShowsCard(c: FlashCard)
    ensures LineShows(Row(c), c)
  {
    if c.wrongCount >= 0 {
      DecimalRoundTrip(c.wrongCount);
    } else {
      DecimalRoundTrip(-c.wrongCount);
      assert IntToDecimal(c.wrongCount)[1..] == NatToDecimal(-c.wrongCount);
    }
  }

  /** A row of separator-free fields is one line that splits back into
      those fields. */
  lemma LineRoundTrip(row: seq<string>)
    requires |row| >= 1
    requires forall k | 0 <= k < |row| :: ',' !in row[k] && '\n' !in row[k]
    ensures '\n' !in Join(row, ',')
    ensures Split(Join(row, ','), ',') == row
  {
    JoinAvoids(row, ',', '\n');
    SplitJoin(row, ',');
  }

  lemma CsvTableIsPlain(cards: seq<FlashCard>)
    requires forall k | 0 <= k < |cards| :: PlainFields(cards[k])
    ensures forall i | 0 <= i < |CsvTable(cards)| ::
      |CsvTable(cards)[i]| == 7 &&
      forall k | 0 <= k < 7 :: ',' !in CsvTable(cards)[i][k] && '\n' !in CsvTable(cards)[i][k]
  {
    var table := CsvTable(cards);
    forall i | 0 <= i < |table|
      ensures |table[i]| == 7
      ensures forall k | 0 <= k < 7 :: ',' !in table[i][k] && '\n' !in table[i][k]
    {
      if i > 0 {
        assert table[i] == Row(cards[i - 1]);
      }
    }
  }

  /** When no card field contains a comma or a newline, the export splits
      into the header line and one line per card, in order, and each line
      splits back into its row. */
  lemma CsvSplitsIntoRows(cards: seq<FlashCard>)
    requires forall k | 0 <= k < |cards| :: PlainFields(cards[k])
    ensures var lines := Split(ExportCardsToCsv(cards), '\n');
            && |lines| == |cards| + 1
            && Split(lines[0], ',') == Headers
            && forall k | 0 <= k < |cards| :: Split(lines[k + 1], ',') == Row(cards[k])
  {
    var table := CsvTable(cards);
    var joined := seq(|table|, i requires 0 <= i < |table| => Join(table[i], ','));
    CsvTableIsPlain(cards);
    forall i | 0 <= i < |table|
      ensures '\n' !in joined[i]
      ensures Split(joined[i], ',') == table[i]
    {
      LineRoundTrip(table[i]);
    }
    SplitJoin(joined, '\n');
    assert forall k | 0 <= k < |cards| :: table[k + 1] == Row(cards[k]);
  }

  /** The export, read back line by line and field by field, shows every
      card in order: its texts, its memo or an empty field, its difficulty
      label, its wrong count and its learned mark. */
  lemma CsvLayout(cards: seq<FlashCard>)
    requires forall k | 0 <= k < |cards| :: PlainFields(cards[k])
    ensures var lines := Split(ExportCardsToCsv(cards), '\n');
            && |lines| == |cards| + 1
            && Split(lines[0], ',') == Headers
            && forall k | 0 <= k < |cards| :: LineShows(Split(lines[k + 1], ','), cards[k])
  {
    CsvSplitsIntoRows(cards);
    forall k | 0 <= k < |cards|
      ensures LineShows(Row(cards[k]), cards[k])
    {
      RowShowsCard(cards[k]);
    }
  }
}
