/** The rules of a study session on the flashcard page, as functions of the state they read:
    moving the card cursor, signalling that a deck is complete, and the daily study streak.
    Calendar days are numbered consecutively, so "yesterday" is today - 1. */
module Study {
  import opened Wrappers

  /** The cursor after showNextCard on a deck of `count` cards: one step on, unless the cursor is
      already at (or past) the last card. */
  function NextCursor(cursor: int, count: int): int {
    if cursor < count - 1 then cursor + 1 else cursor
  }

  /** showNextCard calls completeDeck instead of moving, on every press at the last card. */
  predicate CompletesOnNext(cursor: int, count: int) {
    !(cursor < count - 1)
  }

  /** The cursor after showPreviousCard: one step back, never below the first card. */
  function PreviousCursor(cursor: int): int {
    if cursor > 0 then cursor - 1 else cursor
  }

  datatype Move = Next | Previous

  /** The cursor after a run of next/previous presses (buttons or arrow keys). */
  function Navigate(cursor: int, count: int, moves: seq<Move>): int
    decreases |moves|
  {
    if moves == [] then cursor
    else
      var c := if moves[0] == Next then NextCursor(cursor, count) else PreviousCursor(cursor);
      Navigate(c, count, moves[1..])
  }

  /** From any card of a non-empty deck (in particular from 0, where rendering and "Start Over"
      put the cursor), every run of presses keeps the cursor on a card. */
  lemma {:induction false} NavigationStaysInDeck(cursor: int, count: int, moves: seq<Move>)
    requires 0 <= cursor < count
    ensures 0 <= Navigate(cursor, count, moves) < count
    decreases |moves|
  {
    if moves != [] {
      var c := if moves[0] == Next then NextCursor(cursor, count) else PreviousCursor(cursor);
      NavigationStaysInDeck(c, count, moves[1..]);
    }
  }

  /** The cursor and the number of completion signals after `presses` presses of next. */
  function PressNext(cursor: int, count: int, presses: nat): (int, nat)
    decreases presses
  {
    if presses == 0 then (cursor, 0)
    else
      var (c, done) := PressNext(NextCursor(cursor, count), count, presses - 1);
      (c, done + if CompletesOnNext(cursor, count) then 1 else 0)
  }

  /** From the first card, the first count - 1 presses of next step through the deck without
      completing it. */
  lemma {:induction false} NextWalksDeck(cursor: int, count: int, presses: nat)
    requires 0 <= cursor && cursor + presses <= count - 1
    ensures PressNext(cursor, count, presses) == (cursor + presses, 0)
    decreases presses
  {
    if presses > 0 {
      NextWalksDeck(cursor + 1, count, presses - 1);
    }
  }

  /** At the last card every press of next completes the deck again and the cursor stays. */
  lemma {:induction false} NextAtLastCard(count: int, presses: nat)
    requires count >= 1
    ensures PressNext(count - 1, count, presses) == (count - 1, presses)
    decreases presses
  {
    if presses > 0 {
      NextAtLastCard(count, presses - 1);
    }
  }

  /** Pressing next `count` times from the first card of a deck of `count` cards completes it
      exactly once, on the last press. */
  lemma CompletionOnLastPress(count: int)
    requires count >= 1
    ensures PressNext(0, count, count - 1) == (count - 1, 0)
    ensures PressNext(0, count, count) == (count - 1, 1)
  {
    NextWalksDeck(0, count, count - 1);
    PressNextSplit(0, count, count - 1, 1);
    NextAtLastCard(count, 1);
  }

  /** Pressing a + b times is pressing a times, then b times. */
  lemma {:induction false} PressNextSplit(cursor: int, count: int, a: nat, b: nat)
    ensures PressNext(cursor, count, a + b)
         == (PressNext(PressNext(cursor, count, a).0, count, b).0,
             PressNext(cursor, count, a).1 + PressNext(PressNext(cursor, count, a).0, count, b).1)
    decreases a
  {
    if a > 0 {
      PressNextSplit(NextCursor(cursor, count), count, a - 1, b);
    }
  }

  /** The streak count and the day last studied (localStorage's streakCount and lastStudied). */
  datatype Streak = Streak(count: int, lastStudied: Option<int>)

  /** updateStreakCount on day `today`. */
  function StudyOn(s: Streak, today: int): (r: Streak)
    ensures r.lastStudied == Some(today)
    ensures s.lastStudied == Some(today) ==> r == s
    ensures s.lastStudied == Some(today - 1) ==> r.count == s.count + 1
    ensures s.lastStudied != Some(today) && s.lastStudied != Some(today - 1) ==> r.count == 1
  {
    match s.lastStudied
    case None => Streak(1, Some(today))
    case Some(day) =>
      if day == today then s
      else if day == today - 1 then Streak(s.count + 1, Some(today))
      else Streak(1, Some(today))
  }

  /** Studying again on the same day changes nothing. */
  lemma StudySameDayTwice(s: Streak, today: int)
    ensures StudyOn(StudyOn(s, today), today) == StudyOn(s, today)
  {
  }

  /** The streak after studying on `days` consecutive days, the first being `first`. */
  function StudyDays(s: Streak, first: int, days: nat): Streak
    decreases days
  {
    if days == 0 then s else StudyDays(StudyOn(s, first), first + 1, days - 1)
  }

  /** Studying on n consecutive days after a break (or for the first time) gives a streak of n:
      the streak grows by at most one a day. */
  lemma ConsecutiveDaysStreak(s: Streak, first: int, days: nat)
    requires days >= 1
    requires s.lastStudied != Some(first) && s.lastStudied != Some(first - 1)
    ensures StudyDays(s, first, days) == Streak(days, Some(first + days - 1))
  {
    StreakContinues(Streak(1, Some(first)), first + 1, days - 1);
  }

  /** A streak last extended yesterday grows by one each further consecutive day. */
  lemma {:induction false} StreakContinues(s: Streak, first: int, days: nat)
    requires s.lastStudied == Some(first - 1)
    ensures StudyDays(s, first, days) == Streak(s.count + days, Some(if days == 0 then first - 1 else first + days - 1))
    decreases days
  {
    if days > 0 {
      StreakContinues(StudyOn(s, first), first + 1, days - 1);
    }
  }

  /** Studying `calls` times on day `today`, the streak carried from one update to the next. */
  function StudyTimes(s: Streak, today: int, calls: nat): Streak
    decreases calls
  {
    if calls == 0 then s else StudyOn(StudyTimes(s, today, calls - 1), today)
  }

  /** However often the streak is updated on one day, it counts that day once. */
  lemma {:induction false} SameDayStudiesOnce(s: Streak, today: int, calls: nat)
    requires calls >= 1
    ensures StudyTimes(s, today, calls) == StudyOn(s, today)
    decreases calls
  {
    if calls > 1 {
      SameDayStudiesOnce(s, today, calls - 1);
      StudySameDayTwice(s, today);
    }
  }

  /** The page's streak count after `calls` runs of updateStreakCount in one visit on day `today`.
      The page reads lastStudied from storage once, when it loads, and never assigns it again, so
      every run compares today with the same `pageLast`. */
  function VisitCount(count: int, pageLast: Option<int>, today: int, calls: nat): int
    decreases calls
  {
    if calls == 0 then count
    else StudyOn(Streak(VisitCount(count, pageLast, today, calls - 1), pageLast), today).count
  }

  /** Loaded the day after the last study day, the page adds one to the streak on every update of
      the visit, where one update a day is meant. */
  lemma {:induction false} StaleStreakInflates(count: int, today: int, calls: nat)
    ensures VisitCount(count, Some(today - 1), today, calls) == count + calls
    ensures calls >= 2 ==>
              VisitCount(count, Some(today - 1), today, calls) != StudyTimes(Streak(count, Some(today - 1)), today, calls).count
    decreases calls
  {
    if calls > 0 {
      StaleStreakInflates(count, today, calls - 1);
    }
    if calls >= 2 {
      SameDayStudiesOnce(Streak(count, Some(today - 1)), today, calls);
    }
  }
}
