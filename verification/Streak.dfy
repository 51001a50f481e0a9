/** The decision streak of client/src/services/db.ts. Days are whole local days. */
module Streaks {
  import opened Collections

  datatype Row = Row(currentStreak: int, lastDay: Option<int>, longestStreak: int)

  datatype Event = Decide(day: int) | Reset

  // ---------------------------------------------------------------------------
  // Specification
  // ---------------------------------------------------------------------------

  /** The days recorded since the last reset. */
  function Days(events: seq<Event>): seq<int> {
    if events == [] then []
    else match events[|events| - 1]
      case Reset => []
      case Decide(day) => Days(events[..|events| - 1]) + [day]
  }

  ghost predicate NonDecreasing(days: seq<int>) {
    forall i, j :: 0 <= i < j < |days| ==> days[i] <= days[j]
  }

  /** The longest suffix whose days are at most two apart starts at `i`. */
  ghost predicate IsRunStart(days: seq<int>, i: int) {
    && 0 <= i < |days|
    && (i == 0 || days[i] - days[i - 1] > 2)
    && forall j :: i < j < |days| ==> days[j] - days[j - 1] <= 2
  }

  /** The distinct days from index `i` on. */
  function DaysFrom(days: seq<int>, i: nat): set<int> {
    if |days| <= i then {} else DaysFrom(days[..|days| - 1], i) + {days[|days| - 1]}
  }

  /** `n` is the streak of these days. */
  ghost predicate IsStreak(days: seq<int>, n: int) {
    if days == [] then n == 0 else exists i :: IsRunStart(days, i) && n == |DaysFrom(days, i)|
  }

  // ---------------------------------------------------------------------------
  // The updates
  // ---------------------------------------------------------------------------

  function Recorded(r: Row, day: int): Row {
    if r.lastDay.None? then Row(1, Some(day), Max(r.longestStreak, 1))
    else
      var gap := day - r.lastDay.value;
      if gap > 2 then Row(1, Some(day), r.longestStreak)
      else if gap >= 1 then Row(r.currentStreak + 1, Some(day), Max(r.longestStreak, r.currentStreak + 1))
      else r.(lastDay := Some(day))
  }

  function Fold(events: seq<Event>): Row {
    if events == [] then Row(0, None, 0)
    else
      var r := Fold(events[..|events| - 1]);
      match events[|events| - 1]
      case Reset => r.(currentStreak := 0, lastDay := None)
      case Decide(day) => Recorded(r, day)
  }

  /** The table of at most one row, and what was done to it. */
  class StreakTracking {
    var row: Option<Row>
    ghost var events: seq<Event>

    ghost predicate Valid() reads this {
      row == Some(Fold(events)) || (row.None? && events == [])
    }

    constructor ()
      ensures Valid() && events == []
    {
      row, events := None, [];
    }

    method GetStreakData() returns (data: Row)
      requires Valid()
      modifies `row
      ensures Valid() && row.Some? && data == Fold(events)
      ensures data == if old(row).None? then Row(0, None, 0) else old(row).value
    {
      if row.None? {
        row := Some(Row(0, None, 0));
        return Row(0, None, 0);
      }
      data := row.value;
    }

    method RecordDecisionDay(today: int) returns (data: Row)
      requires Valid()
      modifies this
      ensures Valid() && events == old(events) + [Decide(today)] && data == Fold(events)
      ensures row == Some(data) && data.lastDay == Some(today)
    {
      var current := GetStreakData();
      var newStreak, newLongest := current.currentStreak, current.longestStreak;
      if current.lastDay.None? {
        newStreak := 1;
        newLongest := Max(newLongest, 1);
      } else {
        var sinceLast := today - current.lastDay.value;
        if sinceLast > 2 {
          newStreak := 1;
        } else if sinceLast >= 1 {
          newStreak := current.currentStreak + 1;
          newLongest := Max(newLongest, newStreak);
        }
      }
      assert (events + [Decide(today)])[..|events|] == events;
      events := events + [Decide(today)];
      data := Row(newStreak, Some(today), newLongest);
      row := Some(data);
    }

    /** Without a row the update finds nothing. */
    method ResetStreak()
      requires Valid()
      modifies this
      ensures Valid() && events == if old(row).None? then old(events) else old(events) + [Reset]
      ensures row == if old(row).None? then None else Some(Row(0, None, old(row).value.longestStreak))
    {
      if row.None? {
        return;
      }
      assert (events + [Reset])[..|events|] == events;
      events := events + [Reset];
      row := Some(row.value.(currentStreak := 0, lastDay := None));
    }
  }

  // ---------------------------------------------------------------------------
  // The fold is the streak
  // ---------------------------------------------------------------------------

  lemma {:induction false} LastOfDays(events: seq<Event>)
    ensures Fold(events).lastDay == if Days(events) == [] then None else Some(Days(events)[|Days(events)| - 1])
    ensures Days(events) == [] ==> Fold(events).currentStreak == 0
  {
    if events != [] {
      LastOfDays(events[..|events| - 1]);
    }
  }

  lemma {:induction false} DaysFromBounded(days: seq<int>, i: nat, d: int)
    requires NonDecreasing(days) && d in DaysFrom(days, i)
    ensures days != [] && d <= days[|days| - 1]
  {
    var n := |days| - 1;
    if d != days[n] {
      DaysFromBounded(days[..n], i, d);
    }
  }

  lemma {:induction false} LastInDaysFrom(days: seq<int>, i: nat)
    requires i < |days|
    ensures days[|days| - 1] in DaysFrom(days, i)
  {
  }

  /** A further day extends the run, unless it is more than two days later. */
  lemma RunExtends(days: seq<int>, i: int, day: int)
    requires IsRunStart(days, i)
    ensures var last := days[|days| - 1];
      if day - last > 2 then IsRunStart(days + [day], |days|) else IsRunStart(days + [day], i)
  {
    var more := days + [day];
    forall j | i < j < |more| && day - days[|days| - 1] <= 2 ensures more[j] - more[j - 1] <= 2 {
      if j < |days| {
        assert more[j] == days[j] && more[j - 1] == days[j - 1];
      }
    }
  }

  lemma DaysGrow(days: seq<int>, i: nat, day: int)
    requires NonDecreasing(days) && i < |days| && days[|days| - 1] <= day
    ensures |DaysFrom(days + [day], i)| == |DaysFrom(days, i)| + if day > days[|days| - 1] then 1 else 0
  {
    assert (days + [day])[..|days|] == days;
    if day > days[|days| - 1] {
      if day in DaysFrom(days, i) {
        DaysFromBounded(days, i, day);
      }
    } else {
      LastInDaysFrom(days, i);
      assert DaysFrom(days, i) + {day} == DaysFrom(days, i);
    }
  }

  lemma OneDay(days: seq<int>, day: int)
    ensures DaysFrom(days + [day], |days|) == {day}
  {
    assert (days + [day])[..|days|] == days;
  }

  /** One decision more. */
  lemma StreakStep(days: seq<int>, n: int, day: int)
    requires NonDecreasing(days + [day]) && days != [] && IsStreak(days, n)
    ensures var gap := day - days[|days| - 1];
      IsStreak(days + [day], if gap > 2 then 1 else if gap >= 1 then n + 1 else n)
  {
    var more := days + [day];
    var i :| IsRunStart(days, i) && n == |DaysFrom(days, i)|;
    assert more[|days| - 1] == days[|days| - 1] && more[|days|] == day;
    assert NonDecreasing(days) by {
      forall a, b | 0 <= a < b < |days| ensures days[a] <= days[b] {
        assert more[a] == days[a] && more[b] == days[b];
      }
    }
    RunExtends(days, i, day);
    DaysGrow(days, i, day);
    OneDay(days, day);
  }

  lemma FirstStreak(day: int)
    ensures IsStreak([day], 1)
  {
    OneDay([], day);
    assert [] + [day] == [day];
    assert IsRunStart([day], 0);
  }

  lemma StreakPrefix(days: seq<int>, day: int)
    requires NonDecreasing(days + [day])
    ensures NonDecreasing(days)
  {
    forall a, b | 0 <= a < b < |days| ensures days[a] <= days[b] {
      assert (days + [day])[a] == days[a] && (days + [day])[b] == days[b];
    }
  }

  /** For days that do not go backwards the current streak is the number of distinct days in the
      longest suffix, since the last reset, with gaps of at most two days. */
  lemma {:induction false} CurrentIsStreak(events: seq<Event>)
    requires NonDecreasing(Days(events))
    ensures IsStreak(Days(events), Fold(events).currentStreak)
  {
    if events != [] {
      var init, e := events[..|events| - 1], events[|events| - 1];
      match e
      case Reset =>
      case Decide(day) =>
        StreakPrefix(Days(init), day);
        CurrentIsStreak(init);
        LastOfDays(init);
        if Days(init) == [] {
          FirstStreak(day);
          assert [] + [day] == [day];
        } else {
          StreakStep(Days(init), Fold(init).currentStreak, day);
        }
    }
  }

  lemma RunStartUnique(days: seq<int>, i: int, j: int)
    requires IsRunStart(days, i) && IsRunStart(days, j)
    ensures i == j
  {
  }

  /** There is only one number that is the streak. */
  lemma StreakIsUnique(days: seq<int>, m: int, n: int)
    requires IsStreak(days, m) && IsStreak(days, n)
    ensures m == n
  {
    if days != [] {
      var i :| IsRunStart(days, i) && m == |DaysFrom(days, i)|;
      var j :| IsRunStart(days, j) && n == |DaysFrom(days, j)|;
      RunStartUnique(days, i, j);
    }
  }

  /** The longest streak is the maximum of the current streaks so far, resets included; no order of the
      days is needed. */
  lemma {:induction false} LongestIsMaximum(events: seq<Event>)
    ensures forall n :: 0 <= n <= |events| ==> Fold(events[..n]).currentStreak <= Fold(events).longestStreak
    ensures exists n :: 0 <= n <= |events| && Fold(events[..n]).currentStreak == Fold(events).longestStreak
  {
    if events == [] {
      assert events[..0] == [];
    } else {
      var init := events[..|events| - 1];
      LongestIsMaximum(init);
      PositiveWhileCounting(init);
      forall n | 0 <= n <= |events| ensures Fold(events[..n]).currentStreak <= Fold(events).longestStreak {
        if n < |events| {
          assert init[..n] == events[..n];
        } else {
          assert events[..n] == events;
          assert init[..|init|] == init;
        }
      }
      if Fold(events).longestStreak == Fold(init).longestStreak {
        var n :| 0 <= n <= |init| && Fold(init[..n]).currentStreak == Fold(init).longestStreak;
        assert init[..n] == events[..n];
      } else {
        assert events[..|events|] == events;
      }
    }
  }

  lemma {:induction false} PositiveWhileCounting(events: seq<Event>)
    ensures Fold(events).longestStreak >= 0
    ensures Fold(events).lastDay.Some? ==> 1 <= Fold(events).currentStreak && 1 <= Fold(events).longestStreak
  {
    if events != [] {
      PositiveWhileCounting(events[..|events| - 1]);
    }
  }

  // ---------------------------------------------------------------------------
  // Days in any order
  // ---------------------------------------------------------------------------

  lemma DaysFromOneMore(days: seq<int>, i: nat, day: int)
    requires i < |days|
    ensures DaysFrom(days + [day], i) == DaysFrom(days, i) + {day}
  {
    assert (days + [day])[..|days|] == days;
  }

  /** Before a decision is recorded, with `i` the start of the run and `n` its streak: the updated count
      is the streak of the longer list if and only if the day starts a new run, or it is later than the
      last one exactly when the run does not have it yet. */
  lemma RecordKeepsStreakIff(days: seq<int>, i: int, n: int, day: int)
    requires IsRunStart(days, i) && n == |DaysFrom(days, i)|
    ensures var gap := day - days[|days| - 1];
      IsStreak(days + [day], if gap > 2 then 1 else if gap >= 1 then n + 1 else n) <==>
      gap > 2 || (gap >= 1 <==> day !in DaysFrom(days, i))
  {
    var more, gap := days + [day], day - days[|days| - 1];
    RunExtends(days, i, day);
    if gap > 2 {
      OneDay(days, day);
    } else {
      DaysFromOneMore(days, i, day);
      var size := |DaysFrom(more, i)|;
      assert size == n + if day in DaysFrom(days, i) then 0 else 1 by {
        assert day in DaysFrom(days, i) ==> DaysFrom(days, i) + {day} == DaysFrom(days, i);
      }
      assert IsStreak(more, size);
      var count := if gap >= 1 then n + 1 else n;
      if IsStreak(more, count) {
        StreakIsUnique(more, count, size);
      }
    }
  }

  /** The steps from index `i` on that go to a later day. */
  function Ascents(days: seq<int>, i: nat): nat {
    if |days| <= i + 1 then 0
    else Ascents(days[..|days| - 1], i) + if days[|days| - 1] > days[|days| - 2] then 1 else 0
  }

  lemma AscentsOneMore(days: seq<int>, i: nat, day: int)
    requires i < |days|
    ensures Ascents(days + [day], i) == Ascents(days, i) + if day > days[|days| - 1] then 1 else 0
  {
    assert (days + [day])[..|days|] == days;
  }

  lemma {:induction false} RunStartExists(days: seq<int>) returns (i: int)
    requires days != []
    ensures IsRunStart(days, i)
  {
    var n := |days| - 1;
    if n == 0 {
      i := 0;
    } else {
      i := RunStartExists(days[..n]);
      assert days == days[..n] + [days[n]];
      RunExtends(days[..n], i, days[n]);
      if days[n] - days[n - 1] > 2 {
        i := n;
      }
    }
  }

  /** `n` is one more than the steps to a later day in the run. */
  ghost predicate CountsAscents(days: seq<int>, n: int) {
    forall i :: IsRunStart(days, i) ==> n == 1 + Ascents(days, i)
  }

  lemma AscentsStep(days: seq<int>, n: int, day: int)
    requires days != [] && CountsAscents(days, n)
    ensures var gap := day - days[|days| - 1];
      CountsAscents(days + [day], if gap > 2 then 1 else if gap >= 1 then n + 1 else n)
  {
    var i := RunStartExists(days);
    RunExtends(days, i, day);
    AscentsOneMore(days, i, day);
    forall j | IsRunStart(days + [day], j) ensures j == if day - days[|days| - 1] > 2 then |days| else i {
      RunStartUnique(days + [day], j, if day - days[|days| - 1] > 2 then |days| else i);
    }
  }

  lemma LastDecision(events: seq<Event>) returns (init: seq<Event>, day: int)
    requires Days(events) != []
    ensures |init| == |events| - 1 && Fold(events) == Recorded(Fold(init), day)
    ensures Days(events) == Days(init) + [day]
  {
    init, day := events[..|events| - 1], events[|events| - 1].day;
  }

  /** Whatever the order of the days, the current streak counts the steps to a later day in the run. */
  lemma {:induction false} CurrentCountsAscents(events: seq<Event>)
    requires Days(events) != []
    ensures CountsAscents(Days(events), Fold(events).currentStreak)
    decreases |events|
  {
    var init, day := LastDecision(events);
    LastOfDays(init);
    if Days(init) == [] {
      assert Days(events) == [day];
    } else {
      CurrentCountsAscents(init);
      AscentsStep(Days(init), Fold(init).currentStreak, day);
    }
  }

  /** So it is the streak if and only if the run goes to a later day as often as it meets a new one. */
  lemma CurrentIsStreakIff(events: seq<Event>, i: int)
    requires IsRunStart(Days(events), i)
    ensures IsStreak(Days(events), Fold(events).currentStreak) <==>
      1 + Ascents(Days(events), i) == |DaysFrom(Days(events), i)|
  {
    CurrentCountsAscents(events);
    assert IsStreak(Days(events), |DaysFrom(Days(events), i)|);
    if IsStreak(Days(events), Fold(events).currentStreak) {
      StreakIsUnique(Days(events), Fold(events).currentStreak, |DaysFrom(Days(events), i)|);
    }
  }

  lemma FoldStep(events: seq<Event>, day: int)
    ensures Fold(events + [Decide(day)]) == Recorded(Fold(events), day)
    ensures Days(events + [Decide(day)]) == Days(events) + [day]
  {
    assert (events + [Decide(day)])[..|events|] == events;
  }

  lemma BackThenForth(events: seq<Event>, n: int)
    requires Fold(events).lastDay == Some(3) && Fold(events).currentStreak == n
    ensures var e := events + [Decide(2)] + [Decide(3)];
      Fold(e).lastDay == Some(3) && Fold(e).currentStreak == n + 1 && Days(e) == Days(events) + [2] + [3]
  {
    FoldStep(events, 2);
    FoldStep(events + [Decide(2)], 3);
  }

  /** A clock that steps back: two days out of order count as one. */
  lemma BackwardsClockCountsTooFew() returns (events: seq<Event>)
    ensures Days(events) == [3, 2] && Fold(events).currentStreak == 1 && !IsStreak(Days(events), 1)
  {
    FoldStep([], 3);
    FoldStep([] + [Decide(3)], 2);
    events := [] + [Decide(3)] + [Decide(2)];
    assert Days(events) == [3, 2];
    TwoDays([3, 2]);
  }

  /** And five decisions on two days count as three. */
  lemma BackwardsClockCountsTooMany() returns (events: seq<Event>)
    ensures Days(events) == [3, 2, 3, 2, 3] && Fold(events).currentStreak == 3 && !IsStreak(Days(events), 3)
  {
    FoldStep([], 3);
    var one := [] + [Decide(3)];
    var three := one + [Decide(2)] + [Decide(3)];
    BackThenForth(one, 1);
    BackThenForth(three, 2);
    events := three + [Decide(2)] + [Decide(3)];
    assert Days(events) == [3, 2, 3, 2, 3];
    TwoDays([3, 2, 3, 2, 3]);
  }

  lemma {:induction false} DaysFromStart(days: seq<int>, d: int)
    ensures d in DaysFrom(days, 0) <==> d in days
  {
    if days != [] {
      DaysFromStart(days[..|days| - 1], d);
      MemberSplit(days, d);
    }
  }

  lemma TwoDays(days: seq<int>)
    requires days != [] && 2 in days && 3 in days && forall d :: d in days ==> d == 2 || d == 3
    ensures IsStreak(days, 2) && !IsStreak(days, 1) && !IsStreak(days, 3)
  {
    forall d ensures d in DaysFrom(days, 0) <==> d in {2, 3} {
      DaysFromStart(days, d);
    }
    assert DaysFrom(days, 0) == {2, 3};
    forall j | 0 < j < |days| ensures days[j] - days[j - 1] <= 2 {
      assert days[j] in days && days[j - 1] in days;
    }
    assert IsRunStart(days, 0);
    if IsStreak(days, 1) {
      StreakIsUnique(days, 1, 2);
    }
    if IsStreak(days, 3) {
      StreakIsUnique(days, 3, 2);
    }
  }

  // ---------------------------------------------------------------------------
  // Days against elapsed time
  // ---------------------------------------------------------------------------

  const MS_PER_DAY := 86400000

  /** An instant of a local day. */
  datatype Instant = Instant(day: int, ms: int)

  ghost predicate ValidInstant(t: Instant) { 0 <= t.ms < MS_PER_DAY }

  function Elapsed(a: Instant, b: Instant): int {
    (b.day - a.day) * MS_PER_DAY + b.ms - a.ms
  }

  /** Whether more than 48 hours have passed and whether the code resets the streak differ exactly when
      the second decision falls two days later and later in its day. */
  lemma ResetDiffersFromElapsedIff(last: Instant, now: Instant)
    requires ValidInstant(last) && ValidInstant(now)
    ensures (Elapsed(last, now) > 48 * 60 * 60 * 1000) != (now.day - last.day > 2) <==>
      now.day - last.day == 2 && now.ms > last.ms
  {
    var gap := now.day - last.day;
    if gap > 2 {
      assert gap * MS_PER_DAY >= 3 * MS_PER_DAY;
    } else if gap < 2 {
      assert gap * MS_PER_DAY <= MS_PER_DAY;
    }
  }

  /** Then 48 hours are over and the streak goes on. */
  lemma TwoDaysLaterContinues(r: Row, last: Instant, now: Instant)
    requires ValidInstant(last) && ValidInstant(now) && r.lastDay == Some(last.day)
    requires now.day - last.day == 2 && now.ms > last.ms
    ensures Elapsed(last, now) > 48 * 60 * 60 * 1000 && Recorded(r, now.day).currentStreak == r.currentStreak + 1
  {
  }
}
