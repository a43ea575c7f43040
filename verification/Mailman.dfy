/** Delivery slots: one tick a minute at a fixed UTC offset, so one minute count serves both clocks. */
module Mailman {
  import opened Wrappers

  const DAY := 1440

  datatype Mode = Interval | Times | CustomDaily

  /** Clock times are minutes since midnight; an unset number is 0, an unset DND bound `None`. */
  datatype Settings = Settings(
    mode: Mode, intervalMinutes: int, intervalHours: int,
    timesPerDay: int, windowStart: int, windowEnd: int, customTimes: seq<int>,
    dndEnabled: bool, dndStart: Option<int>, dndEnd: Option<int>)

  /** Python's `//` and `%` floor; the divisor here is positive, where Dafny's agree. */
  function Evenly(start: int, step: int, n: nat): (r: set<int>)
    ensures forall x :: x in r <==> exists i :: 0 <= i < n && x == Nth(start, step, i)
  {
    set i | 0 <= i < n :: Nth(start, step, i)
  }

  function Nth(start: int, step: int, i: int): int { start + i * step }

  function SlotMinutes(s: Settings): set<int> {
    match s.mode
    case CustomDaily => set t | t in s.customTimes
    case Times =>
      var n, span := s.timesPerDay, s.windowEnd - s.windowStart;
      if n <= 0 then {}
      else if n == 1 || span <= 0 then {s.windowStart}
      else Evenly(s.windowStart, span / n, n)
    case Interval => {}
  }

  predicate InDnd(s: Settings, now: int) {
    && s.dndEnabled && s.dndStart.Some? && s.dndEnd.Some?
    && var start, end := s.dndStart.value, s.dndEnd.value;
       start != end && if start < end then start <= now < end else now >= start || now < end
  }

  function IntervalOf(s: Settings): int {
    if s.intervalMinutes != 0 then s.intervalMinutes else s.intervalHours * 60
  }

  predicate IsDue(s: Settings, minute: int, last: Option<int>) {
    && !InDnd(s, minute % DAY)
    && if s.mode.Interval? then IntervalOf(s) > 0 && (last.Some? ==> minute - last.value >= IntervalOf(s))
       else minute % DAY in SlotMinutes(s)
  }

  /** One tick: nothing within 90 seconds of the last delivery, else whatever is due, if the held mail can be
      looked up: a lookup that fails leaves no stamp either. */
  predicate Delivers(s: Settings, up: int -> bool, minute: int, last: Option<int>) {
    (last.Some? ==> (minute - last.value) * 60 >= 90) && IsDue(s, minute, last) && up(minute)
  }

  // ----- the do-not-disturb window ------------------------------------------

  predicate ClockTime(t: int) { 0 <= t < DAY }

  predicate DndValid(s: Settings) {
    (s.dndStart.Some? ==> ClockTime(s.dndStart.value)) && (s.dndEnd.Some? ==> ClockTime(s.dndEnd.value))
  }

  /** Length of the quiet stretch of a day. */
  function DndLength(s: Settings): int {
    if s.dndEnabled && s.dndStart.Some? && s.dndEnd.Some? then (s.dndEnd.value - s.dndStart.value) % DAY else 0
  }

  /** The midnight wrap is right: being quiet is being less than the window's length past its start. */
  lemma DndIsCyclic(s: Settings, minute: int)
    requires DndValid(s)
    ensures InDnd(s, minute % DAY) <==>
              DndLength(s) > 0 && (minute - s.dndStart.value) % DAY < DndLength(s)
  {
    if s.dndStart.Some? && s.dndEnd.Some? {
      var now, start := minute % DAY, s.dndStart.value;
      assert (minute - start) % DAY == (now - start) % DAY by {
        assert minute - start == (now - start) + (minute / DAY) * DAY;
        AddDays(now - start, minute / DAY);
      }
    }
  }

  lemma AddDays(x: int, days: int)
    ensures (x + days * DAY) % DAY == x % DAY
  {
  }

  /** From any minute, the quiet stretch is over after at most its own length. */
  lemma QuietEnds(s: Settings, minute: int) returns (k: int)
    requires DndValid(s)
    ensures minute <= k <= minute + DndLength(s)
    ensures !InDnd(s, k % DAY) && forall m :: minute <= m < k ==> InDnd(s, m % DAY)
  {
    DndIsCyclic(s, minute);
    if !InDnd(s, minute % DAY) {
      k := minute;
    } else {
      var past := (minute - s.dndStart.value) % DAY;
      k := minute + (DndLength(s) - past);
      forall m | minute <= m <= k ensures InDnd(s, m % DAY) <==> m < k {
        DndIsCyclic(s, m);
        var days := (minute - s.dndStart.value) / DAY;
        assert m - s.dndStart.value == (past + (m - minute)) + days * DAY;
        AddDays(past + (m - minute), days);
      }
    }
  }

  // ----- runs of ticks ------------------------------------------------------

  /** The last delivery once the ticks at minutes `from .. from + n` have run. */
  function LastAfter(s: Settings, up: int -> bool, last: Option<int>, from: int, n: nat): Option<int> {
    if n == 0 then last
    else
      var before := LastAfter(s, up, last, from, n - 1);
      if Delivers(s, up, from + n - 1, before) then Some(from + n - 1) else before
  }

  /** Whether tick `k` of the run delivers. */
  predicate DeliversAt(s: Settings, up: int -> bool, last: Option<int>, from: int, k: nat) {
    Delivers(s, up, from + k, LastAfter(s, up, last, from, k))
  }

  lemma {:induction false} LastIs(s: Settings, up: int -> bool, last: Option<int>, from: int, i: nat, j: nat)
    requires i < j && DeliversAt(s, up, last, from, i)
    requires forall k: nat :: i < k < j ==> !DeliversAt(s, up, last, from, k)
    ensures LastAfter(s, up, last, from, j) == Some(from + i)
    decreases j
  {
    if i < j - 1 {
      LastIs(s, up, last, from, i, j - 1);
      assert !DeliversAt(s, up, last, from, j - 1);
    }
  }

  lemma {:induction false} LastIsPast(s: Settings, up: int -> bool, last: Option<int>, from: int, n: nat)
    requires last.Some? ==> last.value < from
    ensures var l := LastAfter(s, up, last, from, n); l.Some? ==> l.value < from + n
    ensures var l := LastAfter(s, up, last, from, n);
            l.Some? && l.value == from + n - 1 <==>
              (n == 0 && last.Some? && last.value == from - 1) || (n > 0 && DeliversAt(s, up, last, from, n - 1))
  {
    if n > 0 { LastIsPast(s, up, last, from, n - 1); }
  }

  /** The shortest wait between deliveries: the interval, but never one minute. */
  function Wait(s: Settings): int { if IntervalOf(s) < 2 then 2 else IntervalOf(s) }

  /** A minute at which nothing but the wait can hold a delivery back. */
  predicate Open(s: Settings, up: int -> bool, minute: int) { !InDnd(s, minute % DAY) && up(minute) }

  /** Minute `m` is the first open one from `after` on. */
  ghost predicate FirstOpen(s: Settings, up: int -> bool, after: int, m: int) {
    after <= m && Open(s, up, m) && forall n :: after <= n < m ==> !Open(s, up, n)
  }

  /** Nothing delivers before the wait is over and a minute is open. */
  lemma {:induction false} Waiting(s: Settings, up: int -> bool, last: Option<int>, from: int, i: nat, j: nat)
    requires s.mode.Interval? && DeliversAt(s, up, last, from, i)
    requires i < j && forall m :: from + i + Wait(s) <= m < from + j ==> !Open(s, up, m)
    ensures forall k: nat :: i < k < j ==> !DeliversAt(s, up, last, from, k)
    decreases j
  {
    if i < j - 1 {
      Waiting(s, up, last, from, i, j - 1);
      LastIs(s, up, last, from, i, j - 1);
      assert from + i + Wait(s) <= from + (j - 1) ==> !Open(s, up, from + (j - 1));
    }
  }

  /** Interval mode, exactly: the next delivery is the first open minute once the wait is over. */
  lemma IntervalNext(s: Settings, up: int -> bool, last: Option<int>, from: int, i: nat, j: nat)
    requires s.mode.Interval? && IntervalOf(s) > 0 && i < j && DeliversAt(s, up, last, from, i)
    ensures FirstOpen(s, up, from + i + Wait(s), from + j)
            <==> DeliversAt(s, up, last, from, j) && forall k: nat :: i < k < j ==> !DeliversAt(s, up, last, from, k)
  {
    if FirstOpen(s, up, from + i + Wait(s), from + j) {
      Waiting(s, up, last, from, i, j);
      LastIs(s, up, last, from, i, j);
    }
    if DeliversAt(s, up, last, from, j) && forall k: nat :: i < k < j ==> !DeliversAt(s, up, last, from, k) {
      LastIs(s, up, last, from, i, j);
      forall n | from + i + Wait(s) <= n < from + j ensures !Open(s, up, n) {
        LastIs(s, up, last, from, i, n - from);
        assert !DeliversAt(s, up, last, from, n - from);
      }
    }
  }

  /** In clock terms: the minutes set, or else the hours set, part two successive deliveries, except that one
      minute counts as two; with neither set nothing is ever delivered. */
  lemma IntervalInMinutes(s: Settings, up: int -> bool, last: Option<int>, from: int, i: nat, j: nat)
    requires s.mode.Interval? && i < j
    requires DeliversAt(s, up, last, from, i) && DeliversAt(s, up, last, from, j)
    requires forall k: nat :: i < k < j ==> !DeliversAt(s, up, last, from, k)
    ensures s.intervalMinutes > 0 || (s.intervalMinutes == 0 && s.intervalHours > 0)
    ensures var minutes := if s.intervalMinutes > 0 then s.intervalMinutes else 60 * s.intervalHours;
            && j - i >= minutes && j - i >= 2
            && (!s.dndEnabled && (forall m :: up(m)) ==> j - i == if minutes == 1 then 2 else minutes)
  {
    IntervalNext(s, up, last, from, i, j);
    var due := from + i + Wait(s);
    if !s.dndEnabled && forall m :: up(m) { assert Open(s, up, due); }
  }

  /** So two successive deliveries in interval mode are never closer than the interval, and when lookups work
      no further apart than it plus the quiet stretch. */
  lemma IntervalGap(s: Settings, up: int -> bool, last: Option<int>, from: int, i: nat, j: nat)
    requires s.mode.Interval? && IntervalOf(s) > 0 && DndValid(s)
    requires i < j && DeliversAt(s, up, last, from, i) && DeliversAt(s, up, last, from, j)
    requires forall k: nat :: i < k < j ==> !DeliversAt(s, up, last, from, k)
    ensures Wait(s) <= j - i
    ensures (forall m :: from + i < m <= from + i + Wait(s) + DndLength(s) ==> up(m)) ==>
              j - i <= Wait(s) + DndLength(s)
  {
    IntervalNext(s, up, last, from, i, j);
    var k := QuietEnds(s, from + i + Wait(s));
    assert up(k) ==> Open(s, up, k);
  }

  /** And when lookups work, the next delivery does come, within those bounds. */
  lemma IntervalComes(s: Settings, up: int -> bool, last: Option<int>, from: int, i: nat) returns (j: nat)
    requires s.mode.Interval? && IntervalOf(s) > 0 && DndValid(s) && DeliversAt(s, up, last, from, i)
    requires forall m :: from + i < m <= from + i + Wait(s) + DndLength(s) ==> up(m)
    ensures Wait(s) <= j - i <= Wait(s) + DndLength(s)
    ensures DeliversAt(s, up, last, from, j) && forall k: nat :: i < k < j ==> !DeliversAt(s, up, last, from, k)
  {
    var m := QuietEnds(s, from + i + Wait(s));
    j := m - from;
    assert FirstOpen(s, up, from + i + Wait(s), from + j);
    IntervalNext(s, up, last, from, i, j);
  }

  predicate Wanted(s: Settings, minute: int) {
    minute % DAY in SlotMinutes(s) && !InDnd(s, minute % DAY)
  }

  /** A wanted minute whose lookup works. */
  predicate Ready(s: Settings, up: int -> bool, minute: int) { Wanted(s, minute) && up(minute) }

  /** Slot modes, exactly: a ready minute delivers unless the minute before it did. */
  lemma SlotTick(s: Settings, up: int -> bool, last: Option<int>, from: int, k: nat)
    requires !s.mode.Interval? && (last.Some? ==> last.value < from - 1)
    ensures DeliversAt(s, up, last, from, k) <==>
              Ready(s, up, from + k) && (k > 0 ==> !DeliversAt(s, up, last, from, k - 1))
  {
    LastIsPast(s, up, last, from, k);
  }

  /** In every run of ticks, each delivers exactly if its minute is ready. */
  ghost predicate AllDelivered(s: Settings, up: int -> bool) {
    forall last: Option<int>, from: int, k: nat :: (last.Some? ==> last.value < from - 1) ==>
      (DeliversAt(s, up, last, from, k) <==> Ready(s, up, from + k))
  }

  ghost predicate NoNeighbours(s: Settings, up: int -> bool) {
    forall m :: Ready(s, up, m) ==> !Ready(s, up, m + 1)
  }

  /** No slot is ever lost to the 90-second guard if and only if no two ready minutes are neighbours. */
  lemma AllDeliveredExactly(s: Settings, up: int -> bool)
    requires !s.mode.Interval?
    ensures AllDelivered(s, up) <==> NoNeighbours(s, up)
  {
    if NoNeighbours(s, up) {
      forall last: Option<int>, from: int, k: nat | last.Some? ==> last.value < from - 1
        ensures DeliversAt(s, up, last, from, k) <==> Ready(s, up, from + k)
      {
        SlotTick(s, up, last, from, k);
        if k > 0 {
          SlotTick(s, up, last, from, k - 1);
          assert Ready(s, up, from + k - 1) ==> !Ready(s, up, from + k - 1 + 1);
        }
      }
    }
    if m :| Ready(s, up, m) && Ready(s, up, m + 1) {
      SlotTick(s, up, None, m, 0);
      SlotTick(s, up, None, m, 1);
      assert Ready(s, up, m + 0) && Ready(s, up, m + 1);
    }
  }

  // ----- releases that fail -------------------------------------------------

  /** A delivery whose release works: what is held then leaves. The stamp is set before, so it stands either way. */
  predicate ReleasesAt(s: Settings, up: int -> bool, ok: int -> bool, last: Option<int>, from: int, k: nat) {
    DeliversAt(s, up, last, from, k) && ok(from + k)
  }

  /** In every run, each ready minute whose release works lets the held mail go. */
  ghost predicate AllReleased(s: Settings, up: int -> bool, ok: int -> bool) {
    forall last: Option<int>, from: int, k: nat :: (last.Some? ==> last.value < from - 1) ==>
      (ReleasesAt(s, up, ok, last, from, k) <==> Ready(s, up, from + k) && ok(from + k))
  }

  /** Slot modes: no working slot is lost if and only if none has a ready minute right before it, whether or not
      that one's own release works. */
  lemma AllReleasedExactly(s: Settings, up: int -> bool, ok: int -> bool)
    requires !s.mode.Interval?
    ensures AllReleased(s, up, ok) <==> forall m :: Ready(s, up, m) && Ready(s, up, m + 1) ==> !ok(m + 1)
  {
    if forall m :: Ready(s, up, m) && Ready(s, up, m + 1) ==> !ok(m + 1) {
      forall last: Option<int>, from: int, k: nat | last.Some? ==> last.value < from - 1
        ensures ReleasesAt(s, up, ok, last, from, k) <==> Ready(s, up, from + k) && ok(from + k)
      {
        SlotTick(s, up, last, from, k);
        if k > 0 {
          SlotTick(s, up, last, from, k - 1);
          assert Ready(s, up, from + k - 1) && Ready(s, up, from + k - 1 + 1) ==> !ok(from + k - 1 + 1);
        }
      }
    }
    if m :| Ready(s, up, m) && Ready(s, up, m + 1) && ok(m + 1) {
      SlotTick(s, up, None, m, 0);
      SlotTick(s, up, None, m, 1);
      assert Ready(s, up, m + 0) && !ReleasesAt(s, up, ok, None, m, 1);
    }
  }

  /** Interval mode: mail whose release fails is not retried; it waits out the whole interval again. */
  lemma FailedReleaseWaits(s: Settings, up: int -> bool, ok: int -> bool, last: Option<int>, from: int, i: nat, j: nat)
    requires s.mode.Interval? && IntervalOf(s) > 0 && i < j
    requires DeliversAt(s, up, last, from, i) && !ok(from + i) && ReleasesAt(s, up, ok, last, from, j)
    ensures j - i >= Wait(s)
  {
    var k := NextDelivery(s, up, last, from, i, j);
    IntervalNext(s, up, last, from, i, k);
  }

  /** The first delivery after `i`, no later than `j`. */
  lemma {:induction false} NextDelivery(s: Settings, up: int -> bool, last: Option<int>, from: int, i: nat, j: nat)
    returns (k: nat)
    requires i < j && DeliversAt(s, up, last, from, j)
    ensures i < k <= j && DeliversAt(s, up, last, from, k)
    ensures forall l: nat :: i < l < k ==> !DeliversAt(s, up, last, from, l)
    decreases j
  {
    if l: nat :| i < l < j && DeliversAt(s, up, last, from, l) {
      k := NextDelivery(s, up, last, from, i, l);
    } else {
      k := j;
    }
  }

  lemma Later(start: int, step: int, i: int, j: int)
    requires i < j && step >= 0
    ensures Nth(start, step, i) + step <= Nth(start, step, j)
  {
    assert (j - i - 1) * step >= 0;
    assert j * step == i * step + step + (j - i - 1) * step;
  }

  lemma {:induction false} EvenlyCount(start: int, step: int, n: nat)
    requires step > 0
    ensures |Evenly(start, step, n)| == n
  {
    var all := Evenly(start, step, n);
    if n == 0 {
      assert all == {};
    } else {
      var before, last := Evenly(start, step, n - 1), Nth(start, step, n - 1);
      EvenlyCount(start, step, n - 1);
      forall x | x in before ensures x != last {
        var i :| 0 <= i < n - 1 && x == Nth(start, step, i);
        Later(start, step, i, n - 1);
      }
      assert all == before + {last};
    }
  }

  lemma StepTimes(span: int, n: int)
    requires n > 0
    ensures n * (span / n) <= span < n * (span / n) + n
  {
  }

  /** The minutes a slot mode wants, in clock terms: those listed, or the window's start and a whole number of
      steps from it; and none that is quiet. */
  lemma WantedExactly(s: Settings, minute: int)
    ensures s.mode.CustomDaily? ==>
              (Wanted(s, minute) <==> minute % 1440 in s.customTimes && !InDnd(s, minute % 1440))
    ensures s.mode.Times? && s.timesPerDay >= 1 && s.windowEnd - s.windowStart > 0 ==>
              (Wanted(s, minute) <==>
                 && !InDnd(s, minute % 1440)
                 && var step := (s.windowEnd - s.windowStart) / s.timesPerDay;
                    minute % 1440 in Evenly(s.windowStart, step, s.timesPerDay))
    ensures s.mode.Times? && s.timesPerDay >= 1 && s.windowEnd - s.windowStart <= 0 ==>
              (Wanted(s, minute) <==> minute % 1440 == s.windowStart && !InDnd(s, minute % 1440))
    ensures s.mode.Interval? || (s.mode.Times? && s.timesPerDay < 1) ==> !Wanted(s, minute)
  {
    if s.mode.Times? && s.timesPerDay == 1 {
      assert Nth(s.windowStart, s.windowEnd - s.windowStart, 0) == s.windowStart;
      assert Evenly(s.windowStart, s.windowEnd - s.windowStart, 1) == {s.windowStart};
    }
  }

  /** Times mode: all slots lie in the window, a step apart, and there are as many as asked for
      exactly when the window has a minute for each; otherwise there is one. */
  lemma TimesSlots(s: Settings)
    requires s.mode.Times? && s.timesPerDay >= 1
    ensures var n, span := s.timesPerDay, s.windowEnd - s.windowStart;
            && |SlotMinutes(s)| == (if span >= n then n else 1)
            && (span >= n ==> forall x :: x in SlotMinutes(s) ==> s.windowStart <= x < s.windowEnd)
            && (span < n || n == 1 ==> SlotMinutes(s) == {s.windowStart})
  {
    var n, span := s.timesPerDay, s.windowEnd - s.windowStart;
    if n >= 2 && span > 0 {
      var step := span / n;
      StepTimes(span, n);
      if span >= n {
        assert step >= 1;
        EvenlyCount(s.windowStart, step, n);
        forall i | 0 <= i < n ensures s.windowStart <= Nth(s.windowStart, step, i) < s.windowEnd {
          Later(s.windowStart, step, i, n);
          if i > 0 { Later(s.windowStart, step, 0, i); }
        }
      } else {
        assert step == 0;
        assert Evenly(s.windowStart, step, n) == {s.windowStart} by {
          assert forall i :: Nth(s.windowStart, 0, i) == s.windowStart;
          assert s.windowStart == Nth(s.windowStart, step, 0);
        }
      }
    }
  }

  /** One delivery a day, a window too short for the deliveries asked for, or two minutes for each. */
  predicate Spread(s: Settings) {
    var n, span := s.timesPerDay, s.windowEnd - s.windowStart;
    n == 1 || span < n || span >= 2 * n
  }

  /** Times mode delivers exactly its slots outside the quiet stretch whenever the deliveries are spread; and
      without a quiet stretch or failing lookups, only then. */
  lemma TimesDelivered(s: Settings, up: int -> bool)
    requires s.mode.Times? && s.timesPerDay >= 1 && ClockTime(s.windowStart) && ClockTime(s.windowEnd)
    ensures Spread(s) ==> AllDelivered(s, up)
    ensures DndValid(s) && DndLength(s) == 0 && (forall m :: up(m)) ==> (AllDelivered(s, up) <==> Spread(s))
  {
    AllDeliveredExactly(s, up);
    if Spread(s) {
      forall m | Ready(s, up, m) ensures !Ready(s, up, m + 1) { SpreadApart(s, m); }
    } else if DndValid(s) && DndLength(s) == 0 && forall m :: up(m) {
      CrowdedReady(s, up);
    }
  }

  lemma SpreadApart(s: Settings, m: int)
    requires s.mode.Times? && s.timesPerDay >= 1 && ClockTime(s.windowStart) && ClockTime(s.windowEnd) && Spread(s)
    requires m % DAY in SlotMinutes(s)
    ensures (m + 1) % DAY !in SlotMinutes(s)
  {
    NextMinute(m);
    NextNotSlot(s, m % DAY);
  }

  lemma CrowdedReady(s: Settings, up: int -> bool)
    requires s.mode.Times? && s.timesPerDay >= 1 && ClockTime(s.windowStart) && ClockTime(s.windowEnd) && !Spread(s)
    requires DndValid(s) && DndLength(s) == 0 && forall m :: up(m)
    ensures Ready(s, up, s.windowStart) && Ready(s, up, s.windowStart + 1)
  {
    Crowded(s);
    NeverQuiet(s, s.windowStart);
    NeverQuiet(s, s.windowStart + 1);
  }

  lemma NeverQuiet(s: Settings, minute: int)
    requires DndValid(s) && DndLength(s) == 0 && ClockTime(minute)
    ensures minute % DAY == minute && !InDnd(s, minute)
  {
    DndIsCyclic(s, minute);
  }

  /** Fewer than two minutes each: the first two slots are neighbours. */
  lemma Crowded(s: Settings)
    requires s.mode.Times? && s.timesPerDay >= 1 && ClockTime(s.windowStart) && ClockTime(s.windowEnd) && !Spread(s)
    ensures s.windowStart in SlotMinutes(s) && s.windowStart + 1 in SlotMinutes(s) && s.windowStart + 1 < DAY
  {
    var n, span := s.timesPerDay, s.windowEnd - s.windowStart;
    StepTimes(span, n);
    StepIsOne(span, n);
    assert Nth(s.windowStart, span / n, 0) == s.windowStart && Nth(s.windowStart, span / n, 1) == s.windowStart + 1;
  }

  lemma StepIsOne(span: int, n: int)
    requires n > 0 && n <= span < 2 * n
    ensures span / n == 1
  {
    StepTimes(span, n);
    Scale(span / n, n);
  }

  lemma NextNotSlot(s: Settings, x: int)
    requires s.mode.Times? && s.timesPerDay >= 1 && ClockTime(x)
    requires ClockTime(s.windowStart) && ClockTime(s.windowEnd) && Spread(s)
    requires x in SlotMinutes(s)
    ensures (if x == DAY - 1 then 0 else x + 1) !in SlotMinutes(s)
  {
    TimesSlots(s);
    if s.timesPerDay >= 2 && s.windowEnd - s.windowStart >= s.timesPerDay {
      SpreadSlots(s, x);
    }
  }

  lemma SpreadSlots(s: Settings, x: int)
    requires s.mode.Times? && s.timesPerDay >= 2 && s.windowEnd - s.windowStart >= 2 * s.timesPerDay
    requires x in SlotMinutes(s)
    ensures x + 1 !in SlotMinutes(s)
  {
    var step := TimesStep(s);
    NotAdjacent(s.windowStart, step, s.timesPerDay, x);
  }

  lemma TimesStep(s: Settings) returns (step: int)
    requires s.mode.Times? && s.timesPerDay >= 2 && s.windowEnd - s.windowStart >= 2 * s.timesPerDay
    ensures step >= 2 && SlotMinutes(s) == Evenly(s.windowStart, step, s.timesPerDay)
  {
    step := (s.windowEnd - s.windowStart) / s.timesPerDay;
    AtLeastTwo(s.windowEnd - s.windowStart, s.timesPerDay);
  }

  lemma Scale(q: int, n: int)
    requires n > 0
    ensures q <= 0 ==> n * q <= 0
    ensures q <= 1 ==> n * q <= n
    ensures q >= 2 ==> n * q >= 2 * n
  {
    if q <= 1 { assert n * (1 - q) >= 0; }
    if q <= 0 { assert n * (0 - q) >= 0; }
    if q >= 2 { assert n * (q - 2) >= 0; }
  }

  lemma AtLeastTwo(span: int, n: int)
    requires n > 0 && span >= 2 * n
    ensures span / n >= 2
  {
    var q := span / n;
    StepTimes(span, n);
    assert n * q > n;
    Scale(q, n);
  }

  lemma NextMinute(m: int)
    ensures (m + 1) % DAY == if m % DAY == DAY - 1 then 0 else m % DAY + 1
  {
  }

  lemma NotAdjacent(start: int, step: int, n: nat, x: int)
    requires step >= 2 && x in Evenly(start, step, n)
    ensures x + 1 !in Evenly(start, step, n)
  {
    if x + 1 in Evenly(start, step, n) {
      var i :| 0 <= i < n && x == Nth(start, step, i);
      var j :| 0 <= j < n && x + 1 == Nth(start, step, j);
      if i < j { Later(start, step, i, j); }
      if j < i { Later(start, step, j, i); }
    }
  }
}
