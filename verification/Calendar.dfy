/** The two calendar sweeps: free working-hour slots and double bookings.

    Instants are microseconds of local time at one fixed UTC offset; day 0 of the count is a Thursday. */
module Calendar {
  import opened Ordering

  const MINUTE := 60_000_000
  const HOUR := 60 * MINUTE
  const DAY := 24 * HOUR

  datatype Span = Span(start: int, end: int)

  ghost predicate Meets(x: Span, y: Span) {
    x.start < y.end && y.start < x.end
  }

  ghost predicate Within(x: Span, y: Span) {
    y.start <= x.start && x.end <= y.end
  }

  // ----- free slots ---------------------------------------------------------

  /** Python compares tuples lexicographically. */
  predicate SpanLe(x: Span, y: Span) {
    x.start < y.start || (x.start == y.start && x.end <= y.end)
  }

  function Max(x: int, y: int): int { if x < y then y else x }

  predicate Weekend(day: int) { (day + 3) % 7 >= 5 }

  function Window(now: int, d: int, workStart: int, workEnd: int): Span {
    Span(Midnight(now, d) + workStart * HOUR, Midnight(now, d) + workEnd * HOUR)
  }

  /** Midnight `d` days after today's. */
  function Midnight(now: int, d: int): int { (now / DAY + d) * DAY }

  /** The gaps of at least `minLen` that the moving cursor leaves in one window. */
  function Gaps(busy: seq<Span>, cursor: int, winEnd: int, minLen: int): seq<Span> {
    if busy == [] then
      if winEnd - cursor >= minLen then [Span(cursor, winEnd)] else []
    else
      var b := busy[0];
      if b.end <= cursor || b.start >= winEnd then
        Gaps(busy[1..], cursor, winEnd, minLen)
      else
        (if b.start - cursor >= minLen then [Span(cursor, b.start)] else [])
        + Gaps(busy[1..], Max(cursor, b.end), winEnd, minLen)
  }

  /** The working windows of the first `n` days from `now`, weekends skipped. */
  function Windows(now: int, n: nat, workStart: int, workEnd: int): seq<Span> {
    if n == 0 then []
    else
      Windows(now, n - 1, workStart, workEnd)
      + if Weekend(now / DAY + n - 1) then [] else [Window(now, n - 1, workStart, workEnd)]
  }

  /** The slots of one window, given the busy periods in sorted order. */
  function WindowSlots(busy: seq<Span>, now: int, minLen: int, w: Span): seq<Span> {
    Gaps(busy, Max(w.start, now), w.end, minLen)
  }

  /** Every slot of every window: the list before any cut to `max_slots`. */
  function Uncut(busy: seq<Span>, now: int, minLen: int, windows: seq<Span>): seq<Span> {
    if windows == [] then []
    else
      var last := |windows| - 1;
      Uncut(busy, now, minLen, windows[..last]) + WindowSlots(busy, now, minLen, windows[last])
  }

  ghost predicate Free(busy: seq<Span>, x: Span) { forall b :: b in busy ==> !Meets(x, b) }

  /** A free interval of at least `minLen`, not before `now`, inside the window `w`. */
  ghost predicate UsableIn(busy: seq<Span>, now: int, minLen: int, w: Span, x: Span) {
    Within(x, w) && now <= x.start && x.end - x.start >= minLen && Free(busy, x)
  }

  ghost predicate Usable(busy: seq<Span>, now: int, minLen: int, windows: seq<Span>, x: Span) {
    exists w :: w in windows && UsableIn(busy, now, minLen, w, x)
  }

  ghost predicate Covered(x: Span, slots: seq<Span>) { exists y :: y in slots && Within(x, y) }

  ghost predicate Forward(busy: seq<Span>) { forall b :: b in busy ==> b.start <= b.end }

  ghost predicate Chain(slots: seq<Span>) {
    forall i, j :: 0 <= i < j < |slots| ==> slots[i].end <= slots[j].start
  }

  /** Python's `s[:n]`, where a negative `n` counts from the end. */
  function Cut<T>(s: seq<T>, n: int): (r: seq<T>)
    ensures r <= s && |r| == Max(0, if n < 0 then |s| + n else if n < |s| then n else |s|)
  {
    var k := if n < 0 then Max(0, |s| + n) else n;
    if k < |s| then s[..k] else s
  }

  lemma {:induction false} UncutGrows(busy: seq<Span>, now: int, minLen: int, windows: seq<Span>, k: nat)
    requires k <= |windows|
    ensures Uncut(busy, now, minLen, windows[..k]) <= Uncut(busy, now, minLen, windows)
  {
    if k == |windows| {
      assert windows[..k] == windows;
    } else {
      var front := windows[..|windows| - 1];
      UncutGrows(busy, now, minLen, front, k);
      assert front[..k] == windows[..k];
    }
  }

  lemma {:induction false} WindowsGrow(now: int, m: nat, n: nat, workStart: int, workEnd: int)
    requires m <= n
    ensures Windows(now, m, workStart, workEnd) <= Windows(now, n, workStart, workEnd)
  {
    if m < n { WindowsGrow(now, m, n - 1, workStart, workEnd); }
  }

  /** One window of the sweep: append its gaps, walking the busy periods with a cursor. */
  method SweepWindow(busy: seq<Span>, now: int, minLen: int, w: Span, before: seq<Span>)
    returns (slots: seq<Span>)
    ensures slots == before + WindowSlots(busy, now, minLen, w)
  {
    slots := before;
    var cursor := Max(w.start, now);
    var k := 0;
    assert busy[0..] == busy;
    while k < |busy|
      invariant 0 <= k <= |busy|
      invariant slots + Gaps(busy[k..], cursor, w.end, minLen) == before + WindowSlots(busy, now, minLen, w)
    {
      var b := busy[k];
      assert busy[k..][0] == b && busy[k..][1..] == busy[k + 1..];
      k := k + 1;
      if b.end <= cursor || b.start >= w.end { continue; }
      ghost var rest := Gaps(busy[k..], Max(cursor, b.end), w.end, minLen);
      if b.start - cursor >= minLen {
        assert slots + ([Span(cursor, b.start)] + rest) == (slots + [Span(cursor, b.start)]) + rest;
        slots := slots + [Span(cursor, b.start)];
      } else {
        assert [] + rest == rest;
      }
      cursor := Max(cursor, b.end);
    }
    if w.end - cursor >= minLen {
      slots := slots + [Span(cursor, w.end)];
    }
  }

  /** Breaking off once the cut is full loses nothing: later days only append. */
  lemma StopEarly(busy: seq<Span>, now: int, minLen: int, scanned: seq<Span>, all: seq<Span>, maxSlots: nat)
    requires scanned <= all && |Uncut(busy, now, minLen, scanned)| >= maxSlots
    ensures Cut(Uncut(busy, now, minLen, scanned), maxSlots) == Cut(Uncut(busy, now, minLen, all), maxSlots)
  {
    assert scanned == all[..|scanned|];
    UncutGrows(busy, now, minLen, all, |scanned|);
  }

  lemma UncutAppend(busy: seq<Span>, now: int, minLen: int, windows: seq<Span>, w: Span)
    ensures Uncut(busy, now, minLen, windows + [w])
            == Uncut(busy, now, minLen, windows) + WindowSlots(busy, now, minLen, w)
  {
    assert (windows + [w])[..|windows|] == windows;
  }

  /** Up to `maxSlots` free slots; stopping early never changes which slots are returned.
      `datetime(..., hour, ...)` accepts hours 0 to 23 only. */
  method FreeSlots(now: int, busy: seq<Span>, days: int, slotMin: int, workStart: int, workEnd: int, maxSlots: int)
    returns (slots: seq<Span>)
    requires 0 <= workStart <= 23 && 0 <= workEnd <= 23
    ensures var windows := Windows(now, Max(0, days + 1), workStart, workEnd);
            var scanned := if maxSlots < 0 then Cut(windows, 1) else windows;
            slots == Cut(Uncut(Sorted(SpanLe, busy), now, slotMin * MINUTE, scanned), maxSlots)
  {
    ghost var all := Windows(now, Max(0, days + 1), workStart, workEnd);
    ghost var scanned: seq<Span> := [];
    var sorted, minLen := Sorted(SpanLe, busy), slotMin * MINUTE;
    slots := [];
    var d := 0;
    while d < days + 1
      invariant 0 <= d <= Max(0, days + 1)
      invariant scanned == Windows(now, d, workStart, workEnd)
      invariant slots == Uncut(sorted, now, minLen, scanned)
      invariant scanned == [] || |slots| < maxSlots
    {
      d := d + 1;
      if Weekend(now / DAY + d - 1) { continue; }
      var w := Window(now, d - 1, workStart, workEnd);
      slots := SweepWindow(sorted, now, minLen, w, slots);
      UncutAppend(sorted, now, minLen, scanned, w);
      scanned := scanned + [w];
      if |slots| >= maxSlots {
        WindowsGrow(now, d, Max(0, days + 1), workStart, workEnd);
        if maxSlots >= 0 { StopEarly(sorted, now, minLen, scanned, all, maxSlots); }
        break;
      }
    }
    slots := Cut(slots, maxSlots);
  }

  ghost predicate StartsSorted(busy: seq<Span>) {
    forall i, j :: 0 <= i < j < |busy| ==> busy[i].start <= busy[j].start
  }

  lemma {:induction false} GapsSound(busy: seq<Span>, cursor: int, winEnd: int, minLen: int)
    requires StartsSorted(busy) && Forward(busy) && minLen > 0
    ensures Chain(Gaps(busy, cursor, winEnd, minLen))
    ensures forall x :: x in Gaps(busy, cursor, winEnd, minLen) ==> IsGap(busy, cursor, winEnd, minLen, x)
  {
    if busy != [] {
      var b := busy[0];
      var skip := b.end <= cursor || b.start >= winEnd;
      var next := if skip then cursor else Max(cursor, b.end);
      GapsSound(busy[1..], next, winEnd, minLen);
      var rest := Gaps(busy[1..], next, winEnd, minLen);
      forall x | x in rest ensures IsGap(busy, cursor, winEnd, minLen, x) && (!skip ==> b.end <= x.start) {
        GapWidens(busy, cursor, next, winEnd, minLen, x);
      }
      if !skip && b.start - cursor >= minLen {
        FirstGap(busy, cursor, winEnd, minLen);
        ChainConcat([Span(cursor, b.start)], rest);
      } else {
        assert [] + rest == rest;
      }
    }
  }

  ghost predicate IsGap(busy: seq<Span>, cursor: int, winEnd: int, minLen: int, x: Span) {
    Within(x, Span(cursor, winEnd)) && x.end - x.start >= minLen && Free(busy, x)
  }

  lemma GapWidens(busy: seq<Span>, cursor: int, next: int, winEnd: int, minLen: int, x: Span)
    requires busy != [] && minLen > 0 && IsGap(busy[1..], next, winEnd, minLen, x) && cursor <= next
    requires busy[0].end <= cursor || busy[0].start >= winEnd || busy[0].end <= next
    ensures IsGap(busy, cursor, winEnd, minLen, x)
  {
    assert !Meets(x, busy[0]);
    assert forall y :: y in busy ==> y == busy[0] || y in busy[1..];
  }

  lemma FirstGap(busy: seq<Span>, cursor: int, winEnd: int, minLen: int)
    requires busy != [] && StartsSorted(busy) && busy[0].start - cursor >= minLen && busy[0].start < winEnd
    ensures IsGap(busy, cursor, winEnd, minLen, Span(cursor, busy[0].start))
  {
    var x := Span(cursor, busy[0].start);
    forall y | y in busy ensures !Meets(x, y) {
      var k :| 0 <= k < |busy| && busy[k] == y;
      assert busy[0].start <= busy[k].start;
    }
  }

  lemma {:induction false} GapsComplete(busy: seq<Span>, cursor: int, winEnd: int, minLen: int, x: Span)
    requires StartsSorted(busy) && minLen > 0
    requires Within(x, Span(cursor, winEnd)) && x.end - x.start >= minLen
    requires forall b :: b in busy ==> b.start <= b.end && !Meets(x, b)
    ensures Covered(x, Gaps(busy, cursor, winEnd, minLen))
  {
    if busy == [] {
      assert Span(cursor, winEnd) in Gaps(busy, cursor, winEnd, minLen);
    } else {
      var b := busy[0];
      if b.end <= cursor || b.start >= winEnd {
        GapsComplete(busy[1..], cursor, winEnd, minLen, x);
      } else if x.end <= b.start {
        assert Span(cursor, b.start) in Gaps(busy, cursor, winEnd, minLen);
      } else {
        assert !Meets(x, b);
        GapsComplete(busy[1..], Max(cursor, b.end), winEnd, minLen, x);
        var g :| g in Gaps(busy[1..], Max(cursor, b.end), winEnd, minLen) && Within(x, g);
        assert g in Gaps(busy, cursor, winEnd, minLen);
      }
    }
  }

  lemma BusySorted(busy: seq<Span>)
    ensures StartsSorted(Sorted(SpanLe, busy))
    ensures forall b :: b in Sorted(SpanLe, busy) <==> b in busy
  {
    assert TotalPreorder(SpanLe);
    OrderSorts(SpanLe, busy);
    var p := Order(SpanLe, busy);
    var s := Sorted(SpanLe, busy);
    forall i, j | 0 <= i < j < |s| ensures s[i].start <= s[j].start {
      assert Before(SpanLe, busy, p[i], p[j]);
    }
    forall b | b in busy ensures b in s {
      var i :| 0 <= i < |busy| && busy[i] == b;
      assert i in p;
      var k :| 0 <= k < |p| && p[k] == i;
      assert s[k] == b;
    }
  }

  lemma WindowSlotsExact(busy: seq<Span>, now: int, minLen: int, w: Span)
    requires StartsSorted(busy) && Forward(busy) && minLen > 0
    ensures var g := WindowSlots(busy, now, minLen, w);
            && Chain(g)
            && (forall x :: x in g ==> UsableIn(busy, now, minLen, w, x))
            && (forall x :: UsableIn(busy, now, minLen, w, x) ==> Covered(x, g))
  {
    var cursor := Max(w.start, now);
    GapsSound(busy, cursor, w.end, minLen);
    forall x | UsableIn(busy, now, minLen, w, x) ensures Covered(x, WindowSlots(busy, now, minLen, w)) {
      GapsComplete(busy, cursor, w.end, minLen, x);
    }
  }

  lemma ChainConcat(xs: seq<Span>, ys: seq<Span>)
    requires Chain(xs) && Chain(ys)
    requires forall x, y :: x in xs && y in ys ==> x.end <= y.start
    ensures Chain(xs + ys)
  {
    assert forall k :: 0 <= k < |xs| ==> xs[k] in xs;
    assert forall k :: 0 <= k < |ys| ==> ys[k] in ys;
  }

  lemma CoveredConcat(x: Span, xs: seq<Span>, ys: seq<Span>)
    requires Covered(x, xs) || Covered(x, ys)
    ensures Covered(x, xs + ys)
  {
    var y :| (y in xs || y in ys) && Within(x, y);
    assert y in xs + ys;
  }

  lemma {:induction false} UncutSound(busy: seq<Span>, now: int, minLen: int, windows: seq<Span>)
    requires StartsSorted(busy) && Forward(busy) && minLen > 0 && Chain(windows)
    ensures Chain(Uncut(busy, now, minLen, windows))
    ensures forall x :: x in Uncut(busy, now, minLen, windows) ==> Usable(busy, now, minLen, windows, x)
  {
    if windows != [] {
      var last := |windows| - 1;
      var front, w := windows[..last], windows[last];
      UncutSound(busy, now, minLen, front);
      WindowSlotsExact(busy, now, minLen, w);
      SoundAppend(busy, now, minLen, windows, Uncut(busy, now, minLen, front), WindowSlots(busy, now, minLen, w));
    }
  }

  lemma SoundAppend(busy: seq<Span>, now: int, minLen: int, windows: seq<Span>, before: seq<Span>, today: seq<Span>)
    requires windows != [] && Chain(windows) && Chain(before) && Chain(today)
    requires forall x :: x in before ==> Usable(busy, now, minLen, windows[..|windows| - 1], x)
    requires forall x :: x in today ==> UsableIn(busy, now, minLen, windows[|windows| - 1], x)
    ensures Chain(before + today)
    ensures forall x :: x in before + today ==> Usable(busy, now, minLen, windows, x)
  {
    var front, w := windows[..|windows| - 1], windows[|windows| - 1];
    forall x | x in before
      ensures x.end <= w.start && Usable(busy, now, minLen, windows, x)
    {
      var i :| 0 <= i < |front| && UsableIn(busy, now, minLen, front[i], x);
      assert windows[i] == front[i];
    }
    ChainConcat(before, today);
  }

  lemma {:induction false} UncutComplete(busy: seq<Span>, now: int, minLen: int, windows: seq<Span>, x: Span)
    requires StartsSorted(busy) && Forward(busy) && minLen > 0 && Usable(busy, now, minLen, windows, x)
    ensures Covered(x, Uncut(busy, now, minLen, windows))
  {
    var front, w := windows[..|windows| - 1], windows[|windows| - 1];
    if UsableIn(busy, now, minLen, w, x) {
      WindowSlotsExact(busy, now, minLen, w);
    } else {
      assert Usable(busy, now, minLen, front, x) by {
        var i :| 0 <= i < |windows| && UsableIn(busy, now, minLen, windows[i], x);
        assert front[i] == windows[i];
      }
      UncutComplete(busy, now, minLen, front, x);
    }
    CoveredConcat(x, Uncut(busy, now, minLen, front), WindowSlots(busy, now, minLen, w));
  }

  lemma ChainNests(slots: seq<Span>, y: Span, z: Span)
    requires Chain(slots) && y in slots && z in slots && Within(y, z) && y.start < y.end
    ensures y == z
  {
    var i :| 0 <= i < |slots| && slots[i] == y;
    var j :| 0 <= j < |slots| && slots[j] == z;
    assert i == j;
  }

  /** No slot can be stretched: a usable interval around a slot is that slot. */
  lemma UncutMaximal(busy: seq<Span>, now: int, minLen: int, windows: seq<Span>, x: Span, y: Span)
    requires StartsSorted(busy) && Forward(busy) && minLen > 0 && Chain(windows)
    requires Usable(busy, now, minLen, windows, x) && y in Uncut(busy, now, minLen, windows) && Within(y, x)
    ensures x == y
  {
    var g := Uncut(busy, now, minLen, windows);
    UncutComplete(busy, now, minLen, windows, x);
    var z :| z in g && Within(x, z);
    UncutSound(busy, now, minLen, windows);
    assert Usable(busy, now, minLen, windows, y);
    ChainNests(g, y, z);
  }

  /** The windows the scan walks follow one another without overlap, whatever the hours. */
  lemma {:induction false} WindowsChain(now: int, n: nat, workStart: int, workEnd: int)
    requires 0 <= workStart <= 23 && 0 <= workEnd <= 23
    ensures Chain(Windows(now, n, workStart, workEnd))
    ensures forall w :: w in Windows(now, n, workStart, workEnd) ==> w.end < Midnight(now, n)
  {
    if n > 0 {
      WindowsChain(now, n - 1, workStart, workEnd);
      WindowPlace(now, n - 1, workStart, workEnd);
      if !Weekend(now / DAY + n - 1) {
        ChainConcat(Windows(now, n - 1, workStart, workEnd), [Window(now, n - 1, workStart, workEnd)]);
      }
    }
  }

  /** Each day's window lies between its own midnight and the next. */
  lemma WindowPlace(now: int, d: int, workStart: int, workEnd: int)
    requires 0 <= workStart <= 23 && 0 <= workEnd <= 23
    ensures Midnight(now, d) <= Window(now, d, workStart, workEnd).start
    ensures Window(now, d, workStart, workEnd).end < Midnight(now, d + 1)
    ensures Midnight(now, d) < Midnight(now, d + 1)
  {
    NextDay(now / DAY, d);
  }

  lemma NextDay(today: int, d: int)
    ensures (today + (d + 1)) * DAY == (today + d) * DAY + 24 * HOUR
  {
  }

  // ----- what the slots are -------------------------------------------------

  /** Between the hours `workStart` and `workEnd` of the local day `d` days after today, a Monday to Friday. */
  predicate AtWork(now: int, d: int, workStart: int, workEnd: int, x: Span) {
    var midnight := (now / DAY + d) * DAY;
    && (now / DAY + d + 3) % 7 < 5
    && midnight + workStart * HOUR <= x.start && x.end <= midnight + workEnd * HOUR
  }

  /** Within working hours of today or one of the `days` days after it. */
  ghost predicate InHours(now: int, days: int, workStart: int, workEnd: int, x: Span) {
    exists d :: 0 <= d <= days && AtWork(now, d, workStart, workEnd, x)
  }

  /** A free interval worth offering, in terms of clock and busy periods alone. */
  ghost predicate Bookable(busy: seq<Span>, now: int, days: int, minLen: int, workStart: int, workEnd: int, x: Span) {
    InHours(now, days, workStart, workEnd, x) && now <= x.start && x.end - x.start >= minLen && Free(busy, x)
  }

  lemma WindowAtWork(now: int, d: int, workStart: int, workEnd: int, x: Span)
    ensures AtWork(now, d, workStart, workEnd, x)
            <==> !Weekend(now / DAY + d) && Within(x, Window(now, d, workStart, workEnd))
  {
  }

  lemma {:induction false} SomeWindow(now: int, n: nat, workStart: int, workEnd: int, d: int)
    requires 0 <= d < n && !Weekend(now / DAY + d)
    ensures Window(now, d, workStart, workEnd) in Windows(now, n, workStart, workEnd)
  {
    if d < n - 1 { SomeWindow(now, n - 1, workStart, workEnd, d); }
  }

  lemma {:induction false} WindowOfDay(now: int, n: nat, workStart: int, workEnd: int, w: Span) returns (d: int)
    requires w in Windows(now, n, workStart, workEnd)
    ensures 0 <= d < n && !Weekend(now / DAY + d) && w == Window(now, d, workStart, workEnd)
  {
    if w in Windows(now, n - 1, workStart, workEnd) {
      d := WindowOfDay(now, n - 1, workStart, workEnd, w);
    } else {
      d := n - 1;
    }
  }

  /** The windows scanned are the working hours of those days. */
  lemma WindowsExact(now: int, n: nat, workStart: int, workEnd: int, x: Span)
    ensures (exists w :: w in Windows(now, n, workStart, workEnd) && Within(x, w))
            <==> InHours(now, n - 1, workStart, workEnd, x)
  {
    if w :| w in Windows(now, n, workStart, workEnd) && Within(x, w) {
      var d := WindowOfDay(now, n, workStart, workEnd, w);
      WindowAtWork(now, d, workStart, workEnd, x);
    }
    if d :| 0 <= d <= n - 1 && AtWork(now, d, workStart, workEnd, x) {
      WindowAtWork(now, d, workStart, workEnd, x);
      SomeWindow(now, n, workStart, workEnd, d);
    }
  }

  lemma UsableExact(busy: seq<Span>, now: int, n: nat, minLen: int, workStart: int, workEnd: int, x: Span)
    ensures Usable(busy, now, minLen, Windows(now, n, workStart, workEnd), x)
            <==> Bookable(busy, now, n - 1, minLen, workStart, workEnd, x)
  {
    WindowsExact(now, n, workStart, workEnd, x);
    if Bookable(busy, now, n - 1, minLen, workStart, workEnd, x) {
      var w :| w in Windows(now, n, workStart, workEnd) && Within(x, w);
      assert UsableIn(busy, now, minLen, w, x);
    }
  }

  /** What `FreeSlots` promises for any busy list, days and hours: the uncut list it cuts consists of exactly the
      maximal free stretches of the working hours of those days, in time order and without overlap. */
  lemma FreeSlotsExact(now: int, busy: seq<Span>, n: nat, minLen: int, workStart: int, workEnd: int)
    requires 0 <= workStart <= 23 && 0 <= workEnd <= 23
    requires minLen > 0 && Forward(busy)
    ensures var g := Uncut(Sorted(SpanLe, busy), now, minLen, Windows(now, n, workStart, workEnd));
            && Chain(g)
            && (forall x :: x in g ==> Bookable(busy, now, n - 1, minLen, workStart, workEnd, x))
            && (forall x :: Bookable(busy, now, n - 1, minLen, workStart, workEnd, x) ==> Covered(x, g))
            && (forall x, y :: Bookable(busy, now, n - 1, minLen, workStart, workEnd, x) && y in g && Within(y, x) ==>
                  x == y)
  {
    var windows := Windows(now, n, workStart, workEnd);
    UncutExact(now, busy, n, minLen, workStart, workEnd);
    forall x ensures Usable(busy, now, minLen, windows, x)
                     <==> Bookable(busy, now, n - 1, minLen, workStart, workEnd, x)
    {
      UsableExact(busy, now, n, minLen, workStart, workEnd, x);
    }
  }

  /** The same in terms of the windows scanned. */
  lemma UncutExact(now: int, busy: seq<Span>, n: nat, minLen: int, workStart: int, workEnd: int)
    requires 0 <= workStart <= 23 && 0 <= workEnd <= 23
    requires minLen > 0 && Forward(busy)
    ensures var windows := Windows(now, n, workStart, workEnd);
            var g := Uncut(Sorted(SpanLe, busy), now, minLen, windows);
            && Chain(g)
            && (forall x :: x in g ==> Usable(busy, now, minLen, windows, x))
            && (forall x :: Usable(busy, now, minLen, windows, x) ==> Covered(x, g))
            && (forall x, y :: Usable(busy, now, minLen, windows, x) && y in g && Within(y, x) ==> x == y)
  {
    var windows, sorted := Windows(now, n, workStart, workEnd), Sorted(SpanLe, busy);
    BusySorted(busy);
    WindowsChain(now, n, workStart, workEnd);
    UncutSound(sorted, now, minLen, windows);
    UsableSame(busy, sorted, now, minLen, windows);
    forall x | Usable(sorted, now, minLen, windows, x)
      ensures Covered(x, Uncut(sorted, now, minLen, windows))
    {
      UncutComplete(sorted, now, minLen, windows, x);
    }
    forall x, y | Usable(sorted, now, minLen, windows, x) && y in Uncut(sorted, now, minLen, windows) && Within(y, x)
      ensures x == y
    {
      UncutMaximal(sorted, now, minLen, windows, x, y);
    }
  }

  // ----- the fetch horizon --------------------------------------------------

  /** `busy` covers the part of every period of the true calendar that lies in `[now, horizon]`: what a request
      for that stretch answers, whether periods come whole, clipped or merged. */
  ghost predicate Fetched(busy: seq<Span>, calendar: seq<Span>, now: int, horizon: int) {
    forall b :: b in calendar && b.start < horizon && now < b.end ==> CoveredWithin(b, busy, now, horizon)
  }

  ghost predicate CoveredWithin(b: Span, busy: seq<Span>, now: int, horizon: int) {
    exists f :: f in busy && f.start <= Max(b.start, now) && (b.end <= f.end || horizon <= f.end)
  }

  predicate Beyond(b: Span, horizon: int) { horizon <= b.start || horizon < b.end }

  /** What the horizon costs: an interval free of the fetched periods is free of the true calendar exactly when
      no period that runs past the horizon meets it; and it is, if it ends by the horizon. */
  lemma TrulyFreeExactly(busy: seq<Span>, calendar: seq<Span>, now: int, horizon: int, x: Span)
    requires Fetched(busy, calendar, now, horizon) && Free(busy, x) && now <= x.start < x.end
    ensures Free(calendar, x) <==> forall b :: b in calendar && Beyond(b, horizon) ==> !Meets(x, b)
    ensures x.end <= horizon ==> Free(calendar, x)
  {
    forall b | b in calendar && Meets(x, b) ensures Beyond(b, horizon) && horizon < x.end {
      if b.start < horizon {
        assert CoveredWithin(b, busy, now, horizon);
        var f :| f in busy && f.start <= Max(b.start, now) && (b.end <= f.end || horizon <= f.end);
        assert !Meets(x, f);
      }
    }
  }

  /** What a caller can tell without the rest of the calendar: such an interval is free whatever lies beyond the
      horizon if and only if it ends by it. */
  lemma SurelyFreeExactly(busy: seq<Span>, now: int, horizon: int, x: Span)
    requires Free(busy, x) && now <= x.start < x.end
    ensures (forall calendar :: Fetched(busy, calendar, now, horizon) ==> Free(calendar, x)) <==> x.end <= horizon
  {
    if x.end <= horizon {
      forall calendar | Fetched(busy, calendar, now, horizon) ensures Free(calendar, x) {
        TrulyFreeExactly(busy, calendar, now, horizon, x);
      }
    } else {
      var unseen := Span(Max(horizon, x.start), x.end);
      var calendar := busy + [unseen];
      forall b | b in calendar && b.start < horizon && now < b.end ensures CoveredWithin(b, busy, now, horizon) {
        assert b in busy;
      }
      assert unseen in calendar && Meets(x, unseen);
      assert Fetched(busy, calendar, now, horizon) && !Free(calendar, x);
    }
  }

  /** So of the slots returned only those of the last day scanned can be taken. */
  lemma OnlyLastDayAtRisk(now: int, busy: seq<Span>, calendar: seq<Span>, days: nat, minLen: int,
                          workStart: int, workEnd: int, x: Span)
    requires 0 <= workStart <= 23 && 0 <= workEnd <= 23 && minLen > 0 && Forward(busy)
    requires Fetched(busy, calendar, now, now + days * DAY)
    requires x in Uncut(Sorted(SpanLe, busy), now, minLen, Windows(now, days + 1, workStart, workEnd))
    ensures !Free(calendar, x) ==> AtWork(now, days, workStart, workEnd, x)
  {
    FreeSlotsExact(now, busy, days + 1, minLen, workStart, workEnd);
    assert Bookable(busy, now, days, minLen, workStart, workEnd, x);
    var d :| 0 <= d <= days && AtWork(now, d, workStart, workEnd, x);
    if d < days { EndsByHorizon(now, d, days, workStart, workEnd, x); }
    TrulyFreeExactly(busy, calendar, now, now + days * DAY, x);
  }

  /** Hours of every day but the last end by the horizon. */
  lemma EndsByHorizon(now: int, d: int, days: nat, workStart: int, workEnd: int, x: Span)
    requires AtWork(now, d, workStart, workEnd, x) && d < days && 0 <= workStart <= 23 && 0 <= workEnd <= 23
    ensures x.end <= now + days * DAY
  {
    WindowAtWork(now, d, workStart, workEnd, x);
    WindowPlace(now, d, workStart, workEnd);
    Earlier(now, d + 1, days);
    LastMidnight(now, days);
  }

  lemma Earlier(now: int, d: int, e: int)
    requires d <= e
    ensures Midnight(now, d) <= Midnight(now, e)
  {
    assert (e - d) * DAY >= 0;
    assert (now / DAY + e) * DAY == (now / DAY + d) * DAY + (e - d) * DAY;
  }

  lemma LastMidnight(now: int, days: nat)
    ensures Midnight(now, days) <= now + days * DAY
  {
    assert (now / DAY) * DAY <= now;
    assert (now / DAY + days) * DAY == (now / DAY) * DAY + days * DAY;
  }

  lemma UsableSame(busy: seq<Span>, sorted: seq<Span>, now: int, minLen: int, windows: seq<Span>)
    requires forall b :: b in busy <==> b in sorted
    ensures forall x :: Usable(busy, now, minLen, windows, x) <==> Usable(sorted, now, minLen, windows, x)
  {
    forall w, x ensures UsableIn(busy, now, minLen, w, x) <==> UsableIn(sorted, now, minLen, w, x) {
    }
  }
}
