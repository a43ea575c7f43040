/** Double bookings: every overlapping pair of timed events, once, found with an early break. */
module Bookings {
  import opened Filtering
  import opened Ordering
  import opened Wrappers

  /** A calendar event; all-day events and unreadable ones have no bounds. */
  datatype Event = Event(bounds: Option<(int, int)>, summary: string)

  datatype Timed = Timed(start: int, end: int, name: string)

  function Name(e: Event): string { if e.summary == "" then "(untitled)" else e.summary }

  function TimedEvents(events: seq<Event>): seq<Timed> {
    if events == [] then []
    else
      var last := |events| - 1;
      var e := events[last];
      TimedEvents(events[..last])
      + if e.bounds.Some? then [Timed(e.bounds.value.0, e.bounds.value.1, Name(e))] else []
  }

  /** Every event with bounds is looked at, in order, under its summary or the stand-in for one. */
  lemma {:induction false} TimedExact(events: seq<Event>) returns (at: seq<nat>)
    ensures Picks(TimedEvents(events), events, HasBounds, AsTimed, at)
  {
    at := [];
    if events != [] {
      var front := events[..|events| - 1];
      at := TimedExact(front);
      assert TimedEvents(front) + [] == TimedEvents(front);
      at := PicksSnoc(TimedEvents(events), events, HasBounds, AsTimed, TimedEvents(front), at);
    }
  }

  /** How an event with bounds enters the comparison. */
  ghost function AsTimed(e: Event): Timed {
    var (start, end) := if e.bounds.Some? then e.bounds.value else (0, 0);
    Timed(start, end, if e.summary == "" then "(untitled)" else e.summary)
  }

  predicate HasBounds(e: Event) { e.bounds.Some? }

  /** String order by code point. */
  predicate TextLe(x: string, y: string) {
    x == "" || (y != "" && (x[0] < y[0] || (x[0] == y[0] && TextLe(x[1..], y[1..]))))
  }

  /** Lexicographic order on (start, end, name), as Python sorts tuples. */
  predicate TimedLe(x: Timed, y: Timed) {
    || x.start < y.start
    || (x.start == y.start && (x.end < y.end || (x.end == y.end && TextLe(x.name, y.name))))
  }

  predicate Overlap(x: Timed, y: Timed) { x.start < y.end && y.start < x.end }

  /** The partners `j..` of event `i`, without any early break. */
  function Row(t: seq<Timed>, i: nat, j: nat): seq<(nat, nat)>
    requires i < j <= |t|
    decreases |t| - j
  {
    if j == |t| then []
    else (if Overlap(t[i], t[j]) then [(i, j)] else []) + Row(t, i, j + 1)
  }

  /** All overlapping pairs of the first `n` events with later ones. */
  function Pairs(t: seq<Timed>, n: nat): seq<(nat, nat)>
    requires n <= |t|
  {
    if n == 0 then [] else Pairs(t, n - 1) + Row(t, n - 1, n)
  }

  lemma {:induction false} RowExact(t: seq<Timed>, i: nat, j: nat)
    requires i < j <= |t|
    ensures forall c :: c in Row(t, i, j) <==> c.0 == i && j <= c.1 < |t| && Overlap(t[i], t[c.1])
    decreases |t| - j
  {
    if j < |t| { RowExact(t, i, j + 1); }
  }

  lemma {:induction false} PairsExact(t: seq<Timed>, n: nat)
    requires n <= |t|
    ensures forall c :: c in Pairs(t, n) <==> c.0 < n && c.0 < c.1 < |t| && Overlap(t[c.0], t[c.1])
  {
    if n > 0 {
      PairsExact(t, n - 1);
      RowExact(t, n - 1, n);
    }
  }

  function NameAt(t: seq<Timed>, i: nat): string { if i < |t| then t[i].name else "" }

  function Names(t: seq<Timed>, pairs: seq<(nat, nat)>): (r: seq<(string, string)>)
    ensures |r| == |pairs|
    ensures forall k :: 0 <= k < |r| ==> r[k] == (NameAt(t, pairs[k].0), NameAt(t, pairs[k].1))
    ensures forall k :: 0 <= k < |r| && pairs[k].0 < |t| && pairs[k].1 < |t| ==>
              r[k] == (t[pairs[k].0].name, t[pairs[k].1].name)
  {
    seq(|pairs|, k requires 0 <= k < |pairs| => (NameAt(t, pairs[k].0), NameAt(t, pairs[k].1)))
  }

  /** The names of all overlapping pairs, read off in sorted order. */
  function Reported(t: seq<Timed>): seq<(string, string)> {
    var s := Sorted(TimedLe, t);
    Names(s, Pairs(s, |s|))
  }

  ghost predicate StartsAscend(t: seq<Timed>) {
    forall a, b :: 0 <= a < b < |t| ==> t[a].start <= t[b].start
  }

  /** Past the first event that starts no earlier than `t[i]` ends, nothing overlaps `t[i]`. */
  lemma {:induction false} BreakLosesNothing(t: seq<Timed>, i: nat, j: nat)
    requires i < j < |t| && t[j].start >= t[i].end
    requires StartsAscend(t)
    ensures Row(t, i, j) == []
    decreases |t| - j
  {
    if j + 1 < |t| { BreakLosesNothing(t, i, j + 1); }
  }

  lemma {:induction false} TextOrder(x: string, y: string, z: string)
    ensures TextLe(x, y) || TextLe(y, x)
    ensures TextLe(x, y) && TextLe(y, z) ==> TextLe(x, z)
    ensures TextLe(x, y) && TextLe(y, x) ==> x == y
  {
    if x != "" && y != "" {
      TextOrder(x[1..], y[1..], if z == "" then "" else z[1..]);
    }
  }

  lemma TimedOrder()
    ensures TotalPreorder(TimedLe)
  {
    forall x, y ensures TimedLe(x, y) || TimedLe(y, x) { TextOrder(x.name, y.name, x.name); }
    forall x, y, z | TimedLe(x, y) && TimedLe(y, z) ensures TimedLe(x, z) { TextOrder(x.name, y.name, z.name); }
  }

  /** One text is a prefix of the other, or the smaller character decides where they first differ. */
  ghost predicate ReadsFirst(x: string, y: string) {
    x <= y || exists k :: 0 <= k < |x| && k < |y| && x[..k] == y[..k] && x[k] < y[k]
  }

  lemma {:induction false} TextLeExact(x: string, y: string)
    ensures TextLe(x, y) <==> ReadsFirst(x, y)
  {
    if x != "" && y != "" && x[0] == y[0] {
      var a, b := x[1..], y[1..];
      TextLeExact(a, b);
      assert x == [x[0]] + a && y == [y[0]] + b;
      if k :| 0 <= k < |a| && k < |b| && a[..k] == b[..k] && a[k] < b[k] {
        assert x[..k + 1] == [x[0]] + a[..k] && y[..k + 1] == [y[0]] + b[..k];
      }
      if k :| 0 <= k < |x| && k < |y| && x[..k] == y[..k] && x[k] < y[k] {
        assert a[..k - 1] == x[..k][1..] && b[..k - 1] == y[..k][1..];
      }
    } else if x != "" && y != "" {
      if x[0] < y[0] { assert x[..0] == y[..0]; }
      forall k | 0 < k < |x| && k < |y| ensures x[..k] != y[..k] {
        assert x[..k][0] == x[0] && y[..k][0] == y[0];
      }
    }
  }

  /** Events are gone through by start, then end, then name. */
  lemma SortedTimed(t: seq<Timed>, a: nat, b: nat)
    requires a < b < |Sorted(TimedLe, t)|
    ensures var x, y := Sorted(TimedLe, t)[a], Sorted(TimedLe, t)[b];
            || x.start < y.start
            || (x.start == y.start && (x.end < y.end || (x.end == y.end && ReadsFirst(x.name, y.name))))
  {
    TimedOrder();
    OrderSorts(TimedLe, t);
    var p, s := Order(TimedLe, t), Sorted(TimedLe, t);
    assert Before(TimedLe, t, p[a], p[b]);
    TextLeExact(s[a].name, s[b].name);
  }

  lemma SortedByStart(t: seq<Timed>)
    ensures StartsAscend(Sorted(TimedLe, t))
  {
    TimedOrder();
    OrderSorts(TimedLe, t);
    var p, s := Order(TimedLe, t), Sorted(TimedLe, t);
    forall a, b | 0 <= a < b < |s| ensures s[a].start <= s[b].start {
      assert Before(TimedLe, t, p[a], p[b]);
    }
  }

  method CollectTimed(events: seq<Event>) returns (timed: seq<Timed>)
    ensures timed == TimedEvents(events)
  {
    timed := [];
    for k := 0 to |events|
      invariant timed == TimedEvents(events[..k])
    {
      assert events[..k + 1][..k] == events[..k];
      if events[k].bounds.Some? {
        var b := events[k].bounds.value;
        timed := timed + [Timed(b.0, b.1, Name(events[k]))];
      }
    }
    assert events[..|events|] == events;
  }

  /** The names of event `i`'s partners from `j` on. */
  function RowNames(t: seq<Timed>, i: nat, j: nat): seq<(string, string)>
    requires i < j <= |t|
  {
    Names(t, Row(t, i, j))
  }

  /** Reporting one more clash, if there is one, and going on from there. */
  lemma RowStep(t: seq<Timed>, i: nat, j: nat, clashes: seq<(string, string)>)
    requires i < j < |t|
    ensures clashes + RowNames(t, i, j)
            == (if Overlap(t[i], t[j]) then clashes + [(t[i].name, t[j].name)] else clashes) + RowNames(t, i, j + 1)
  {
    var rest := RowNames(t, i, j + 1);
    if Overlap(t[i], t[j]) {
      NamesConcat(t, [(i, j)], Row(t, i, j + 1));
      assert Names(t, [(i, j)]) == [(t[i].name, t[j].name)];
      assert clashes + ([(t[i].name, t[j].name)] + rest) == (clashes + [(t[i].name, t[j].name)]) + rest;
    } else {
      assert [] + Row(t, i, j + 1) == Row(t, i, j + 1);
    }
  }

  /** The inner loop: clashes of event `i` with later ones, breaking at the first late start. */
  method AddClashes(timed: seq<Timed>, i: nat, before: seq<(string, string)>) returns (clashes: seq<(string, string)>)
    requires i < |timed| && StartsAscend(timed)
    ensures clashes == before + RowNames(timed, i, i + 1)
  {
    clashes := before;
    var j := i + 1;
    while j < |timed|
      invariant i < j <= |timed|
      invariant clashes + RowNames(timed, i, j) == before + RowNames(timed, i, i + 1)
    {
      if timed[j].start >= timed[i].end {
        BreakLosesNothing(timed, i, j);
        break;
      }
      RowStep(timed, i, j, clashes);
      if timed[j].start < timed[i].end && timed[i].start < timed[j].end {
        clashes := clashes + [(timed[i].name, timed[j].name)];
      }
      j := j + 1;
    }
    assert RowNames(timed, i, j) == [];
  }

  lemma PairsStep(t: seq<Timed>, i: nat)
    requires i < |t|
    ensures Names(t, Pairs(t, i)) + RowNames(t, i, i + 1) == Names(t, Pairs(t, i + 1))
  {
    NamesConcat(t, Pairs(t, i), Row(t, i, i + 1));
  }

  method AllClashes(timed: seq<Timed>) returns (clashes: seq<(string, string)>)
    requires StartsAscend(timed)
    ensures clashes == Names(timed, Pairs(timed, |timed|))
  {
    clashes := [];
    for i := 0 to |timed|
      invariant clashes == Names(timed, Pairs(timed, i))
    {
      clashes := AddClashes(timed, i, clashes);
      PairsStep(timed, i);
    }
  }

  method FindDoubleBookings(events: seq<Event>) returns (clashes: seq<(string, string)>)
    ensures clashes == Reported(TimedEvents(events))
  {
    var timed := CollectTimed(events);
    SortedByStart(timed);
    clashes := AllClashes(Sorted(TimedLe, timed));
  }

  lemma NamesConcat(t: seq<Timed>, xs: seq<(nat, nat)>, ys: seq<(nat, nat)>)
    ensures Names(t, xs + ys) == Names(t, xs) + Names(t, ys)
  {
  }

  ghost predicate Distinct(pairs: seq<(nat, nat)>) {
    pairs == [] || (pairs[|pairs| - 1] !in pairs[..|pairs| - 1] && Distinct(pairs[..|pairs| - 1]))
  }

  lemma {:induction false} DistinctAt(pairs: seq<(nat, nat)>, j: nat, k: nat)
    requires Distinct(pairs) && j < k < |pairs|
    ensures pairs[j] != pairs[k]
  {
    var last := |pairs| - 1;
    if k < last {
      DistinctAt(pairs[..last], j, k);
    } else {
      assert pairs[..last][j] == pairs[j];
    }
  }

  ghost predicate Apart(xs: seq<(nat, nat)>, ys: seq<(nat, nat)>) { forall c :: c in xs ==> c !in ys }

  lemma {:induction false} DistinctConcat(xs: seq<(nat, nat)>, ys: seq<(nat, nat)>)
    requires Distinct(xs) && Distinct(ys) && Apart(xs, ys)
    ensures Distinct(xs + ys)
  {
    if ys == [] {
      assert xs + ys == xs;
    } else {
      var front, r := ys[..|ys| - 1], xs + ys;
      DistinctConcat(xs, front);
      assert r[..|r| - 1] == xs + front && r[|r| - 1] == ys[|ys| - 1];
    }
  }

  lemma {:induction false} RowDistinct(t: seq<Timed>, i: nat, j: nat)
    requires i < j <= |t|
    ensures Distinct(Row(t, i, j))
    decreases |t| - j
  {
    if j < |t| {
      RowDistinct(t, i, j + 1);
      RowExact(t, i, j + 1);
      DistinctConcat(if Overlap(t[i], t[j]) then [(i, j)] else [], Row(t, i, j + 1));
    }
  }

  lemma RowApart(t: seq<Timed>, i: nat)
    requires i < |t|
    ensures Apart(Pairs(t, i), Row(t, i, i + 1))
  {
    PairsExact(t, i);
    RowExact(t, i, i + 1);
  }

  lemma {:induction false} PairsDistinct(t: seq<Timed>, n: nat)
    requires n <= |t|
    ensures Distinct(Pairs(t, n))
  {
    if n > 0 {
      PairsDistinct(t, n - 1);
      RowDistinct(t, n - 1, n);
      RowApart(t, n - 1);
      DistinctConcat(Pairs(t, n - 1), Row(t, n - 1, n));
    }
  }

  ghost predicate OnlyOverlaps(t: seq<Timed>, pairs: seq<(nat, nat)>) {
    forall c :: c in pairs ==>
      && c.0 < |t| && c.1 < |t| && c.0 != c.1
      && t[c.0].start < t[c.1].end && t[c.1].start < t[c.0].end
  }

  ghost predicate AllOverlaps(t: seq<Timed>, pairs: seq<(nat, nat)>) {
    forall a, b :: 0 <= a < b < |t| && t[a].start < t[b].end && t[b].start < t[a].end ==>
      (a, b) in pairs || (b, a) in pairs
  }

  ghost predicate OnceEach(pairs: seq<(nat, nat)>) {
    forall j, k :: 0 <= j < k < |pairs| ==> pairs[j] != pairs[k] && pairs[j] != (pairs[k].1, pairs[k].0)
  }

  /** `pairs` names every overlapping pair of distinct positions of `t`, in one orientation, once. */
  ghost predicate ListsOverlapsOnce(t: seq<Timed>, pairs: seq<(nat, nat)>) {
    OnlyOverlaps(t, pairs) && AllOverlaps(t, pairs) && OnceEach(pairs)
  }

  /** Exactly the overlapping pairs of `s`, earlier position first. */
  ghost predicate Upward(s: seq<Timed>, found: seq<(nat, nat)>) {
    forall c :: c in found <==> c.0 < c.1 < |s| && Overlap(s[c.0], s[c.1])
  }

  /** Pairs of places in the order `p`, read back as positions. */
  function Back(p: seq<nat>, found: seq<(nat, nat)>): (r: seq<(nat, nat)>)
    requires forall k :: 0 <= k < |found| ==> found[k].0 < |p| && found[k].1 < |p|
    ensures |r| == |found| && forall k :: 0 <= k < |r| ==> r[k] == (p[found[k].0], p[found[k].1])
  {
    seq(|found|, k requires 0 <= k < |found| => (p[found[k].0], p[found[k].1]))
  }

  lemma UpwardAt(s: seq<Timed>, found: seq<(nat, nat)>)
    requires Upward(s, found)
    ensures forall k :: 0 <= k < |found| ==>
              found[k].0 < found[k].1 < |s| && Overlap(s[found[k].0], s[found[k].1])
  {
    assert forall k :: 0 <= k < |found| ==> found[k] in found;
  }

  lemma BackOverlaps(t: seq<Timed>, p: seq<nat>, s: seq<Timed>, found: seq<(nat, nat)>)
    requires IsPermutation(p, |t|) && s == Apply(t, p) && Upward(s, found)
    requires forall k :: 0 <= k < |found| ==> found[k].0 < |p| && found[k].1 < |p|
    ensures OnlyOverlaps(t, Back(p, found))
  {
    UpwardAt(s, found);
    var pairs := Back(p, found);
    forall c | c in pairs ensures c.0 < |t| && c.1 < |t| && c.0 != c.1 && Overlap(t[c.0], t[c.1]) {
      var k :| 0 <= k < |pairs| && pairs[k] == c;
      var f := found[k];
      assert s[f.0] == t[c.0] && s[f.1] == t[c.1];
    }
  }

  lemma BackOnce(p: seq<nat>, n: nat, found: seq<(nat, nat)>)
    requires IsPermutation(p, n) && Distinct(found)
    requires forall k :: 0 <= k < |found| ==> found[k].0 < found[k].1 < |p|
    ensures OnceEach(Back(p, found))
  {
    var pairs := Back(p, found);
    forall j, k | 0 <= j < k < |pairs| ensures pairs[j] != pairs[k] && pairs[j] != (pairs[k].1, pairs[k].0) {
      DistinctAt(found, j, k);
      SameAt(p, n, found[j].0, found[k].0);
      SameAt(p, n, found[j].1, found[k].1);
      SameAt(p, n, found[j].0, found[k].1);
      SameAt(p, n, found[j].1, found[k].0);
    }
  }

  lemma SameAt(p: seq<nat>, n: nat, i: nat, j: nat)
    requires IsPermutation(p, n) && i < |p| && j < |p|
    ensures p[i] == p[j] <==> i == j
  {
  }

  /** Reading positions of a permuted list back through the permutation keeps the report exact. */
  lemma Transport(t: seq<Timed>, p: seq<nat>, s: seq<Timed>, found: seq<(nat, nat)>) returns (pairs: seq<(nat, nat)>)
    requires IsPermutation(p, |t|) && s == Apply(t, p) && (forall x: nat :: x < |t| ==> x in p)
    requires Distinct(found) && Upward(s, found)
    ensures ListsOverlapsOnce(t, pairs)
    ensures Names(s, found) == Names(t, pairs)
  {
    UpwardAt(s, found);
    pairs := Back(p, found);
    BackOverlaps(t, p, s, found);
    BackOnce(p, |t|, found);
    forall a, b | 0 <= a < b < |t| && Overlap(t[a], t[b]) ensures (a, b) in pairs || (b, a) in pairs {
      Found(t, p, s, found, pairs, a, b);
    }
    BackNames(t, p, s, found);
  }

  lemma BackNames(t: seq<Timed>, p: seq<nat>, s: seq<Timed>, found: seq<(nat, nat)>)
    requires IsPermutation(p, |t|) && s == Apply(t, p)
    requires forall k :: 0 <= k < |found| ==> found[k].0 < |p| && found[k].1 < |p|
    ensures Names(s, found) == Names(t, Back(p, found))
  {
  }

  lemma Found(t: seq<Timed>, p: seq<nat>, s: seq<Timed>, found: seq<(nat, nat)>, pairs: seq<(nat, nat)>, a: nat, b: nat)
    requires IsPermutation(p, |t|) && s == Apply(t, p) && a in p && b in p && a != b
    requires a < |t| && b < |t| && Overlap(t[a], t[b])
    requires Upward(s, found) && |pairs| == |found|
    requires forall k :: 0 <= k < |found| ==>
               found[k].0 < |p| && found[k].1 < |p| && pairs[k] == (p[found[k].0], p[found[k].1])
    ensures (a, b) in pairs || (b, a) in pairs
  {
    var x :| 0 <= x < |p| && p[x] == a;
    var y :| 0 <= y < |p| && p[y] == b;
    var c := if x < y then (x, y) else (y, x);
    assert s[x] == t[a] && s[y] == t[b];
    assert c in found;
    var k :| 0 <= k < |found| && found[k] == c;
    assert pairs[k] == (p[c.0], p[c.1]);
  }

  /** `c` stands before `d` in the report: an earlier first event, or the same one and an earlier partner. */
  predicate ReadsBefore(c: (nat, nat), d: (nat, nat)) { c.0 < d.0 || (c.0 == d.0 && c.1 < d.1) }

  lemma {:induction false} RowAscends(t: seq<Timed>, i: nat, j: nat)
    requires i < j <= |t|
    ensures forall x, y :: 0 <= x < y < |Row(t, i, j)| ==> ReadsBefore(Row(t, i, j)[x], Row(t, i, j)[y])
    decreases |t| - j
  {
    if j < |t| {
      RowAscends(t, i, j + 1);
      RowExact(t, i, j + 1);
      var rest := Row(t, i, j + 1);
      assert forall y :: 0 <= y < |rest| ==> rest[y] in rest;
    }
  }

  /** The report goes through the sorted events: by the first event of a pair, then by the second. */
  lemma {:induction false} PairsAscend(t: seq<Timed>, n: nat)
    requires n <= |t|
    ensures forall x, y :: 0 <= x < y < |Pairs(t, n)| ==> ReadsBefore(Pairs(t, n)[x], Pairs(t, n)[y])
  {
    if n > 0 {
      PairsAscend(t, n - 1);
      RowAscends(t, n - 1, n);
      var front, row := Pairs(t, n - 1), Row(t, n - 1, n);
      forall x, y | 0 <= x < |front| && 0 <= y < |row| ensures ReadsBefore(front[x], row[y]) {
        PairAt(t, n - 1, x);
        RowAt(t, n - 1, n, y);
      }
      AscendConcat(front, row);
    }
  }

  lemma {:induction false} RowAt(t: seq<Timed>, i: nat, j: nat, y: nat)
    requires i < j <= |t| && y < |Row(t, i, j)|
    ensures Row(t, i, j)[y].0 == i
    decreases |t| - j
  {
    var first := Overlap(t[i], t[j]);
    if !(first && y == 0) { RowAt(t, i, j + 1, if first then y - 1 else y); }
  }

  lemma {:induction false} PairAt(t: seq<Timed>, n: nat, x: nat)
    requires n <= |t| && x < |Pairs(t, n)|
    ensures Pairs(t, n)[x].0 < n
  {
    var front := Pairs(t, n - 1);
    if x < |front| {
      PairAt(t, n - 1, x);
    } else {
      RowAt(t, n - 1, n, x - |front|);
    }
  }

  lemma AscendConcat(front: seq<(nat, nat)>, row: seq<(nat, nat)>)
    requires forall x, y :: 0 <= x < y < |front| ==> ReadsBefore(front[x], front[y])
    requires forall x, y :: 0 <= x < y < |row| ==> ReadsBefore(row[x], row[y])
    requires forall x, y :: 0 <= x < |front| && 0 <= y < |row| ==> ReadsBefore(front[x], row[y])
    ensures forall x, y :: 0 <= x < y < |front + row| ==> ReadsBefore((front + row)[x], (front + row)[y])
  {
  }

  /** Whatever order the events arrive in, the report is exactly their overlapping pairs, each once. */
  lemma ReportExact(t: seq<Timed>) returns (pairs: seq<(nat, nat)>)
    ensures ListsOverlapsOnce(t, pairs)
    ensures Reported(t) == Names(t, pairs)
  {
    TimedOrder();
    OrderSorts(TimedLe, t);
    var s := Sorted(TimedLe, t);
    PairsDistinct(s, |s|);
    PairsExact(s, |s|);
    pairs := Transport(t, Order(TimedLe, t), s, Pairs(s, |s|));
  }
}
