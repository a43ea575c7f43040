/** The fixed-window limiter: what it lets through over any trace of hits.

    Callers interleave freely: one caller's EXPIRE may land after other callers' INCRs. */
module RateLimit {
  import opened Redis
  import opened Wrappers

  /** What befell the two Redis calls of one `allow`. */
  datatype Fate = BothOk | IncrFails | ExpireFails

  /** Count one hit; fails open when Redis does. */
  method Allow(store: Store, key: string, limit: int, window: int, fate: Fate) returns (ok: bool)
    modifies store`keys
    ensures var bucket := "ratelimit:" + key;
            var before := old(store.Slot(bucket));
            var used := Bumped(before, store.now).value;
            && (fate.IncrFails? ==> ok && store.keys == old(store.keys))
            && (!fate.IncrFails? && used != 1 ==>
                  ok == (used <= limit) && store.keys == old(store.keys)[bucket := Bumped(before, store.now)])
            && (fate.ExpireFails? && used == 1 ==>
                  ok && store.keys == old(store.keys)[bucket := Bumped(before, store.now)])
            && (fate.BothOk? && used == 1 ==>
                  && ok == (1 <= limit)
                  && store.Slot(bucket) == WithTtl(Some(Bumped(before, store.now)), store.now, window)
                  && store.keys - {bucket} == old(store.keys) - {bucket})
  {
    if fate.IncrFails? { return true; }
    var bucket := "ratelimit:" + key;
    var used := store.Incr(bucket);
    if used == 1 {
      if fate.ExpireFails? { return true; }
      store.Expire(bucket, window);
    }
    ok := used <= limit;
  }

  // ----- traces -------------------------------------------------------------

  /** One INCR by some caller, or the EXPIRE owed by the caller whose INCR returned 1. */
  datatype Step = Hit(at: int) | SetTtl(at: int)

  /** A hit, the key lifetime it fell in, and its number within that lifetime. */
  datatype Record = Record(at: int, life: nat, ordinal: int)

  datatype Trace = Trace(bucket: Option<Entry>, owed: bool, clock: int, log: seq<Record>)

  predicate Enabled(s: Trace, step: Step) {
    s.clock <= step.at && (step.SetTtl? ==> s.owed)
  }

  function Next(s: Trace, step: Step, window: int): Trace {
    match step
    case Hit(at) =>
      var e := Bumped(s.bucket, at);
      var lives := if s.log == [] then 0 else s.log[|s.log| - 1].life;
      Trace(Some(e), s.owed || e.value == 1, at,
            s.log + [Record(at, if e.value == 1 then lives + 1 else lives, e.value)])
    case SetTtl(at) =>
      Trace(WithTtl(s.bucket, at, window), false, at, s.log)
  }

  ghost predicate RunOk(s: Trace, steps: seq<Step>, window: int)
    decreases |steps|
  {
    steps == [] || (Enabled(s, steps[0]) && RunOk(Next(s, steps[0], window), steps[1..], window))
  }

  function Run(s: Trace, steps: seq<Step>, window: int): Trace
    decreases |steps|
  {
    if steps == [] then s else Run(Next(s, steps[0], window), steps[1..], window)
  }

  function Idle(clock: int): Trace { Trace(None, false, clock, []) }

  /** `y` comes right after `x`: the next hit of its lifetime, or the first of the next one. */
  predicate Follows(x: Record, y: Record) {
    || (y.life == x.life && y.ordinal == x.ordinal + 1)
    || (y.life == x.life + 1 && y.ordinal == 1)
  }

  /** Lifetimes are numbered in order, hits within one counted from 1. */
  ghost predicate Counted(log: seq<Record>) {
    && (log != [] ==> log[0].ordinal == 1)
    && (forall i :: 0 <= i < |log| ==> log[i].ordinal >= 1)
    && (forall i, j :: 0 <= i < j < |log| && j == i + 1 ==> Follows(log[i], log[j]))
  }

  /** A new lifetime starts at least one window after every earlier one. */
  ghost predicate Spaced(log: seq<Record>, window: int) {
    forall i, j :: 0 <= i < j < |log| && log[i].ordinal == 1 && log[j].ordinal == 1 ==>
      log[i].at + window <= log[j].at
  }

  ghost predicate Timed(log: seq<Record>) {
    forall i, j :: 0 <= i < j < |log| ==> log[i].at <= log[j].at
  }

  ghost predicate Inv(s: Trace, window: int) {
    && Counted(s.log) && Spaced(s.log, window) && Timed(s.log)
    && (forall i :: 0 <= i < |s.log| ==> s.log[i].at <= s.clock)
    && (s.bucket.None? ==> s.log == [] && !s.owed)
    && (s.bucket.Some? ==>
          && s.log != [] && s.bucket.value.value == s.log[|s.log| - 1].ordinal
          && (s.owed <==> s.bucket.value.deadline.None?)
          && (s.bucket.value.deadline.Some? ==>
                && s.bucket.value.deadline.value <= s.clock + window
                && forall i :: 0 <= i < |s.log| && s.log[i].ordinal == 1 ==>
                     s.log[i].at + window <= s.bucket.value.deadline.value))
  }

  lemma Append(log: seq<Record>, r: Record, window: int)
    requires Counted(log) && Spaced(log, window) && Timed(log)
    requires forall i :: 0 <= i < |log| ==> log[i].at <= r.at
    requires log == [] ==> r.ordinal == 1
    requires r.ordinal >= 1 && (log != [] ==> Follows(log[|log| - 1], r))
    requires r.ordinal == 1 ==> forall i :: 0 <= i < |log| && log[i].ordinal == 1 ==> log[i].at + window <= r.at
    ensures Counted(log + [r]) && Spaced(log + [r], window) && Timed(log + [r])
  {
  }

  lemma NextInv(s: Trace, step: Step, window: int)
    requires window > 0 && Inv(s, window) && Enabled(s, step)
    ensures Inv(Next(s, step, window), window)
  {
    if step.Hit? {
      var t := Next(s, step, window);
      var r := t.log[|s.log|];
      assert t.log == s.log + [r];
      Append(s.log, r, window);
      if r.ordinal > 1 {
        assert s.bucket.Some? && t.bucket.value.deadline == s.bucket.value.deadline;
      }
    }
  }

  lemma {:induction false} RunInv(s: Trace, steps: seq<Step>, window: int)
    requires window > 0 && Inv(s, window) && RunOk(s, steps, window)
    ensures Inv(Run(s, steps, window), window)
    decreases |steps|
  {
    if steps != [] {
      NextInv(s, steps[0], window);
      RunInv(Next(s, steps[0], window), steps[1..], window);
    }
  }

  // ----- the bound ----------------------------------------------------------

  /** Positions of the hits let through at times `from <= at < to`. */
  ghost function Passed(log: seq<Record>, limit: int, from: int, to: int): set<int> {
    set i | 0 <= i < |log| && log[i].ordinal <= limit && from <= log[i].at < to
  }

  lemma {:induction false} Pigeonhole(s: set<int>, f: int -> int, n: nat)
    requires forall i :: i in s ==> 0 <= f(i) < n
    requires forall i, j :: i in s && j in s && f(i) == f(j) ==> i == j
    ensures |s| <= n
    decreases n
  {
    if n == 0 {
      assert forall i :: i !in s;
      assert s == {};
    } else if i :| i in s && f(i) == n - 1 {
      Pigeonhole(s - {i}, f, n - 1);
    } else {
      Pigeonhole(s, f, n - 1);
    }
  }

  lemma {:induction false} Later(log: seq<Record>, i: nat, j: nat)
    requires Counted(log) && i < j < |log|
    ensures log[i].life < log[j].life || (log[i].life == log[j].life && log[i].ordinal < log[j].ordinal)
    decreases j
  {
    if i < j - 1 { Later(log, i, j - 1); }
  }

  /** The first hit of the lifetime `life`, somewhere after `i` when `i` is in an earlier lifetime. */
  lemma {:induction false} FirstOf(log: seq<Record>, life: nat, i: nat, j: nat) returns (k: nat)
    requires Counted(log) && i < j < |log| && log[i].life < life <= log[j].life
    ensures i < k <= j && log[k].life == life && log[k].ordinal == 1
    decreases j
  {
    if log[j].life == life && log[j].ordinal == 1 {
      k := j;
    } else {
      k := FirstOf(log, life, i, j - 1);
    }
  }

  lemma {:induction false} Opener(log: seq<Record>, j: nat) returns (k: nat)
    requires Counted(log) && j < |log|
    ensures k <= j && log[k].life == log[j].life && log[k].ordinal == 1
    decreases j
  {
    if log[j].ordinal == 1 { k := j; } else { k := Opener(log, j - 1); }
  }

  /** If a span of one window's length holds hits of two lifetimes, these are consecutive, and the earlier one's
      first hit lies before the span. */
  lemma Straddle(log: seq<Record>, window: int, from: int, i: nat, j: nat)
    requires Counted(log) && Spaced(log, window) && Timed(log)
    requires i < j < |log| && log[i].life < log[j].life
    requires from <= log[i].at && log[j].at < from + window
    ensures log[i].life == log[j].life - 1 && log[i].ordinal >= 2
  {
    var k := FirstOf(log, log[j].life, i, j);
    assert log[k].at < from + window;
    var h := Opener(log, i);
    assert log[h].at + window <= log[k].at;
    if log[i].life + 1 < log[j].life {
      var m := FirstOf(log, log[i].life + 1, i, j);
      assert false;
    }
  }

  /** Any span of one window's length lets at most 2 * limit - 1 hits through. */
  lemma SpanBound(s: Trace, window: int, limit: int, from: int)
    requires window > 0 && Inv(s, window)
    ensures |Passed(s.log, limit, from, from + window)| <= if limit <= 0 then 0 else 2 * limit - 1
  {
    var log := s.log;
    var p := Passed(log, limit, from, from + window);
    if limit <= 0 {
      assert forall i :: i !in p;
      assert p == {};
    } else if some :| some in p {
      var j := Latest(p, some, |log|);
      var f := i => if !(0 <= i < |log|) then -1
                    else if log[i].life == log[j].life then log[i].ordinal - 1
                    else limit + log[i].ordinal - 2;
      forall i | i in p ensures 0 <= f(i) < 2 * limit - 1 {
        if i < j { Later(log, i, j); }
        if log[i].life != log[j].life { Straddle(log, window, from, i, j); }
      }
      forall i, k | i in p && k in p && f(i) == f(k) ensures i == k {
        if i < k { SameSlot(log, window, from, limit, i, k, j); }
        if k < i { SameSlot(log, window, from, limit, k, i, j); }
      }
      Pigeonhole(p, f, 2 * limit - 1);
    } else {
      assert p == {};
    }
  }

  /** The law of the limiter: whatever the hits, their times and the interleaving of their EXPIREs, no span of
      one window's length lets more than 2 * limit - 1 of them through. */
  lemma TraceBound(start: int, steps: seq<Step>, window: int, limit: int, from: int)
    requires window > 0 && RunOk(Idle(start), steps, window)
    ensures |Passed(Run(Idle(start), steps, window).log, limit, from, from + window)|
            <= if limit <= 0 then 0 else 2 * limit - 1
  {
    RunInv(Idle(start), steps, window);
    SpanBound(Run(Idle(start), steps, window), window, limit, from);
  }

  lemma SameSlot(log: seq<Record>, window: int, from: int, limit: int, i: nat, k: nat, j: nat)
    requires Counted(log) && Spaced(log, window) && Timed(log)
    requires i < k <= j < |log| && from <= log[i].at && log[j].at < from + window
    requires log[i].ordinal <= limit && log[k].ordinal <= limit
    ensures log[i].life != log[j].life ==> log[k].life != log[j].life ==> log[i].ordinal < log[k].ordinal
    ensures log[i].life == log[j].life ==> log[k].life == log[j].life && log[i].ordinal < log[k].ordinal
    ensures log[i].life != log[j].life ==> log[i].ordinal >= 2
  {
    Later(log, i, k);
    if k < j { Later(log, k, j); }
    if log[i].life != log[j].life { Later(log, i, j); Straddle(log, window, from, i, j); }
    if log[k].life != log[j].life { Straddle(log, window, from, k, j); }
  }

  lemma {:induction false} Latest(p: set<int>, i: int, n: int) returns (j: int)
    requires i in p && forall k :: k in p ==> k < n
    ensures j in p && forall k :: k in p ==> k <= j
    decreases n - i
  {
    if k :| k in p && i < k {
      j := Latest(p, k, n);
    } else {
      j := i;
    }
  }

  // ----- the bound is met ---------------------------------------------------

  function Hits(at: int, n: nat): seq<Step> { seq(n, _ => Hit(at)) }

  function Numbered(at: int, life: nat, from: int, n: nat): seq<Record> {
    seq(n, k => Record(at, life, from + k))
  }

  lemma {:induction false} RunConcat(s: Trace, xs: seq<Step>, ys: seq<Step>, window: int)
    ensures Run(s, xs + ys, window) == Run(Run(s, xs, window), ys, window)
    ensures RunOk(s, xs + ys, window) <==> RunOk(s, xs, window) && RunOk(Run(s, xs, window), ys, window)
    decreases |xs|
  {
    if xs == [] {
      assert xs + ys == ys;
    } else {
      assert (xs + ys)[1..] == xs[1..] + ys;
      RunConcat(Next(s, xs[0], window), xs[1..], ys, window);
    }
  }

  lemma {:induction false} HitsNumbered(s: Trace, at: int, n: nat, window: int)
    requires s.log != [] && s.clock <= at && s.bucket.Some? && s.bucket.value.value >= 1
    requires s.bucket.value.deadline.Some? ==> at < s.bucket.value.deadline.value
    ensures RunOk(s, Hits(at, n), window)
    ensures var e := s.bucket.value;
            Run(s, Hits(at, n), window)
            == Trace(Some(Entry(e.value + n, e.deadline)), s.owed, if n == 0 then s.clock else at,
                     s.log + Numbered(at, s.log[|s.log| - 1].life, e.value + 1, n))
    decreases n
  {
    if n > 0 {
      var t := Next(s, Hit(at), window);
      HitsNumbered(t, at, n - 1, window);
      assert Hits(at, n)[1..] == Hits(at, n - 1);
      var life, v := s.log[|s.log| - 1].life, s.bucket.value.value;
      assert t.log == s.log + [Record(at, life, v + 1)];
      assert [Record(at, life, v + 1)] + Numbered(at, life, v + 2, n - 1) == Numbered(at, life, v + 1, n);
    }
  }

  ghost function Range(lo: int, n: nat): (r: set<int>)
    ensures |r| == n && forall i :: i in r <==> lo <= i < lo + n
  {
    if n == 0 then {} else Range(lo, n - 1) + {lo + n - 1}
  }

  lemma AllButFirst(log: seq<Record>, limit: int, to: int)
    requires log != [] && log[0].at == 0
    requires forall i :: 1 <= i < |log| ==> 1 <= log[i].at < to && log[i].ordinal <= limit
    ensures |Passed(log, limit, 1, to)| == |log| - 1
  {
    assert Passed(log, limit, 1, to) == Range(1, |log| - 1);
  }

  lemma Open(s: Trace, at: int, window: int)
    requires window > 0 && s.clock <= at && Seen(s.bucket, at).None?
    ensures var life := 1 + if s.log == [] then 0 else s.log[|s.log| - 1].life;
            && RunOk(s, [Hit(at), SetTtl(at)], window)
            && Run(s, [Hit(at), SetTtl(at)], window)
               == Trace(Some(Entry(1, Some(at + window))), false, at, s.log + [Record(at, life, 1)])
  {
    var t := Next(s, Hit(at), window);
    assert [Hit(at), SetTtl(at)][1..] == [SetTtl(at)];
    assert RunOk(t, [SetTtl(at)], window) && Run(t, [SetTtl(at)], window) == Next(t, SetTtl(at), window);
  }

  /** One hit opens a key lifetime, `n` more follow just before it ends. */
  lemma FullWindow(window: int, n: nat) returns (steps: seq<Step>)
    requires window >= 2
    ensures RunOk(Idle(0), steps, window)
    ensures Run(Idle(0), steps, window)
            == Trace(Some(Entry(1 + n, Some(window))), false, if n == 0 then 0 else window - 1,
                     [Record(0, 1, 1)] + Numbered(window - 1, 1, 2, n))
  {
    var open, more := [Hit(0), SetTtl(0)], Hits(window - 1, n);
    Open(Idle(0), 0, window);
    HitsNumbered(Run(Idle(0), open, window), window - 1, n, window);
    RunConcat(Idle(0), open, more, window);
    steps := open + more;
    assert [] + [Record(0, 1, 1)] == [Record(0, 1, 1)];
  }

  /** The next lifetime opens at once, with as many hits again. */
  lemma NextWindow(s: Trace, window: int, n: nat) returns (steps: seq<Step>)
    requires window >= 2 && s.log != [] && s.log[|s.log| - 1].life == 1
    requires s.clock <= window && Seen(s.bucket, window).None?
    ensures RunOk(s, steps, window)
    ensures Run(s, steps, window).log == (s.log + [Record(window, 2, 1)]) + Numbered(window, 2, 2, n)
  {
    var open, more := [Hit(window), SetTtl(window)], Hits(window, n);
    Open(s, window, window);
    HitsNumbered(Run(s, open, window), window, n, window);
    RunConcat(s, open, more, window);
    steps := open + more;
  }

  /** All of a window's hits but the first just before the boundary, the next window's just after it:
      the bound is met. */
  lemma BoundMet(window: int, limit: nat) returns (steps: seq<Step>)
    requires window >= 2 && limit >= 1
    ensures RunOk(Idle(0), steps, window)
    ensures |Passed(Run(Idle(0), steps, window).log, limit, 1, 1 + window)| == 2 * limit - 1
  {
    var n: nat := limit - 1;
    var before := FullWindow(window, n);
    var s := Run(Idle(0), before, window);
    var after := NextWindow(s, window, n);
    RunConcat(Idle(0), before, after, window);
    steps := before + after;
    var log := Run(Idle(0), steps, window).log;
    assert log[0] == Record(0, 1, 1);
    AllButFirst(log, limit, 1 + window);
  }

  // ----- silence, and a lost EXPIRE -----------------------------------------

  /** After a silent window the next hit opens a fresh lifetime, and so passes, if and only if no EXPIRE is
      still owed. */
  lemma SilenceResetsExactly(start: int, steps: seq<Step>, window: int, at: int)
    requires window > 0 && RunOk(Idle(start), steps, window)
    requires Run(Idle(start), steps, window).clock + window <= at
    ensures var t := Run(Idle(start), steps, window);
            var log := Next(t, Hit(at), window).log;
            log[|log| - 1].ordinal == 1 <==> !t.owed
  {
    RunInv(Idle(start), steps, window);
  }

  /** If the EXPIRE owed by a lifetime's first hit never lands, the count never resets:
      however late they come, all hits beyond the limit are refused. */
  lemma {:induction false} LostExpireSticks(s: Trace, steps: seq<Step>, window: int)
    requires s.log != [] && s.bucket.Some? && s.bucket.value.value >= 1 && s.bucket.value.deadline.None?
    requires RunOk(s, steps, window) && forall k :: 0 <= k < |steps| ==> steps[k].Hit?
    ensures var log := Run(s, steps, window).log;
            && |log| == |s.log| + |steps|
            && forall i :: |s.log| <= i < |log| ==> log[i].ordinal == s.bucket.value.value + 1 + (i - |s.log|)
    ensures Run(s, steps, window).log[..|s.log|] == s.log
    decreases |steps|
  {
    if steps != [] {
      var t := Next(s, steps[0], window);
      LostExpireSticks(t, steps[1..], window);
      var log := Run(s, steps, window).log;
      assert log[|s.log|] == log[..|t.log|][|s.log|] == t.log[|s.log|];
      assert log[..|s.log|] == log[..|t.log|][..|s.log|];
    }
  }
}
