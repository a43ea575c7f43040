/** The `single_run` lock: SET NX EX on entry, an unconditional DEL on exit. */
module Locks {
  import opened Redis
  import opened Wrappers

  function LockKey(name: string): string { "lock:" + name }

  method Enter(store: Store, name: string, ttl: int) returns (acquired: bool)
    modifies store`keys
    ensures acquired <==> Seen(old(store.Slot(LockKey(name))), store.now).None?
    ensures store.keys == if acquired
                          then old(store.keys)[LockKey(name) := Entry(1, Some(store.now + ttl))]
                          else old(store.keys)
  {
    acquired := store.SetNxEx(LockKey(name), ttl);
  }

  /** The `finally` of a run that acquired: whoever holds the key now, it goes. */
  method Exit(store: Store, name: string)
    modifies store`keys
    ensures store.keys == old(store.keys) - {LockKey(name)}
  {
    store.Delete(LockKey(name));
  }

  // ----- many workers -------------------------------------------------------

  datatype Tenure = Tenure(since: int, ttl: int)

  /** One lock name: the key's deadline, the runs inside the block, and how often the key expired. */
  datatype System = System(now: int, key: Option<int>, runs: map<nat, Tenure>, expiries: nat)

  /** `Die` is a run that ends without reaching its `finally`. */
  datatype Step = Acquire(run: nat, ttl: int) | Release(run: nat) | Die(run: nat) | Tick(to: int)

  predicate Enabled(s: System, step: Step) {
    match step
    case Acquire(run, ttl) => run !in s.runs && ttl > 0
    case Release(run) => run in s.runs
    case Die(run) => run in s.runs
    case Tick(to) => s.now <= to
  }

  /** An attempt on a held key changes nothing: that worker yields False. */
  function Next(s: System, step: Step): System {
    match step
    case Acquire(run, ttl) =>
      if s.key.Some? then s
      else s.(key := Some(s.now + ttl), runs := s.runs[run := Tenure(s.now, ttl)])
    case Release(run) => s.(key := None, runs := s.runs - {run})
    case Die(run) => s.(runs := s.runs - {run})
    case Tick(to) =>
      if s.key.Some? && s.key.value <= to then s.(now := to, key := None, expiries := s.expiries + 1)
      else s.(now := to)
  }

  ghost predicate RunOk(s: System, steps: seq<Step>)
    decreases |steps|
  {
    steps == [] || (Enabled(s, steps[0]) && RunOk(Next(s, steps[0]), steps[1..]))
  }

  function Run(s: System, steps: seq<Step>): System
    decreases |steps|
  {
    if steps == [] then s else Run(Next(s, steps[0]), steps[1..])
  }

  function Fresh(now: int): System { System(now, None, map[], 0) }

  function Held(s: System): nat { if s.key.Some? then 1 else 0 }

  lemma Dropped(runs: map<nat, Tenure>, run: nat)
    requires run in runs
    ensures |runs - {run}| == |runs| - 1
  {
    assert (runs - {run}).Keys == runs.Keys - {run};
    assert |runs| == |runs.Keys| && |runs - {run}| == |(runs - {run}).Keys|;
  }

  /** However workers interleave, the runs inside the block number at most the live key plus the
      expiries so far: each expiry costs at most one extra concurrent run. */
  lemma {:induction false} RunsBound(s: System, steps: seq<Step>)
    requires RunOk(s, steps) && |s.runs| <= Held(s) + s.expiries
    ensures var t := Run(s, steps); |t.runs| <= Held(t) + t.expiries
    decreases |steps|
  {
    if steps != [] {
      match steps[0] {
        case Release(run) => Dropped(s.runs, run);
        case Die(run) => Dropped(s.runs, run);
        case _ =>
      }
      RunsBound(Next(s, steps[0]), steps[1..]);
    }
  }

  /** No run is still inside the block once its own lifetime is over. */
  ghost predicate Punctual(s: System) {
    forall run :: run in s.runs ==> s.now < s.runs[run].since + s.runs[run].ttl
  }

  ghost predicate AlwaysPunctual(s: System, steps: seq<Step>)
    decreases |steps|
  {
    Punctual(s) && (steps == [] || AlwaysPunctual(Next(s, steps[0]), steps[1..]))
  }

  /** A run inside the block is the only one, and the key is its own. */
  ghost predicate Exclusive(s: System) {
    && (forall run :: run in s.runs ==> s.key == Some(s.runs[run].since + s.runs[run].ttl))
    && (forall x, y :: x in s.runs && y in s.runs ==> x == y)
  }

  /** While no run outlasts its lifetime, the lock excludes. */
  lemma {:induction false} MutualExclusion(s: System, steps: seq<Step>)
    requires RunOk(s, steps) && AlwaysPunctual(s, steps) && Exclusive(s)
    ensures Exclusive(Run(s, steps))
    decreases |steps|
  {
    if steps != [] {
      assert AlwaysPunctual(Next(s, steps[0]), steps[1..]);
      MutualExclusion(Next(s, steps[0]), steps[1..]);
    }
  }

  // ----- the exact condition ------------------------------------------------

  /** Every run inside entered with lifetime `ttl`, at most `d` ago. */
  ghost predicate Within(s: System, ttl: int, d: int) {
    forall run :: run in s.runs ==> s.runs[run].ttl == ttl && s.now <= s.runs[run].since + d
  }

  ghost predicate AlwaysWithin(s: System, steps: seq<Step>, ttl: int, d: int)
    decreases |steps|
  {
    Within(s, ttl, d) && (steps == [] || AlwaysWithin(Next(s, steps[0]), steps[1..], ttl, d))
  }

  lemma {:induction false} WithinPunctual(s: System, steps: seq<Step>, ttl: int, d: int)
    requires d < ttl && AlwaysWithin(s, steps, ttl, d)
    ensures AlwaysPunctual(s, steps)
    decreases |steps|
  {
    if steps != [] { WithinPunctual(Next(s, steps[0]), steps[1..], ttl, d); }
  }

  /** Every interleaving of runs with lifetime `ttl`, none inside for more than `d`, stays exclusive. */
  ghost predicate Excludes(now: int, ttl: int, d: int) {
    forall steps :: RunOk(Fresh(now), steps) && AlwaysWithin(Fresh(now), steps, ttl, d) ==>
      Exclusive(Run(Fresh(now), steps))
  }

  /** The lock excludes, whatever the interleaving, if and only if its lifetime exceeds the longest run. */
  lemma ExcludesExactly(now: int, ttl: int, d: int)
    requires ttl >= 1
    ensures Excludes(now, ttl, d) <==> d < ttl
  {
    if d < ttl {
      forall steps | RunOk(Fresh(now), steps) && AlwaysWithin(Fresh(now), steps, ttl, d)
        ensures Exclusive(Run(Fresh(now), steps))
      {
        WithinPunctual(Fresh(now), steps, ttl, d);
        MutualExclusion(Fresh(now), steps);
      }
    } else {
      var steps := TwoInside(now, ttl, d);
    }
  }

  /** A run still inside when its lifetime ends is joined by the next to try. */
  lemma TwoInside(now: int, ttl: int, d: int) returns (steps: seq<Step>)
    requires 1 <= ttl <= d
    ensures RunOk(Fresh(now), steps) && AlwaysWithin(Fresh(now), steps, ttl, d)
    ensures |Run(Fresh(now), steps).runs| == 2 && !Exclusive(Run(Fresh(now), steps))
  {
    var s0 := Fresh(now);
    var s1 := Next(s0, Acquire(0, ttl));
    var s2 := Next(s1, Tick(now + ttl));
    var s3 := Next(s2, Acquire(1, ttl));
    assert s1.runs == map[0 := Tenure(now, ttl)] && s2.runs == s1.runs && s2.key.None?;
    assert s3.runs == map[0 := Tenure(now, ttl), 1 := Tenure(now + ttl, ttl)];
    assert Within(s0, ttl, d) && Within(s1, ttl, d) && Within(s2, ttl, d) && Within(s3, ttl, d);
    OneWithin(s2, Acquire(1, ttl), [], ttl, d);
    OneWithin(s1, Tick(now + ttl), [Acquire(1, ttl)] + [], ttl, d);
    OneWithin(s0, Acquire(0, ttl), [Tick(now + ttl)] + ([Acquire(1, ttl)] + []), ttl, d);
    steps := [Acquire(0, ttl)] + ([Tick(now + ttl)] + ([Acquire(1, ttl)] + []));
    assert 0 in s3.runs && 1 in s3.runs;
  }

  lemma OneWithin(s: System, step: Step, rest: seq<Step>, ttl: int, d: int)
    requires Enabled(s, step) && Within(s, ttl, d)
    requires RunOk(Next(s, step), rest) && AlwaysWithin(Next(s, step), rest, ttl, d)
    ensures RunOk(s, [step] + rest) && AlwaysWithin(s, [step] + rest, ttl, d)
    ensures Run(s, [step] + rest) == Run(Next(s, step), rest)
  {
    assert ([step] + rest)[1..] == rest;
  }

  /** The unconditional delete costs more: whatever the lifetime, one late run is enough for two runs to
      overlap that both are within theirs. */
  lemma LateReleaseFreesAnother(now: int, ttl: int) returns (steps: seq<Step>)
    requires ttl >= 1
    ensures RunOk(Fresh(now), steps)
    ensures var t := Run(Fresh(now), steps); Punctual(t) && |t.runs| == 2 && t.expiries == 1
  {
    var first, second := [Acquire(0, ttl), Tick(now + ttl)], [Acquire(1, ttl), Release(0)];
    TwoSteps(Fresh(now), first[0], first[1]);
    var s2 := Run(Fresh(now), first);
    TwoSteps(s2, second[0], second[1]);
    RunConcat(Fresh(now), first, second);
    var s4 := Run(s2, second);
    assert s4.runs == map[1 := Tenure(now + ttl, ttl)] && s4.key.None?;
    OneStep(s4, Acquire(2, ttl));
    RunConcat(Fresh(now), first + second, [Acquire(2, ttl)]);
    steps := (first + second) + [Acquire(2, ttl)];
    assert Run(Fresh(now), steps).runs == map[1 := Tenure(now + ttl, ttl), 2 := Tenure(now + ttl, ttl)];
  }

  lemma {:induction false} RunConcat(s: System, xs: seq<Step>, ys: seq<Step>)
    ensures Run(s, xs + ys) == Run(Run(s, xs), ys)
    ensures RunOk(s, xs + ys) <==> RunOk(s, xs) && RunOk(Run(s, xs), ys)
    decreases |xs|
  {
    if xs == [] {
      assert xs + ys == ys;
    } else {
      assert (xs + ys)[1..] == xs[1..] + ys;
      RunConcat(Next(s, xs[0]), xs[1..], ys);
    }
  }

  lemma OneStep(s: System, x: Step)
    ensures Run(s, [x]) == Next(s, x) && (RunOk(s, [x]) <==> Enabled(s, x))
  {
    assert [x][1..] == [] && Run(Next(s, x), []) == Next(s, x);
  }

  lemma TwoSteps(s: System, x: Step, y: Step)
    ensures Run(s, [x, y]) == Next(Next(s, x), y)
    ensures RunOk(s, [x, y]) <==> Enabled(s, x) && Enabled(Next(s, x), y)
  {
    assert [x, y][1..] == [y];
    OneStep(Next(s, x), y);
  }

  /** The bound is met for every lifetime and every number of expiries. */
  lemma {:induction false} BoundMet(n: nat, ttl: int) returns (steps: seq<Step>)
    requires ttl >= 1
    ensures RunOk(Fresh(0), steps)
    ensures var t := Run(Fresh(0), steps);
            t.expiries == n && |t.runs| == n + 1 && t.key == Some(t.now + ttl) && forall r :: r in t.runs ==> r <= n
  {
    if n == 0 {
      steps := [Acquire(0, ttl)];
      OneStep(Fresh(0), steps[0]);
    } else {
      var before := BoundMet(n - 1, ttl);
      var s := Run(Fresh(0), before);
      OneMore(s, n, ttl);
      var more := [Tick(s.now + ttl), Acquire(n, ttl)];
      steps := before + more;
      RunConcat(Fresh(0), before, more);
    }
  }

  /** When the key expires the next run to try joins those inside. */
  lemma OneMore(s: System, n: nat, ttl: int)
    requires ttl >= 1 && s.key == Some(s.now + ttl) && forall r :: r in s.runs ==> r < n
    ensures var more := [Tick(s.now + ttl), Acquire(n, ttl)];
            var t := Run(s, more);
            && RunOk(s, more)
            && t.expiries == s.expiries + 1 && |t.runs| == |s.runs| + 1 && t.key == Some(t.now + ttl)
            && forall r :: r in t.runs ==> r <= n
  {
    TwoSteps(s, Tick(s.now + ttl), Acquire(n, ttl));
    var t := Next(Next(s, Tick(s.now + ttl)), Acquire(n, ttl));
    assert t.runs.Keys == s.runs.Keys + {n};
    assert |t.runs| == |t.runs.Keys| && |s.runs| == |s.runs.Keys|;
  }
}
