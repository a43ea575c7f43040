/** Processes and threads reading one shared row through per-process 60-second snapshots. */
module ConnectionCache {
  import opened Wrappers

  const SNAPSHOT_TTL := 60

  /** A snapshot: when it was stored, which version of the row it holds, and when that was read. */
  datatype Snapshot = Snapshot(at: int, version: nat, readAt: int)

  /** A load in flight: the row has been read, the snapshot not yet stored. */
  datatype Load = Load(process: nat, version: nat, readAt: int)

  /** `commits[v]` is when version `v` of the row was committed; `own` is each process's latest write;
      `dirty` holds processes that committed and have yet to invalidate. */
  datatype World = World(
    clock: int, commits: seq<int>, snapshots: map<nat, Snapshot>, loads: map<nat, Load>,
    own: map<nat, nat>, dirty: set<nat>)

  datatype Step =
    | Tick(to: int)
    | Commit(process: nat)
    | Invalidate(process: nat)
    | Serve(process: nat)
    | BeginLoad(thread: nat, process: nat)
    | EndLoad(thread: nat)

  predicate Enabled(w: World, step: Step, latency: int) {
    match step
    case Tick(to) => w.clock <= to
    case Serve(p) => p in w.snapshots && w.clock - w.snapshots[p].at < SNAPSHOT_TTL
    case BeginLoad(t, p) => t !in w.loads && w.commits != []
    case EndLoad(t) => t in w.loads && w.clock - w.loads[t].readAt <= latency
    case _ => true
  }

  function Next(w: World, step: Step): World {
    match step
    case Tick(to) => w.(clock := to)
    case Commit(p) =>
      w.(commits := w.commits + [w.clock], own := w.own[p := |w.commits|], dirty := w.dirty + {p})
    case Invalidate(p) => w.(snapshots := w.snapshots - {p}, dirty := w.dirty - {p})
    case Serve(p) => w
    case BeginLoad(t, p) =>
      if w.commits == [] then w
      else w.(loads := w.loads[t := Load(p, |w.commits| - 1, w.clock)])
    case EndLoad(t) =>
      if t !in w.loads then w
      else
        var l := w.loads[t];
        w.(snapshots := w.snapshots[l.process := Snapshot(w.clock, l.version, l.readAt)], loads := w.loads - {t})
  }

  /** The process and version a step hands to its caller. */
  function Returned(w: World, step: Step): Option<(nat, nat)> {
    match step
    case Serve(p) => if p in w.snapshots then Some((p, w.snapshots[p].version)) else None
    case EndLoad(t) => if t in w.loads then Some((w.loads[t].process, w.loads[t].version)) else None
    case _ => None
  }

  ghost predicate RunOk(w: World, steps: seq<Step>, latency: int)
    decreases |steps|
  {
    steps == [] || (Enabled(w, steps[0], latency) && RunOk(Next(w, steps[0]), steps[1..], latency))
  }

  function Run(w: World, steps: seq<Step>): World
    decreases |steps|
  {
    if steps == [] then w else Run(Next(w, steps[0]), steps[1..])
  }

  /** Version `v` was the row at instant `t`. */
  ghost predicate CurrentAt(commits: seq<int>, v: nat, t: int) {
    v < |commits| && commits[v] <= t && (v + 1 < |commits| ==> t <= commits[v + 1])
  }

  ghost predicate Timely(w: World, latency: int) {
    && (forall v :: 0 <= v < |w.commits| ==> w.commits[v] <= w.clock)
    && (forall t :: t in w.loads ==>
          && w.loads[t].readAt <= w.clock
          && CurrentAt(w.commits, w.loads[t].version, w.loads[t].readAt))
    && (forall p :: p in w.snapshots ==>
          && w.snapshots[p].at - latency <= w.snapshots[p].readAt <= w.snapshots[p].at <= w.clock
          && CurrentAt(w.commits, w.snapshots[p].version, w.snapshots[p].readAt))
  }

  /** The row as it stood at some moment of the last 60 seconds, plus the time a load takes. */
  ghost predicate Recent(w: World, version: nat, latency: int) {
    exists t :: w.clock - SNAPSHOT_TTL - latency < t <= w.clock && CurrentAt(w.commits, version, t)
  }

  lemma {:induction false} TimelyKept(w: World, steps: seq<Step>, latency: int)
    requires latency >= 0 && Timely(w, latency) && RunOk(w, steps, latency)
    ensures Timely(Run(w, steps), latency)
    decreases |steps|
  {
    if steps != [] {
      TimelyStep(w, steps[0], latency);
      TimelyKept(Next(w, steps[0]), steps[1..], latency);
    }
  }

  lemma TimelyStep(w: World, step: Step, latency: int)
    requires latency >= 0 && Timely(w, latency) && Enabled(w, step, latency)
    ensures Timely(Next(w, step), latency)
  {
  }

  /** Whatever the processes and threads do, no answer is staler than the snapshot's lifetime allows. */
  lemma AnswersRecent(w: World, steps: seq<Step>, step: Step, latency: int)
    requires latency >= 0 && Timely(w, latency) && RunOk(w, steps, latency)
    requires Enabled(Run(w, steps), step, latency) && Returned(Run(w, steps), step).Some?
    ensures Recent(Run(w, steps), Returned(Run(w, steps), step).value.1, latency)
  {
    TimelyKept(w, steps, latency);
    var v := Run(w, steps);
    var t := if step.Serve? then v.snapshots[step.process].readAt else v.loads[step.thread].readAt;
    assert CurrentAt(v.commits, Returned(v, step).value.1, t);
  }

  /** A load of `p` that began in time to finish still. */
  predicate Loading(w: World, t: nat, p: nat, latency: int) {
    t in w.loads && w.loads[t].process == p && w.clock - w.loads[t].readAt <= latency
  }

  /** A process answers nothing between a commit and its invalidation. */
  predicate Orderly(w: World, step: Step) {
    match step
    case Serve(p) => p !in w.dirty
    case EndLoad(t) => t in w.loads ==> w.loads[t].process !in w.dirty
    case _ => true
  }

  /** Nor does it commit while one of its own loads is in flight. */
  ghost predicate Serial(w: World, step: Step, latency: int) {
    Orderly(w, step) && (step.Commit? ==> forall t :: !Loading(w, t, step.process, latency))
  }

  ghost predicate AllSerial(w: World, steps: seq<Step>, latency: int)
    decreases |steps|
  {
    steps == [] || (Serial(w, steps[0], latency) && AllSerial(Next(w, steps[0]), steps[1..], latency))
  }

  /** What a process can still be told is no older than its own latest write. */
  ghost predicate OwnWritesSeen(w: World, latency: int) {
    && (forall p :: p in w.own ==> w.own[p] < |w.commits|)
    && (forall t, p :: Loading(w, t, p, latency) && p in w.own ==> w.own[p] <= w.loads[t].version)
    && (forall p :: p in w.snapshots && p in w.own && p !in w.dirty ==> w.own[p] <= w.snapshots[p].version)
  }

  lemma OwnWritesStep(w: World, step: Step, latency: int)
    requires latency >= 0 && OwnWritesSeen(w, latency) && Enabled(w, step, latency) && Serial(w, step, latency)
    ensures OwnWritesSeen(Next(w, step), latency)
  {
    var v := Next(w, step);
    forall t, p | Loading(v, t, p, latency) && p in v.own ensures v.own[p] <= v.loads[t].version {
      if !(step.BeginLoad? && step.thread == t) { assert Loading(w, t, p, latency); }
    }
    if step.EndLoad? && step.thread in w.loads {
      assert Loading(w, step.thread, w.loads[step.thread].process, latency);
    }
  }

  lemma {:induction false} OwnWritesKept(w: World, steps: seq<Step>, latency: int)
    requires latency >= 0 && OwnWritesSeen(w, latency) && RunOk(w, steps, latency) && AllSerial(w, steps, latency)
    ensures OwnWritesSeen(Run(w, steps), latency)
    decreases |steps|
  {
    if steps != [] {
      OwnWritesStep(w, steps[0], latency);
      OwnWritesKept(Next(w, steps[0]), steps[1..], latency);
    }
  }

  /** The answer a step gives, if any, is at least as new as the process's own latest write. */
  predicate UpToDate(w: World, step: Step) {
    var r := Returned(w, step);
    r.Some? && r.value.0 in w.own ==> w.own[r.value.0] <= r.value.1
  }

  /** A serial process never sees a state older than its own latest write. */
  lemma ReadsOwnWrites(w: World, steps: seq<Step>, step: Step, latency: int)
    requires latency >= 0 && OwnWritesSeen(w, latency) && RunOk(w, steps, latency) && AllSerial(w, steps, latency)
    requires Enabled(Run(w, steps), step, latency) && Serial(Run(w, steps), step, latency)
    ensures UpToDate(Run(w, steps), step)
  {
    OwnWritesKept(w, steps, latency);
    var v := Run(w, steps);
    if step.EndLoad? { assert Loading(v, step.thread, v.loads[step.thread].process, latency); }
  }

  /** Every answer of every serial continuation is up to date. */
  ghost predicate SafeAfter(w: World, latency: int) {
    forall steps, step :: Continues(w, steps, step, latency) ==> UpToDate(Run(w, steps), step)
  }

  ghost predicate Continues(w: World, steps: seq<Step>, step: Step, latency: int) {
    && RunOk(w, steps, latency) && AllSerial(w, steps, latency)
    && Enabled(Run(w, steps), step, latency) && Serial(Run(w, steps), step, latency)
  }

  /** The exact condition, at the moment of the write: a commit is safe in every serial continuation if and
      only if none of the process's own loads is in flight. */
  lemma CommitSafeExactly(w: World, p: nat, latency: int)
    requires latency >= 0 && Timely(w, latency) && OwnWritesSeen(w, latency)
    ensures SafeAfter(Next(w, Commit(p)), latency) <==> forall t :: !Loading(w, t, p, latency)
  {
    var v := Next(w, Commit(p));
    if t :| Loading(w, t, p, latency) {
      var steps := StaleServed(w, p, t, latency);
      assert !UpToDate(Run(v, steps), Serve(p));
    } else {
      OwnWritesStep(w, Commit(p), latency);
      forall steps, step | Continues(v, steps, step, latency) ensures UpToDate(Run(v, steps), step) {
        ReadsOwnWrites(v, steps, step, latency);
      }
    }
  }

  /** The load finishes after the commit and its invalidation, and its older row is served from then on. */
  lemma StaleServed(w: World, p: nat, t: nat, latency: int) returns (steps: seq<Step>)
    requires latency >= 0 && Timely(w, latency) && Loading(w, t, p, latency)
    ensures Continues(Next(w, Commit(p)), steps, Serve(p), latency)
    ensures !UpToDate(Run(Next(w, Commit(p)), steps), Serve(p))
  {
    var v := Next(w, Commit(p));
    steps := [Invalidate(p), EndLoad(t)];
    var v1 := Next(v, steps[0]);
    var v2 := Next(v1, steps[1]);
    assert steps[1..] == [EndLoad(t)] && steps[1..][1..] == [];
    assert Run(v2, []) == v2 && RunOk(v2, [], latency) && AllSerial(v2, [], latency);
    assert RunOk(v1, steps[1..], latency) && AllSerial(v1, steps[1..], latency) && Run(v1, steps[1..]) == v2;
    assert RunOk(v, steps, latency) && AllSerial(v, steps, latency) && Run(v, steps) == v2;
  }

  /** Two threads break that: one loads, the other writes and invalidates, the first then caches the
      older row, and the process goes on serving it. */
  lemma ThreadsCanRace() returns (w: World, steps: seq<Step>, step: Step)
    ensures Timely(w, 1) && OwnWritesSeen(w, 1) && RunOk(w, steps, 1)
    ensures var v := Run(w, steps);
            && Enabled(v, step, 1) && step.Serve? && v.dirty == {} && v.loads == map[]
            && step.process in v.own && Returned(v, step).Some?
            && Returned(v, step).value.1 < v.own[step.process]
  {
    w := World(0, [0], map[], map[], map[], {});
    steps := [BeginLoad(1, 7), Commit(7), Invalidate(7), EndLoad(1), Tick(59)];
    step := Serve(7);
    var w1 := Next(w, steps[0]);
    var w2 := Next(w1, steps[1]);
    var w3 := Next(w2, steps[2]);
    var w4 := Next(w3, steps[3]);
    var w5 := Next(w4, steps[4]);
    assert steps[1..][1..] == steps[2..] && steps[2..][1..] == steps[3..];
    assert steps[3..][1..] == steps[4..] && steps[4..][1..] == [];
    assert Run(w5, []) == w5 && steps[4..] == [Tick(59)] && [Tick(59)][1..] == [];
    assert Run(w4, [Tick(59)]) == Run(Next(w4, Tick(59)), [Tick(59)][1..]);
    assert RunOk(w4, steps[4..], 1) && Run(w4, steps[4..]) == w5;
    assert RunOk(w3, steps[3..], 1) && Run(w3, steps[3..]) == w5;
    assert RunOk(w2, steps[2..], 1) && Run(w2, steps[2..]) == w5;
    assert RunOk(w1, steps[1..], 1) && Run(w1, steps[1..]) == w5;
    assert RunOk(w, steps, 1) && Run(w, steps) == w5;
  }
}
