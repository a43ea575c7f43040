/** Polling one mailbox: a cursor into its history, a claim per message, and workers that may overlap,
    replay or crash. The lock around a poll is not relied on.

    A history id is a position in `log`, the messages Gmail has recorded. */
module Poll {
  import opened Wrappers
  import opened Gmail

  const MAX_MESSAGES_PER_POLL := 200

  /** A message between its guard and its hand-off, claimed or let through unguarded. */
  datatype Hold = Nothing | Guarded(id: string) | Unguarded(id: string)

  /** `next` is the history id to advance to; a poll that reset the cursor only `catchesUp`. */
  datatype Job =
    | Idle
    | Started(cursor: nat)
    | Walking(cursor: nat, batch: seq<string>, at: nat, hold: Hold, next: nat, catchesUp: bool)

  /** The shared state, the workers, and what became of each message. */
  datatype World = World(
    log: seq<string>, cursor: nat, claimed: set<string>, workers: seq<Job>,
    claims: multiset<string>, blind: multiset<string>, expired: multiset<string>,
    queued: multiset<string>, dropped: multiset<string>, crashed: multiset<string>,
    filtered: set<string>, ours: set<string>, refused: set<string>, cut: set<string>, abandoned: set<string>)

  /** A guard is told whether the labels in the history make the message one to `keep`, and whether it is
      our `own`; without Redis the latter is not known. The same message may be told differently each time. */
  datatype Step =
    | Arrive(id: string)
    | Start(k: nat)
    | List(k: nat, upTo: nat)
    | Reset(k: nat, to: nat, recent: seq<string>)
    | Guard(k: nat, keep: bool, own: bool)
    | GuardDown(k: nat, keep: bool)
    | Hand(k: nat)
    | Fail(k: nat)
    | Finish(k: nat)
    | Crash(k: nat)
    | Expire(id: string)

  predicate Ready(j: Job) { j.Walking? && j.hold.Nothing? && j.at < |j.batch| }

  predicate Enabled(w: World, s: Step) {
    match s
    case Arrive(id) => id != ""
    case Start(k) => k < |w.workers| && w.workers[k].Idle?
    case List(k, upTo) => k < |w.workers| && w.workers[k].Started? && w.workers[k].cursor <= upTo <= |w.log|
    case Reset(k, to, recent) => k < |w.workers| && w.workers[k].Started? && to <= |w.log|
    case Guard(k, _, _) => k < |w.workers| && Ready(w.workers[k])
    case GuardDown(k, _) => k < |w.workers| && Ready(w.workers[k])
    case Hand(k) => k < |w.workers| && w.workers[k].Walking? && !w.workers[k].hold.Nothing?
    case Fail(k) => k < |w.workers| && w.workers[k].Walking? && !w.workers[k].hold.Nothing?
    case Finish(k) => k < |w.workers| && Done(w.workers[k])
    case Crash(k) => k < |w.workers|
    case Expire(id) => id in w.claimed
  }

  predicate Done(j: Job) { j.Walking? && j.hold.Nothing? && j.at == |j.batch| }

  /** Log entries in `from..to`. */
  function Window(log: seq<string>, from: nat, to: nat): set<string> {
    set p | from <= p < to && p < |log| :: log[p]
  }

  /** What a poll takes on: the first messages of the history it read, each once. */
  function Batch(log: seq<string>, from: nat, upTo: nat): seq<string>
    requires from <= upTo <= |log|
  {
    Prefix(Dedupe(log[from..upTo]), MAX_MESSAGES_PER_POLL)
  }

  function Put(w: World, k: nat, j: Job): World
    requires k < |w.workers|
  {
    w.(workers := w.workers[k := j])
  }

  /** What a poll that reset the cursor takes on: recent mail, wherever the cursor now is. */
  function Recent(recent: seq<string>): seq<string> { Prefix(recent, MAX_MESSAGES_PER_POLL) }

  /** Mail of a catch-up that it has not come to yet. Its cursor has moved already, so no replay brings it back. */
  function Unread(j: Job): set<string> {
    if j.Walking? && j.catchesUp && j.at <= |j.batch| then Elements(j.batch[j.at..]) else {}
  }

  /** The cursor moves only if it still is where this worker read it, and only forward. */
  predicate Advances(w: World, j: Job) {
    j.Walking? && !j.catchesUp && j.next > j.cursor && w.cursor == j.cursor
  }

  /** `sent` tells which mail the user sent: the commands. A catch-up has no labels to go by before it has read
      a message, so it neither filters nor knows a command. */
  function Next(w: World, s: Step, sent: string -> bool): (t: World)
    requires Enabled(w, s)
    ensures |t.workers| == |w.workers|
  {
    match s
    case Arrive(id) => w.(log := w.log + [id])
    case Start(k) => Put(w, k, Started(w.cursor))
    case List(k, upTo) =>
      var c := w.workers[k].cursor;
      Put(w, k, Walking(c, Batch(w.log, c, upTo), 0, Nothing, |w.log|, false))
    case Reset(k, to, recent) =>
      Put(w.(cursor := to, cut := w.cut + (Window(w.log, w.cursor, to) - Elements(Recent(recent)))), k,
          Walking(to, Recent(recent), 0, Nothing, to, true))
    case Guard(k, keep, own) =>
      var j := w.workers[k];
      var id := j.batch[j.at];
      if !keep && !j.catchesUp then Put(w.(filtered := w.filtered + {id}), k, j.(at := j.at + 1))
      else if own then Put(w.(ours := w.ours + {id}), k, j.(at := j.at + 1))
      else if id in w.claimed then Put(w, k, j.(at := j.at + 1))
      else
        Put(w.(claimed := w.claimed + {id}, claims := w.claims + multiset{id}), k,
            j.(at := j.at + 1, hold := Guarded(id)))
    case GuardDown(k, keep) =>
      var j := w.workers[k];
      var id := j.batch[j.at];
      if !keep && !j.catchesUp then Put(w.(filtered := w.filtered + {id}), k, j.(at := j.at + 1))
      else if sent(id) && !j.catchesUp then Put(w.(refused := w.refused + {id}), k, j.(at := j.at + 1))
      else Put(w.(blind := w.blind + multiset{id}), k, j.(at := j.at + 1, hold := Unguarded(id)))
    case Hand(k) =>
      var j := w.workers[k];
      Put(w.(queued := w.queued + multiset{j.hold.id}), k, j.(hold := Nothing))
    case Fail(k) =>
      var j := w.workers[k];
      Put(w.(dropped := w.dropped + multiset{j.hold.id}), k, j.(hold := Nothing))
    case Finish(k) =>
      var j := w.workers[k];
      if Advances(w, j) then
        Put(w.(cursor := j.next, cut := w.cut + (Window(w.log, j.cursor, j.next) - Elements(j.batch))), k, Idle)
      else Put(w, k, Idle)
    case Crash(k) =>
      var j := w.workers[k];
      Put(w.(crashed := w.crashed + Held(j), abandoned := w.abandoned + Unread(j)), k, Idle)
    case Expire(id) => w.(claimed := w.claimed - {id}, expired := w.expired + multiset{id})
  }

  ghost predicate RunOk(w: World, steps: seq<Step>, sent: string -> bool)
    decreases |steps|
  {
    steps == [] || (Enabled(w, steps[0]) && RunOk(Next(w, steps[0], sent), steps[1..], sent))
  }

  function Run(w: World, steps: seq<Step>, sent: string -> bool): World
    requires RunOk(w, steps, sent)
    decreases |steps|
  {
    if steps == [] then w else Run(Next(w, steps[0], sent), steps[1..], sent)
  }

  /** `n` idle workers before an empty history. */
  function Fresh(n: nat): World {
    World([], 0, {}, seq(n, _ => Idle), multiset{}, multiset{}, multiset{},
          multiset{}, multiset{}, multiset{}, {}, {}, {}, {}, {})
  }

  // ----- conservation -------------------------------------------------------

  function Held(j: Job): multiset<string> {
    if j.Walking? && !j.hold.Nothing? then multiset{j.hold.id} else multiset{}
  }

  function Holds(j: Job, x: string): nat {
    if j.Walking? && !j.hold.Nothing? && j.hold.id == x then 1 else 0
  }

  lemma HeldHolds(j: Job, x: string)
    ensures Held(j)[x] == Holds(j, x)
  {
  }

  /** How many workers have `x` in hand. */
  function InHand(workers: seq<Job>, x: string): nat {
    if workers == [] then 0 else InHand(workers[..|workers| - 1], x) + Holds(workers[|workers| - 1], x)
  }

  lemma {:induction false} HeldUpdate(workers: seq<Job>, k: nat, j: Job, x: string)
    requires k < |workers|
    ensures InHand(workers[k := j], x) + Holds(workers[k], x) == InHand(workers, x) + Holds(j, x)
  {
    var last := |workers| - 1;
    var after := workers[k := j];
    if k == last {
      assert after[..last] == workers[..last] && after[last] == j;
    } else {
      assert after[..last] == workers[..last][k := j] && after[last] == workers[last];
      HeldUpdate(workers[..last], k, j, x);
    }
  }

  lemma {:induction false} NoneHeld(workers: seq<Job>, x: string)
    requires forall k :: 0 <= k < |workers| ==> workers[k].Idle?
    ensures InHand(workers, x) == 0
  {
    if workers != [] { NoneHeld(workers[..|workers| - 1], x); }
  }

  /** Every time `x` was let past the guard it was handed on, dropped, lost in a crash, or is in a worker's hands. */
  ghost predicate Balanced(w: World, x: string) {
    w.claims[x] + w.blind[x] == w.queued[x] + w.dropped[x] + w.crashed[x] + InHand(w.workers, x)
  }

  ghost predicate Conserved(w: World) { forall x :: Balanced(w, x) }

  /** A message is claimed once, and once more per claim that lapsed. */
  ghost predicate ClaimedOnce(w: World) {
    forall x :: w.claims[x] == w.expired[x] + (if x in w.claimed then 1 else 0)
  }

  /** Worker `k` moved, and what it let past or held before is what it settled or holds now. */
  ghost predicate Shifts(w: World, t: World, k: nat, x: string) {
    && OneMoved(w, t, k)
    && t.claims[x] + t.blind[x] + w.queued[x] + w.dropped[x] + w.crashed[x] + Holds(w.workers[k], x)
       == w.claims[x] + w.blind[x] + t.queued[x] + t.dropped[x] + t.crashed[x] + Holds(t.workers[k], x)
  }

  lemma ShiftBalances(w: World, t: World, k: nat, x: string)
    requires Shifts(w, t, k, x) && Balanced(w, x)
    ensures Balanced(t, x)
  {
    HeldUpdate(w.workers, k, t.workers[k], x);
  }

  /** A message let past by a claim, or without one, is in its worker's hands. */
  lemma LetPast(w: World, k: nat, next: Job, id: string, x: string)
    requires k < |w.workers| && Ready(w.workers[k]) && next.Walking? && !next.hold.Nothing? && next.hold.id == id
    ensures Shifts(w, Put(w.(claimed := w.claimed + {id}, claims := w.claims + multiset{id}), k, next), k, x)
    ensures Shifts(w, Put(w.(blind := w.blind + multiset{id}), k, next), k, x)
  {
    OneMoreOf(w.claims, id, x);
    OneMoreOf(w.blind, id, x);
  }

  lemma GuardShifts(w: World, s: Step, sent: string -> bool, x: string)
    requires s.Guard? && Enabled(w, s)
    ensures Shifts(w, Next(w, s, sent), s.k, x)
  {
    var j := w.workers[s.k];
    var id := j.batch[j.at];
    if (s.keep || j.catchesUp) && !s.own && id !in w.claimed {
      LetPast(w, s.k, j.(at := j.at + 1, hold := Guarded(id)), id, x);
    }
  }

  lemma GuardDownShifts(w: World, s: Step, sent: string -> bool, x: string)
    requires s.GuardDown? && Enabled(w, s)
    ensures Shifts(w, Next(w, s, sent), s.k, x)
  {
    var j := w.workers[s.k];
    var id := j.batch[j.at];
    if j.catchesUp || (s.keep && !sent(id)) { LetPast(w, s.k, j.(at := j.at + 1, hold := Unguarded(id)), id, x); }
  }

  lemma OneMoreOf(m: multiset<string>, id: string, x: string)
    ensures (m + multiset{id})[x] == m[x] + if x == id then 1 else 0
  {
  }

  lemma SettleShifts(w: World, s: Step, sent: string -> bool, x: string)
    requires (s.Hand? || s.Fail? || s.Crash?) && Enabled(w, s)
    ensures Shifts(w, Next(w, s, sent), s.k, x)
  {
    HeldHolds(w.workers[s.k], x);
  }

  lemma MoveShifts(w: World, s: Step, sent: string -> bool, x: string)
    requires (s.Start? || s.List? || s.Reset? || s.Finish?) && Enabled(w, s)
    ensures Shifts(w, Next(w, s, sent), s.k, x)
  {
  }

  lemma OtherShifts(w: World, s: Step, sent: string -> bool, x: string)
    requires !s.Arrive? && !s.Expire? && !s.Guard? && !s.GuardDown? && Enabled(w, s)
    ensures Shifts(w, Next(w, s, sent), s.k, x)
  {
    if s.Hand? || s.Fail? || s.Crash? {
      SettleShifts(w, s, sent, x);
    } else {
      MoveShifts(w, s, sent, x);
    }
  }

  lemma BalancedStep(w: World, s: Step, sent: string -> bool, x: string)
    requires Enabled(w, s) && Balanced(w, x)
    ensures Balanced(Next(w, s, sent), x)
  {
    if s.Guard? {
      GuardShifts(w, s, sent, x);
    } else if s.GuardDown? {
      GuardDownShifts(w, s, sent, x);
    } else if !s.Arrive? && !s.Expire? {
      OtherShifts(w, s, sent, x);
    }
    if !s.Arrive? && !s.Expire? { ShiftBalances(w, Next(w, s, sent), s.k, x); }
  }

  lemma ConservedStep(w: World, s: Step, sent: string -> bool)
    requires Enabled(w, s) && Conserved(w)
    ensures Conserved(Next(w, s, sent))
  {
    forall x ensures Balanced(Next(w, s, sent), x) { BalancedStep(w, s, sent, x); }
  }

  lemma ClaimedStep(w: World, s: Step, sent: string -> bool)
    requires Enabled(w, s) && ClaimedOnce(w)
    ensures ClaimedOnce(Next(w, s, sent))
  {
    var t := Next(w, s, sent);
    forall x ensures t.claims[x] == t.expired[x] + (if x in t.claimed then 1 else 0) {
      ClaimedAt(w, s, sent, x);
    }
  }

  lemma ClaimedAt(w: World, s: Step, sent: string -> bool, x: string)
    requires Enabled(w, s) && w.claims[x] == w.expired[x] + (if x in w.claimed then 1 else 0)
    ensures var t := Next(w, s, sent); t.claims[x] == t.expired[x] + (if x in t.claimed then 1 else 0)
  {
  }

  ghost predicate HandedOnce(w: World) {
    forall x :: w.queued[x] <= 1 + w.expired[x] + w.blind[x]
  }

  lemma BalanceHandsOnce(w: World)
    requires Conserved(w) && ClaimedOnce(w)
    ensures HandedOnce(w)
  {
    forall x ensures w.queued[x] <= 1 + w.expired[x] + w.blind[x] { assert Balanced(w, x); }
  }

  /** However polls overlap, replay, crash or lose Redis, a message is handed on at most once, plus once
      per lapsed claim and per time it was let through unguarded. */
  lemma {:induction false} AtMostOnce(w: World, steps: seq<Step>, sent: string -> bool)
    requires Conserved(w) && ClaimedOnce(w) && RunOk(w, steps, sent)
    ensures HandedOnce(Run(w, steps, sent))
    decreases |steps|
  {
    if steps == [] {
      BalanceHandsOnce(w);
    } else {
      ConservedStep(w, steps[0], sent);
      ClaimedStep(w, steps[0], sent);
      AtMostOnce(Next(w, steps[0], sent), steps[1..], sent);
    }
  }

  // ----- who is let past ----------------------------------------------------

  /** Worker `k` looks at `x`. */
  predicate LooksAt(w: World, k: nat, x: string) {
    k < |w.workers| && Ready(w.workers[k]) && w.workers[k].batch[w.workers[k].at] == x
  }

  /** A step claims `x` exactly when a guard looks at it that reaches Redis, finds it neither ours nor claimed, and
      is to keep it or knows no labels. */
  lemma ClaimsExactly(w: World, s: Step, sent: string -> bool, x: string)
    requires Enabled(w, s)
    ensures Next(w, s, sent).claims[x] != w.claims[x]
            <==> s.Guard? && LooksAt(w, s.k, x) && (s.keep || w.workers[s.k].catchesUp) && !s.own && x !in w.claimed
    ensures Next(w, s, sent).claims[x] >= w.claims[x]
  {
    if s.Guard? { GuardClaims(w, s, sent, x); }
  }

  lemma GuardClaims(w: World, s: Step, sent: string -> bool, x: string)
    requires s.Guard? && Enabled(w, s)
    ensures var id := w.workers[s.k].batch[w.workers[s.k].at];
            Next(w, s, sent).claims
            == w.claims + if (s.keep || w.workers[s.k].catchesUp) && !s.own && id !in w.claimed then multiset{id}
                          else multiset{}
  {
    assert w.claims + multiset{} == w.claims;
  }

  /** And lets it past unclaimed exactly when Redis is down for the guard, and it is to keep it and sees no command,
      or knows no labels. */
  lemma BlindExactly(w: World, s: Step, sent: string -> bool, x: string)
    requires Enabled(w, s)
    ensures Next(w, s, sent).blind[x] != w.blind[x]
            <==> s.GuardDown? && LooksAt(w, s.k, x) && ((s.keep && !sent(x)) || w.workers[s.k].catchesUp)
    ensures Next(w, s, sent).blind[x] >= w.blind[x]
  {
  }

  /** What a guard that does not let `x` past records. */
  lemma TurnsAwayExactly(w: World, s: Step, sent: string -> bool, x: string)
    requires Enabled(w, s)
    ensures var t := Next(w, s, sent);
            && (x in t.filtered <==>
                  || x in w.filtered
                  || (s.Guard? && LooksAt(w, s.k, x) && !s.keep && !w.workers[s.k].catchesUp)
                  || (s.GuardDown? && LooksAt(w, s.k, x) && !s.keep && !w.workers[s.k].catchesUp))
            && (x in t.ours <==>
                  x in w.ours || (s.Guard? && LooksAt(w, s.k, x) && s.own && (s.keep || w.workers[s.k].catchesUp)))
            && (x in t.refused <==>
                  || x in w.refused
                  || (s.GuardDown? && LooksAt(w, s.k, x) && s.keep && sent(x) && !w.workers[s.k].catchesUp))
  {
  }

  /** Whenever a guard looks at `x` its labels say not to keep it and it is no catch-up's, or it is known as ours. */
  ghost predicate Withheld(w: World, steps: seq<Step>, sent: string -> bool, x: string)
    requires RunOk(w, steps, sent)
    decreases |steps|
  {
    steps == [] || (
      && (steps[0].Guard? && LooksAt(w, steps[0].k, x) ==>
            steps[0].own || (!steps[0].keep && !w.workers[steps[0].k].catchesUp))
      && (steps[0].GuardDown? && LooksAt(w, steps[0].k, x) ==>
            !steps[0].keep && !w.workers[steps[0].k].catchesUp)
      && Withheld(Next(w, steps[0], sent), steps[1..], sent, x))
  }

  /** Such mail, trash and drafts and what we sent ourselves, is never claimed, let past or handed on. */
  lemma {:induction false} WithheldNeverPasses(w: World, steps: seq<Step>, sent: string -> bool, x: string)
    requires RunOk(w, steps, sent) && Withheld(w, steps, sent, x) && Balanced(w, x) && InHand(w.workers, x) == 0
    ensures var t := Run(w, steps, sent);
            && t.claims[x] == w.claims[x] && t.blind[x] == w.blind[x] && t.queued[x] == w.queued[x]
            && InHand(t.workers, x) == 0
    decreases |steps|
  {
    if steps != [] {
      var t := Next(w, steps[0], sent);
      ClaimsExactly(w, steps[0], sent, x);
      BlindExactly(w, steps[0], sent, x);
      BalancedStep(w, steps[0], sent, x);
      OnlyMore(w, steps[0], sent, x);
      WithheldNeverPasses(t, steps[1..], sent, x);
    }
  }

  /** What a worker holds is handed on, dropped when it cannot be read, or lost with it; nothing else is. */
  lemma FatesExactly(w: World, s: Step, sent: string -> bool, x: string)
    requires Enabled(w, s)
    ensures var t := Next(w, s, sent);
            && t.queued[x] == w.queued[x] + (if s.Hand? then Holds(w.workers[s.k], x) else 0)
            && t.dropped[x] == w.dropped[x] + (if s.Fail? then Holds(w.workers[s.k], x) else 0)
            && t.crashed[x] == w.crashed[x] + (if s.Crash? then Holds(w.workers[s.k], x) else 0)
  {
  }

  /** No fate is ever taken back. */
  lemma OnlyMore(w: World, s: Step, sent: string -> bool, x: string)
    requires Enabled(w, s)
    ensures var t := Next(w, s, sent);
            t.queued[x] >= w.queued[x] && t.dropped[x] >= w.dropped[x] && t.crashed[x] >= w.crashed[x]
  {
    FatesExactly(w, s, sent, x);
  }

  // ----- nothing vanishes ---------------------------------------------------

  /** Some guard has decided about `x`, or the poll that passed it never saw it. */
  predicate Settled(w: World, x: string) {
    x in w.claims || x in w.blind || x in w.filtered || x in w.ours || x in w.refused || x in w.cut
  }

  /** What a walking worker has still to settle before it may advance. */
  ghost predicate JobKept(w: World, j: Job) {
    && (j.Started? ==> j.cursor <= |w.log|)
    && (j.Walking? ==>
          && j.at <= |j.batch| && j.cursor <= j.next <= |w.log|
          && forall i :: 0 <= i < j.at ==> Settled(w, j.batch[i]))
  }

  /** In the part of a catch-up's batch that it has not come to yet. */
  predicate Waiting(w: World, x: string) { exists k :: 0 <= k < |w.workers| && x in Unread(w.workers[k]) }

  /** Decided about, waiting in a catch-up, or left behind by one that crashed. */
  predicate Covered(w: World, x: string) { Settled(w, x) || Waiting(w, x) || x in w.abandoned }

  ghost predicate Kept(w: World) {
    && w.cursor <= |w.log|
    && (forall p :: 0 <= p < w.cursor ==> Covered(w, w.log[p]))
    && (forall k :: 0 <= k < |w.workers| ==> JobKept(w, w.workers[k]))
  }

  /** A step only adds to what is settled and to the log. */
  lemma Grows(w: World, s: Step, sent: string -> bool)
    requires Enabled(w, s)
    ensures var t := Next(w, s, sent); w.log <= t.log && forall x :: Settled(w, x) ==> Settled(t, x)
  {
    var t := Next(w, s, sent);
    forall x | Settled(w, x) ensures Settled(t, x) { SettledStays(w, s, sent, x); }
  }

  lemma SettledStays(w: World, s: Step, sent: string -> bool, x: string)
    requires Enabled(w, s) && Settled(w, x)
    ensures Settled(Next(w, s, sent), x)
  {
  }

  /** Only the worker that steps changes. */
  predicate OneMoved(w: World, t: World, k: nat) {
    k < |w.workers| && k < |t.workers| && t.workers == w.workers[k := t.workers[k]]
  }

  lemma OthersStay(w: World, s: Step, sent: string -> bool)
    requires Enabled(w, s)
    ensures if s.Arrive? || s.Expire? then Next(w, s, sent).workers == w.workers else OneMoved(w, Next(w, s, sent), s.k)
  {
    match s {
      case Guard(_, _, _) => GuardShifts(w, s, sent, "");
      case GuardDown(_, _) => GuardDownShifts(w, s, sent, "");
      case Arrive(_) =>
      case Expire(_) =>
      case _ => OtherShifts(w, s, sent, "");
    }
  }

  lemma JobGrows(w: World, t: World, j: Job)
    requires w.log <= t.log && (forall x :: Settled(w, x) ==> Settled(t, x)) && JobKept(w, j)
    ensures JobKept(t, j)
  {
  }

  /** The worker that moved keeps its own promise. */
  lemma MovedKept(w: World, s: Step, sent: string -> bool)
    requires Enabled(w, s) && Kept(w) && ClaimedOnce(w) && !s.Arrive? && !s.Expire?
    ensures JobKept(Next(w, s, sent), Next(w, s, sent).workers[s.k])
  {
    Grows(w, s, sent);
    assert JobKept(w, w.workers[s.k]);
    if s.Guard? || s.GuardDown? { GuardKept(w, s, sent); }
  }

  lemma GuardKept(w: World, s: Step, sent: string -> bool)
    requires Enabled(w, s) && (s.Guard? || s.GuardDown?) && JobKept(w, w.workers[s.k]) && ClaimedOnce(w)
    ensures JobKept(Next(w, s, sent), Next(w, s, sent).workers[s.k])
  {
    var t, j := Next(w, s, sent), w.workers[s.k];
    Grows(w, s, sent);
    JobGrows(w, t, j);
    GuardSettles(w, s, sent);
    NextJobKept(t, j, t.workers[s.k]);
  }

  /** A guard settles the message it looks at and steps past it. */
  lemma GuardSettles(w: World, s: Step, sent: string -> bool)
    requires Enabled(w, s) && (s.Guard? || s.GuardDown?) && ClaimedOnce(w)
    ensures var t, j := Next(w, s, sent), w.workers[s.k];
            Settled(t, j.batch[j.at]) && Passed(j, t.workers[s.k])
  {
    var j := w.workers[s.k];
    var id := j.batch[j.at];
    assert id in w.claimed ==> id in w.claims;
    if s.Guard? {
      GuardTakes(w, s, sent, id);
    } else {
      GuardDownTakes(w, s, sent, id);
    }
  }

  predicate Passed(j: Job, next: Job) {
    j.Walking? && next.Walking? && next == j.(at := j.at + 1, hold := next.hold)
  }

  lemma GuardTakes(w: World, s: Step, sent: string -> bool, id: string)
    requires s.Guard? && Enabled(w, s) && id == w.workers[s.k].batch[w.workers[s.k].at]
    requires id in w.claimed ==> id in w.claims
    ensures var t := Next(w, s, sent); Settled(t, id) && Passed(w.workers[s.k], t.workers[s.k])
  {
  }

  lemma GuardDownTakes(w: World, s: Step, sent: string -> bool, id: string)
    requires s.GuardDown? && Enabled(w, s) && id == w.workers[s.k].batch[w.workers[s.k].at]
    ensures var t := Next(w, s, sent); Settled(t, id) && Passed(w.workers[s.k], t.workers[s.k])
  {
  }

  lemma NextJobKept(t: World, j: Job, next: Job)
    requires JobKept(t, j) && Ready(j) && Settled(t, j.batch[j.at])
    requires Passed(j, next)
    ensures JobKept(t, next)
  {
  }

  /** What covered a message still does: a catch-up that passes it settles it, one that crashes leaves it behind. */
  lemma CoveredStays(w: World, s: Step, sent: string -> bool, x: string)
    requires Enabled(w, s) && Covered(w, x) && ClaimedOnce(w)
    ensures Covered(Next(w, s, sent), x)
  {
    var t := Next(w, s, sent);
    if Settled(w, x) {
      SettledStays(w, s, sent, x);
    } else if x in w.abandoned {
      AbandonedStays(w, s, sent, x);
    } else {
      var k :| 0 <= k < |w.workers| && x in Unread(w.workers[k]);
      OthersStay(w, s, sent);
      if s.Arrive? || s.Expire? || k != s.k {
        assert t.workers[k] == w.workers[k];
      } else if s.Guard? || s.GuardDown? {
        GuardSettles(w, s, sent);
        assert x == w.workers[k].batch[w.workers[k].at] || x in Unread(t.workers[k]);
      } else {
        UnreadStays(w, s, sent, x);
      }
    }
  }

  lemma AbandonedStays(w: World, s: Step, sent: string -> bool, x: string)
    requires Enabled(w, s) && x in w.abandoned
    ensures x in Next(w, s, sent).abandoned
  {
  }

  lemma UnreadStays(w: World, s: Step, sent: string -> bool, x: string)
    requires Enabled(w, s) && !s.Arrive? && !s.Expire? && !s.Guard? && !s.GuardDown? && x in Unread(w.workers[s.k])
    ensures var t := Next(w, s, sent); x in Unread(t.workers[s.k]) || x in t.abandoned
  {
  }

  lemma CursorKept(w: World, s: Step, sent: string -> bool)
    requires Enabled(w, s) && Kept(w) && ClaimedOnce(w)
    ensures var t := Next(w, s, sent); t.cursor <= |t.log| && forall p :: 0 <= p < t.cursor ==> Covered(t, t.log[p])
  {
    var t := Next(w, s, sent);
    Grows(w, s, sent);
    forall p | 0 <= p < t.cursor ensures Covered(t, t.log[p]) {
      if p < w.cursor {
        CoveredStays(w, s, sent, w.log[p]);
      } else if s.Finish? {
        assert w.log[p] in Window(w.log, w.workers[s.k].cursor, t.cursor);
        BatchSettled(w, w.workers[s.k], w.log[p]);
      } else {
        ResetCovers(w, s, sent, p);
      }
    }
  }

  /** What a reset passes is cut, or waits in its batch. */
  lemma ResetCovers(w: World, s: Step, sent: string -> bool, p: nat)
    requires Enabled(w, s) && !s.Finish? && w.cursor <= p < Next(w, s, sent).cursor && p < |w.log|
    ensures Covered(Next(w, s, sent), w.log[p])
  {
    var t := Next(w, s, sent);
    assert w.log[p] in Window(w.log, w.cursor, t.cursor);
    if w.log[p] in Recent(s.recent) { assert w.log[p] in Unread(t.workers[s.k]); }
  }

  lemma BatchSettled(w: World, j: Job, x: string)
    requires JobKept(w, j) && Done(j)
    ensures x in Elements(j.batch) ==> Settled(w, x)
  {
  }

  lemma KeptStep(w: World, s: Step, sent: string -> bool)
    requires Enabled(w, s) && Kept(w) && ClaimedOnce(w)
    ensures Kept(Next(w, s, sent))
  {
    var t := Next(w, s, sent);
    Grows(w, s, sent);
    OthersStay(w, s, sent);
    CursorKept(w, s, sent);
    forall k | 0 <= k < |t.workers| ensures JobKept(t, t.workers[k]) {
      if s.Arrive? || s.Expire? || k != s.k {
        JobGrows(w, t, w.workers[k]);
      } else {
        MovedKept(w, s, sent);
      }
    }
  }

  /** Where a message the cursor has passed can be: handed on, in a worker's hands, waiting in a catch-up, or gone
      for a named reason. */
  predicate Accounted(w: World, x: string) {
    || x in w.queued || InHand(w.workers, x) > 0 || Waiting(w, x)
    || x in w.dropped || x in w.crashed || x in w.abandoned
    || x in w.filtered || x in w.ours || x in w.refused || x in w.cut
  }

  lemma CoveredAccounted(w: World, x: string)
    requires Conserved(w) && Covered(w, x)
    ensures Accounted(w, x)
  {
    assert Balanced(w, x);
  }

  /** No message disappears silently, over any run of any number of workers. */
  lemma {:induction false} NothingVanishes(w: World, steps: seq<Step>, sent: string -> bool)
    requires Kept(w) && ClaimedOnce(w) && Conserved(w) && RunOk(w, steps, sent)
    ensures var t := Run(w, steps, sent);
            Kept(t) && ClaimedOnce(t) && Conserved(t) && forall p :: 0 <= p < t.cursor ==> Accounted(t, t.log[p])
    decreases |steps|
  {
    if steps == [] {
      forall p | 0 <= p < w.cursor ensures Accounted(w, w.log[p]) {
        CoveredAccounted(w, w.log[p]);
      }
    } else {
      KeptStep(w, steps[0], sent);
      ConservedStep(w, steps[0], sent);
      ClaimedStep(w, steps[0], sent);
      NothingVanishes(Next(w, steps[0], sent), steps[1..], sent);
    }
  }

  lemma FreshKept(n: nat)
    ensures Kept(Fresh(n)) && ClaimedOnce(Fresh(n)) && Conserved(Fresh(n))
  {
    forall x ensures InHand(Fresh(n).workers, x) == 0 { NoneHeld(Fresh(n).workers, x); }
  }

  /** Every guard let this message past, no poll cut it off, its reading did not fail, its claim did not lapse,
      and Redis was there. */
  predicate Expected(w: World, x: string) {
    && x !in w.filtered && x !in w.ours && x !in w.refused && x !in w.cut
    && x !in w.dropped && x !in w.expired && x !in w.blind
  }

  /** No guard has met it: it waits in a catch-up, or one crashed before it came to it. */
  predicate Unmet(w: World, x: string) { x !in w.claims && (Waiting(w, x) || x in w.abandoned) }

  /** Whatever befalls other mail: such a message, once behind the cursor, has been handed on exactly once or is
      in one worker's hands, if and only if no worker crashed with it and no catch-up has yet to meet it or
      crashed before it did. */
  lemma ExactlyOnce(n: nat, steps: seq<Step>, sent: string -> bool, p: nat)
    requires RunOk(Fresh(n), steps, sent)
    requires var t := Run(Fresh(n), steps, sent); p < t.cursor && p < |t.log| && Expected(t, t.log[p])
    ensures var t := Run(Fresh(n), steps, sent);
            p < |t.log| && var x := t.log[p];
            && (t.queued[x] + InHand(t.workers, x) == 1 <==> x !in t.crashed && !Unmet(t, x))
            && (t.queued[x] + InHand(t.workers, x) == 0 <==> x in t.crashed || Unmet(t, x))
  {
    FreshKept(n);
    NothingVanishes(Fresh(n), steps, sent);
    var t := Run(Fresh(n), steps, sent);
    var x := t.log[p];
    assert Covered(t, x);
    assert Balanced(t, x);
  }
}
