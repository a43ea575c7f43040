/** Where polling loses mail, and exactly when: what an advance cuts off, what a crash takes with it, and what
    passes unguarded while Redis is down. */
module Losses {
  import opened Wrappers
  import opened Gmail
  import opened Poll

  // ----- what an advance gives up -------------------------------------------

  lemma {:induction false} Few(s: seq<string>)
    ensures |Elements(s)| <= |s|
  {
    if s != [] {
      Few(s[1..]);
      assert Elements(s) == Elements(s[1..]) + {s[0]};
    }
  }

  lemma {:induction false} Subset(a: set<string>, b: set<string>)
    requires a <= b
    ensures |a| <= |b|
  {
    if x :| x in a { Subset(a - {x}, b - {x}); }
  }

  lemma {:induction false} DistinctCount(s: seq<string>)
    requires AllDistinct(s)
    ensures |Elements(s)| == |s|
  {
    if s != [] {
      DistinctCount(s[1..]);
      assert Elements(s) == Elements(s[1..]) + {s[0]};
      assert s[0] !in Elements(s[1..]);
    }
  }

  /** `x` stands in the history between two cursors. */
  ghost predicate Between(log: seq<string>, from: nat, to: nat, x: string) {
    exists p: nat :: from <= p < to && p < |log| && log[p] == x
  }

  /** The cursor moves only by a reset, or when an ordinary poll ends that finds it where it read it and has
      something later to move it to. */
  lemma CursorMovesExactly(w: World, s: Step, sent: string -> bool)
    requires Enabled(w, s)
    ensures var t := Next(w, s, sent);
            && (s.Reset? ==> t.cursor == s.to)
            && (s.Finish? ==>
                  var j := w.workers[s.k];
                  t.cursor == if !j.catchesUp && j.cursor == w.cursor && j.next > j.cursor then j.next else w.cursor)
            && (!s.Reset? && !s.Finish? ==> t.cursor == w.cursor)
  {
  }

  /** What is cut: the messages that a moving cursor passes and the batch that moves it left out. */
  lemma CutExactly(w: World, s: Step, sent: string -> bool, x: string)
    requires Enabled(w, s)
    ensures var t := Next(w, s, sent);
            x in t.cut <==>
              || x in w.cut
              || (s.Reset? && Between(w.log, w.cursor, s.to, x) && x !in Recent(s.recent))
              || (s.Finish? && t.cursor != w.cursor && Between(w.log, w.cursor, t.cursor, x)
                  && x !in w.workers[s.k].batch)
  {
    if s.Reset? {
      assert x in Window(w.log, w.cursor, s.to) <==> Between(w.log, w.cursor, s.to, x);
    } else if s.Finish? {
      AdvanceCuts(w, s.k, sent, x);
    }
  }

  /** What an advance gives up: exactly the messages of its window that its batch left out. */
  lemma AdvanceCuts(w: World, k: nat, sent: string -> bool, x: string)
    requires Enabled(w, Finish(k))
    ensures var t, j := Next(w, Finish(k), sent), w.workers[k];
            && (Advances(w, j) ==>
                  && t.cursor == j.next
                  && (x in t.cut <==> x in w.cut || (Between(w.log, j.cursor, j.next, x) && x !in j.batch)))
            && (!Advances(w, j) ==> t.cursor == w.cursor && t.cut == w.cut)
  {
    var j := w.workers[k];
    assert x in Window(w.log, j.cursor, j.next) <==> Between(w.log, j.cursor, j.next, x);
  }

  /** A poll that reads its history in full takes all of it on if and only if the history names no more than
      `MAX_MESSAGES_PER_POLL` messages; otherwise its advance gives the rest up for good. */
  lemma BatchCoversExactly(log: seq<string>, from: nat)
    requires from <= |log| && "" !in log
    ensures Window(log, from, |log|) <= Elements(Batch(log, from, |log|))
            <==> |Window(log, from, |log|)| <= MAX_MESSAGES_PER_POLL
  {
    var window, all := Window(log, from, |log|), Dedupe(log[from..]);
    DedupeExact(log[from..]);
    assert log[from..|log|] == log[from..];
    DistinctCount(all);
    assert window == Elements(all);
    var batch := Batch(log, from, |log|);
    if |all| <= MAX_MESSAGES_PER_POLL {
      assert batch == all;
    } else {
      assert batch == all[..MAX_MESSAGES_PER_POLL];
      Few(batch);
      if window <= Elements(batch) { Subset(window, Elements(batch)); }
    }
  }

  lemma One(w: World, s: Step, rest: seq<Step>, sent: string -> bool)
    requires Enabled(w, s) && RunOk(Next(w, s, sent), rest, sent)
    ensures RunOk(w, [s] + rest, sent) && Run(w, [s] + rest, sent) == Run(Next(w, s, sent), rest, sent)
  {
    assert ([s] + rest)[1..] == rest;
  }

  lemma {:induction false} RunAll(w: World, xs: seq<Step>, ys: seq<Step>, all: seq<Step>, sent: string -> bool)
    requires RunOk(w, xs, sent) && RunOk(Run(w, xs, sent), ys, sent)
    requires |all| == |xs| + |ys| && all[..|xs|] == xs && all[|xs|..] == ys
    ensures RunOk(w, all, sent) && Run(w, all, sent) == Run(Run(w, xs, sent), ys, sent)
    decreases |xs|
  {
    if xs == [] {
      assert all == ys;
    } else {
      var rest := all[1..];
      assert all[0] == all[..|xs|][0] && rest[..|xs| - 1] == all[..|xs|][1..] && rest[|xs| - 1..] == all[|xs|..];
      RunAll(Next(w, xs[0], sent), xs[1..], ys, rest, sent);
    }
  }

  lemma RunConcat(w: World, xs: seq<Step>, ys: seq<Step>, sent: string -> bool)
    requires RunOk(w, xs, sent) && RunOk(Run(w, xs, sent), ys, sent)
    ensures RunOk(w, xs + ys, sent) && Run(w, xs + ys, sent) == Run(Run(w, xs, sent), ys, sent)
  {
    RunAll(w, xs, ys, xs + ys, sent);
  }

  // ----- what a crash costs -------------------------------------------------

  /** Throughout the run `x`'s claim does not lapse, and no poll meets `x` with Redis down. */
  ghost predicate StaysClaimed(w: World, steps: seq<Step>, sent: string -> bool, x: string)
    requires RunOk(w, steps, sent)
    decreases |steps|
  {
    steps == [] || (
      && steps[0] != Expire(x)
      && (steps[0].GuardDown? ==> w.workers[steps[0].k].batch[w.workers[steps[0].k].at] != x)
      && StaysClaimed(Next(w, steps[0], sent), steps[1..], sent, x))
  }

  /** A claimed message in nobody's hands. */
  predicate Stranded(w: World, x: string) { x in w.claimed && InHand(w.workers, x) == 0 }

  lemma {:induction false} HandsEmpty(workers: seq<Job>, x: string, k: nat)
    requires InHand(workers, x) == 0 && k < |workers|
    ensures Holds(workers[k], x) == 0
  {
    if k < |workers| - 1 { HandsEmpty(workers[..|workers| - 1], x, k); }
  }

  lemma StrandedStep(w: World, s: Step, sent: string -> bool, x: string)
    requires Enabled(w, s) && Stranded(w, x) && s != Expire(x)
    requires s.GuardDown? ==> w.workers[s.k].batch[w.workers[s.k].at] != x
    ensures var t := Next(w, s, sent); Stranded(t, x) && t.queued[x] == w.queued[x]
  {
    var t := Next(w, s, sent);
    if !s.Arrive? && !s.Expire? {
      OthersStay(w, s, sent);
      HandsEmpty(w.workers, x, s.k);
      HeldUpdate(w.workers, s.k, t.workers[s.k], x);
      TakesNothing(w, s, sent, x);
    }
  }

  /** A worker that does not hold the claimed `x` neither hands it on nor takes it up. */
  lemma TakesNothing(w: World, s: Step, sent: string -> bool, x: string)
    requires Enabled(w, s) && !s.Arrive? && !s.Expire? && x in w.claimed && Holds(w.workers[s.k], x) == 0
    requires s.GuardDown? ==> w.workers[s.k].batch[w.workers[s.k].at] != x
    ensures var t := Next(w, s, sent);
            Holds(t.workers[s.k], x) == 0 && x in t.claimed && t.queued[x] == w.queued[x]
  {
    if s.Hand? {
      OneMoreOf(w.queued, w.workers[s.k].hold.id, x);
    } else if s.Guard? {
      GuardPasses(w, s, sent, x);
    } else if s.GuardDown? {
      GuardDownPasses(w, s, sent, x);
    } else {
      KeepsHands(w, s, sent, x);
    }
  }

  lemma GuardPasses(w: World, s: Step, sent: string -> bool, x: string)
    requires s.Guard? && Enabled(w, s) && x in w.claimed
    ensures var t := Next(w, s, sent); Holds(t.workers[s.k], x) == 0 && x in t.claimed && t.queued == w.queued
  {
  }

  lemma GuardDownPasses(w: World, s: Step, sent: string -> bool, x: string)
    requires s.GuardDown? && Enabled(w, s) && x in w.claimed && w.workers[s.k].batch[w.workers[s.k].at] != x
    ensures var t := Next(w, s, sent); Holds(t.workers[s.k], x) == 0 && x in t.claimed && t.queued == w.queued
  {
  }

  lemma KeepsHands(w: World, s: Step, sent: string -> bool, x: string)
    requires Enabled(w, s) && !s.Arrive? && !s.Expire? && !s.Guard? && !s.GuardDown? && !s.Hand?
    requires x in w.claimed && Holds(w.workers[s.k], x) == 0
    ensures var t := Next(w, s, sent); Holds(t.workers[s.k], x) == 0 && x in t.claimed && t.queued == w.queued
  {
  }

  /** Once stranded, a message is never handed on while its claim lasts. */
  lemma {:induction false} StrandedForGood(w: World, steps: seq<Step>, sent: string -> bool, x: string)
    requires RunOk(w, steps, sent) && Stranded(w, x) && StaysClaimed(w, steps, sent, x)
    ensures var t := Run(w, steps, sent); Stranded(t, x) && t.queued[x] == w.queued[x]
    decreases |steps|
  {
    if steps != [] {
      StrandedStep(w, steps[0], sent, x);
      StrandedForGood(Next(w, steps[0], sent), steps[1..], sent, x);
    }
  }

  /** No run hands `x` on while its claim lasts. */
  ghost predicate LostFor(w: World, sent: string -> bool, x: string) {
    forall steps :: RunOk(w, steps, sent) && StaysClaimed(w, steps, sent, x) ==>
      Run(w, steps, sent).queued[x] == w.queued[x]
  }

  /** Some worker has a message that is not in nobody's hands. */
  lemma {:induction false} Holder(workers: seq<Job>, x: string) returns (k: nat)
    requires InHand(workers, x) > 0
    ensures k < |workers| && Holds(workers[k], x) == 1
  {
    k := |workers| - 1;
    if Holds(workers[k], x) == 0 { k := Holder(workers[..k], x); }
  }

  /** A message that is claimed and undecided: no claim of it lapsed, no poll met it without Redis, and it was
      not handed on, dropped or crashed with yet. */
  predicate Undecided(w: World, x: string) {
    x in w.claimed && x !in w.expired && x !in w.blind && x !in w.queued && x !in w.dropped && x !in w.crashed
  }

  /** The exact cost of a crash, judged at the crash itself: a claimed, undecided message is lost for as long as
      its claim lasts if and only if it is the crashing worker that holds it. Any other is still in another
      worker's hands. */
  lemma CrashLosesExactly(w: World, k: nat, sent: string -> bool, x: string)
    requires k < |w.workers| && Conserved(w) && ClaimedOnce(w) && Undecided(w, x)
    ensures LostFor(Next(w, Crash(k), sent), sent, x) <==> Holds(w.workers[k], x) == 1
  {
    var t := Next(w, Crash(k), sent);
    assert Balanced(w, x) && InHand(w.workers, x) == 1;
    HeldUpdate(w.workers, k, Idle, x);
    HeldHolds(w.workers[k], x);
    if Holds(w.workers[k], x) == 1 {
      forall steps | RunOk(t, steps, sent) && StaysClaimed(t, steps, sent, x)
        ensures Run(t, steps, sent).queued[x] == t.queued[x]
      {
        StrandedForGood(t, steps, sent, x);
      }
    } else {
      var j := Holder(t.workers, x);
      One(t, Hand(j), [], sent);
      var steps := [Hand(j)] + [];
      assert steps[1..] == [] && StaysClaimed(Next(t, Hand(j), sent), [], sent, x);
      assert StaysClaimed(t, steps, sent, x);
      assert Run(t, steps, sent).queued[x] == t.queued[x] + 1;
    }
  }

  /** A crash changes nothing but that its worker starts over, if and only if the worker has empty hands and
      leaves nothing of a catch-up that was not left behind before. */
  lemma CrashFreeExactly(w: World, k: nat, sent: string -> bool)
    requires k < |w.workers|
    ensures Next(w, Crash(k), sent) == w.(workers := w.workers[k := Idle])
            <==> Held(w.workers[k]) == multiset{} && Unread(w.workers[k]) <= w.abandoned
  {
    var held := Held(w.workers[k]);
    assert w.crashed + multiset{} == w.crashed;
    if held != multiset{} { assert (w.crashed + held)[w.workers[k].hold.id] > w.crashed[w.workers[k].hold.id]; }
  }

  // ----- mail that no one meets any more ------------------------------------

  /** What a poll started at `from` would take on, however far it reads. */
  function Ahead(log: seq<string>, from: nat): set<string> {
    if from <= |log| then Elements(Batch(log, from, |log|)) else {}
  }

  /** What a worker is yet to come to. */
  function Sight(log: seq<string>, j: Job): set<string> {
    match j
    case Idle => {}
    case Started(cursor) => Ahead(log, cursor)
    case Walking(_, batch, at, _, _, _) => if at <= |batch| then Elements(batch[at..]) else {}
  }

  /** `x` arrives again, or a reset lists it or puts the cursor before it. */
  predicate Brings(w: World, s: Step, x: string) {
    || s == Arrive(x)
    || (s.Reset? && (x in Recent(s.recent) || x in Window(w.log, s.to, |w.log|)))
  }

  ghost predicate Unaided(w: World, steps: seq<Step>, sent: string -> bool, x: string)
    requires RunOk(w, steps, sent)
    decreases |steps|
  {
    steps == [] || (!Brings(w, steps[0], x) && Unaided(Next(w, steps[0], sent), steps[1..], sent, x))
  }

  /** Unless something brings `x` again, no run hands it on. */
  ghost predicate Forgotten(w: World, sent: string -> bool, x: string) {
    forall steps :: RunOk(w, steps, sent) && Unaided(w, steps, sent, x) ==>
      Run(w, steps, sent).queued[x] == w.queued[x]
  }

  predicate InSight(w: World, x: string) { exists k :: 0 <= k < |w.workers| && x in Sight(w.log, w.workers[k]) }

  /** Behind the cursor and in nobody's hands or sight. */
  predicate Unseen(w: World, x: string) {
    InHand(w.workers, x) == 0 && x !in Window(w.log, w.cursor, |w.log|) && !InSight(w, x)
  }

  /** A batch of more history begins with that of less. */
  lemma BatchWithin(log: seq<string>, from: nat, upTo: nat)
    requires from <= upTo <= |log|
    ensures Elements(Batch(log, from, upTo)) <= Ahead(log, from)
  {
    assert log[from..|log|] == log[from..upTo] + log[upTo..];
    DedupeGrows(log[from..upTo], log[upTo..]);
    PrefixWithin(Dedupe(log[from..upTo]), Dedupe(log[from..|log|]), MAX_MESSAGES_PER_POLL);
  }

  lemma PrefixWithin(s: seq<string>, t: seq<string>, n: nat)
    requires s <= t
    ensures forall x :: x in Prefix(s, n) ==> x in Prefix(t, n)
  {
    forall x | x in Prefix(s, n) ensures x in Prefix(t, n) {
      var i :| 0 <= i < |Prefix(s, n)| && Prefix(s, n)[i] == x;
      assert Prefix(t, n)[i] == x;
    }
  }

  /** Nothing but what arrives comes into the sight of a poll that is about to read. */
  lemma AheadArrive(log: seq<string>, id: string, from: nat)
    ensures Ahead(log + [id], from) <= Ahead(log, from) + {id}
  {
    if from <= |log| {
      var less, more := Dedupe(log[from..]), Dedupe((log + [id])[from..]);
      assert (log + [id])[from..] == log[from..] + [id];
      assert (log[from..] + [id])[..|log[from..]|] == log[from..];
      assert log[from..|log|] == log[from..] && (log + [id])[from..|log + [id]|] == (log + [id])[from..];
      assert more == less || more == less + [id];
    } else if from == |log| + 1 {
      assert (log + [id])[from..|log + [id]|] == [];
    }
  }

  lemma AheadInWindow(log: seq<string>, from: nat)
    requires from <= |log|
    ensures Ahead(log, from) <= Window(log, from, |log|)
  {
    DedupeExact(log[from..|log|]);
    forall x | x in Batch(log, from, |log|) ensures x in Window(log, from, |log|) {
      assert x in Dedupe(log[from..|log|]);
      var i :| 0 <= i < |log| - from && log[from..|log|][i] == x;
      assert log[from + i] == x;
    }
  }

  /** A worker that does not see `x` comes to see it only if a step brings it. */
  lemma SightStays(w: World, s: Step, sent: string -> bool, x: string)
    requires Enabled(w, s) && !s.Arrive? && !s.Expire? && !Brings(w, s, x)
    requires w.cursor <= |w.log| && x !in Window(w.log, w.cursor, |w.log|) && x !in Sight(w.log, w.workers[s.k])
    ensures x !in Sight(w.log, Next(w, s, sent).workers[s.k])
  {
    if s.Start? {
      AheadInWindow(w.log, w.cursor);
    } else if s.List? {
      BatchWithin(w.log, w.workers[s.k].cursor, s.upTo);
    } else if s.Guard? {
      GuardSights(w, s, sent);
    } else if s.GuardDown? {
      GuardDownSights(w, s, sent);
    } else {
      RestSights(w, s, sent, x);
    }
  }

  lemma GuardSights(w: World, s: Step, sent: string -> bool)
    requires s.Guard? && Enabled(w, s)
    ensures Sight(w.log, Next(w, s, sent).workers[s.k]) <= Sight(w.log, w.workers[s.k])
  {
  }

  lemma GuardDownSights(w: World, s: Step, sent: string -> bool)
    requires s.GuardDown? && Enabled(w, s)
    ensures Sight(w.log, Next(w, s, sent).workers[s.k]) <= Sight(w.log, w.workers[s.k])
  {
  }

  lemma RestSights(w: World, s: Step, sent: string -> bool, x: string)
    requires (s.Reset? || s.Hand? || s.Fail? || s.Finish? || s.Crash?) && Enabled(w, s) && !Brings(w, s, x)
    requires x !in Sight(w.log, w.workers[s.k])
    ensures x !in Sight(w.log, Next(w, s, sent).workers[s.k])
  {
  }

  /** A worker that neither holds nor sees `x` does not come to hold it, nor hands it on. */
  lemma HandsStay(w: World, s: Step, sent: string -> bool, x: string)
    requires Enabled(w, s) && !s.Arrive? && !s.Expire?
    requires Holds(w.workers[s.k], x) == 0 && x !in Sight(w.log, w.workers[s.k])
    ensures var t := Next(w, s, sent); Holds(t.workers[s.k], x) == 0 && t.queued[x] == w.queued[x]
  {
    var j := w.workers[s.k];
    if s.Hand? {
      OneMoreOf(w.queued, j.hold.id, x);
    } else if s.Guard? {
      assert j.batch[j.at] in Elements(j.batch[j.at..]);
      GuardHolds(w, s, sent, x);
    } else if s.GuardDown? {
      assert j.batch[j.at] in Elements(j.batch[j.at..]);
      GuardDownHolds(w, s, sent, x);
    } else {
      RestHolds(w, s, sent, x);
    }
  }

  lemma GuardHolds(w: World, s: Step, sent: string -> bool, x: string)
    requires s.Guard? && Enabled(w, s) && w.workers[s.k].batch[w.workers[s.k].at] != x
    ensures var t := Next(w, s, sent); Holds(t.workers[s.k], x) == 0 && t.queued == w.queued
  {
  }

  lemma GuardDownHolds(w: World, s: Step, sent: string -> bool, x: string)
    requires s.GuardDown? && Enabled(w, s) && w.workers[s.k].batch[w.workers[s.k].at] != x
    ensures var t := Next(w, s, sent); Holds(t.workers[s.k], x) == 0 && t.queued == w.queued
  {
  }

  lemma RestHolds(w: World, s: Step, sent: string -> bool, x: string)
    requires Enabled(w, s) && !s.Arrive? && !s.Expire? && !s.Guard? && !s.GuardDown? && !s.Hand?
    requires Holds(w.workers[s.k], x) == 0
    ensures var t := Next(w, s, sent); Holds(t.workers[s.k], x) == 0 && t.queued == w.queued
  {
  }

  /** The log only grows by arrivals, and without one the cursor moves back only by a reset. */
  lemma BehindStays(w: World, s: Step, sent: string -> bool, x: string)
    requires Enabled(w, s) && !Brings(w, s, x) && w.cursor <= |w.log| && x !in Window(w.log, w.cursor, |w.log|)
    requires !s.Arrive? && !s.Expire? ==> JobKept(w, w.workers[s.k])
    ensures var t := Next(w, s, sent); t.cursor <= |t.log| && x !in Window(t.log, t.cursor, |t.log|)
  {
  }

  lemma UnseenStep(w: World, s: Step, sent: string -> bool, x: string)
    requires Enabled(w, s) && Kept(w) && Unseen(w, x) && !Brings(w, s, x)
    ensures var t := Next(w, s, sent); Unseen(t, x) && t.queued[x] == w.queued[x]
  {
    BehindStays(w, s, sent, x);
    if s.Arrive? {
      UnseenArrive(w, s.id, x);
    } else if !s.Expire? {
      UnseenMoves(w, s, sent, x);
    }
  }

  lemma UnseenArrive(w: World, id: string, x: string)
    requires !InSight(w, x) && id != x
    ensures !InSight(w.(log := w.log + [id]), x)
  {
    forall k | 0 <= k < |w.workers| ensures x !in Sight(w.log + [id], w.workers[k]) {
      if w.workers[k].Started? { AheadArrive(w.log, id, w.workers[k].cursor); }
    }
  }

  lemma UnseenMoves(w: World, s: Step, sent: string -> bool, x: string)
    requires Enabled(w, s) && !s.Arrive? && !s.Expire? && w.cursor <= |w.log| && Unseen(w, x) && !Brings(w, s, x)
    ensures var t := Next(w, s, sent);
            InHand(t.workers, x) == 0 && !InSight(t, x) && t.queued[x] == w.queued[x]
  {
    var t := Next(w, s, sent);
    OthersStay(w, s, sent);
    HandsEmpty(w.workers, x, s.k);
    HandsStay(w, s, sent, x);
    HeldUpdate(w.workers, s.k, t.workers[s.k], x);
    SightStays(w, s, sent, x);
    SameLog(w, s, sent);
  }

  lemma SameLog(w: World, s: Step, sent: string -> bool)
    requires Enabled(w, s) && !s.Arrive?
    ensures Next(w, s, sent).log == w.log
  {
  }

  lemma {:induction false} UnseenForGood(w: World, steps: seq<Step>, sent: string -> bool, x: string)
    requires RunOk(w, steps, sent) && Kept(w) && ClaimedOnce(w) && Unseen(w, x) && Unaided(w, steps, sent, x)
    ensures Run(w, steps, sent).queued[x] == w.queued[x]
    decreases |steps|
  {
    if steps != [] {
      UnseenStep(w, steps[0], sent, x);
      KeptStep(w, steps[0], sent);
      ClaimedStep(w, steps[0], sent);
      UnseenForGood(Next(w, steps[0], sent), steps[1..], sent, x);
    }
  }

  /** No guard has let `x` past, and it is behind the cursor. */
  ghost predicate Behind(w: World, x: string) {
    x !in w.claims && x !in w.blind && w.cursor <= |w.log| && x !in Window(w.log, w.cursor, |w.log|)
  }

  /** A run that hands `x` on and that nothing brings it to. */
  ghost predicate Delivers(w: World, steps: seq<Step>, sent: string -> bool, x: string) {
    RunOk(w, steps, sent) && Unaided(w, steps, sent, x) && Run(w, steps, sent).queued[x] > w.queued[x]
  }

  lemma Before(w: World, s: Step, rest: seq<Step>, sent: string -> bool, x: string)
    requires Enabled(w, s) && !Brings(w, s, x) && Delivers(Next(w, s, sent), rest, sent, x)
    requires Next(w, s, sent).queued[x] >= w.queued[x]
    ensures Delivers(w, [s] + rest, sent, x)
  {
    One(w, s, rest, sent);
    assert ([s] + rest)[1..] == rest;
  }

  /** Claimed, `x` can be handed on at once. */
  lemma DeliverHeld(w: World, k: nat, sent: string -> bool, x: string)
    requires k < |w.workers| && Holds(w.workers[k], x) == 1
    ensures Delivers(w, [Hand(k)] + [], sent, x)
  {
    var t := Next(w, Hand(k), sent);
    OneMoreOf(w.queued, x, x);
    One(w, Hand(k), [], sent);
    assert ([Hand(k)] + [])[1..] == [] && Unaided(t, [], sent, x);
  }

  /** A worker with empty hands that sees `x` in its batch can skip up to it, claim it and hand it on. */
  lemma {:induction false} DeliverSeen(w: World, k: nat, sent: string -> bool, x: string) returns (steps: seq<Step>)
    requires k < |w.workers| && Ready(w.workers[k]) && x !in w.claimed
    requires x in w.workers[k].batch[w.workers[k].at..]
    ensures Delivers(w, steps, sent, x)
    decreases if w.workers[k].Walking? then |w.workers[k].batch| - w.workers[k].at else 0
  {
    var j := w.workers[k];
    if j.batch[j.at] == x {
      var s := Guard(k, true, false);
      ClaimNext(w, k, sent, x);
      DeliverHeld(Next(w, s, sent), k, sent, x);
      Before(w, s, [Hand(k)] + [], sent, x);
      steps := [s] + ([Hand(k)] + []);
    } else {
      var s := Guard(k, true, true);
      SkipNext(w, k, sent);
      assert j.batch[j.at..] == [j.batch[j.at]] + j.batch[j.at + 1..];
      var rest := DeliverSeen(Next(w, s, sent), k, sent, x);
      Before(w, s, rest, sent, x);
      steps := [s] + rest;
    }
  }

  lemma ClaimNext(w: World, k: nat, sent: string -> bool, x: string)
    requires k < |w.workers| && Ready(w.workers[k]) && x !in w.claimed && w.workers[k].batch[w.workers[k].at] == x
    ensures var t := Next(w, Guard(k, true, false), sent);
            Holds(t.workers[k], x) == 1 && t.queued == w.queued
  {
  }

  lemma SkipNext(w: World, k: nat, sent: string -> bool)
    requires k < |w.workers| && Ready(w.workers[k])
    ensures var t, j := Next(w, Guard(k, true, true), sent), w.workers[k];
            t.workers[k] == j.(at := j.at + 1) && t.queued == w.queued && t.claimed == w.claimed
  {
  }

  /** Whoever sees `x` can still hand it on. */
  lemma DeliverInSight(w: World, k: nat, sent: string -> bool, x: string) returns (steps: seq<Step>)
    requires Kept(w) && k < |w.workers| && x in Sight(w.log, w.workers[k]) && x !in w.claimed
    ensures Delivers(w, steps, sent, x)
  {
    var j := w.workers[k];
    assert JobKept(w, j);
    if j.Started? {
      var s := List(k, |w.log|);
      var rest := DeliverSeen(Next(w, s, sent), k, sent, x);
      Before(w, s, rest, sent, x);
      steps := [s] + rest;
    } else if j.hold.Nothing? {
      steps := DeliverSeen(w, k, sent, x);
    } else {
      var s := Fail(k);
      var rest := DeliverSeen(Next(w, s, sent), k, sent, x);
      Before(w, s, rest, sent, x);
      steps := [s] + rest;
    }
  }

  lemma NeverHeld(w: World, x: string)
    requires Conserved(w) && ClaimedOnce(w) && x !in w.claims && x !in w.blind
    ensures InHand(w.workers, x) == 0 && x !in w.claimed
  {
    assert Balanced(w, x) && w.claims[x] == 0;
  }

  /** A message no guard has let past, behind the cursor, is never handed on again unless something brings it, if
      and only if no worker is yet to come to it. */
  lemma ForgottenExactly(w: World, sent: string -> bool, x: string)
    requires Kept(w) && Conserved(w) && ClaimedOnce(w) && Behind(w, x)
    ensures Forgotten(w, sent, x) <==> !InSight(w, x)
  {
    NeverHeld(w, x);
    if k :| 0 <= k < |w.workers| && x in Sight(w.log, w.workers[k]) {
      var steps := DeliverInSight(w, k, sent, x);
      assert Run(w, steps, sent).queued[x] != w.queued[x];
    } else {
      forall steps | RunOk(w, steps, sent) && Unaided(w, steps, sent, x)
        ensures Run(w, steps, sent).queued[x] == w.queued[x]
      {
        UnseenForGood(w, steps, sent, x);
      }
    }
  }

  /** The exact cost of a crash to mail no guard has decided about: behind the cursor it is lost, unless something
      brings it again, if and only if the crashing worker is a catch-up yet to come to it and no other worker is. */
  lemma CatchUpCrashLosesExactly(w: World, k: nat, sent: string -> bool, p: nat)
    requires k < |w.workers| && Kept(w) && Conserved(w) && ClaimedOnce(w)
    requires p < w.cursor && Behind(w, w.log[p]) && !Settled(w, w.log[p]) && w.log[p] !in w.abandoned
    ensures var x := w.log[p];
            Forgotten(Next(w, Crash(k), sent), sent, x)
            <==> x in Unread(w.workers[k])
                 && forall i :: 0 <= i < |w.workers| && i != k ==> x !in Sight(w.log, w.workers[i])
  {
    var t, x := Next(w, Crash(k), sent), w.log[p];
    KeptStep(w, Crash(k), sent);
    ConservedStep(w, Crash(k), sent);
    ClaimedStep(w, Crash(k), sent);
    ForgottenExactly(t, sent, x);
    assert Covered(w, x);
    var i :| 0 <= i < |w.workers| && x in Unread(w.workers[i]);
    assert x in Sight(w.log, w.workers[i]);
    forall i | 0 <= i < |w.workers| && i != k ensures t.workers[i] == w.workers[i] {}
    assert t.workers[k] == Idle && t.log == w.log;
  }

  /** Such a run from a fresh start: the catch-up moves the cursor past a message, takes it on, and crashes before
      its guard. */
  lemma CatchUpCrashLosesMail() returns (steps: seq<Step>, sent: string -> bool)
    ensures RunOk(Fresh(1), steps, sent)
    ensures var t := Run(Fresh(1), steps, sent);
            t.log == ["m"] && t.cursor == 1 && t.workers == [Idle] && t.queued == multiset{} && Forgotten(t, sent, "m")
  {
    sent := _ => false;
    var w := Next(Fresh(1), Arrive("m"), sent);
    var reset := CrashInCatchUp(w, "m", sent);
    One(Fresh(1), Arrive("m"), reset, sent);
    steps := [Arrive("m")] + reset;
    FreshKept(1);
    NothingVanishes(Fresh(1), steps, sent);
    ForgottenExactly(Run(Fresh(1), steps, sent), sent, "m");
  }

  /** A lone worker resets the cursor past a history of one message, takes it on, and crashes. */
  lemma CrashInCatchUp(w: World, id: string, sent: string -> bool) returns (steps: seq<Step>)
    requires w.workers == [Idle] && w.log == [id] && w.cursor == 0
    ensures RunOk(w, steps, sent)
    ensures var t := Run(w, steps, sent);
            && t.log == w.log && t.cursor == 1 && t.workers == w.workers && t.claims == w.claims && t.blind == w.blind
            && t.queued == w.queued
  {
    var x := Next(w, Start(0), sent);
    var y := Next(x, Reset(0, 1, [id]), sent);
    One(y, Crash(0), [], sent);
    One(x, Reset(0, 1, [id]), [Crash(0)] + [], sent);
    One(w, Start(0), [Reset(0, 1, [id])] + ([Crash(0)] + []), sent);
    steps := [Start(0)] + ([Reset(0, 1, [id])] + ([Crash(0)] + []));
  }

  // ----- commands without Redis ---------------------------------------------

  /** A guard lets a command past unclaimed exactly when Redis is down and the poll is catching up. */
  lemma UnguardedCommandExactly(w: World, s: Step, sent: string -> bool, x: string)
    requires Enabled(w, s) && sent(x)
    ensures Next(w, s, sent).blind[x] > w.blind[x]
            <==> s.GuardDown? && w.workers[s.k].catchesUp && w.workers[s.k].batch[w.workers[s.k].at] == x
  {
  }

  ghost predicate NoCatchUp(w: World) {
    forall k :: 0 <= k < |w.workers| && w.workers[k].Walking? ==> !w.workers[k].catchesUp
  }

  lemma NoCatchUpStep(w: World, s: Step, sent: string -> bool)
    requires Enabled(w, s) && NoCatchUp(w) && !s.Reset?
    ensures NoCatchUp(Next(w, s, sent))
  {
    OthersStay(w, s, sent);
    if !s.Arrive? && !s.Expire? { StaysCurrent(w, s, sent); }
  }

  lemma StaysCurrent(w: World, s: Step, sent: string -> bool)
    requires Enabled(w, s) && !s.Arrive? && !s.Expire? && !s.Reset?
    requires w.workers[s.k].Walking? ==> !w.workers[s.k].catchesUp
    ensures var j := Next(w, s, sent).workers[s.k]; j.Walking? ==> !j.catchesUp
  {
    if s.Guard? {
      GuardCurrent(w, s, sent);
    } else if s.GuardDown? {
      GuardDownCurrent(w, s, sent);
    }
  }

  lemma GuardCurrent(w: World, s: Step, sent: string -> bool)
    requires s.Guard? && Enabled(w, s)
    ensures var j := Next(w, s, sent).workers[s.k]; j.Walking? && j.catchesUp == w.workers[s.k].catchesUp
  {
  }

  lemma GuardDownCurrent(w: World, s: Step, sent: string -> bool)
    requires s.GuardDown? && Enabled(w, s)
    ensures var j := Next(w, s, sent).workers[s.k]; j.Walking? && j.catchesUp == w.workers[s.k].catchesUp
  {
  }

  /** So without a reset, no command is ever handed on unclaimed: it is handed on at most once per claim. */
  lemma {:induction false} CommandsGuarded(w: World, steps: seq<Step>, sent: string -> bool, x: string)
    requires RunOk(w, steps, sent) && NoCatchUp(w) && sent(x) && (forall k :: 0 <= k < |steps| ==> !steps[k].Reset?)
    ensures Run(w, steps, sent).blind[x] == w.blind[x]
    decreases |steps|
  {
    if steps != [] {
      NoCatchUpStep(w, steps[0], sent);
      UnguardedCommandExactly(w, steps[0], sent, x);
      BlindGrows(w, steps[0], sent, x);
      CommandsGuarded(Next(w, steps[0], sent), steps[1..], sent, x);
    }
  }

  lemma BlindGrows(w: World, s: Step, sent: string -> bool, x: string)
    requires Enabled(w, s)
    ensures Next(w, s, sent).blind[x] >= w.blind[x]
  {
  }

  /** A lone worker polls a history of one message up to its guard. */
  lemma UpToGuard(w: World, id: string, sent: string -> bool)
    requires w.workers == [Idle] && w.log == [id] && id != "" && w.cursor == 0
    ensures var steps := [Start(0)] + ([List(0, 1)] + ([Guard(0, true, false)] + []));
            && RunOk(w, steps, sent)
            && Run(w, steps, sent)
               == if id in w.claimed then w.(workers := [Walking(0, [id], 1, Nothing, 1, false)])
                  else w.(claimed := w.claimed + {id}, claims := w.claims + multiset{id},
                          workers := [Walking(0, [id], 1, Guarded(id), 1, false)])
  {
    assert Batch(w.log, 0, 1) == [id] by {
      assert w.log[0..1] == [id] && [id][..0] == [] && Dedupe([]) == [];
      assert Dedupe([id]) == [id];
    }
    var w1 := Next(w, Start(0), sent);
    var w2 := Next(w1, List(0, 1), sent);
    assert w2.workers == [Walking(0, [id], 0, Nothing, 1, false)];
    One(w2, Guard(0, true, false), [], sent);
    One(w1, List(0, 1), [Guard(0, true, false)] + [], sent);
    One(w, Start(0), [List(0, 1)] + ([Guard(0, true, false)] + []), sent);
  }

  /** A worker that crashes between the claim and the hand-off loses the message: the replayed batch finds
      the claim taken, skips it, and the cursor moves on. */
  lemma CrashLosesMail() returns (steps: seq<Step>, sent: string -> bool)
    ensures RunOk(Fresh(1), steps, sent)
    ensures var t := Run(Fresh(1), steps, sent);
            t.log == ["m"] && t.cursor == 1 && t.workers == [Idle] && t.queued == multiset{} && "m" in t.crashed
  {
    sent := _ => false;
    var up := [Start(0)] + ([List(0, 1)] + ([Guard(0, true, false)] + []));
    var w := Next(Fresh(1), Arrive("m"), sent);
    UpToGuard(w, "m", sent);
    var x := Run(w, up, sent);
    One(x, Crash(0), [], sent);
    var y := Next(x, Crash(0), sent);
    RunConcat(w, up, [Crash(0)] + [], sent);
    UpToGuard(y, "m", sent);
    var z := Run(y, up, sent);
    One(z, Finish(0), [], sent);
    RunConcat(y, up, [Finish(0)] + [], sent);
    RunConcat(w, up + ([Crash(0)] + []), up + ([Finish(0)] + []), sent);
    One(Fresh(1), Arrive("m"), (up + ([Crash(0)] + [])) + (up + ([Finish(0)] + [])), sent);
    steps := [Arrive("m")] + ((up + ([Crash(0)] + [])) + (up + ([Finish(0)] + [])));
  }

  // ----- a backlog, from the first message to the last ----------------------

  /** A name for each number, no two alike. */
  function Name(i: nat): string { seq(i + 1, _ => 'm') }

  function Names(n: nat): (r: seq<string>)
    ensures |r| == n && forall i :: 0 <= i < n ==> r[i] == Name(i)
  {
    seq(n, (i: int) requires 0 <= i < n => Name(i))
  }

  lemma NamesDistinct(n: nat)
    ensures AllDistinct(Names(n)) && "" !in Names(n)
  {
    forall i, j | 0 <= i < j < n ensures Names(n)[i] != Names(n)[j] {
      assert |Name(i)| != |Name(j)|;
    }
    forall x | x in Names(n) ensures x != "" {
      var i :| 0 <= i < n && Names(n)[i] == x;
      assert |Name(i)| == i + 1;
    }
  }

  lemma {:induction false} DedupeDistinct(s: seq<string>)
    requires AllDistinct(s) && "" !in s
    ensures Dedupe(s) == s
  {
    if s != [] {
      var front, last := s[..|s| - 1], s[|s| - 1];
      DedupeDistinct(front);
      assert last !in front;
      assert s == front + [last];
    }
  }

  /** `n` messages arrive at an idle world. */
  lemma {:induction false} Arrivals(n: nat, sent: string -> bool) returns (steps: seq<Step>)
    ensures RunOk(Fresh(1), steps, sent) && Run(Fresh(1), steps, sent) == Logged(n)
  {
    if n == 0 {
      steps := [];
      assert Names(0) == [];
    } else {
      var before := Arrivals(n - 1, sent);
      var one := OneArrival(n, sent);
      RunConcat(Fresh(1), before, one, sent);
      steps := before + one;
    }
  }

  function Logged(n: nat): World { Fresh(1).(log := Names(n)) }

  lemma OneArrival(n: nat, sent: string -> bool) returns (steps: seq<Step>)
    requires n > 0
    ensures RunOk(Logged(n - 1), steps, sent) && Run(Logged(n - 1), steps, sent) == Logged(n)
  {
    var id := Name(n - 1);
    assert |id| == n && Names(n - 1) + [id] == Names(n);
    One(Logged(n - 1), Arrive(id), [], sent);
    steps := [Arrive(id)] + [];
  }

  /** A lone worker between messages. */
  predicate Alone(w: World) {
    |w.workers| == 1 && w.workers[0].Walking? && w.workers[0].hold.Nothing? && w.workers[0].at <= |w.workers[0].batch|
  }

  /** Between two worlds only messages of `batch` were claimed or handed on, and worker 0 got to the end of it. */
  ghost predicate WalkedTo(w: World, t: World, at: nat) {
    && t.log == w.log && t.cursor == w.cursor && t.cut == w.cut && t.filtered == w.filtered && t.ours == w.ours
    && |w.workers| == 1 && w.workers[0].Walking? && t.workers == [w.workers[0].(at := at, hold := Nothing)]
    && forall x :: x !in w.workers[0].batch ==> t.queued[x] == w.queued[x]
  }

  /** Guard one message and hand it on, if it was not claimed before. */
  lemma OneMessage(w: World, sent: string -> bool) returns (steps: seq<Step>)
    requires Alone(w) && w.workers[0].at < |w.workers[0].batch|
    ensures RunOk(w, steps, sent) && WalkedTo(w, Run(w, steps, sent), w.workers[0].at + 1)
  {
    var j := w.workers[0];
    var id := j.batch[j.at];
    assert id in j.batch;
    var w1 := Next(w, Guard(0, true, false), sent);
    if id in w.claimed {
      One(w, Guard(0, true, false), [], sent);
      steps := [Guard(0, true, false)] + [];
    } else {
      One(w1, Hand(0), [], sent);
      One(w, Guard(0, true, false), [Hand(0)] + [], sent);
      steps := [Guard(0, true, false)] + ([Hand(0)] + []);
    }
  }

  lemma {:induction false} WalkOn(w: World, sent: string -> bool) returns (steps: seq<Step>)
    requires Alone(w)
    ensures RunOk(w, steps, sent) && WalkedTo(w, Run(w, steps, sent), |w.workers[0].batch|)
    decreases |w.workers[0].batch| - w.workers[0].at
  {
    var j := w.workers[0];
    if j.at == |j.batch| {
      steps := [];
    } else {
      var first := OneMessage(w, sent);
      var v := Run(w, first, sent);
      var rest := WalkOn(v, sent);
      RunConcat(w, first, rest, sent);
      steps := first + rest;
    }
  }

  /** A reachable loss: from a fresh start, `n` messages arrive, one worker polls without a fault, and the cursor
      passes all of them; whatever exceeds the batch is cut off and never handed on. */
  lemma BacklogLoses(n: nat) returns (steps: seq<Step>, sent: string -> bool)
    requires n > MAX_MESSAGES_PER_POLL
    ensures RunOk(Fresh(1), steps, sent)
    ensures var t := Run(Fresh(1), steps, sent);
            && t.log == Names(n) && t.cursor == n && t.workers == [Idle] && t.filtered == {} && t.ours == {}
            && forall i :: MAX_MESSAGES_PER_POLL <= i < n ==> Name(i) in t.cut && t.queued[Name(i)] == 0
  {
    sent := _ => false;
    var arrive := Arrivals(n, sent);
    var w := Run(Fresh(1), arrive, sent);
    var poll := Polled(w, n, sent);
    RunConcat(Fresh(1), arrive, poll, sent);
    steps := arrive + poll;
  }

  /** One faultless poll of a history of `n` messages. */
  lemma Polled(w: World, n: nat, sent: string -> bool) returns (steps: seq<Step>)
    requires n > MAX_MESSAGES_PER_POLL && w == Logged(n)
    ensures RunOk(w, steps, sent)
    ensures var t := Run(w, steps, sent);
            && t.log == Names(n) && t.cursor == n && t.workers == [Idle] && t.filtered == {} && t.ours == {}
            && forall i :: MAX_MESSAGES_PER_POLL <= i < n ==> Name(i) in t.cut && t.queued[Name(i)] == 0
  {
    var batch := Names(n)[..MAX_MESSAGES_PER_POLL];
    NamesDistinct(n);
    DedupeDistinct(Names(n));
    assert w.log[0..n] == Names(n);
    assert Batch(w.log, 0, n) == batch;
    var w1 := Next(w, Start(0), sent);
    var w2 := Next(w1, List(0, n), sent);
    assert w2.workers == [Walking(0, batch, 0, Nothing, n, false)];
    var walk := WalkOn(w2, sent);
    var w3 := Run(w2, walk, sent);
    One(w3, Finish(0), [], sent);
    RunConcat(w2, walk, [Finish(0)] + [], sent);
    var rest := walk + ([Finish(0)] + []);
    One(w1, List(0, n), rest, sent);
    One(w, Start(0), [List(0, n)] + rest, sent);
    steps := [Start(0)] + ([List(0, n)] + rest);
    forall i | MAX_MESSAGES_PER_POLL <= i < n ensures Name(i) in Window(w3.log, 0, n) && Name(i) !in batch {
      assert w3.log[i] == Name(i);
      forall j | 0 <= j < MAX_MESSAGES_PER_POLL ensures batch[j] != Name(i) {
        assert Names(n)[j] != Names(n)[i];
      }
    }
  }
}
