/** The monthly draft counter: lazily created rows, atomic credits, and workers that check, create, then meter. */
module Quota {
  import opened Wrappers

  datatype Counter = Counter(botSeconds: int, drafts: int)

  /** `period` is the month, numbered from any fixed one. */
  datatype Key = Key(user: string, period: int)

  type Rows = map<Key, Counter>

  function Stored(rows: Rows, key: Key): Counter { if key in rows then rows[key] else Counter(0, 0) }

  /** One atomic increment, over a row made when missing. */
  function Credit(rows: Rows, key: Key, seconds: int, count: int): Rows {
    var c := Stored(rows, key);
    rows[key := Counter(c.botSeconds + seconds, c.drafts + count)]
  }

  class UsageTable {
    var rows: Rows

    constructor ()
      ensures rows == map[]
    {
      rows := map[];
    }

    /** INSERT ... ON CONFLICT DO NOTHING, then SELECT: an existing row is never reset. */
    method GetOrCreate(key: Key) returns (c: Counter)
      modifies this
      ensures rows == old(rows)[key := Stored(old(rows), key)]
      ensures c == rows[key] && c == if key in old(rows) then old(rows)[key] else Counter(0, 0)
    {
      if key !in rows { rows := rows[key := Counter(0, 0)]; }
      c := rows[key];
    }

    method AddDrafts(key: Key, count: int) returns (c: Counter)
      modifies this
      ensures rows == Credit(old(rows), key, 0, count) && c == rows[key]
      ensures key in old(rows) ==> c == old(rows)[key].(drafts := old(rows)[key].drafts + count)
      ensures key !in old(rows) ==> c == Counter(0, count)
    {
      c := GetOrCreate(key);
      c := c.(drafts := c.drafts + count);
      rows := rows[key := c];
    }

    method AddBotSeconds(key: Key, seconds: int) returns (c: Counter)
      modifies this
      ensures rows == Credit(old(rows), key, seconds, 0) && c == rows[key]
      ensures key in old(rows) ==> c == old(rows)[key].(botSeconds := old(rows)[key].botSeconds + seconds)
      ensures key !in old(rows) ==> c == Counter(seconds, 0)
    {
      c := GetOrCreate(key);
      c := c.(botSeconds := c.botSeconds + seconds);
      rows := rows[key := c];
    }
  }

  // ----- many workers -------------------------------------------------------

  datatype Phase = Idle | Checked | Created

  /** One user's workers over the shared table: the current month, the rows, and what each worker is doing. */
  datatype State = State(user: string, month: nat, rows: Rows, workers: seq<Phase>)

  /** `Abandon` is a call that ends without a draft, after its check; `Credited` any other credit to any row
      but drafts to this user's: bot seconds, or another user's drafts. */
  datatype Step =
    | Check(w: nat)
    | Create(w: nat)
    | Abandon(w: nat)
    | Meter(w: nat)
    | Credited(key: Key, seconds: int, count: int)
    | NewMonth

  function Used(s: State, month: nat): int { Stored(s.rows, Key(s.user, month)).drafts }

  predicate Enabled(s: State, step: Step, cap: nat) {
    match step
    case Check(w) => w < |s.workers| && s.workers[w].Idle?
    case Create(w) => w < |s.workers| && s.workers[w].Checked?
    case Abandon(w) => w < |s.workers| && s.workers[w].Checked?
    case Meter(w) => w < |s.workers| && s.workers[w].Created?
    case Credited(key, seconds, count) => key.user != s.user || count == 0
    case NewMonth => true
  }

  /** A denied check leaves the worker idle; metering is `AddDrafts` of one in the month it happens in. */
  function Next(s: State, step: Step, cap: nat): State
    requires Enabled(s, step, cap)
  {
    match step
    case Check(w) => if Used(s, s.month) >= cap then s else s.(workers := s.workers[w := Checked])
    case Create(w) => s.(workers := s.workers[w := Created])
    case Abandon(w) => s.(workers := s.workers[w := Idle])
    case Meter(w) => s.(rows := Credit(s.rows, Key(s.user, s.month), 0, 1), workers := s.workers[w := Idle])
    case Credited(key, seconds, count) => s.(rows := Credit(s.rows, key, seconds, count))
    case NewMonth => s.(month := s.month + 1)
  }

  ghost predicate RunOk(s: State, steps: seq<Step>, cap: nat)
    decreases |steps|
  {
    steps == [] || (Enabled(s, steps[0], cap) && RunOk(Next(s, steps[0], cap), steps[1..], cap))
  }

  function Run(s: State, steps: seq<Step>, cap: nat): State
    requires RunOk(s, steps, cap)
    decreases |steps|
  {
    if steps == [] then s else Run(Next(s, steps[0], cap), steps[1..], cap)
  }

  function Busy(workers: seq<Phase>): (n: nat)
    ensures n <= |workers|
  {
    if workers == [] then 0
    else Busy(workers[..|workers| - 1]) + if workers[|workers| - 1].Idle? then 0 else 1
  }

  function Weight(p: Phase): nat { if p.Idle? then 0 else 1 }

  lemma {:induction false} BusyUpdate(workers: seq<Phase>, w: nat, p: Phase)
    requires w < |workers|
    ensures Busy(workers[w := p]) == Busy(workers) - Weight(workers[w]) + Weight(p)
  {
    var last := |workers| - 1;
    if w == last {
      assert workers[w := p][..last] == workers[..last];
    } else {
      assert workers[w := p][..last] == workers[..last][w := p];
      BusyUpdate(workers[..last], w, p);
    }
  }

  /** Charged plus in flight stays below cap plus workers; months not reached are untouched. */
  ghost predicate Inv(s: State, cap: nat) {
    && Used(s, s.month) + Busy(s.workers) <= cap + |s.workers| - 1
    && (forall m: nat :: Used(s, m) <= cap + |s.workers| - 1)
    && (forall m: nat :: m > s.month ==> Used(s, m) == 0)
  }

  lemma StepInv(s: State, step: Step, cap: nat)
    requires cap >= 1 && |s.workers| >= 1 && Inv(s, cap) && Enabled(s, step, cap)
    ensures Inv(Next(s, step, cap), cap)
  {
    var t := Next(s, step, cap);
    match step {
      case Check(w) => BusyUpdate(s.workers, w, Checked);
      case Create(w) => BusyUpdate(s.workers, w, Created);
      case Abandon(w) => BusyUpdate(s.workers, w, Idle);
      case Meter(w) => BusyUpdate(s.workers, w, Idle);
      case Credited(key, seconds, count) =>
      case NewMonth => assert Used(s, t.month) == 0;
    }
    forall m: nat
      ensures Used(t, m) <= cap + |t.workers| - 1 && (m > t.month ==> Used(t, m) == 0)
    {
      assert m == s.month || Used(t, m) == Used(s, m);
    }
  }

  /** No interleaving overshoots the cap by more than the other workers: with one worker it is exact. */
  lemma {:induction false} CapBound(s: State, steps: seq<Step>, cap: nat)
    requires cap >= 1 && |s.workers| >= 1 && Inv(s, cap) && RunOk(s, steps, cap)
    ensures Inv(Run(s, steps, cap), cap)
    ensures forall m: nat :: Used(Run(s, steps, cap), m) <= cap + |s.workers| - 1
    decreases |steps|
  {
    if steps != [] {
      StepInv(s, steps[0], cap);
      CapBound(Next(s, steps[0], cap), steps[1..], cap);
    }
  }

  /** Meterings of a run that fall in `month`. */
  function Metered(s: State, steps: seq<Step>, cap: nat, month: nat): nat
    requires RunOk(s, steps, cap)
    decreases |steps|
  {
    if steps == [] then 0
    else
      (if steps[0].Meter? && s.month == month then 1 else 0)
      + Metered(Next(s, steps[0], cap), steps[1..], cap, month)
  }

  /** No credit is lost or double-counted: the counter is the number of meterings. */
  lemma {:induction false} CounterExact(s: State, steps: seq<Step>, cap: nat, month: nat)
    requires RunOk(s, steps, cap)
    ensures Used(Run(s, steps, cap), month) == Used(s, month) + Metered(s, steps, cap, month)
    decreases |steps|
  {
    if steps != [] { CounterExact(Next(s, steps[0], cap), steps[1..], cap, month); }
  }

  // ----- the overshoot is real ----------------------------------------------

  lemma {:induction false} RunConcat(s: State, xs: seq<Step>, ys: seq<Step>, cap: nat)
    requires RunOk(s, xs, cap) && RunOk(Run(s, xs, cap), ys, cap)
    ensures RunOk(s, xs + ys, cap) && Run(s, xs + ys, cap) == Run(Run(s, xs, cap), ys, cap)
    decreases |xs|
  {
    if xs == [] {
      assert xs + ys == ys;
    } else {
      assert (xs + ys)[1..] == xs[1..] + ys;
      RunConcat(Next(s, xs[0], cap), xs[1..], ys, cap);
    }
  }

  function Start(n: nat): State { State("", 0, map[], seq(n, _ => Idle)) }

  /** `n` workers, the first `i` of them in phase `p`. */
  function Ranks(n: nat, i: nat, p: Phase, q: Phase): seq<Phase>
    requires i <= n
  {
    seq(n, k => if k < i then p else q)
  }

  lemma {:induction false} OneAfterAnother(n: nat, cap: nat, k: nat) returns (steps: seq<Step>)
    requires n >= 1 && k <= cap
    ensures RunOk(Start(n), steps, cap)
    ensures var t := Run(Start(n), steps, cap); t.month == 0 && Used(t, 0) == k && t.workers == Ranks(n, 0, Idle, Idle)
    decreases k
  {
    if k == 0 {
      steps := [];
    } else {
      var before := OneAfterAnother(n, cap, k - 1);
      var s := Run(Start(n), before, cap);
      var s1 := Next(s, Check(0), cap);
      var s2 := Next(s1, Create(0), cap);
      var s3 := Next(s2, Meter(0), cap);
      var more := [Check(0), Create(0), Meter(0)];
      assert more[1..] == [Create(0), Meter(0)] && more[1..][1..] == [Meter(0)] && [Meter(0)][1..] == [];
      assert RunOk(s2, [Meter(0)], cap) && Run(s2, [Meter(0)], cap) == s3;
      assert RunOk(s1, more[1..], cap) && Run(s1, more[1..], cap) == s3;
      assert RunOk(s, more, cap) && Run(s, more, cap) == s3;
      assert s3.workers == s.workers;
      steps := before + more;
      RunConcat(Start(n), before, more, cap);
    }
  }

  lemma {:induction false} AllCheck(n: nat, cap: nat, s: State, i: nat) returns (steps: seq<Step>)
    requires i <= n && s.month == 0 && Used(s, 0) < cap && s.workers == Ranks(n, 0, Idle, Idle)
    ensures RunOk(s, steps, cap) && Run(s, steps, cap) == s.(workers := Ranks(n, i, Checked, Idle))
    decreases i
  {
    if i == 0 {
      steps := [];
      assert Ranks(n, 0, Checked, Idle) == s.workers;
    } else {
      var before := AllCheck(n, cap, s, i - 1);
      var t := Run(s, before, cap);
      assert t.workers[i - 1 := Checked] == Ranks(n, i, Checked, Idle);
      var more := [Check(i - 1)];
      assert more[1..] == [] && Run(Next(t, more[0], cap), more[1..], cap) == Next(t, more[0], cap);
      steps := before + more;
      RunConcat(s, before, more, cap);
    }
  }

  lemma {:induction false} AllMeter(n: nat, cap: nat, s: State, i: nat) returns (steps: seq<Step>)
    requires i <= n && s.month == 0 && s.workers == Ranks(n, n, Checked, Idle)
    ensures RunOk(s, steps, cap)
    ensures var t := Run(s, steps, cap);
            t.month == 0 && Used(t, 0) == Used(s, 0) + i && t.workers == Ranks(n, i, Idle, Checked)
    decreases i
  {
    if i == 0 {
      steps := [];
      assert s.workers == Ranks(n, 0, Idle, Checked);
    } else {
      var before := AllMeter(n, cap, s, i - 1);
      var t := Run(s, before, cap);
      var t1 := Next(t, Create(i - 1), cap);
      var t2 := Next(t1, Meter(i - 1), cap);
      var more := [Create(i - 1), Meter(i - 1)];
      assert more[1..] == [Meter(i - 1)] && [Meter(i - 1)][1..] == [];
      assert RunOk(t1, more[1..], cap) && Run(t1, more[1..], cap) == t2;
      assert RunOk(t, more, cap) && Run(t, more, cap) == t2;
      assert t2.workers == Ranks(n, i, Idle, Checked);
      steps := before + more;
      RunConcat(s, before, more, cap);
    }
  }

  /** Every worker passes its check on the last unit of quota, then all of them meter. */
  lemma OvershootMet(n: nat, cap: nat) returns (steps: seq<Step>)
    requires n >= 1 && cap >= 1
    ensures RunOk(Start(n), steps, cap) && Used(Run(Start(n), steps, cap), 0) == cap + n - 1
  {
    var a := OneAfterAnother(n, cap, cap - 1);
    var s := Run(Start(n), a, cap);
    var b := AllCheck(n, cap, s, n);
    var t := Run(s, b, cap);
    var c := AllMeter(n, cap, t, n);
    RunConcat(s, b, c, cap);
    RunConcat(Start(n), a, b + c, cap);
    steps := a + (b + c);
  }
}
