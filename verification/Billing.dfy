/** The subscription row: webhooks in any order, checkout, cancel, and the trial deadline. Times are seconds. */
module Billing {
  import opened Wrappers

  const START_AT_LEAD_TIME := 60
  const DAY := 86_400

  datatype Status =
    | Created | Authenticated | Active | Pending | Halted | Paused | Cancelled | Expired | Completed
    | Unknown(text: string)

  /** A missing or empty id is `None`. */
  datatype Sub = Sub(
    customerId: Option<string>, subId: Option<string>, plan: string, status: Status,
    trialEndsAt: Option<int>, periodEnd: Option<int>,
    cancelAtPeriodEnd: bool, trialConsumed: bool, comped: bool)

  const PLAN_PRO := "pro"

  /** Column defaults: what a webhook inserts. */
  const BLANK := Sub(None, None, PLAN_PRO, Created, None, None, false, false, false)

  predicate EntitledStatus(s: Status) { s.Authenticated? || s.Active? || s.Pending? }

  /** Whether the row grants access at `now`. */
  predicate Entitled(sub: Option<Sub>, now: int) {
    && sub.Some?
    && var s := sub.value;
       || s.comped
       || (EntitledStatus(s.status)
           && (s.status.Authenticated? ==> s.trialEndsAt.Some? && s.trialEndsAt.value > now))
  }

  // ----- webhooks -----------------------------------------------------------

  datatype Event = Event(
    handled: bool, subId: Option<string>, notesUser: Option<string>,
    status: Option<Status>, currentEnd: Option<int>, customerId: Option<string>)

  datatype Verdict = Applied | Ignored | Stale

  predicate IsStale(sub: Sub, ev: Event) {
    ev.currentEnd.Some? && sub.periodEnd.Some? && ev.currentEnd.value < sub.periodEnd.value
  }

  /** What an event does to the row it was matched to. */
  function Absorb(sub: Sub, ev: Event): Sub {
    if IsStale(sub, ev) then sub
    else
      sub.(status := if ev.status.Some? then ev.status.value else sub.status,
           periodEnd := if ev.currentEnd.Some? then ev.currentEnd else sub.periodEnd,
           customerId := if ev.customerId.Some? then ev.customerId else sub.customerId)
  }

  /** The row a missed id lookup falls back to: the user's, or a blank one, now carrying the id. */
  function Relinked(sub: Option<Sub>, id: string): Sub {
    (if sub.Some? then sub.value else BLANK).(subId := Some(id))
  }

  /** Redelivering any event at once changes nothing, stale or not, relinked or not. */
  lemma RedeliveryIdle(sub: Option<Sub>, ev: Event, id: string)
    ensures var once := Absorb(Relinked(sub, id), ev); once.subId == Some(id) && Absorb(once, ev) == once
    ensures sub.Some? ==> Absorb(Absorb(sub.value, ev), ev) == Absorb(sub.value, ev)
  {
  }

  /** The row as an event finds it: its own, or relinked to the event's id. */
  function Met(sub: Sub, ev: Event): Sub
    requires ev.subId.Some?
  {
    if sub.subId == ev.subId then sub else Relinked(Some(sub), ev.subId.value)
  }

  /** Relinking comes before the staleness test: a stale event leaves the row as it was if and only if the row
      already carried its id, and otherwise changes that id alone. */
  lemma StaleKeepsRowExactly(sub: Sub, ev: Event)
    requires ev.subId.Some? && IsStale(Met(sub, ev), ev)
    ensures Absorb(Met(sub, ev), ev) == sub <==> sub.subId == ev.subId
    ensures Absorb(Met(sub, ev), ev) == sub.(subId := ev.subId)
  {
  }

  function Deliver(sub: Sub, events: seq<Event>): Sub {
    if events == [] then sub
    else Absorb(Deliver(sub, events[..|events| - 1]), events[|events| - 1])
  }

  /** Out of date: an earlier period end than the one the row then has. */
  predicate OutOfDate(sub: Sub, events: seq<Event>, k: nat)
    requires k < |events|
  {
    var row := Deliver(sub, events[..k]);
    events[k].currentEnd.Some? && row.periodEnd.Some? && events[k].currentEnd.value < row.periodEnd.value
  }

  /** The customer is the one that the last event to name one in time named, and a webhook writes nothing beyond
      status, period and customer. */
  lemma {:induction false} CustomerSettled(sub: Sub, events: seq<Event>) returns (k: int)
    ensures -1 <= k < |events|
    ensures forall j: nat :: k < j < |events| && events[j].customerId.Some? ==> OutOfDate(sub, events, j)
    ensures var r := Deliver(sub, events);
            && r.customerId == (if k == -1 then sub.customerId else events[k].customerId)
            && (k >= 0 ==> events[k].customerId.Some? && !OutOfDate(sub, events, k))
            && r == sub.(status := r.status, periodEnd := r.periodEnd, customerId := r.customerId)
  {
    k := -1;
    if events != [] {
      var front, last: nat := events[..|events| - 1], |events| - 1;
      k := CustomerSettled(sub, front);
      forall j: nat | j < last ensures OutOfDate(sub, events, j) == OutOfDate(sub, front, j) {
        assert events[..j] == front[..j] && events[j] == front[j];
      }
      if events[last].customerId.Some? && !OutOfDate(sub, events, last) { k := last; }
    }
  }

  predicate Complete(ev: Event) { ev.status.Some? && ev.currentEnd.Some? }

  /** Events on the row's own id; two with one period end are the same report. */
  ghost predicate Consistent(sub: Sub, events: seq<Event>) {
    && (forall e :: e in events ==> Complete(e) && (sub.periodEnd.Some? ==> sub.periodEnd.value <= e.currentEnd.value))
    && (forall d, e :: d in events && e in events && d.currentEnd == e.currentEnd ==> d.status == e.status)
  }

  ghost predicate Newest(events: seq<Event>, e: Event) {
    e in events && Complete(e) && forall d :: d in events && Complete(d) ==> d.currentEnd.value <= e.currentEnd.value
  }

  /** After any deliveries, the row holds the newest event's status and period. */
  lemma {:induction false} HoldsNewest(sub: Sub, events: seq<Event>) returns (e: Event)
    requires Consistent(sub, events) && events != []
    ensures Newest(events, e)
    ensures var r := Deliver(sub, events); r.status == e.status.value && r.periodEnd == e.currentEnd
  {
    var front, last := events[..|events| - 1], events[|events| - 1];
    if front == [] {
      e := last;
    } else {
      var d := HoldsNewest(sub, front);
      e := if last.currentEnd.value < d.currentEnd.value then d else last;
      assert forall x :: x in events ==> x in front || x == last;
    }
  }

  /** The same events in any order, with any duplicates, leave the same status and period. */
  lemma OrderIrrelevant(sub: Sub, xs: seq<Event>, ys: seq<Event>)
    requires Consistent(sub, xs) && xs != [] && forall e :: e in xs <==> e in ys
    ensures Deliver(sub, xs).status == Deliver(sub, ys).status
    ensures Deliver(sub, xs).periodEnd == Deliver(sub, ys).periodEnd
  {
    assert xs[0] in ys;
    var d := HoldsNewest(sub, xs);
    var e := HoldsNewest(sub, ys);
    assert d.currentEnd.value <= e.currentEnd.value && e.currentEnd.value <= d.currentEnd.value;
  }

  // ----- when order matters -------------------------------------------------

  function Later(x: Option<int>, y: Option<int>): Option<int> {
    if x.None? then y else if y.None? then x else if x.value < y.value then y else x
  }

  /** The latest period end among the row's own and the events'. */
  function Top(sub: Sub, events: seq<Event>): Option<int> {
    if events == [] then sub.periodEnd
    else Later(Top(sub, events[..|events| - 1]), events[|events| - 1].currentEnd)
  }

  lemma {:induction false} PeriodIsTop(sub: Sub, events: seq<Event>)
    ensures Deliver(sub, events).periodEnd == Top(sub, events)
  {
    if events != [] { PeriodIsTop(sub, events[..|events| - 1]); }
  }

  /** An event that is never stale: it names no period, or none is later than its own. */
  predicate Settles(e: Event, top: Option<int>) { e.currentEnd.None? || e.currentEnd == top }

  /** The row's status is that of the last settling event, whatever stands around it. */
  lemma {:induction false} StatusSettled(sub: Sub, events: seq<Event>) returns (k: int)
    requires forall e :: e in events ==> e.status.Some?
    ensures -1 <= k < |events|
    ensures var status := Deliver(sub, events).status;
            if k == -1 then (forall e :: e in events ==> !Settles(e, Top(sub, events))) && status == sub.status
            else Settles(events[k], Top(sub, events)) && status == events[k].status.value
  {
    k := -1;
    if events != [] {
      var front, last := events[..|events| - 1], events[|events| - 1];
      PeriodIsTop(sub, front);
      if Settles(last, Top(sub, events)) {
        k := |events| - 1;
      } else {
        k := StatusSettled(sub, front);
        assert forall e :: e in events ==> e in front || e == last;
      }
    }
  }

  ghost predicate SameEvents(xs: seq<Event>, ys: seq<Event>) { forall e :: e in xs <==> e in ys }

  /** No event's period end is later than the top, which is one of them or the row's. */
  lemma {:induction false} TopIsMax(sub: Sub, events: seq<Event>)
    ensures forall e :: e in events ==> Later(Top(sub, events), e.currentEnd) == Top(sub, events)
    ensures Later(Top(sub, events), sub.periodEnd) == Top(sub, events)
    ensures Top(sub, events) == sub.periodEnd || exists e :: e in events && e.currentEnd == Top(sub, events)
  {
    if events != [] {
      var front, last := events[..|events| - 1], events[|events| - 1];
      TopIsMax(sub, front);
      assert last in events;
      assert forall e :: e in events ==> e in front || e == last;
    }
  }

  lemma SameTop(sub: Sub, xs: seq<Event>, ys: seq<Event>)
    requires SameEvents(xs, ys)
    ensures Top(sub, xs) == Top(sub, ys)
  {
    TopIsMax(sub, xs);
    TopIsMax(sub, ys);
  }

  /** Every delivery of these events, in any order and with any duplicates, leaves one status. */
  ghost predicate OrdersAgree(sub: Sub, events: seq<Event>) {
    forall xs, ys :: SameEvents(xs, events) && SameEvents(ys, events) ==>
      Deliver(sub, xs).status == Deliver(sub, ys).status
  }

  ghost predicate OneVerdict(events: seq<Event>, top: Option<int>) {
    forall d, e :: d in events && e in events && Settles(d, top) && Settles(e, top) ==> d.status == e.status
  }

  /** The period never depends on the order. The status does not, exactly when the events that are never stale
      all report the same one: those that name no period and those that name the latest. */
  lemma OrdersAgreeExactly(sub: Sub, events: seq<Event>)
    requires forall e :: e in events ==> e.status.Some?
    ensures forall xs :: SameEvents(xs, events) ==> Deliver(sub, xs).periodEnd == Top(sub, events)
    ensures OrdersAgree(sub, events)
            <==> OneVerdict(events, Top(sub, events))
  {
    var top := Top(sub, events);
    forall xs | SameEvents(xs, events) ensures Deliver(sub, xs).periodEnd == top {
      PeriodIsTop(sub, xs);
      SameTop(sub, xs, events);
    }
    if OrdersAgree(sub, events) {
      forall d, e | d in events && e in events && Settles(d, top) && Settles(e, top) ensures d.status == e.status {
        EndsWith(sub, events, d);
        EndsWith(sub, events, e);
      }
    } else {
      var xs, ys :| SameEvents(xs, events) && SameEvents(ys, events)
                    && Deliver(sub, xs).status != Deliver(sub, ys).status;
      SameTop(sub, xs, events);
      SameTop(sub, ys, events);
      var j := StatusSettled(sub, xs);
      var k := StatusSettled(sub, ys);
      if j >= 0 { assert xs[j] in xs; }
      if k >= 0 { assert ys[k] in ys; }
    }
  }

  /** Delivered once more at the end, an event that is never stale decides. */
  lemma EndsWith(sub: Sub, events: seq<Event>, e: Event)
    requires e in events && e.status.Some? && Settles(e, Top(sub, events))
    ensures SameEvents(events + [e], events) && Deliver(sub, events + [e]).status == e.status.value
  {
    assert (events + [e])[..|events|] == events;
    PeriodIsTop(sub, events);
  }

  // ----- checkout and cancel ------------------------------------------------

  /** The row `get_or_create_subscription` inserts: its creation is the trial grant. */
  function TrialRow(now: int, trialDays: int): Sub {
    BLANK.(status := Authenticated, trialEndsAt := Some(now + trialDays * DAY), trialConsumed := true)
  }

  /** Refused while an existing Razorpay subscription serves the user. */
  predicate Refused(sub: Sub, now: int) { sub.subId.Some? && Entitled(Some(sub), now) }

  /** The trial end a checkout commits to, from what it read at its start. */
  function TrialEnd(first: bool, sub: Sub, now: int): int {
    if first then (if sub.trialEndsAt.Some? then sub.trialEndsAt.value else now)
    else if sub.trialConsumed && sub.trialEndsAt.Some? && sub.trialEndsAt.value > now then sub.trialEndsAt.value
    else now
  }

  /** `start_at`, judged against the clock just before the request. */
  function StartAt(trialEnd: int, clock: int): Option<int> {
    if trialEnd - clock > START_AT_LEAD_TIME then Some(trialEnd) else None
  }

  /** The fields a completed checkout writes; the status is left to the webhook. */
  function CheckedOut(sub: Sub, id: string, customer: string, plan: string, trialEnd: int): Sub {
    sub.(subId := Some(id), customerId := if sub.customerId.Some? then sub.customerId else Some(customer),
         plan := plan, trialEndsAt := Some(trialEnd), trialConsumed := true, cancelAtPeriodEnd := false)
  }

  predicate CancelsAtCycleEnd(sub: Sub) { sub.status.Active? || sub.status.Pending? }

  function CancelledRow(sub: Sub, atCycleEnd: bool): Sub {
    if atCycleEnd then sub.(cancelAtPeriodEnd := true)
    else sub.(cancelAtPeriodEnd := false, status := Cancelled)
  }

  /** What `GET /subscription` tells the user a checkout would grant. */
  predicate TrialAvailable(sub: Option<Sub>, now: int) {
    || sub.None?
    || !sub.value.trialConsumed
    || (sub.value.trialEndsAt.Some? && sub.value.trialEndsAt.value > now)
  }

  /** The report agrees with the checkout exactly when there is no row or a consumed one. */
  lemma ReportAgrees(sub: Option<Sub>, now: int, trialDays: int)
    requires trialDays > 0
    ensures var row := if sub.Some? then sub.value else TrialRow(now, trialDays);
            (TrialAvailable(sub, now) <==> TrialEnd(sub.None?, row, now) > now)
            <==> sub.None? || sub.value.trialConsumed
  {
  }

  /** The tables, with one method per entry point. */
  class Ledger {
    var users: set<string>
    var rows: map<string, Sub>

    constructor (users: set<string>)
      ensures this.users == users && rows == map[]
    {
      this.users := users;
      rows := map[];
    }

    function Row(user: string): Option<Sub>
      reads this
    {
      if user in rows then Some(rows[user]) else None
    }

    method FindById(id: string) returns (user: Option<string>)
      ensures user.Some? ==> user.value in rows && rows[user.value].subId == Some(id)
      ensures user.None? ==> forall u :: u in rows ==> rows[u].subId != Some(id)
    {
      if u :| u in rows && rows[u].subId == Some(id) {
        user := Some(u);
      } else {
        user := None;
      }
    }

    /** One Razorpay event: by id, else by the notes of a known user, else ignored. */
    method HandleEvent(ev: Event) returns (verdict: Verdict, user: string)
      modifies this`rows
      ensures verdict.Ignored? <==>
                || !ev.handled || ev.subId.None?
                || ((forall u :: u in old(rows) ==> old(rows)[u].subId != ev.subId)
                    && (ev.notesUser.None? || ev.notesUser.value !in users))
      ensures verdict.Ignored? ==> rows == old(rows)
      ensures !verdict.Ignored? ==>
                var before := if user in old(rows) && old(rows)[user].subId == ev.subId then old(rows)[user]
                              else Relinked(old(Row(user)), ev.subId.value);
                && ((user in old(rows) && old(rows)[user].subId == ev.subId)
                    || (Some(user) == ev.notesUser && user in users
                        && forall u :: u in old(rows) ==> old(rows)[u].subId != ev.subId))
                && rows == old(rows)[user := Absorb(before, ev)]
                && (verdict.Stale? <==> IsStale(before, ev))
    {
      user := "";
      if !ev.handled || ev.subId.None? { return Ignored, user; }
      var found := FindById(ev.subId.value);
      if found.Some? {
        user := found.value;
      } else {
        if ev.notesUser.None? || ev.notesUser.value !in users { return Ignored, user; }
        user := ev.notesUser.value;
        rows := rows[user := Relinked(Row(user), ev.subId.value)];
      }
      var sub := rows[user];
      if IsStale(sub, ev) {
        verdict := Stale;
      } else {
        if ev.status.Some? { sub := sub.(status := ev.status.value); }
        if ev.currentEnd.Some? { sub := sub.(periodEnd := ev.currentEnd); }
        if ev.customerId.Some? { sub := sub.(customerId := ev.customerId); }
        verdict := Applied;
      }
      rows := rows[user := sub];
    }

    method GetOrCreate(user: string, now: int, trialDays: int) returns (sub: Sub)
      modifies this`rows
      ensures sub == if user in old(rows) then old(rows)[user] else TrialRow(now, trialDays)
      ensures rows == old(rows)[user := sub]
      ensures user !in old(rows) ==>
                sub == BLANK.(status := Authenticated, trialEndsAt := Some(now + trialDays * 86_400),
                              trialConsumed := true)
    {
      if user !in rows { rows := rows[user := TrialRow(now, trialDays)]; }
      sub := rows[user];
    }

    /** A checkout nothing interrupts; `later` is the clock once Razorpay is called. */
    method StartCheckout(user: string, now: int, later: int, trialDays: int, plan: string, id: string, customer: string)
      returns (startAt: Option<int>, refused: bool)
      requires now <= later
      modifies this`rows
      ensures var row := if user in old(rows) then old(rows)[user] else TrialRow(now, trialDays);
              var end := TrialEnd(user !in old(rows), row, now);
              && refused == Refused(row, now)
              && rows == old(rows)[user := if refused then row else CheckedOut(row, id, customer, plan, end)]
              && (!refused ==> startAt == StartAt(end, later))
      ensures !refused ==>
                && user in rows && rows[user].trialEndsAt.Some?
                && var end := rows[user].trialEndsAt.value;
                   startAt == if end - later > START_AT_LEAD_TIME then Some(end) else None
      ensures !refused && user in old(rows) ==>
                var was := old(rows)[user];
                && (was.trialConsumed && was.trialEndsAt.Some? && was.trialEndsAt.value > now ==>
                      rows[user].trialEndsAt == was.trialEndsAt)
                && (!(was.trialConsumed && was.trialEndsAt.Some? && was.trialEndsAt.value > now) ==>
                      rows[user].trialEndsAt == Some(now))
                && rows[user] == was.(subId := Some(id), plan := plan, trialConsumed := true,
                                      cancelAtPeriodEnd := false, trialEndsAt := rows[user].trialEndsAt,
                                      customerId := if was.customerId.None? then Some(customer) else was.customerId)
      ensures refused <==>
                user in old(rows) && old(rows)[user].subId.Some? && Entitled(Some(old(rows)[user]), now)
      ensures user !in old(rows) ==> !refused && rows[user].trialEndsAt == Some(now + trialDays * 86_400)
    {
      var first := user !in rows;
      var sub := GetOrCreate(user, now, trialDays);
      if sub.subId.Some? && Entitled(Some(sub), now) { return None, true; }
      if sub.customerId.None? { sub := sub.(customerId := Some(customer)); }
      var end := TrialEnd(first, sub, now);
      startAt := StartAt(end, later);
      sub := sub.(subId := Some(id), plan := plan, trialEndsAt := Some(end), trialConsumed := true);
      sub := sub.(cancelAtPeriodEnd := false);
      rows := rows[user := sub];
      refused := false;
    }

    /** False is the 409: there is nothing to cancel. */
    method Cancel(user: string) returns (ok: bool)
      modifies this`rows
      ensures ok <==> user in old(rows) && old(rows)[user].subId.Some?
      ensures rows == if ok
                      then old(rows)[user := CancelledRow(old(rows)[user], CancelsAtCycleEnd(old(rows)[user]))]
                      else old(rows)
      ensures ok && old(rows)[user].status in {Active, Pending} ==>
                rows[user] == old(rows)[user].(cancelAtPeriodEnd := true)
      ensures ok && old(rows)[user].status !in {Active, Pending} ==>
                rows[user] == old(rows)[user].(cancelAtPeriodEnd := false, status := Cancelled)
    {
      if user !in rows || rows[user].subId.None? { return false; }
      var sub := rows[user];
      if CancelsAtCycleEnd(sub) {
        sub := sub.(cancelAtPeriodEnd := true);
      } else {
        sub := sub.(cancelAtPeriodEnd := false);
        sub := sub.(status := Cancelled);
      }
      rows := rows[user := sub];
      ok := true;
    }
  }

  // ----- one user's row over time -------------------------------------------

  /** A checkout between its commit and its final write, with what it read. */
  datatype Checkout = Checkout(first: bool, read: Sub, now: int)

  /** `deadline` records the trial end of the moment a trial was first granted; it is history, not a column. */
  datatype Account = Account(
    clock: int, row: Option<Sub>, checkouts: seq<Checkout>, cancels: seq<bool>, deadline: Option<int>)

  datatype Step =
    | Tick(to: int)
    | Webhook(ev: Event)
    | BeginCheckout(trialDays: int)
    | FinishCheckout(k: nat, id: string, customer: string, plan: string)
    | DropCheckout(k: nat)
    | BeginCancel
    | FinishCancel(k: nat)
    | SetComped(on: bool)

  predicate Enabled(a: Account, step: Step) {
    match step
    case Tick(to) => a.clock <= to
    case Webhook(ev) => ev.subId.Some?
    case FinishCheckout(k, _, _, _) => k < |a.checkouts| && a.row.Some?
    case DropCheckout(k) => k < |a.checkouts|
    case BeginCancel => a.row.Some?
    case FinishCancel(k) => k < |a.cancels| && a.row.Some?
    case _ => true
  }

  function Without<T>(s: seq<T>, k: nat): (r: seq<T>)
    requires k < |s|
    ensures forall x :: x in r ==> x in s
  {
    s[..k] + s[k + 1..]
  }

  function Next(a: Account, step: Step): Account
    requires Enabled(a, step)
  {
    match step
    case Tick(to) => a.(clock := to)
    case Webhook(ev) =>
      var own := a.row.Some? && a.row.value.subId == ev.subId;
      a.(row := Some(Absorb(if own then a.row.value else Relinked(a.row, ev.subId.value), ev)))
    case BeginCheckout(trialDays) =>
      var first := a.row.None?;
      var sub := if first then TrialRow(a.clock, trialDays) else a.row.value;
      var b := a.(row := Some(sub), deadline := if first then sub.trialEndsAt else a.deadline);
      if Refused(sub, a.clock) then b else b.(checkouts := a.checkouts + [Checkout(first, sub, a.clock)])
    case FinishCheckout(k, id, customer, plan) =>
      var c := a.checkouts[k];
      a.(row := Some(CheckedOut(a.row.value, id, customer, plan, TrialEnd(c.first, c.read, c.now))),
         checkouts := Without(a.checkouts, k))
    case DropCheckout(k) => a.(checkouts := Without(a.checkouts, k))
    case BeginCancel =>
      if a.row.value.subId.None? then a else a.(cancels := a.cancels + [CancelsAtCycleEnd(a.row.value)])
    case FinishCancel(k) =>
      a.(row := Some(CancelledRow(a.row.value, a.cancels[k])), cancels := Without(a.cancels, k))
    case SetComped(on) =>
      if a.row.None? then a else a.(row := Some(a.row.value.(comped := on)))
  }

  ghost predicate RunOk(a: Account, steps: seq<Step>)
    decreases |steps|
  {
    steps == [] || (Enabled(a, steps[0]) && RunOk(Next(a, steps[0]), steps[1..]))
  }

  function Run(a: Account, steps: seq<Step>): Account
    requires RunOk(a, steps)
    decreases |steps|
  {
    if steps == [] then a else Run(Next(a, steps[0]), steps[1..])
  }

  /** A trial end still ahead of the clock never lies past the deadline first granted. */
  ghost predicate Bounded(a: Account, end: int) {
    end <= a.clock || (a.deadline.Some? && end <= a.deadline.value)
  }

  ghost predicate Inv(a: Account) {
    && (a.row.None? ==> a.checkouts == [] && a.deadline.None?)
    && (a.row.Some? && a.row.value.trialEndsAt.Some? ==>
          && Bounded(a, a.row.value.trialEndsAt.value)
          && (a.row.value.trialEndsAt.value > a.clock ==> a.row.value.trialConsumed))
    && (forall c :: c in a.checkouts ==> c.now <= a.clock && Bounded(a, TrialEnd(c.first, c.read, c.now)))
  }

  lemma StepInv(a: Account, step: Step)
    requires Inv(a) && Enabled(a, step)
    ensures Inv(Next(a, step))
    ensures a.row.Some? ==> Next(a, step).row.Some? && Next(a, step).deadline == a.deadline
  {
  }

  predicate InTrial(a: Account) {
    a.row.Some? && !a.row.value.comped && a.row.value.status.Authenticated? && Entitled(a.row, a.clock)
  }

  /** Access through `authenticated` ends at the one deadline fixed when a trial was first granted,
      however checkouts, cancellations and webhooks interleave; a row a webhook made never gets it. */
  lemma {:induction false} OneTrial(a: Account, steps: seq<Step>)
    requires Inv(a) && RunOk(a, steps)
    ensures var b := Run(a, steps);
            && Inv(b)
            && (InTrial(b) ==> b.deadline.Some? && b.clock < b.deadline.value)
            && (a.row.Some? ==> b.deadline == a.deadline)
    decreases |steps|
  {
    if steps != [] {
      StepInv(a, steps[0]);
      OneTrial(Next(a, steps[0]), steps[1..]);
    }
  }

  // ----- what cancels and webhooks do to access -----------------------------

  /** A cancel still to be finished stays as it was decided while no other at or before its place finishes. */
  lemma {:induction false} DecisionKept(a: Account, steps: seq<Step>, k: nat)
    requires RunOk(a, steps) && k < |a.cancels|
    requires forall i :: 0 <= i < |steps| && steps[i].FinishCancel? ==> steps[i].k > k
    ensures k < |Run(a, steps).cancels| && Run(a, steps).cancels[k] == a.cancels[k]
    decreases |steps|
  {
    if steps != [] {
      var b := Next(a, steps[0]);
      assert k < |b.cancels| && b.cancels[k] == a.cancels[k];
      DecisionKept(b, steps[1..], k);
    }
  }

  /** What a cancel costs, over any run between its decision and its write. Decided on an active or pending
      subscription it only sets the flag, and access stays what it then is, at every instant; decided on any
      other it ends access there and then, unless the row is comped. Every other column stays. */
  lemma CancelExactly(a: Account, steps: seq<Step>, t: int)
    requires a.row.Some? && a.row.value.subId.Some?
    requires RunOk(Next(a, BeginCancel), steps)
    requires forall i :: 0 <= i < |steps| && steps[i].FinishCancel? ==> steps[i].k > |a.cancels|
    requires Run(Next(a, BeginCancel), steps).row.Some?
    ensures var b := Run(Next(a, BeginCancel), steps);
            && Enabled(b, FinishCancel(|a.cancels|))
            && var c, row := Next(b, FinishCancel(|a.cancels|)), b.row.value;
               if a.row.value.status in {Active, Pending}
               then c.row == Some(row.(cancelAtPeriodEnd := true)) && (Entitled(c.row, t) <==> Entitled(b.row, t))
               else c.row == Some(row.(cancelAtPeriodEnd := false, status := Cancelled))
                    && (Entitled(c.row, t) <==> row.comped)
  {
    var started := Next(a, BeginCancel);
    DecisionKept(started, steps, |a.cancels|);
  }

  /** A cancel decided in the trial ends even access paid for by the time it is written. */
  lemma LateCancelLocksOut() returns (a: Account, steps: seq<Step>)
    ensures RunOk(a, steps) && |steps| == 3 && RunOk(a, steps[..2])
    ensures var b := Run(a, steps[..2]); Entitled(b.row, b.clock) && b.row.value.status.Active?
    ensures var c := Run(a, steps); !Entitled(c.row, c.clock)
  {
    var row := TrialRow(0, 7).(subId := Some("s"));
    var paid := Event(true, Some("s"), None, Some(Active), Some(100), None);
    a := Account(0, Some(row), [], [], row.trialEndsAt);
    steps := [BeginCancel, Webhook(paid), FinishCancel(0)];
    var b := Next(a, BeginCancel);
    var c := Next(b, Webhook(paid));
    var d := Next(c, FinishCancel(0));
    assert steps[..2] == [BeginCancel, Webhook(paid)] && steps[..2][1..] == [Webhook(paid)];
    assert steps[1..] == [Webhook(paid), FinishCancel(0)] && steps[1..][1..] == [FinishCancel(0)];
    assert [Webhook(paid)][1..] == [] && [FinishCancel(0)][1..] == [];
    assert RunOk(c, []) && Run(c, []) == c && RunOk(d, []) && Run(d, []) == d;
    assert RunOk(b, steps[..2][1..]) && Run(b, steps[..2][1..]) == c;
    assert RunOk(c, steps[1..][1..]) && Run(c, steps[1..][1..]) == d;
    assert RunOk(b, steps[1..]) && Run(b, steps[1..]) == d;
  }

  /** After a webhook that is neither stale nor without a status: access is the reported status's alone, a trial's
      until its deadline, unless the row is comped. */
  lemma AccessAfterWebhook(a: Account, ev: Event, t: int)
    requires ev.subId.Some? && ev.status.Some?
    requires a.row.Some? && ev.currentEnd.Some? && a.row.value.periodEnd.Some? ==>
               ev.currentEnd.value >= a.row.value.periodEnd.value
    ensures var b := Next(a, Webhook(ev));
            && b.row.Some?
            && (Entitled(b.row, t) <==>
                  || (a.row.Some? && a.row.value.comped)
                  || ev.status.value == Active || ev.status.value == Pending
                  || (ev.status.value == Authenticated && a.row.Some? && a.row.value.trialEndsAt.Some?
                      && t < a.row.value.trialEndsAt.value))
  {
  }

  /** A row that a webhook makes gives access only through the status it reports, and never as a trial. */
  lemma NewRowNoTrial(a: Account, ev: Event, t: int)
    requires a.row.None? && ev.subId.Some?
    ensures Entitled(Next(a, Webhook(ev)).row, t) <==> ev.status == Some(Active) || ev.status == Some(Pending)
  {
  }

  function PeriodEnd(row: Option<Sub>): Option<int> {
    if row.Some? then row.value.periodEnd else None
  }

  predicate NotBefore(x: Option<int>, y: Option<int>) {
    y.None? || (x.Some? && y.value <= x.value)
  }

  /** The period never moves back, over any mix of webhooks (own, foreign or relinking), checkouts and cancels. */
  lemma {:induction false} PeriodNeverBack(a: Account, steps: seq<Step>)
    requires RunOk(a, steps)
    ensures NotBefore(PeriodEnd(Run(a, steps).row), PeriodEnd(a.row))
    decreases |steps|
  {
    if steps != [] {
      PeriodNeverBack(Next(a, steps[0]), steps[1..]);
    }
  }

  /** In every reachable state, a checkout that goes through at once takes no access away. */
  lemma CheckoutKeepsAccess(a: Account, steps: seq<Step>, trialDays: int, id: string, customer: string, plan: string)
    requires Inv(a) && RunOk(a, steps)
    requires Entitled(Run(a, steps).row, Run(a, steps).clock)
    ensures var b := Run(a, steps);
            var c := Next(b, BeginCheckout(trialDays));
            |c.checkouts| > |b.checkouts| ==>
              var d := Next(c, FinishCheckout(|b.checkouts|, id, customer, plan)); Entitled(d.row, d.clock)
  {
    OneTrial(a, steps);
  }

  /** Over all rows, reachable or not: a checkout that goes through at once takes access away exactly from an
      unconsumed row in mid-trial that is not comped. */
  lemma CheckoutKeepsExactly(a: Account, trialDays: int, id: string, customer: string, plan: string)
    requires Entitled(a.row, a.clock) && !Refused(a.row.value, a.clock)
    ensures var c := Next(a, BeginCheckout(trialDays));
            && |c.checkouts| == |a.checkouts| + 1
            && var d := Next(c, FinishCheckout(|a.checkouts|, id, customer, plan));
               var s := a.row.value;
               Entitled(d.row, d.clock) <==> s.comped || !s.status.Authenticated? || s.trialConsumed
  {
  }
}
