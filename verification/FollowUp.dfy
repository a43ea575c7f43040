/** Threads the user spoke last in that went quiet. Dates are seconds, UTC. */
module FollowUp {
  import opened Ordering
  import opened Wrappers
  import opened Mail

  const DAY := 86_400

  /** Exactly the threads with dated mail, each with its newest date. */
  ghost predicate IsLatest(latest: map<string, int>, emails: seq<Message>) {
    && (forall t :: t in latest ==> t != "" && exists e :: e in emails && e.thread == t && e.date == Some(latest[t]))
    && (forall e :: e in emails && e.thread != "" && e.date.Some? ==>
          e.thread in latest && e.date.value <= latest[e.thread])
  }

  /** Newest dated message of each thread. */
  method LatestInbound(emails: seq<Message>) returns (latest: map<string, int>)
    ensures IsLatest(latest, emails)
  {
    latest := map[];
    for k := 0 to |emails|
      invariant IsLatest(latest, emails[..k])
    {
      var e := emails[k];
      assert emails[..k + 1] == emails[..k] + [e];
      if e.thread == "" || e.date.None? { continue; }
      if e.thread !in latest || e.date.value > latest[e.thread] {
        latest := latest[e.thread := e.date.value];
      }
    }
    assert emails[..|emails|] == emails;
  }

  function SortKey(m: Message, now: int): int { if m.date.Some? then m.date.value else now }

  /** Newest first; undated mail counts as of now. */
  function NewestFirst(now: int): (Message, Message) -> bool {
    (x, y) => SortKey(x, now) >= SortKey(y, now)
  }

  predicate Usable(m: Message) { m.id != "" && m.date.Some? }

  /** Some inbound mail of the thread is later than `m`. */
  ghost predicate Answered(m: Message, inbound: seq<Message>) {
    m.date.Some? && exists e :: e in inbound && e.thread == m.thread && e.date.Some? && e.date.value > m.date.value
  }

  /** Position `x` holds the thread's newest usable sent message; earlier in the list wins a tie. */
  ghost predicate LastWord(sent: seq<Message>, x: nat)
    requires x < |sent| && Usable(sent[x])
  {
    forall y: nat :: y < |sent| && y != x && sent[y].id != "" && sent[y].date.Some?
                     && sent[y].thread == sent[x].thread ==>
      || sent[y].date.value < sent[x].date.value
      || (sent[y].date == sent[x].date && x < y)
  }

  /** The specification: which sent messages await a reply. */
  ghost predicate Quiet(sent: seq<Message>, inbound: seq<Message>, x: nat)
    requires x < |sent|
  {
    && sent[x].id != "" && sent[x].date.Some?
    && (sent[x].thread != "" ==> LastWord(sent, x) && !Answered(sent[x], inbound))
  }

  /** Whole days since, none for a message dated ahead. */
  function DaysWaited(m: Message, now: int): (days: int)
    requires m.date.Some?
    ensures now < m.date.value + DAY ==> days == 0
    ensures now >= m.date.value ==> days * DAY <= now - m.date.value < (days + 1) * DAY
  {
    var days := (now - m.date.value) / DAY;
    if days < 0 then 0 else days
  }

  /** The quiet messages among the positions `p`, in that order. */
  ghost function Report(sent: seq<Message>, inbound: seq<Message>, now: int, p: seq<nat>): seq<(Message, int)>
    requires forall k :: 0 <= k < |p| ==> p[k] < |sent|
  {
    if p == [] then []
    else
      var x := p[|p| - 1];
      Report(sent, inbound, now, p[..|p| - 1])
      + if Quiet(sent, inbound, x) then [(sent[x], DaysWaited(sent[x], now))] else []
  }

  lemma NewestFirstOrders(now: int)
    ensures TotalPreorder(NewestFirst(now))
  {
  }

  /** In a newest-first order, a thread's first usable message is its last word. */
  lemma FirstIsLastWord(sent: seq<Message>, now: int, p: seq<nat>, k: nat)
    requires IsPermutation(p, |sent|) && (forall x: nat :: x in p <==> x < |sent|)
    requires Ordered(NewestFirst(now), sent, p)
    requires k < |p| && Usable(sent[p[k]])
    ensures LastWord(sent, p[k]) <==>
              forall j :: 0 <= j < k && Usable(sent[p[j]]) ==> sent[p[j]].thread != sent[p[k]].thread
  {
    var le := NewestFirst(now);
    if LastWord(sent, p[k]) {
      forall j | 0 <= j < k && Usable(sent[p[j]]) ensures sent[p[j]].thread != sent[p[k]].thread {
        assert Before(le, sent, p[j], p[k]);
      }
    }
    if forall j :: 0 <= j < k && Usable(sent[p[j]]) ==> sent[p[j]].thread != sent[p[k]].thread {
      forall y: nat | y < |sent| && y != p[k] && Usable(sent[y]) && sent[y].thread == sent[p[k]].thread
        ensures sent[y].date.value < sent[p[k]].date.value || (sent[y].date == sent[p[k]].date && p[k] < y)
      {
        assert y in p;
        var j :| 0 <= j < |p| && p[j] == y;
        assert k < j;
        assert Before(le, sent, p[k], p[j]);
      }
    }
  }

  /** Threads of the usable messages among the first `k` of the order `p`. */
  function Threads(sent: seq<Message>, p: seq<nat>, k: nat): set<string>
    requires k <= |p| && forall i :: 0 <= i < |p| ==> p[i] < |sent|
  {
    set j | 0 <= j < k && Usable(sent[p[j]]) && sent[p[j]].thread != "" :: sent[p[j]].thread
  }

  /** The tests the loop makes amount to the specification. */
  lemma QuietHere(sent: seq<Message>, inbound: seq<Message>, now: int, latest: map<string, int>, p: seq<nat>, k: nat)
    requires NewestOrder(sent, now, p) && k < |p| && Usable(sent[p[k]]) && IsLatest(latest, inbound)
    ensures var e := sent[p[k]];
            Quiet(sent, inbound, p[k])
            <==> e.thread == "" || (e.thread !in Threads(sent, p, k)
                                    && !(e.thread in latest && latest[e.thread] > e.date.value))
  {
    var e := sent[p[k]];
    FirstIsLastWord(sent, now, p, k);
    assert e.thread != "" ==> (Answered(e, inbound) <==> e.thread in latest && latest[e.thread] > e.date.value);
  }

  lemma ReportStep(sent: seq<Message>, inbound: seq<Message>, now: int, p: seq<nat>, k: nat)
    requires k < |p| && forall i :: 0 <= i < |p| ==> p[i] < |sent|
    ensures Report(sent, inbound, now, p[..k + 1])
            == Report(sent, inbound, now, p[..k])
               + if Quiet(sent, inbound, p[k]) then [(sent[p[k]], DaysWaited(sent[p[k]], now))] else []
  {
    assert p[..k + 1][..k] == p[..k];
  }

  /** `p` lists all positions of `sent`, newest first. */
  ghost predicate NewestOrder(sent: seq<Message>, now: int, p: seq<nat>) {
    && IsPermutation(p, |sent|) && (forall x: nat :: x in p <==> x < |sent|)
    && Ordered(NewestFirst(now), sent, p)
  }

  /** The loop over the sorted list. */
  method PickQuiet(sent: seq<Message>, inbound: seq<Message>, now: int, latest: map<string, int>, p: seq<nat>)
    returns (quiet: seq<(Message, int)>)
    requires NewestOrder(sent, now, p) && IsLatest(latest, inbound)
    ensures quiet == Report(sent, inbound, now, p)
  {
    quiet := [];
    var seen: set<string> := {};
    for k := 0 to |p|
      invariant seen == Threads(sent, p, k)
      invariant quiet == Report(sent, inbound, now, p[..k])
    {
      var e := sent[p[k]];
      ReportStep(sent, inbound, now, p, k);
      if e.id == "" || e.date.None? { continue; }
      QuietHere(sent, inbound, now, latest, p, k);
      if e.thread != "" {
        if e.thread in seen { continue; }
        seen := seen + {e.thread};
        if e.thread in latest && latest[e.thread] > e.date.value { continue; }
      }
      quiet := quiet + [(e, DaysWaited(e, now))];
    }
    assert p[..|p|] == p;
  }

  method FindQuietThreads(sent: seq<Message>, inbound: seq<Message>, now: int) returns (quiet: seq<(Message, int)>)
    ensures quiet == Report(sent, inbound, now, Order(NewestFirst(now), sent))
  {
    var latest := LatestInbound(inbound);
    NewestFirstOrders(now);
    OrderSorts(NewestFirst(now), sent);
    quiet := PickQuiet(sent, inbound, now, latest, Order(NewestFirst(now), sent));
  }

  /** Where in `p` the quiet messages stand. */
  ghost function Places(sent: seq<Message>, inbound: seq<Message>, p: seq<nat>): (at: seq<nat>)
    requires forall k :: 0 <= k < |p| ==> p[k] < |sent|
    ensures forall k: nat :: k in at <==> k < |p| && Quiet(sent, inbound, p[k])
    ensures forall i, j :: 0 <= i < j < |at| ==> at[i] < at[j]
  {
    if p == [] then []
    else
      var last: nat := |p| - 1;
      var before := Places(sent, inbound, p[..last]);
      assert forall k: nat :: k < last ==> p[..last][k] == p[k];
      assert forall i :: 0 <= i < |before| ==> before[i] in before;
      if Quiet(sent, inbound, p[last]) then before + [last] else before
  }

  lemma {:induction false} ReportAtPlaces(sent: seq<Message>, inbound: seq<Message>, now: int, p: seq<nat>)
    requires forall k :: 0 <= k < |p| ==> p[k] < |sent|
    ensures var r, at := Report(sent, inbound, now, p), Places(sent, inbound, p);
            && |r| == |at|
            && forall i :: 0 <= i < |r| ==> at[i] in at && r[i] == (sent[p[at[i]]], DaysWaited(sent[p[at[i]]], now))
  {
    if p != [] {
      ReportAtPlaces(sent, inbound, now, p[..|p| - 1]);
    }
  }

  ghost predicate Reported(sent: seq<Message>, inbound: seq<Message>, now: int, entry: (Message, int)) {
    exists x: nat :: x < |sent| && Quiet(sent, inbound, x) && entry == (sent[x], DaysWaited(sent[x], now))
  }

  /** `x` is no older than `y` and not in its thread. */
  predicate NewerElsewhere(x: Message, y: Message) {
    && x.date.Some? && y.date.Some? && x.date.value >= y.date.value
    && (x.thread != "" ==> x.thread != y.thread)
  }

  /** Exactly the quiet messages are reported, one per thread, newest first; distinct ids stay distinct. */
  lemma QuietExact(sent: seq<Message>, inbound: seq<Message>, now: int)
    ensures var r := Report(sent, inbound, now, Order(NewestFirst(now), sent));
            && (forall x: nat :: x < |sent| && Quiet(sent, inbound, x) ==> (sent[x], DaysWaited(sent[x], now)) in r)
            && (forall i :: 0 <= i < |r| ==> Reported(sent, inbound, now, r[i]))
            && (forall i, j :: 0 <= i < j < |r| ==> NewerElsewhere(r[i].0, r[j].0))
            && (DistinctIds(sent) ==> forall i, j :: 0 <= i < j < |r| ==> r[i].0.id != r[j].0.id)
  {
    var le := NewestFirst(now);
    NewestFirstOrders(now);
    OrderSorts(le, sent);
    var p := Order(le, sent);
    var at, r := Places(sent, inbound, p), Report(sent, inbound, now, p);
    ReportAtPlaces(sent, inbound, now, p);
    forall x: nat | x < |sent| && Quiet(sent, inbound, x) ensures (sent[x], DaysWaited(sent[x], now)) in r {
      assert x in p;
      var k: nat :| k < |p| && p[k] == x;
      assert k in at;
      var i :| 0 <= i < |at| && at[i] == k;
      assert r[i] == (sent[x], DaysWaited(sent[x], now));
    }
    forall i | 0 <= i < |r| ensures Reported(sent, inbound, now, r[i]) {
      assert at[i] in at;
    }
    forall i, j | 0 <= i < j < |r| ensures NewerElsewhere(r[i].0, r[j].0) {
      PlacesApart(sent, inbound, now, p, at[i], at[j]);
    }
    if DistinctIds(sent) {
      forall i, j | 0 <= i < j < |r| ensures r[i].0.id != r[j].0.id {
        var x, y := p[at[i]], p[at[j]];
        assert x != y;
        assert if x < y then sent[x].id != sent[y].id else sent[y].id != sent[x].id;
      }
    }
  }

  lemma PlacesApart(sent: seq<Message>, inbound: seq<Message>, now: int, p: seq<nat>, j: nat, k: nat)
    requires IsPermutation(p, |sent|) && Ordered(NewestFirst(now), sent, p) && j < k < |p|
    requires Quiet(sent, inbound, p[j]) && Quiet(sent, inbound, p[k])
    ensures NewerElsewhere(sent[p[j]], sent[p[k]])
  {
    assert Before(NewestFirst(now), sent, p[j], p[k]);
  }
}
