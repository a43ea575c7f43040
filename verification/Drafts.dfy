/** The draft passes over one mailbox whose only memory is the drafted marker.

    Every remote call can fail, before or after taking effect; a `Fate` says how one draft call goes. */
module Drafts {
  import opened Wrappers
  import opened Mail
  import FollowUp
  import Ordering
  import G = GoogleClient

  const LOOKBACK_DAYS := 2
  const SWEEP_SAFETY_CEILING := 200
  const FETCH_ALL_CAP := 300
  const MAX_CANDIDATES := 25
  const LOOKBACK_EXTRA_DAYS := 14
  const MAX_PER_SWEEP := 5

  datatype MarkFate = Marks | FailsToMark | MarksThenRaises

  /** How one draft call goes. `raisesEarly` covers everything before the create request. */
  datatype Fate = Fate(
    entitled: bool, recipient: bool, raisesEarly: bool, shouldDraft: bool,
    world: nat -> G.Attempt, refreshOk: bool, mark: MarkFate, hasId: bool, meters: bool)

  datatype Reply = Raised | NoDraft | Drafted(hasId: bool)

  /** The mailbox and the tallies: drafts created per source message, the marker, and what went wrong. */
  datatype Box = Box(
    messages: seq<Message>, marked: set<string>, drafts: multiset<string>,
    failed: multiset<string>, lost: multiset<string>, lifted: multiset<string>,
    unmarked: nat, nameless: nat, metered: nat, unmetered: nat)

  /** Drafts of a message not explained by a failed marking, a lost response or a lifted marker. */
  function Owed(b: Box, id: string): int {
    b.drafts[id] as int - b.failed[id] as int - b.lost[id] as int - b.lifted[id] as int
  }

  /** The conservation law of the whole pipeline. */
  ghost predicate Sound(b: Box) {
    forall id :: Owed(b, id) <= if id in b.marked then 1 else 0
  }

  /** Every draft made is counted by the pass, or nameless, unmarked, or lost; and metering follows creation. */
  ghost predicate Tallied(b: Box, a: Box, created: int) {
    && |a.drafts| - |b.drafts|
       == created + (a.nameless - b.nameless) + (a.unmarked - b.unmarked) + (|a.lost| - |b.lost|)
    && (a.metered - b.metered) + (a.unmetered - b.unmetered) == created + (a.nameless - b.nameless)
    && a.nameless >= b.nameless && a.unmarked >= b.unmarked && |a.lost| >= |b.lost|
  }

  /** Only the messages `ids` may have gained drafts or the marker. */
  ghost predicate Touches(b: Box, a: Box, ids: set<string>) {
    && a.messages == b.messages && a.lifted == b.lifted && b.marked <= a.marked <= b.marked + ids
    && forall x :: x !in ids ==> a.drafts[x] == b.drafts[x] && Owed(a, x) == Owed(b, x)
  }

  /** One draft call for `id`: at most one unexplained draft, and then the marker is on. */
  ghost predicate CallEffect(b: Box, a: Box, id: string) {
    && Touches(b, a, {id})
    && Owed(a, id) <= Owed(b, id) + 1
    && (Owed(a, id) > Owed(b, id) ==> id in a.marked)
  }

  // ----- one draft call -----------------------------------------------------

  function MarkedBox(b: Box, id: string, fate: MarkFate): Box {
    b.(marked := b.marked + if fate.FailsToMark? then {} else {id},
       failed := b.failed + if fate.Marks? then multiset{} else multiset{id})
  }

  /** Every request Google carried out made a draft; the marker comes after, the meter last. */
  function CreatedBox(b: Box, id: string, f: Fate): Box {
    var (out, sent) := G.Once(f.world, f.refreshOk);
    var n := G.Effects(f.world, sent);
    var made := b.(drafts := b.drafts[id := b.drafts[id] + n]);
    if !out.Ok? then made.(lost := b.lost[id := b.lost[id] + n])
    else
      var marked := MarkedBox(made, id, f.mark);
      if !f.mark.Marks? then marked.(unmarked := b.unmarked + 1)
      else
        marked.(metered := b.metered + if f.meters then 1 else 0,
                unmetered := b.unmetered + if f.meters then 0 else 1,
                nameless := b.nameless + if f.hasId then 0 else 1)
  }

  function CreatedReply(f: Fate): Reply {
    if G.Once(f.world, f.refreshOk).0.Ok? && f.mark.Marks? then Drafted(f.hasId) else Raised
  }

  /** A draft call past its configuration gate: mail the model declines is marked too. */
  function AfterCall(b: Box, id: string, f: Fate): Box {
    if !f.entitled || !f.recipient || f.raisesEarly then b
    else if !f.shouldDraft then MarkedBox(b, id, f.mark)
    else CreatedBox(b, id, f)
  }

  function ReplyOf(f: Fate): Reply {
    if !f.entitled || !f.recipient then NoDraft
    else if f.raisesEarly then Raised
    else if !f.shouldDraft then if f.mark.Marks? then NoDraft else Raised
    else CreatedReply(f)
  }

  function Counts(f: Fate): nat { if ReplyOf(f) == Drafted(true) then 1 else 0 }

  /** One call leaves at most one unexplained draft, and then the marker is on. */
  lemma OneCall(b: Box, id: string, f: Fate)
    requires G.Honest(f.world)
    ensures CallEffect(b, AfterCall(b, id, f), id) && Tallied(b, AfterCall(b, id, f), Counts(f))
  {
    var (out, sent) := G.Once(f.world, f.refreshOk);
    G.OnceAtMostOnce(f.world, f.refreshOk);
    var n := G.Effects(f.world, sent);
    assert |b.drafts[id := b.drafts[id] + n]| == |b.drafts| + n && |b.lost[id := b.lost[id] + n]| == |b.lost| + n;
  }

  /** What one call does, by how it goes: nothing without a plan or a recipient, or if it fails before the create;
      declined mail is only marked; else each create that Google carried out makes a draft, and only one whose
      answer arrives is followed by the marker. */
  lemma CallExactly(b: Box, id: string, f: Fate)
    ensures var a := AfterCall(b, id, f);
            && (!f.entitled || !f.recipient || f.raisesEarly ==> a == b)
            && (f.entitled && f.recipient && !f.raisesEarly && !f.shouldDraft ==>
                  a == b.(marked := a.marked, failed := a.failed))
            && (f.entitled && f.recipient && !f.raisesEarly && f.shouldDraft ==>
                  var (out, sent) := G.Once(f.world, f.refreshOk);
                  && a.drafts[id] == b.drafts[id] + G.Effects(f.world, sent)
                  && (forall x :: x != id ==> a.drafts[x] == b.drafts[x])
                  && (!out.Ok? ==> a.marked == b.marked && a.failed == b.failed))
            && (a.marked == b.marked || (a.marked == b.marked + {id} && f.mark != FailsToMark))
            && (a.failed == b.failed || (a.failed == b.failed + multiset{id} && f.mark != Marks))
    ensures f.entitled && f.recipient && !f.raisesEarly && !f.shouldDraft ==>
              && (id in AfterCall(b, id, f).marked <==> id in b.marked || f.mark != FailsToMark)
              && AfterCall(b, id, f).failed == b.failed + if f.mark == Marks then multiset{} else multiset{id}
    ensures ReplyOf(f) == NoDraft
            <==> !f.entitled || !f.recipient || (!f.raisesEarly && !f.shouldDraft && f.mark == Marks)
    ensures ReplyOf(f) == Drafted(f.hasId)
            <==> && f.entitled && f.recipient && !f.raisesEarly && f.shouldDraft
                 && G.Once(f.world, f.refreshOk).0.Ok? && f.mark == Marks
    ensures ReplyOf(f) in {NoDraft, Drafted(f.hasId), Raised}
  {
  }

  datatype Config = Config(isEnabled: bool, categoryKeys: set<string>, followUpEnabled: bool, followUpDays: int)

  datatype Category = Category(key: string, gmailLabel: string, isEnabled: bool)

  /** Which reads succeed during one pass, and the clock. */
  datatype Weather = Weather(fetchOk: string -> bool, readable: string -> bool, now: int)

  // ----- queries ------------------------------------------------------------

  function Select(messages: seq<Message>, p: Message -> bool): (r: seq<Message>)
    ensures forall m :: m in r <==> m in messages && p(m)
    ensures DistinctIds(messages) ==> DistinctIds(r)
  {
    if messages == [] then []
    else
      var last := |messages| - 1;
      var front := Select(messages[..last], p);
      assert forall m :: m in messages <==> m in messages[..last] || m == messages[last];
      assert DistinctIds(messages) ==> forall m :: m in messages[..last] ==> m.id != messages[last].id;
      assert forall k :: 0 <= k < |front| ==> front[k] in front;
      if p(messages[last]) then front + [messages[last]] else front
  }

  predicate Candidate(m: Message, gmailLabel: string, marked: set<string>) {
    && gmailLabel in m.labels && m.ageDays < LOOKBACK_DAYS && m.toMe
    && !m.sent && !m.draft && m.id !in marked
  }

  predicate SentCandidate(m: Message, days: int, marked: set<string>) {
    m.sent && days <= m.ageDays < days + LOOKBACK_EXTRA_DAYS && m.id !in marked
  }

  function First(s: seq<Message>, cap: nat): seq<Message> { if cap < |s| then s[..cap] else s }

  /** `fetch_by_query`: list up to `cap` ids, then keep those that could be read. */
  function Fetch(messages: seq<Message>, query: Message -> bool, cap: nat, readable: string -> bool): (r: seq<Message>)
    ensures forall m :: m in r ==> m in messages && query(m)
    ensures DistinctIds(messages) ==> DistinctIds(r)
  {
    var found := Select(messages, query);
    Select(First(found, cap), (m: Message) => readable(m.id))
  }

  /** Threads the user already sent into; a failed lookup skips no thread. */
  function RepliedThreads(messages: seq<Message>, w: Weather): set<string> {
    if w.fetchOk("in:sent") then
      set m | m in Fetch(messages, (m: Message) => m.sent && m.ageDays < LOOKBACK_DAYS, FETCH_ALL_CAP, w.readable)
              && m.thread != "" :: m.thread
    else {}
  }

  /** What a scheduled pass may draft for: unmarked, unanswered mail in a chosen, enabled category. */
  ghost function Eligible(b: Box, config: Config, categories: seq<Category>, replied: set<string>): set<string> {
    set m, c | m in b.messages && c in categories && c.key in config.categoryKeys && c.isEnabled
               && Candidate(m, c.gmailLabel, b.marked) && m.id != "" && m.thread !in replied :: m.id
  }

  lemma QuietFresh(sent: seq<Message>, inbound: seq<Message>, now: int, quiet: seq<(Message, int)>)
    requires DistinctIds(sent)
    requires quiet == FollowUp.Report(sent, inbound, now, Ordering.Order(FollowUp.NewestFirst(now), sent))
    ensures forall k :: 0 <= k < |quiet| ==> quiet[k].0 in sent
    ensures forall j, k :: 0 <= j < k < |quiet| ==> quiet[j].0.id != quiet[k].0.id
  {
    FollowUp.QuietExact(sent, inbound, now);
    forall k | 0 <= k < |quiet| ensures quiet[k].0 in sent {
      assert FollowUp.Reported(sent, inbound, now, quiet[k]);
    }
  }

  function EffectiveLimit(budget: Option<int>, maxPerSweep: int): (limit: int)
    ensures maxPerSweep >= 0 ==> 0 <= limit <= maxPerSweep
    ensures budget.Some? && budget.value >= 0 ==> limit <= budget.value
    ensures budget.None? ==> limit == maxPerSweep
    ensures maxPerSweep >= 0 && budget.Some? ==>
              limit == if budget.value <= 0 then 0
                       else if budget.value <= maxPerSweep then budget.value else maxPerSweep
  {
    match budget
    case None => maxPerSweep
    case Some(left) => var room := if left < 0 then 0 else left; if maxPerSweep < room then maxPerSweep else room
  }

  // ----- the passes ---------------------------------------------------------

  /** A pass under way: draft calls made so far, the mailbox, and its count of drafts. */
  datatype Pass = Pass(calls: nat, box: Box, created: int)

  predicate Gate(config: Config, categoryKey: string) {
    config.isEnabled && categoryKey != "" && categoryKey in config.categoryKeys
  }

  function Try(p: Pass, id: string, fates: nat -> Fate): Pass {
    var f := fates(p.calls);
    Pass(p.calls + 1, AfterCall(p.box, id, f), p.created + Counts(f))
  }

  /** Draft for the messages `ids` in turn, until the limit is reached. */
  function TryAll(p: Pass, ids: seq<string>, limit: int, fates: nat -> Fate): Pass {
    if ids == [] then p
    else
      var q := TryAll(p, ids[..|ids| - 1], limit, fates);
      if q.created >= limit then q else Try(q, ids[|ids| - 1], fates)
  }

  /** Ids of the fetched mail a scheduled pass tries: identified, and not in an answered thread. */
  function Wanted(emails: seq<Message>, replied: set<string>): (r: seq<string>)
    ensures forall id :: id in r <==>
              exists m :: m in emails && m.id == id && id != "" && !(m.thread != "" && m.thread in replied)
  {
    if emails == [] then []
    else
      var last := |emails| - 1;
      var m := emails[last];
      assert forall x :: x in emails <==> x in emails[..last] || x == m;
      Wanted(emails[..last], replied) + if m.id == "" || (m.thread != "" && m.thread in replied) then [] else [m.id]
  }

  function InCategory(b: Box, c: Category, w: Weather): seq<Message> {
    Fetch(b.messages, (m: Message) => Candidate(m, c.gmailLabel, b.marked), FETCH_ALL_CAP, w.readable)
  }

  /** One category after another, each fetched when its turn comes. */
  function SweepAll(p: Pass, config: Config, categories: seq<Category>, replied: set<string>, limit: int, w: Weather,
                    fates: nat -> Fate): Pass
  {
    if categories == [] then p
    else
      var c := categories[|categories| - 1];
      var q := SweepAll(p, config, categories[..|categories| - 1], replied, limit, w, fates);
      if c.key !in config.categoryKeys || !c.isEnabled || q.created >= limit || !w.fetchOk(c.gmailLabel) then q
      else if !Gate(config, c.key) then q
      else TryAll(q, Wanted(InCategory(q.box, c, w), replied), limit, fates)
  }

  function Swept(b: Box, calls: nat, config: Config, categories: seq<Category>, budget: Option<int>, w: Weather,
                 fates: nat -> Fate): Pass
  {
    var limit := EffectiveLimit(budget, SWEEP_SAFETY_CEILING);
    if limit <= 0 then Pass(calls, b, 0)
    else SweepAll(Pass(calls, b, 0), config, categories, RepliedThreads(b.messages, w), limit, w, fates)
  }

  function SentMail(b: Box, config: Config, w: Weather): seq<Message> {
    Fetch(b.messages, (m: Message) => SentCandidate(m, config.followUpDays, b.marked), MAX_CANDIDATES, w.readable)
  }

  function InboundMail(b: Box, config: Config, w: Weather): seq<Message> {
    var days := config.followUpDays + LOOKBACK_EXTRA_DAYS;
    Fetch(b.messages, (m: Message) => !m.sent && m.ageDays < days, FETCH_ALL_CAP, w.readable)
  }

  ghost function QuietReport(b: Box, config: Config, w: Weather): seq<(Message, int)> {
    var sent := SentMail(b, config, w);
    FollowUp.Report(sent, InboundMail(b, config, w), w.now, Ordering.Order(FollowUp.NewestFirst(w.now), sent))
  }

  function QuietIds(quiet: seq<(Message, int)>): (r: seq<string>)
    ensures |r| == |quiet| && forall k :: 0 <= k < |r| ==> r[k] == quiet[k].0.id
  {
    seq(|quiet|, k requires 0 <= k < |quiet| => quiet[k].0.id)
  }

  ghost function Nudged(b: Box, calls: nat, config: Config, budget: Option<int>, w: Weather, fates: nat -> Fate): Pass {
    var limit := EffectiveLimit(budget, MAX_PER_SWEEP);
    if !config.followUpEnabled || !config.isEnabled || limit <= 0
       || !w.fetchOk("in:sent") || !w.fetchOk("-in:sent") then
      Pass(calls, b, 0)
    else TryAll(Pass(calls, b, 0), QuietIds(QuietReport(b, config, w)), limit, fates)
  }

  // ----- what a pass keeps --------------------------------------------------

  ghost predicate HonestFates(fates: nat -> Fate) { forall n: nat :: G.Honest(fates(n).world) }

  function Ids(ids: seq<string>): set<string> { set id | id in ids }

  lemma TouchesJoin(b0: Box, b1: Box, b2: Box, ids: set<string>, some: set<string>)
    requires Touches(b0, b1, ids) && Touches(b1, b2, some)
    ensures Touches(b0, b2, ids + some)
  {
  }

  /** The law holds through any list of distinct, unmarked messages, whatever becomes of each call;
      and the count never passes the limit, nor claims a draft that was not made. */
  lemma {:induction false} TryAllSafe(p: Pass, ids: seq<string>, limit: int, fates: nat -> Fate)
    requires HonestFates(fates) && Sound(p.box) && AllDistinct(ids) && p.created <= limit
    requires forall id :: id in ids ==> id !in p.box.marked
    ensures var q := TryAll(p, ids, limit, fates);
            && Sound(q.box) && p.created <= q.created <= limit
            && Tallied(p.box, q.box, q.created - p.created) && Touches(p.box, q.box, Ids(ids))
  {
    if ids != [] {
      var front, id := ids[..|ids| - 1], ids[|ids| - 1];
      TryAllSafe(p, front, limit, fates);
      var q := TryAll(p, front, limit, fates);
      assert Ids(ids) == Ids(front) + {id};
      if q.created < limit {
        var r := Try(q, id, fates);
        OneCall(q.box, id, fates(q.calls));
        assert id !in Ids(front);
        assert Owed(q.box, id) == Owed(p.box, id) <= 0;
        CallKeeps(q.box, r.box, id);
        TouchesJoin(p.box, q.box, r.box, Ids(front), {id});
      }
    }
  }

  lemma CallKeeps(b: Box, a: Box, id: string)
    requires Sound(b) && Owed(b, id) <= 0 && CallEffect(b, a, id)
    ensures Sound(a)
  {
  }

  lemma {:induction false} WantedDistinct(emails: seq<Message>, replied: set<string>)
    requires DistinctIds(emails)
    ensures AllDistinct(Wanted(emails, replied))
  {
    if emails != [] {
      var last := |emails| - 1;
      WantedDistinct(emails[..last], replied);
      var front := Wanted(emails[..last], replied);
      assert forall k :: 0 <= k < |front| ==> front[k] in front;
      assert forall m :: m in emails[..last] ==> m.id != emails[last].id;
    }
  }

  lemma {:induction false} SweepAllSafe(p: Pass, config: Config, categories: seq<Category>, replied: set<string>,
                                        limit: int, w: Weather, fates: nat -> Fate)
    requires HonestFates(fates) && Sound(p.box) && DistinctIds(p.box.messages) && p.created <= limit && "" !in replied
    ensures var q := SweepAll(p, config, categories, replied, limit, w, fates);
            && Sound(q.box) && p.created <= q.created <= limit
            && Tallied(p.box, q.box, q.created - p.created)
            && Touches(p.box, q.box, Eligible(p.box, config, categories, replied))
  {
    if categories != [] {
      var front, c := categories[..|categories| - 1], categories[|categories| - 1];
      SweepAllSafe(p, config, front, replied, limit, w, fates);
      var q := SweepAll(p, config, front, replied, limit, w, fates);
      var ids := Wanted(InCategory(q.box, c, w), replied);
      EligibleGrows(p.box, config, categories, replied);
      TouchesMore(p.box, q.box, Eligible(p.box, config, front, replied), Eligible(p.box, config, categories, replied));
      if c.key in config.categoryKeys && c.isEnabled {
        WantedDistinct(InCategory(q.box, c, w), replied);
        WantedEligible(p.box, q.box, config, categories, c, replied, w);
        TryAllSafe(q, ids, limit, fates);
        var r := TryAll(q, ids, limit, fates);
        TouchesJoin(p.box, q.box, r.box, Eligible(p.box, config, categories, replied), Ids(ids));
        assert Eligible(p.box, config, categories, replied) + Ids(ids) == Eligible(p.box, config, categories, replied);
      }
    }
  }

  lemma EligibleGrows(b: Box, config: Config, categories: seq<Category>, replied: set<string>)
    requires categories != []
    ensures Eligible(b, config, categories[..|categories| - 1], replied) <= Eligible(b, config, categories, replied)
  {
  }

  lemma TouchesMore(b: Box, a: Box, ids: set<string>, more: set<string>)
    requires Touches(b, a, ids) && ids <= more
    ensures Touches(b, a, more)
  {
  }

  lemma WantedEligible(b: Box, now: Box, config: Config, categories: seq<Category>, c: Category,
                       replied: set<string>, w: Weather)
    requires now.messages == b.messages && b.marked <= now.marked && c in categories && "" !in replied
    requires c.key in config.categoryKeys && c.isEnabled
    ensures Ids(Wanted(InCategory(now, c, w), replied)) <= Eligible(b, config, categories, replied)
    ensures forall id :: id in Wanted(InCategory(now, c, w), replied) ==> id !in now.marked
  {
  }

  /** One scheduled pass: safe, within its limit, and confined to unmarked, unanswered mail in chosen categories. */
  lemma SweepSafe(b: Box, calls: nat, config: Config, categories: seq<Category>, budget: Option<int>, w: Weather,
                  fates: nat -> Fate)
    requires HonestFates(fates) && Sound(b) && DistinctIds(b.messages)
    ensures var q := Swept(b, calls, config, categories, budget, w, fates);
            && Sound(q.box) && 0 <= q.created <= EffectiveLimit(budget, SWEEP_SAFETY_CEILING)
            && Tallied(b, q.box, q.created)
            && Touches(b, q.box, Eligible(b, config, categories, RepliedThreads(b.messages, w)))
  {
    var limit := EffectiveLimit(budget, SWEEP_SAFETY_CEILING);
    if limit > 0 {
      SweepAllSafe(Pass(calls, b, 0), config, categories, RepliedThreads(b.messages, w), limit, w, fates);
    }
  }

  /** One nudge pass: the same, confined to unmarked sent mail of the window. */
  lemma NudgeSafe(b: Box, calls: nat, config: Config, budget: Option<int>, w: Weather, fates: nat -> Fate)
    requires HonestFates(fates) && Sound(b) && DistinctIds(b.messages)
    ensures var q := Nudged(b, calls, config, budget, w, fates);
            && Sound(q.box) && 0 <= q.created <= EffectiveLimit(budget, MAX_PER_SWEEP)
            && Tallied(b, q.box, q.created)
            && Touches(b, q.box, Nudgeable(b, config))
  {
    var limit := EffectiveLimit(budget, MAX_PER_SWEEP);
    var ids := QuietIds(QuietReport(b, config, w));
    QuietIdsFresh(b, config, w);
    if limit > 0 {
      TryAllSafe(Pass(calls, b, 0), ids, limit, fates);
      TouchesMore(b, TryAll(Pass(calls, b, 0), ids, limit, fates).box, Ids(ids), Nudgeable(b, config));
    }
  }

  /** What a nudge pass may draft for: unmarked sent mail of its window. */
  ghost function Nudgeable(b: Box, config: Config): set<string> {
    set m | m in b.messages && SentCandidate(m, config.followUpDays, b.marked) :: m.id
  }

  lemma QuietIdsFresh(b: Box, config: Config, w: Weather)
    requires DistinctIds(b.messages)
    ensures var ids := QuietIds(QuietReport(b, config, w));
            AllDistinct(ids) && forall id :: id in ids ==> id in Nudgeable(b, config) && id !in b.marked
  {
    var sent, inbound := SentMail(b, config, w), InboundMail(b, config, w);
    var quiet := QuietReport(b, config, w);
    var ids := QuietIds(quiet);
    QuietFresh(sent, inbound, w.now, quiet);
    forall id | id in ids ensures id in Nudgeable(b, config) && id !in b.marked {
      var k :| 0 <= k < |ids| && ids[k] == id;
      assert quiet[k].0 in sent;
    }
  }

  // ----- whom a pass reaches ------------------------------------------------

  /** How many of the first `k` messages match a query. */
  function Rank(messages: seq<Message>, k: nat, query: Message -> bool): nat
    requires k <= |messages|
  {
    if k == 0 then 0 else Rank(messages, k - 1, query) + if query(messages[k - 1]) then 1 else 0
  }

  /** Message `k` is among the first `cap` that match the query, and can be read. */
  predicate Within(messages: seq<Message>, k: nat, query: Message -> bool, cap: nat, readable: string -> bool) {
    k < |messages| && query(messages[k]) && Rank(messages, k, query) < cap && readable(messages[k].id)
  }

  lemma {:induction false} RankPrefix(messages: seq<Message>, n: nat, k: nat, query: Message -> bool)
    requires k <= n <= |messages|
    ensures Rank(messages[..n], k, query) == Rank(messages, k, query)
  {
    if k > 0 { RankPrefix(messages, n, k - 1, query); }
  }

  /** A match stands in the selection at its rank. */
  lemma {:induction false} SelectAt(messages: seq<Message>, query: Message -> bool, k: nat)
    requires k < |messages| && query(messages[k])
    ensures |Select(messages, query)| == Rank(messages, |messages|, query) > Rank(messages, k, query)
    ensures Select(messages, query)[Rank(messages, k, query)] == messages[k]
  {
    var last := |messages| - 1;
    SelectSize(messages, query);
    RankPrefix(messages, last, k, query);
    RankPrefix(messages, last, last, query);
    if k < last {
      SelectAt(messages[..last], query, k);
    } else {
      SelectSize(messages[..last], query);
    }
  }

  lemma {:induction false} SelectSize(messages: seq<Message>, query: Message -> bool)
    ensures |Select(messages, query)| == Rank(messages, |messages|, query)
  {
    if messages != [] {
      var last := |messages| - 1;
      var front := messages[..last];
      SelectSize(front, query);
      RankPrefix(messages, last, last, query);
      assert |Select(messages, query)| == |Select(front, query)| + if query(messages[last]) then 1 else 0;
    }
  }

  /** What a fetch reads is exactly the readable mail among the first matches. */
  lemma FetchReaches(messages: seq<Message>, k: nat, query: Message -> bool, cap: nat, readable: string -> bool)
    requires Within(messages, k, query, cap, readable)
    ensures messages[k] in Fetch(messages, query, cap, readable)
  {
    SelectAt(messages, query, k);
    var found := Select(messages, query);
    assert First(found, cap)[Rank(messages, k, query)] == messages[k];
  }

  /** Sent into by the user within the last two days, as far as the lookup reads. */
  ghost predicate AnsweredByHand(messages: seq<Message>, w: Weather, thread: string) {
    && w.fetchOk("in:sent") && thread != ""
    && exists k: nat :: Within(messages, k, (m: Message) => m.sent && m.ageDays < 2, 300, w.readable)
                        && messages[k].thread == thread
  }

  lemma AnsweredReplied(messages: seq<Message>, w: Weather, thread: string)
    requires AnsweredByHand(messages, w, thread)
    ensures thread in RepliedThreads(messages, w)
  {
    var k: nat :| Within(messages, k, (m: Message) => m.sent && m.ageDays < 2, 300, w.readable)
                  && messages[k].thread == thread;
    RankSame(messages, k, (m: Message) => m.sent && m.ageDays < 2, (m: Message) => m.sent && m.ageDays < LOOKBACK_DAYS);
    FetchReaches(messages, k, (m: Message) => m.sent && m.ageDays < LOOKBACK_DAYS, FETCH_ALL_CAP, w.readable);
  }

  lemma {:induction false} RankSame(messages: seq<Message>, k: nat, p: Message -> bool, q: Message -> bool)
    requires k <= |messages| && forall m :: p(m) == q(m)
    ensures Rank(messages, k, p) == Rank(messages, k, q)
  {
    if k > 0 { RankSame(messages, k - 1, p, q); }
  }

  /** A scheduled pass leaves every thread alone that the user has answered. */
  lemma AnsweredSpared(b: Box, calls: nat, config: Config, categories: seq<Category>, budget: Option<int>, w: Weather,
                       fates: nat -> Fate, m: Message)
    requires HonestFates(fates) && Sound(b) && DistinctIds(b.messages)
    requires m in b.messages && AnsweredByHand(b.messages, w, m.thread)
    ensures var a := Swept(b, calls, config, categories, budget, w, fates).box;
            a.drafts[m.id] == b.drafts[m.id] && (m.id in a.marked <==> m.id in b.marked)
  {
    SweepSafe(b, calls, config, categories, budget, w, fates);
    AnsweredReplied(b.messages, w, m.thread);
    forall x | x in b.messages && x.id == m.id ensures x == m { SameMessage(b.messages, x, m); }
    assert m.id !in Eligible(b, config, categories, RepliedThreads(b.messages, w));
  }

  /** What is fetched is readable mail among the first matches, and no other. */
  lemma {:induction false} SelectFrom(messages: seq<Message>, query: Message -> bool, i: nat) returns (k: nat)
    requires i < |Select(messages, query)|
    ensures k < |messages| && query(messages[k]) && messages[k] == Select(messages, query)[i]
    ensures Rank(messages, k, query) == i
  {
    var last := |messages| - 1;
    SelectSize(messages[..last], query);
    if i < |Select(messages[..last], query)| {
      k := SelectFrom(messages[..last], query, i);
    } else {
      k := last;
    }
    RankPrefix(messages, last, k, query);
  }

  lemma FetchedWithin(messages: seq<Message>, query: Message -> bool, cap: nat, readable: string -> bool, m: Message)
    returns (k: nat)
    requires m in Fetch(messages, query, cap, readable)
    ensures Within(messages, k, query, cap, readable) && messages[k] == m
  {
    var found := Select(messages, query);
    var i: nat :| i < |First(found, cap)| && First(found, cap)[i] == m;
    k := SelectFrom(messages, query, i);
  }

  lemma RepliedAnswered(messages: seq<Message>, w: Weather, thread: string)
    requires thread in RepliedThreads(messages, w)
    ensures AnsweredByHand(messages, w, thread)
  {
    var m :| m in Fetch(messages, (m: Message) => m.sent && m.ageDays < LOOKBACK_DAYS, FETCH_ALL_CAP, w.readable)
             && m.thread != "" && m.thread == thread;
    var k := FetchedWithin(messages, (m: Message) => m.sent && m.ageDays < LOOKBACK_DAYS, FETCH_ALL_CAP, w.readable, m);
    RankSame(messages, k, (m: Message) => m.sent && m.ageDays < LOOKBACK_DAYS, (m: Message) => m.sent && m.ageDays < 2);
    assert Within(messages, k, (m: Message) => m.sent && m.ageDays < 2, 300, w.readable);
  }

  /** Fewer matches, no later a rank. */
  lemma {:induction false} RankLess(messages: seq<Message>, k: nat, p: Message -> bool, q: Message -> bool)
    requires k <= |messages| && forall m :: p(m) ==> q(m)
    ensures Rank(messages, k, p) <= Rank(messages, k, q)
  {
    if k > 0 { RankLess(messages, k - 1, p, q); }
  }

  /** A calm pass that ends with room left has tried every message it was given. */
  lemma {:induction false} RoomTriesAll(p: Pass, ids: seq<string>, limit: int, fates: nat -> Fate)
    requires HonestFates(fates) && (forall n: nat :: Calm(fates(n)))
    requires TryAll(p, ids, limit, fates).created < limit
    ensures TryAll(p, ids, limit, fates).box.marked == p.box.marked + Ids(ids)
    ensures p.created <= TryAll(p, ids, limit, fates).created
  {
    if ids != [] {
      var front, id := ids[..|ids| - 1], ids[|ids| - 1];
      RoomTriesAll(p, front, limit, fates);
      var q := TryAll(p, front, limit, fates);
      CalmCall(q.box, id, fates(q.calls));
      assert Ids(ids) == Ids(front) + {id};
    }
  }

  /** Mail for the label that a scheduled pass is to draft for: recent, to the user, neither sent nor a draft, and
      without the marker. */
  predicate Due(m: Message, gmailLabel: string, marked: set<string>) {
    gmailLabel in m.labels && m.ageDays < 2 && m.toMe && !m.sent && !m.draft && m.id !in marked
  }

  /** One category's turn reaches a message due in it, unless it was marked before. */
  lemma TurnReaches(b: Box, q: Box, c: Category, w: Weather, replied: set<string>, k: nat)
    requires q.messages == b.messages && b.marked <= q.marked
    requires Within(b.messages, k, (m: Message) => Due(m, c.gmailLabel, b.marked), 300, w.readable)
    requires b.messages[k].id != "" && b.messages[k].id !in q.marked && b.messages[k].thread !in replied
    ensures b.messages[k].id in Wanted(InCategory(q, c, w), replied)
  {
    var due := (m: Message) => Due(m, c.gmailLabel, b.marked);
    var candidate := (m: Message) => Candidate(m, c.gmailLabel, q.marked);
    RankLess(b.messages, k, candidate, due);
    FetchReaches(b.messages, k, candidate, FETCH_ALL_CAP, w.readable);
    assert b.messages[k] in InCategory(q, c, w);
  }

  lemma {:induction false} SweepReaches(p: Pass, config: Config, categories: seq<Category>, replied: set<string>,
                                        limit: int, w: Weather, fates: nat -> Fate, c: Category, k: nat)
    requires HonestFates(fates) && (forall n: nat :: Calm(fates(n))) && c in categories
    requires Gate(config, c.key) && c.isEnabled && w.fetchOk(c.gmailLabel)
    requires Within(p.box.messages, k, (m: Message) => Due(m, c.gmailLabel, p.box.marked), 300, w.readable)
    requires p.box.messages[k].id != "" && p.box.messages[k].thread !in replied
    requires SweepAll(p, config, categories, replied, limit, w, fates).created < limit
    ensures p.box.messages[k].id in SweepAll(p, config, categories, replied, limit, w, fates).box.marked
  {
    var front, last := categories[..|categories| - 1], categories[|categories| - 1];
    var q := SweepAll(p, config, front, replied, limit, w, fates);
    SweepKeeps(p, config, front, replied, limit, w, fates);
    var ids := Wanted(InCategory(q.box, last, w), replied);
    TryAllMarks(q, ids, limit, fates);
    if Gate(config, last.key) && last.isEnabled && w.fetchOk(last.gmailLabel) && q.created < limit {
      RoomTriesAll(q, ids, limit, fates);
    }
    if c in front {
      SweepReaches(p, config, front, replied, limit, w, fates, c, k);
    } else if p.box.messages[k].id !in q.box.marked {
      TurnReaches(p.box, q.box, c, w, replied, k);
    }
  }

  lemma {:induction false} SweepKeeps(p: Pass, config: Config, categories: seq<Category>, replied: set<string>,
                                      limit: int, w: Weather, fates: nat -> Fate)
    ensures var q := SweepAll(p, config, categories, replied, limit, w, fates);
            q.box.messages == p.box.messages && p.box.marked <= q.box.marked
  {
    if categories != [] {
      var front, c := categories[..|categories| - 1], categories[|categories| - 1];
      SweepKeeps(p, config, front, replied, limit, w, fates);
      var q := SweepAll(p, config, front, replied, limit, w, fates);
      TryAllMarks(q, Wanted(InCategory(q.box, c, w), replied), limit, fates);
    }
  }

  /** A scheduled pass that meets no failure and ends below its limit has tried all mail due in a chosen category,
      of threads the user has not answered: each is drafted for or declined, and marked. */
  lemma DueReached(b: Box, calls: nat, config: Config, categories: seq<Category>, budget: Option<int>, w: Weather,
                   fates: nat -> Fate, c: Category, k: nat)
    requires HonestFates(fates) && forall n: nat :: Calm(fates(n))
    requires config.isEnabled && c in categories && c.key != "" && c.key in config.categoryKeys && c.isEnabled
    requires w.fetchOk(c.gmailLabel)
    requires Within(b.messages, k, (m: Message) => Due(m, c.gmailLabel, b.marked), 300, w.readable)
    requires b.messages[k].id != "" && !AnsweredByHand(b.messages, w, b.messages[k].thread)
    requires Swept(b, calls, config, categories, budget, w, fates).created
             < EffectiveLimit(budget, SWEEP_SAFETY_CEILING)
    ensures b.messages[k].id in Swept(b, calls, config, categories, budget, w, fates).box.marked
  {
    var replied, limit := RepliedThreads(b.messages, w), EffectiveLimit(budget, SWEEP_SAFETY_CEILING);
    if b.messages[k].thread in replied { RepliedAnswered(b.messages, w, b.messages[k].thread); }
    SweepReaches(Pass(calls, b, 0), config, categories, replied, limit, w, fates, c, k);
  }

  /** Sent mail that may need a nudge: of the window that opens `days` days back and lasts 14, without the marker. */
  predicate InWindow(m: Message, days: int, marked: set<string>) {
    m.sent && days <= m.ageDays < days + 14 && m.id !in marked
  }

  /** Message `j` is mail to the user that the pass reads and that answers `m`: in its thread and later. */
  ghost predicate AnsweredBy(messages: seq<Message>, config: Config, w: Weather, m: Message, j: nat) {
    && Within(messages, j, (x: Message) => !x.sent && x.ageDays < config.followUpDays + 14, 300, w.readable)
    && messages[j].thread == m.thread && m.thread != ""
    && m.date.Some? && messages[j].date.Some? && messages[j].date.value > m.date.value
  }

  lemma AnsweredInbound(b: Box, config: Config, w: Weather, m: Message, j: nat)
    requires AnsweredBy(b.messages, config, w, m, j)
    ensures FollowUp.Answered(m, InboundMail(b, config, w))
  {
    var days := config.followUpDays + LOOKBACK_EXTRA_DAYS;
    RankSame(b.messages, j, (x: Message) => !x.sent && x.ageDays < config.followUpDays + 14,
             (x: Message) => !x.sent && x.ageDays < days);
    FetchReaches(b.messages, j, (x: Message) => !x.sent && x.ageDays < days, FETCH_ALL_CAP, w.readable);
    assert b.messages[j] in InboundMail(b, config, w);
  }

  lemma InboundAnswered(b: Box, config: Config, w: Weather, m: Message) returns (j: nat)
    requires FollowUp.Answered(m, InboundMail(b, config, w)) && m.thread != ""
    ensures AnsweredBy(b.messages, config, w, m, j)
  {
    var e :| e in InboundMail(b, config, w) && e.thread == m.thread && e.date.Some? && e.date.value > m.date.value;
    j := InboundPlace(b, config, w, e);
  }

  lemma InboundPlace(b: Box, config: Config, w: Weather, e: Message) returns (j: nat)
    requires e in InboundMail(b, config, w)
    ensures j < |b.messages| && b.messages[j] == e
    ensures Within(b.messages, j, (x: Message) => !x.sent && x.ageDays < config.followUpDays + 14, 300, w.readable)
  {
    var days := config.followUpDays + LOOKBACK_EXTRA_DAYS;
    j := FetchedWithin(b.messages, (x: Message) => !x.sent && x.ageDays < days, FETCH_ALL_CAP, w.readable, e);
    RankSame(b.messages, j, (x: Message) => !x.sent && x.ageDays < days,
             (x: Message) => !x.sent && x.ageDays < config.followUpDays + 14);
  }

  /** A nudge pass leaves mail alone that has been answered. */
  lemma AnsweredNotNudged(b: Box, calls: nat, config: Config, budget: Option<int>, w: Weather, fates: nat -> Fate,
                          m: Message, j: nat)
    requires HonestFates(fates) && Sound(b) && DistinctIds(b.messages)
    requires m in b.messages && AnsweredBy(b.messages, config, w, m, j)
    ensures var a := Nudged(b, calls, config, budget, w, fates).box;
            a.drafts[m.id] == b.drafts[m.id] && (m.id in a.marked <==> m.id in b.marked)
  {
    var limit, ids := EffectiveLimit(budget, MAX_PER_SWEEP), QuietIds(QuietReport(b, config, w));
    QuietIdsFresh(b, config, w);
    if m.id in ids { NotAnsweredIfQuiet(b, config, w, m, j); }
    if limit > 0 { TryAllSafe(Pass(calls, b, 0), ids, limit, fates); }
  }

  lemma NotAnsweredIfQuiet(b: Box, config: Config, w: Weather, m: Message, j: nat)
    requires DistinctIds(b.messages) && m in b.messages && m.id in QuietIds(QuietReport(b, config, w))
    ensures !AnsweredBy(b.messages, config, w, m, j)
  {
    var sent, inbound, quiet := SentMail(b, config, w), InboundMail(b, config, w), QuietReport(b, config, w);
    var ids := QuietIds(quiet);
    FollowUp.QuietExact(sent, inbound, w.now);
    var k: nat :| k < |ids| && ids[k] == m.id;
    assert quiet == FollowUp.Report(sent, inbound, w.now, Ordering.Order(FollowUp.NewestFirst(w.now), sent));
    var i: int := k;
    assert FollowUp.Reported(sent, inbound, w.now, quiet[i]);
    SameMessage(b.messages, quiet[k].0, m);
    if AnsweredBy(b.messages, config, w, m, j) { AnsweredInbound(b, config, w, m, j); }
  }

  /** Message `k` is the newest of its thread among the sent mail that the pass reads, or in no thread. */
  ghost predicate NewestSent(b: Box, config: Config, w: Weather, k: nat)
    requires k < |b.messages|
  {
    var m := b.messages[k];
    && m.date.Some?
    && (m.thread != "" ==>
          forall j: nat ::
            && j != k
            && Within(b.messages, j, (x: Message) => InWindow(x, config.followUpDays, b.marked), 25, w.readable)
            && b.messages[j].thread == m.thread && b.messages[j].date.Some? ==>
              b.messages[j].date.value < m.date.value)
  }

  lemma NewestIsQuiet(b: Box, config: Config, w: Weather, k: nat)
    requires DistinctIds(b.messages)
    requires Within(b.messages, k, (x: Message) => InWindow(x, config.followUpDays, b.marked), 25, w.readable)
    requires b.messages[k].id != "" && NewestSent(b, config, w, k)
    requires forall j: nat :: !AnsweredBy(b.messages, config, w, b.messages[k], j)
    ensures b.messages[k].id in QuietIds(QuietReport(b, config, w))
  {
    var sent, inbound, quiet := SentMail(b, config, w), InboundMail(b, config, w), QuietReport(b, config, w);
    var m := b.messages[k];
    var x := SentPlace(b, config, w, k);
    if m.thread != "" {
      forall y: nat | y < |sent| && y != x && sent[y].id != "" && sent[y].date.Some? && sent[y].thread == m.thread
        ensures sent[y].date.value < m.date.value
      {
        OtherSent(b, config, w, k, x, y);
      }
      assert FollowUp.LastWord(sent, x);
      if FollowUp.Answered(m, inbound) { var j := InboundAnswered(b, config, w, m); }
    }
    FollowUp.QuietExact(sent, inbound, w.now);
    assert (m, FollowUp.DaysWaited(m, w.now)) in quiet;
    var i :| 0 <= i < |quiet| && quiet[i] == (m, FollowUp.DaysWaited(m, w.now));
    assert QuietIds(quiet)[i] == m.id;
  }

  lemma SentPlace(b: Box, config: Config, w: Weather, k: nat) returns (x: nat)
    requires Within(b.messages, k, (x: Message) => InWindow(x, config.followUpDays, b.marked), 25, w.readable)
    ensures x < |SentMail(b, config, w)| && SentMail(b, config, w)[x] == b.messages[k]
  {
    var query := (m: Message) => SentCandidate(m, config.followUpDays, b.marked);
    RankSame(b.messages, k, (x: Message) => InWindow(x, config.followUpDays, b.marked), query);
    FetchReaches(b.messages, k, query, MAX_CANDIDATES, w.readable);
    assert b.messages[k] in SentMail(b, config, w);
    x :| 0 <= x < |SentMail(b, config, w)| && SentMail(b, config, w)[x] == b.messages[k];
  }

  lemma OtherSent(b: Box, config: Config, w: Weather, k: nat, x: nat, y: nat)
    requires DistinctIds(b.messages) && k < |b.messages| && NewestSent(b, config, w, k)
    requires x < |SentMail(b, config, w)| && SentMail(b, config, w)[x] == b.messages[k]
    requires y < |SentMail(b, config, w)| && y != x
    requires var e, m := SentMail(b, config, w)[y], b.messages[k];
             m.thread != "" && e.date.Some? && e.thread == m.thread
    ensures SentMail(b, config, w)[y].date.value < b.messages[k].date.value
  {
    var sent := SentMail(b, config, w);
    var query := (m: Message) => SentCandidate(m, config.followUpDays, b.marked);
    assert DistinctIds(sent);
    assert sent[y].id != sent[x].id by { assert if x < y then sent[x].id != sent[y].id else sent[y].id != sent[x].id; }
    assert sent[y] in sent;
    var j := FetchedWithin(b.messages, query, MAX_CANDIDATES, w.readable, sent[y]);
    RankSame(b.messages, j, query, (x: Message) => InWindow(x, config.followUpDays, b.marked));
  }

  /** A nudge pass that meets no failure and ends below its limit has tried every thread the user spoke last in:
      its newest sent mail of the window, if nothing it reads answers that. */
  lemma QuietReached(b: Box, calls: nat, config: Config, budget: Option<int>, w: Weather, fates: nat -> Fate, k: nat)
    requires HonestFates(fates) && (forall n: nat :: Calm(fates(n))) && DistinctIds(b.messages)
    requires config.isEnabled && config.followUpEnabled && w.fetchOk("in:sent") && w.fetchOk("-in:sent")
    requires Within(b.messages, k, (x: Message) => InWindow(x, config.followUpDays, b.marked), 25, w.readable)
    requires b.messages[k].id != "" && NewestSent(b, config, w, k)
    requires forall j: nat :: !AnsweredBy(b.messages, config, w, b.messages[k], j)
    requires Nudged(b, calls, config, budget, w, fates).created < EffectiveLimit(budget, MAX_PER_SWEEP)
    ensures b.messages[k].id in Nudged(b, calls, config, budget, w, fates).box.marked
  {
    var limit, ids := EffectiveLimit(budget, MAX_PER_SWEEP), QuietIds(QuietReport(b, config, w));
    NewestIsQuiet(b, config, w, k);
    RoomTriesAll(Pass(calls, b, 0), ids, limit, fates);
  }

  /** Switched off, or without chosen categories, drafting touches nothing; nor do nudges without their own switch. */
  lemma SwitchedOff(b: Box, calls: nat, config: Config, categories: seq<Category>, budget: Option<int>, w: Weather,
                    fates: nat -> Fate)
    ensures !config.isEnabled || config.categoryKeys == {} ==>
              Swept(b, calls, config, categories, budget, w, fates).box == b
    ensures !config.isEnabled || !config.followUpEnabled ==> Nudged(b, calls, config, budget, w, fates).box == b
  {
    if !config.isEnabled || config.categoryKeys == {} {
      NothingChosen(Pass(calls, b, 0), config, categories, RepliedThreads(b.messages, w),
                    EffectiveLimit(budget, SWEEP_SAFETY_CEILING), w, fates);
    }
  }

  lemma {:induction false} NothingChosen(p: Pass, config: Config, categories: seq<Category>, replied: set<string>,
                                         limit: int, w: Weather, fates: nat -> Fate)
    requires !config.isEnabled || config.categoryKeys == {}
    ensures SweepAll(p, config, categories, replied, limit, w, fates) == p
  {
    if categories != [] { NothingChosen(p, config, categories[..|categories| - 1], replied, limit, w, fates); }
  }

  // ----- any run ------------------------------------------------------------

  datatype Event =
    | Sweep(config: Config, categories: seq<Category>, budget: Option<int>, weather: Weather)
    | Nudge(config: Config, budget: Option<int>, weather: Weather)
    | MailChanges(messages: seq<Message>)
    | UserMarks(id: string)
    | UserLiftsMark(id: string)

  predicate Distinct(messages: seq<Message>)
    ensures Distinct(messages) <==> DistinctIds(messages)
  {
    forall i, j :: 0 <= i < j < |messages| ==> messages[i].id != messages[j].id
  }

  ghost function After(p: Pass, e: Event, fates: nat -> Fate): Pass {
    match e
    case Sweep(config, categories, budget, w) => Swept(p.box, p.calls, config, categories, budget, w, fates)
    case Nudge(config, budget, w) => Nudged(p.box, p.calls, config, budget, w, fates)
    case MailChanges(messages) => if Distinct(messages) then p.(box := p.box.(messages := messages)) else p
    case UserMarks(id) => p.(box := p.box.(marked := p.box.marked + {id}))
    case UserLiftsMark(id) =>
      if id in p.box.marked then
        p.(box := p.box.(marked := p.box.marked - {id}, lifted := p.box.lifted + multiset{id}))
      else p
  }

  ghost function AfterAll(p: Pass, script: seq<Event>, fates: nat -> Fate): Pass {
    if script == [] then p else After(AfterAll(p, script[..|script| - 1], fates), script[|script| - 1], fates)
  }

  lemma EventKeeps(p: Pass, e: Event, fates: nat -> Fate)
    requires HonestFates(fates) && Sound(p.box) && DistinctIds(p.box.messages)
    ensures Sound(After(p, e, fates).box) && DistinctIds(After(p, e, fates).box.messages)
  {
    match e {
      case Sweep(config, categories, budget, w) => SweepSafe(p.box, p.calls, config, categories, budget, w, fates);
      case Nudge(config, budget, w) => NudgeSafe(p.box, p.calls, config, budget, w, fates);
      case UserLiftsMark(id) =>
        var b, a := p.box, After(p, e, fates).box;
        assert forall x :: x != id ==> Owed(a, x) == Owed(b, x);
      case _ =>
    }
  }

  /** Passes in any number and order, every remote call failing as it likes, the mailbox and the user's own
      labelling changing in between: a message never has more drafts than one, plus its failed markings,
      its lost responses and the times its marker was lifted. */
  lemma {:induction false} AlwaysSound(p: Pass, script: seq<Event>, fates: nat -> Fate)
    requires HonestFates(fates) && Sound(p.box) && DistinctIds(p.box.messages)
    ensures Sound(AfterAll(p, script, fates).box) && DistinctIds(AfterAll(p, script, fates).box.messages)
  {
    if script != [] {
      AlwaysSound(p, script[..|script| - 1], fates);
      EventKeeps(AfterAll(p, script[..|script| - 1], fates), script[|script| - 1], fates);
    }
  }

  // ----- the law is sharp ---------------------------------------------------

  function Empty(messages: seq<Message>): Box {
    Box(messages, {}, multiset{}, multiset{}, multiset{}, multiset{}, 0, 0, 0, 0)
  }

  /** A call on which nothing goes wrong. */
  ghost predicate Calm(f: Fate) {
    && f.entitled && f.recipient && !f.raisesEarly && f.mark.Marks?
    && (f.shouldDraft ==> G.Once(f.world, f.refreshOk).0.Ok? && f.hasId)
  }

  /** With nothing going wrong and room under the limit, every message tried ends up marked, and the
      count is the number of drafts made. */
  lemma {:induction false} CalmPass(p: Pass, ids: seq<string>, limit: int, fates: nat -> Fate)
    requires HonestFates(fates) && (forall n: nat :: Calm(fates(n))) && p.created + |ids| <= limit
    ensures var q := TryAll(p, ids, limit, fates);
            && q.box.marked == p.box.marked + Ids(ids) && q.calls == p.calls + |ids|
            && q.created - p.created == |q.box.drafts| - |p.box.drafts| <= |ids|
            && q.box.failed == p.box.failed && q.box.lost == p.box.lost && q.box.nameless == p.box.nameless
  {
    if ids != [] {
      var front, id := ids[..|ids| - 1], ids[|ids| - 1];
      CalmPass(p, front, limit, fates);
      var q := TryAll(p, front, limit, fates);
      assert Ids(ids) == Ids(front) + {id};
      CalmCall(q.box, id, fates(q.calls));
    }
  }

  lemma CalmCall(b: Box, id: string, f: Fate)
    requires Calm(f) && G.Honest(f.world)
    ensures var a := AfterCall(b, id, f);
            && a.marked == b.marked + {id} && |a.drafts| == |b.drafts| + Counts(f)
            && a.failed == b.failed && a.lost == b.lost && a.nameless == b.nameless
  {
    OneCall(b, id, f);
  }

  /** Drafts made on the way from one mailbox to another. */
  function Made(b: Box, a: Box): int { |a.drafts| - |b.drafts| }

  /** Once the count is at the limit nothing is tried. */
  lemma {:induction false} TriesNothing(p: Pass, ids: seq<string>, limit: int, fates: nat -> Fate)
    requires p.created >= limit
    ensures TryAll(p, ids, limit, fates) == p
  {
    if ids != [] { TriesNothing(p, ids[..|ids| - 1], limit, fates); }
  }

  /** Each try makes at most one draft. */
  lemma {:induction false} MadeAtMost(p: Pass, ids: seq<string>, limit: int, fates: nat -> Fate)
    requires HonestFates(fates)
    ensures 0 <= Made(p.box, TryAll(p, ids, limit, fates).box) <= |ids|
  {
    if ids != [] {
      var front := ids[..|ids| - 1];
      MadeAtMost(p, front, limit, fates);
      var q := TryAll(p, front, limit, fates);
      OneCall(q.box, ids[|ids| - 1], fates(q.calls));
    }
  }

  /** A call that makes its draft and then fails to mark the message. */
  ghost predicate Careless(f: Fate) {
    && f.entitled && f.recipient && !f.raisesEarly && f.shouldDraft && f.mark.FailsToMark?
    && G.Honest(f.world) && G.Once(f.world, f.refreshOk).0.Ok?
  }

  lemma CarelessCall(b: Box, id: string, f: Fate)
    requires Careless(f)
    ensures Made(b, AfterCall(b, id, f)) == 1 && AfterCall(b, id, f).marked == b.marked && Counts(f) == 0
  {
    G.OnceAtMostOnce(f.world, f.refreshOk);
  }

  /** With every marking failing, the count never rises and every message gets its draft. */
  lemma {:induction false} CarelessPass(p: Pass, ids: seq<string>, limit: int, fates: nat -> Fate)
    requires p.created < limit && forall n: nat :: Careless(fates(n))
    ensures var q := TryAll(p, ids, limit, fates);
            q.created == p.created && q.box.marked == p.box.marked && Made(p.box, q.box) == |ids|
  {
    if ids != [] {
      var front := ids[..|ids| - 1];
      CarelessPass(p, front, limit, fates);
      var q := TryAll(p, front, limit, fates);
      CarelessCall(q.box, ids[|ids| - 1], fates(q.calls));
    }
  }

  lemma CarelessFates() returns (fates: nat -> Fate)
    ensures HonestFates(fates) && forall n: nat :: Careless(fates(n)) && fates(n).hasId
  {
    var ok := G.Attempt(G.Response(200, ""), true);
    var fate := Fate(true, true, false, true, _ => ok, true, FailsToMark, true, true);
    fates := _ => fate;
  }

  /** The count can fall short, as a draft whose marking fails is not counted. So however calls go, a list of
      messages gets no more drafts than the limit if and only if it holds no more messages than that. */
  lemma LimitHoldsExactly(p: Pass, ids: seq<string>, limit: nat)
    requires p.created == 0
    ensures (forall fates :: HonestFates(fates) ==> Made(p.box, TryAll(p, ids, limit, fates).box) <= limit)
            <==> limit == 0 || |ids| <= limit
  {
    if limit == 0 || |ids| <= limit {
      forall fates | HonestFates(fates) ensures Made(p.box, TryAll(p, ids, limit, fates).box) <= limit {
        MadeAtMost(p, ids, limit, fates);
        if limit == 0 { TriesNothing(p, ids, limit, fates); }
      }
    } else {
      var fates := CarelessFates();
      CarelessPass(p, ids, limit, fates);
    }
  }

  /** The same of a nudge pass and the quiet mail it reports, for the reason above: what it counts may fall short
      of what it drafts. */
  lemma NudgeLimitExactly(b: Box, calls: nat, config: Config, budget: Option<int>, w: Weather)
    requires config.isEnabled && config.followUpEnabled && w.fetchOk("in:sent") && w.fetchOk("-in:sent")
    ensures var limit := EffectiveLimit(budget, MAX_PER_SWEEP);
            (forall fates :: HonestFates(fates) ==> Made(b, Nudged(b, calls, config, budget, w, fates).box) <= limit)
            <==> limit == 0 || |QuietReport(b, config, w)| <= limit
  {
    var limit, p := EffectiveLimit(budget, MAX_PER_SWEEP), Pass(calls, b, 0);
    var ids := QuietIds(QuietReport(b, config, w));
    LimitHoldsExactly(p, ids, limit);
    if limit > 0 {
      forall fates ensures Nudged(b, calls, config, budget, w, fates) == TryAll(p, ids, limit, fates) {
      }
    }
  }

  /** What a pass over one category tries. */
  function Tried(b: Box, config: Config, c: Category, w: Weather): seq<string> {
    if Gate(config, c.key) && c.isEnabled && w.fetchOk(c.gmailLabel) then
      Wanted(InCategory(b, c, w), RepliedThreads(b.messages, w))
    else []
  }

  lemma OneCategory(b: Box, calls: nat, config: Config, c: Category, budget: Option<int>, w: Weather,
                    fates: nat -> Fate)
    ensures var limit := EffectiveLimit(budget, SWEEP_SAFETY_CEILING);
            Swept(b, calls, config, [c], budget, w, fates)
            == TryAll(Pass(calls, b, 0), Tried(b, config, c, w), limit, fates)
  {
    var p, limit := Pass(calls, b, 0), EffectiveLimit(budget, SWEEP_SAFETY_CEILING);
    if limit == 0 {
      TriesNothing(p, Tried(b, config, c, w), 0, fates);
    } else {
      assert [c][..0] == [];
      assert SweepAll(p, config, [], RepliedThreads(b.messages, w), limit, w, fates) == p;
    }
  }

  /** All the tries of a pass over these categories, counted on the mailbox it starts from: mail in two
      categories counts twice. */
  function Attempts(b: Box, config: Config, categories: seq<Category>, w: Weather): nat {
    if categories == [] then 0
    else
      Attempts(b, config, categories[..|categories| - 1], w) + |Tried(b, config, categories[|categories| - 1], w)|
  }

  /** Mail a pass could try: readable, identified, and in no answered thread. */
  predicate Triable(m: Message, replied: set<string>, w: Weather) {
    w.readable(m.id) && m.id != "" && !(m.thread != "" && m.thread in replied)
  }

  lemma {:induction false} TryAllMarks(p: Pass, ids: seq<string>, limit: int, fates: nat -> Fate)
    ensures var a := TryAll(p, ids, limit, fates).box;
            a.messages == p.box.messages && p.box.marked <= a.marked <= p.box.marked + Ids(ids)
  {
    if ids != [] { TryAllMarks(p, ids[..|ids| - 1], limit, fates); }
  }

  /** How many of a fetched list a pass would try. */
  lemma {:induction false} WantedCount(emails: seq<Message>, replied: set<string>, w: Weather)
    ensures |Wanted(Select(emails, (m: Message) => w.readable(m.id)), replied)| == Triables(emails, replied, w)
  {
    if emails != [] {
      var front, m := emails[..|emails| - 1], emails[|emails| - 1];
      WantedCount(front, replied, w);
      var read := Select(front, (m: Message) => w.readable(m.id));
      assert (read + [m])[..|read|] == read;
    }
  }

  function Triables(emails: seq<Message>, replied: set<string>, w: Weather): nat {
    if emails == [] then 0
    else
      Triables(emails[..|emails| - 1], replied, w) + if Triable(emails[|emails| - 1], replied, w) then 1 else 0
  }

  /** Taking triable mail out of a listing never lets a capped fetch find more of it: what moves up into the
      cap replaces at least as much. */
  lemma {:induction false} CapKeepsCount(messages: seq<Message>, q: Message -> bool, r: Message -> bool, cap: nat,
                                         replied: set<string>, w: Weather)
    requires forall m :: m in messages && q(m) ==> r(m)
    requires forall m :: m in messages && r(m) && !q(m) ==> Triable(m, replied, w)
    ensures var few, many := First(Select(messages, q), cap), First(Select(messages, r), cap);
            |few| <= |many| && Triables(few, replied, w) + (|many| - |few|) <= Triables(many, replied, w)
  {
    if messages != [] {
      var front, m := messages[..|messages| - 1], messages[|messages| - 1];
      CapKeepsCount(front, q, r, cap, replied, w);
      FirstPush(Select(front, q), m, cap, replied, w);
      FirstPush(Select(front, r), m, cap, replied, w);
    }
  }

  lemma FirstPush(s: seq<Message>, m: Message, cap: nat, replied: set<string>, w: Weather)
    ensures var was, now := First(s, cap), First(s + [m], cap);
            if |s| < cap
            then |now| == |was| + 1
                 && Triables(now, replied, w) == Triables(was, replied, w) + if Triable(m, replied, w) then 1 else 0
            else now == was && |was| == cap
  {
    if |s| < cap {
      assert (s + [m])[..|s|] == s;
    } else {
      assert (s + [m])[..cap] == s[..cap] && s[..|s|] == s;
    }
  }

  /** Between two mailboxes only triable mail was marked. */
  ghost predicate MarkedTriable(b: Box, a: Box, replied: set<string>, w: Weather) {
    && a.messages == b.messages && b.marked <= a.marked
    && forall m :: m in b.messages && m.id in a.marked && m.id !in b.marked ==> Triable(m, replied, w)
  }

  /** So a category holds no more to try than it did at the start. */
  lemma NoMoreToTry(b: Box, a: Box, c: Category, replied: set<string>, w: Weather)
    requires MarkedTriable(b, a, replied, w)
    ensures |Wanted(InCategory(a, c, w), replied)| <= |Wanted(InCategory(b, c, w), replied)|
  {
    var q := (m: Message) => Candidate(m, c.gmailLabel, a.marked);
    var r := (m: Message) => Candidate(m, c.gmailLabel, b.marked);
    CapKeepsCount(b.messages, q, r, FETCH_ALL_CAP, replied, w);
    WantedCount(First(Select(b.messages, q), FETCH_ALL_CAP), replied, w);
    WantedCount(First(Select(b.messages, r), FETCH_ALL_CAP), replied, w);
  }

  lemma WantedTriable(b: Box, c: Category, replied: set<string>, w: Weather, m: Message)
    requires DistinctIds(b.messages) && m in b.messages && m.id in Wanted(InCategory(b, c, w), replied)
    ensures Triable(m, replied, w)
  {
    var e :| e in InCategory(b, c, w) && e.id == m.id && e.id != "" && !(e.thread != "" && e.thread in replied);
    SameMessage(b.messages, e, m);
    FetchReads(b.messages, (m: Message) => Candidate(m, c.gmailLabel, b.marked), FETCH_ALL_CAP, w.readable, e);
  }

  lemma SameMessage(messages: seq<Message>, x: Message, y: Message)
    requires DistinctIds(messages) && x in messages && y in messages && x.id == y.id
    ensures x == y
  {
    var i :| 0 <= i < |messages| && messages[i] == x;
    var j :| 0 <= j < |messages| && messages[j] == y;
    assert !(i < j) && !(j < i);
  }

  lemma FetchReads(messages: seq<Message>, query: Message -> bool, cap: nat, readable: string -> bool, m: Message)
    requires m in Fetch(messages, query, cap, readable)
    ensures readable(m.id)
  {
  }

  /** Whatever becomes of its calls, a pass makes no more drafts than it has tries on the mailbox it starts from. */
  lemma {:induction false} SweepMakesAtMost(b: Box, calls: nat, config: Config, categories: seq<Category>,
                                            replied: set<string>, limit: int, w: Weather, fates: nat -> Fate)
    requires HonestFates(fates) && DistinctIds(b.messages) && replied == RepliedThreads(b.messages, w)
    ensures var a := SweepAll(Pass(calls, b, 0), config, categories, replied, limit, w, fates).box;
            MarkedTriable(b, a, replied, w) && Made(b, a) <= Attempts(b, config, categories, w)
  {
    if categories != [] {
      var front, c := categories[..|categories| - 1], categories[|categories| - 1];
      SweepMakesAtMost(b, calls, config, front, replied, limit, w, fates);
      var q := SweepAll(Pass(calls, b, 0), config, front, replied, limit, w, fates);
      var ids := Wanted(InCategory(q.box, c, w), replied);
      if Gate(config, c.key) && c.isEnabled && w.fetchOk(c.gmailLabel) && q.created < limit {
        NoMoreToTry(b, q.box, c, replied, w);
        MadeAtMost(q, ids, limit, fates);
        TryAllMarks(q, ids, limit, fates);
        forall m | m in b.messages && m.id in ids ensures Triable(m, replied, w) {
          WantedTriable(q.box, c, replied, w, m);
        }
      }
    }
  }

  /** With every marking failing, all of those tries are made. */
  lemma {:induction false} CarelessSweep(b: Box, calls: nat, config: Config, categories: seq<Category>,
                                         replied: set<string>, limit: int, w: Weather, fates: nat -> Fate)
    requires limit > 0 && replied == RepliedThreads(b.messages, w) && forall n: nat :: Careless(fates(n))
    ensures var q := SweepAll(Pass(calls, b, 0), config, categories, replied, limit, w, fates);
            && q.created == 0 && q.box.marked == b.marked && q.box.messages == b.messages
            && Made(b, q.box) == Attempts(b, config, categories, w)
  {
    if categories != [] {
      var front, c := categories[..|categories| - 1], categories[|categories| - 1];
      CarelessSweep(b, calls, config, front, replied, limit, w, fates);
      var q := SweepAll(Pass(calls, b, 0), config, front, replied, limit, w, fates);
      assert InCategory(q.box, c, w) == InCategory(b, c, w);
      if Gate(config, c.key) && c.isEnabled && w.fetchOk(c.gmailLabel) {
        CarelessPass(q, Wanted(InCategory(b, c, w), replied), limit, fates);
        TryAllMarks(q, Wanted(InCategory(b, c, w), replied), limit, fates);
      }
    }
  }

  /** A scheduled pass over any categories keeps to its limit, however its calls go, if and only if the mail it
      would try does, or the limit is zero. */
  lemma SweepLimitExactly(b: Box, calls: nat, config: Config, categories: seq<Category>, budget: Option<int>,
                          w: Weather)
    requires DistinctIds(b.messages)
    ensures var limit := EffectiveLimit(budget, SWEEP_SAFETY_CEILING);
            (forall fates :: HonestFates(fates) ==>
               Made(b, Swept(b, calls, config, categories, budget, w, fates).box) <= limit)
            <==> limit == 0 || Attempts(b, config, categories, w) <= limit
  {
    var limit, replied := EffectiveLimit(budget, SWEEP_SAFETY_CEILING), RepliedThreads(b.messages, w);
    if limit == 0 || Attempts(b, config, categories, w) <= limit {
      forall fates | HonestFates(fates)
        ensures Made(b, Swept(b, calls, config, categories, budget, w, fates).box) <= limit
      {
        if limit > 0 { SweepMakesAtMost(b, calls, config, categories, replied, limit, w, fates); }
      }
    } else {
      var fates := CarelessFates();
      CarelessSweep(b, calls, config, categories, replied, limit, w, fates);
    }
  }

  /** A pass with room for one draft makes two: a mailbox of two candidates, a budget of one, and a first
      marking that fails. */
  lemma LimitMissesUnmarked() returns (b: Box, config: Config, c: Category, w: Weather, fates: nat -> Fate)
    ensures HonestFates(fates) && Sound(b) && DistinctIds(b.messages)
    ensures var q := Swept(b, 0, config, [c], Some(1), w, fates);
            q.created == 1 && Made(b, q.box) == 2 && "a" !in q.box.marked
  {
    b, config, c, w := TwoInMailbox();
    fates := FirstCareless();
    OneCategory(b, 0, config, c, Some(1), w, fates);
    SecondCounts(Pass(0, b, 0), "a", "b", fates);
  }

  lemma FirstCareless() returns (fates: nat -> Fate)
    ensures HonestFates(fates) && Careless(fates(0)) && Calm(fates(1)) && fates(1).shouldDraft
  {
    var careless := CarelessFates();
    var first := careless(0);
    var second := first.(mark := Marks);
    fates := (n: nat) => if n == 0 then first else second;
  }

  lemma TwoInMailbox() returns (b: Box, config: Config, c: Category, w: Weather)
    ensures Sound(b) && DistinctIds(b.messages) && b.marked == {}
    ensures Tried(b, config, c, w) == ["a", "b"]
  {
    var x := Message("a", "s", {"L"}, 0, true, false, false, None);
    var y := Message("b", "t", {"L"}, 0, true, false, false, None);
    b := Empty([x, y]);
    config := Config(true, {"k"}, false, 0);
    c := Category("k", "L", true);
    w := Weather(_ => true, _ => true, 0);
    TwoCandidates(b, config, c, w, x, y);
  }

  /** A draft that is not marked, then one that is: both are made, one is counted. */
  lemma SecondCounts(p: Pass, x: string, y: string, fates: nat -> Fate)
    requires p.created == 0 && x != y && x !in p.box.marked
    requires Careless(fates(p.calls))
    requires var g := fates(p.calls + 1); Calm(g) && g.shouldDraft && G.Honest(g.world)
    ensures var q := TryAll(p, [x, y], 1, fates); q.created == 1 && Made(p.box, q.box) == 2 && x !in q.box.marked
  {
    CarelessCall(p.box, x, fates(p.calls));
    var p1 := Try(p, x, fates);
    CalmCall(p1.box, y, fates(p1.calls));
    TwoTries(p, x, y, 1, fates);
  }

  lemma TwoCandidates(b: Box, config: Config, c: Category, w: Weather, x: Message, y: Message)
    requires b.messages == [x, y] && b.marked == {} && x.id != "" && y.id != ""
    requires Gate(config, c.key) && c.isEnabled && forall s :: w.fetchOk(s) && w.readable(s)
    requires forall m :: m in b.messages ==> Candidate(m, c.gmailLabel, {}) && !m.sent
    ensures Tried(b, config, c, w) == [x.id, y.id]
  {
    FetchBoth(x, y, (m: Message) => Candidate(m, c.gmailLabel, b.marked), FETCH_ALL_CAP, w.readable);
    NoneReplied(b.messages, w);
    WantBoth(x, y);
  }

  lemma NoneReplied(messages: seq<Message>, w: Weather)
    requires forall m :: m in messages ==> !m.sent
    ensures RepliedThreads(messages, w) == {}
  {
  }

  lemma WantBoth(x: Message, y: Message)
    requires x.id != "" && y.id != ""
    ensures Wanted([x, y], {}) == [x.id, y.id]
  {
    assert [x, y][..1] == [x] && [x][..0] == [];
    assert Wanted([], {}) == [] && Wanted([x], {}) == [x.id];
  }

  lemma FetchBoth(x: Message, y: Message, query: Message -> bool, cap: nat, readable: string -> bool)
    requires query(x) && query(y) && readable(x.id) && readable(y.id) && cap >= 2
    ensures Fetch([x, y], query, cap, readable) == [x, y]
  {
    SelectBoth(x, y, query);
    SelectBoth(x, y, (m: Message) => readable(m.id));
  }

  lemma SelectBoth(x: Message, y: Message, p: Message -> bool)
    requires p(x) && p(y)
    ensures Select([x, y], p) == [x, y]
  {
    assert [x, y][..1] == [x] && [x][..0] == [] && Select([], p) == [];
    assert Select([x], p) == [x];
  }

  lemma TwoTries(p: Pass, x: string, y: string, limit: int, fates: nat -> Fate)
    requires p.created < limit && Try(p, x, fates).created < limit
    ensures TryAll(p, [x, y], limit, fates) == Try(Try(p, x, fates), y, fates)
  {
    assert [x, y][..1] == [x] && [x][..0] == [];
    assert TryAll(p, [], limit, fates) == p;
  }

  // ----- the code -----------------------------------------------------------

  /** Once the limit is reached the rest of a list changes nothing: the loops may break off. */
  lemma {:induction false} LimitStops(p: Pass, ids: seq<string>, k: nat, limit: int, fates: nat -> Fate)
    requires k <= |ids| && TryAll(p, ids[..k], limit, fates).created >= limit
    ensures TryAll(p, ids, limit, fates) == TryAll(p, ids[..k], limit, fates)
  {
    if k == |ids| {
      assert ids[..k] == ids;
    } else {
      var front := ids[..|ids| - 1];
      assert front[..k] == ids[..k];
      LimitStops(p, front, k, limit, fates);
    }
  }

  lemma {:induction false} WantedPrefix(emails: seq<Message>, k: nat, replied: set<string>)
    requires k <= |emails|
    ensures Wanted(emails[..k], replied) <= Wanted(emails, replied)
  {
    if k == |emails| {
      assert emails[..k] == emails;
    } else {
      assert emails[..|emails| - 1][..k] == emails[..k];
      WantedPrefix(emails[..|emails| - 1], k, replied);
    }
  }

  lemma WantedNext(emails: seq<Message>, k: nat, replied: set<string>)
    requires k < |emails|
    ensures Wanted(emails[..k + 1], replied) == Wanted(emails[..k], replied)
              + if emails[k].id == "" || (emails[k].thread != "" && emails[k].thread in replied) then []
                else [emails[k].id]
  {
    assert emails[..k + 1][..k] == emails[..k];
  }

  lemma {:induction false} SweepStops(p: Pass, config: Config, categories: seq<Category>, k: nat,
                                      replied: set<string>, limit: int, w: Weather, fates: nat -> Fate)
    requires k <= |categories| && SweepAll(p, config, categories[..k], replied, limit, w, fates).created >= limit
    ensures SweepAll(p, config, categories, replied, limit, w, fates)
            == SweepAll(p, config, categories[..k], replied, limit, w, fates)
  {
    if k == |categories| {
      assert categories[..k] == categories;
    } else {
      var front := categories[..|categories| - 1];
      assert front[..k] == categories[..k];
      SweepStops(p, config, front, k, replied, limit, w, fates);
    }
  }

  /** One turn of the scheduled pass's inner loop, and its early end. */
  lemma TryNext(p: Pass, emails: seq<Message>, k: nat, replied: set<string>, limit: int, fates: nat -> Fate)
    requires k < |emails|
    ensures var q := TryAll(p, Wanted(emails[..k], replied), limit, fates);
            var m := emails[k];
            && (q.created >= limit ==> TryAll(p, Wanted(emails, replied), limit, fates) == q)
            && (q.created < limit ==>
                  TryAll(p, Wanted(emails[..k + 1], replied), limit, fates)
                  == if m.id == "" || (m.thread != "" && m.thread in replied) then q else Try(q, m.id, fates))
  {
    var done, ids := Wanted(emails[..k], replied), Wanted(emails, replied);
    WantedPrefix(emails, k, replied);
    TryPrefix(p, done, ids, limit, fates);
    WantedNext(emails, k, replied);
    TryOneMore(p, done, emails[k].id, limit, fates);
    assert done + [] == done;
  }

  lemma TryPrefix(p: Pass, done: seq<string>, ids: seq<string>, limit: int, fates: nat -> Fate)
    requires done <= ids
    ensures TryAll(p, done, limit, fates).created >= limit ==>
              TryAll(p, ids, limit, fates) == TryAll(p, done, limit, fates)
  {
    assert ids[..|done|] == done;
    if TryAll(p, done, limit, fates).created >= limit { LimitStops(p, ids, |done|, limit, fates); }
  }

  lemma TryOneMore(p: Pass, done: seq<string>, id: string, limit: int, fates: nat -> Fate)
    ensures var q := TryAll(p, done, limit, fates);
            TryAll(p, done + [id], limit, fates) == if q.created >= limit then q else Try(q, id, fates)
  {
    assert (done + [id])[..|done|] == done;
  }

  class Account {
    const fates: nat -> Fate
    var calls: nat
    var box: Box

    constructor (fates: nat -> Fate, messages: seq<Message>)
      ensures this.fates == fates && calls == 0 && box == Empty(messages)
    {
      this.fates := fates;
      calls := 0;
      box := Empty(messages);
    }

    method MarkDrafted(id: string, fate: MarkFate) returns (raised: bool)
      modifies this`box
      ensures raised <==> !fate.Marks?
      ensures box == MarkedBox(old(box), id, fate)
    {
      if !fate.FailsToMark? { box := box.(marked := box.marked + {id}); }
      raised := !fate.Marks?;
      if raised { box := box.(failed := box.failed + multiset{id}); }
    }

    /** Create the draft, mark the source, meter; never the marker before the draft. */
    method CreateAndMark(id: string, fate: Fate) returns (r: Reply)
      modifies this`box
      ensures box == CreatedBox(old(box), id, fate) && r == CreatedReply(fate)
    {
      var out, sent := G.Request(fate.world, false, fate.refreshOk);
      G.OnceIs(fate.world, fate.refreshOk, out, sent);
      var n := G.Effects(fate.world, sent);
      box := box.(drafts := box.drafts[id := box.drafts[id] + n]);
      if !out.Ok? {
        box := box.(lost := box.lost[id := box.lost[id] + n]);
        return Raised;
      }
      var raised := MarkDrafted(id, fate.mark);
      if raised {
        box := box.(unmarked := box.unmarked + 1);
        return Raised;
      }
      if fate.meters {
        box := box.(metered := box.metered + 1);
      } else {
        box := box.(unmetered := box.unmetered + 1);
      }
      if !fate.hasId { box := box.(nameless := box.nameless + 1); }
      r := Drafted(fate.hasId);
    }

    /** The part `draft_reply` and `draft_follow_up` share, past their own configuration gates. */
    method DraftFor(id: string) returns (r: Reply)
      modifies this
      ensures calls == old(calls) + 1
      ensures box == AfterCall(old(box), id, fates(old(calls))) && r == ReplyOf(fates(old(calls)))
    {
      var fate := fates(calls);
      calls := calls + 1;
      if !fate.entitled || !fate.recipient { return NoDraft; }
      if fate.raisesEarly { return Raised; }
      if !fate.shouldDraft {
        var raised := MarkDrafted(id, fate.mark);
        return if raised then Raised else NoDraft;
      }
      r := CreateAndMark(id, fate);
    }

    method DraftReply(config: Config, id: string, categoryKey: string) returns (r: Reply)
      modifies this
      ensures Gate(config, categoryKey) ==>
                && calls == old(calls) + 1
                && box == AfterCall(old(box), id, fates(old(calls))) && r == ReplyOf(fates(old(calls)))
      ensures !Gate(config, categoryKey) ==> box == old(box) && calls == old(calls) && r == NoDraft
    {
      if !config.isEnabled { return NoDraft; }
      if categoryKey == "" || categoryKey !in config.categoryKeys { return NoDraft; }
      r := DraftFor(id);
    }

    method DraftFollowUp(config: Config, id: string) returns (r: Reply)
      modifies this
      ensures config.isEnabled && config.followUpEnabled ==>
                && calls == old(calls) + 1
                && box == AfterCall(old(box), id, fates(old(calls))) && r == ReplyOf(fates(old(calls)))
      ensures !(config.isEnabled && config.followUpEnabled) ==> box == old(box) && calls == old(calls) && r == NoDraft
    {
      if !config.isEnabled || !config.followUpEnabled { return NoDraft; }
      r := DraftFor(id);
    }

    /** The inner loop of the scheduled pass: one category's mail. */
    method SweepCategory(config: Config, categoryKey: string, emails: seq<Message>, replied: set<string>,
                         limit: int, before: int)
      returns (created: int)
      modifies this
      ensures var p := Pass(old(calls), old(box), before);
              Pass(calls, box, created)
              == if Gate(config, categoryKey) then TryAll(p, Wanted(emails, replied), limit, fates) else p
    {
      created := before;
      ghost var p := Pass(calls, box, before);
      assert emails[..|emails|] == emails;
      for k := 0 to |emails|
        invariant Pass(calls, box, created)
                  == if Gate(config, categoryKey) then TryAll(p, Wanted(emails[..k], replied), limit, fates) else p
      {
        TryNext(p, emails, k, replied, limit, fates);
        var email := emails[k];
        if created >= limit { return; }
        if email.id == "" { continue; }
        if email.thread != "" && email.thread in replied { continue; }
        var r := DraftReply(config, email.id, categoryKey);
        if r == Drafted(true) { created := created + 1; }
      }
    }

    /** One scheduled pass; the count of drafts it returns is the one it stops by. */
    method SweepUser(config: Config, categories: seq<Category>, budget: Option<int>, w: Weather) returns (created: int)
      modifies this
      ensures Pass(calls, box, created) == Swept(old(box), old(calls), config, categories, budget, w, fates)
    {
      created := 0;
      ghost var p := Pass(calls, box, 0);
      if config.categoryKeys == {} {
        NothingChosen(p, config, categories, RepliedThreads(box.messages, w),
                      EffectiveLimit(budget, SWEEP_SAFETY_CEILING), w, fates);
        return;
      }
      var limit := EffectiveLimit(budget, SWEEP_SAFETY_CEILING);
      if limit <= 0 { return; }
      var replied := RepliedThreads(box.messages, w);
      assert categories[..|categories|] == categories;
      for k := 0 to |categories|
        invariant Pass(calls, box, created) == SweepAll(p, config, categories[..k], replied, limit, w, fates)
      {
        var c := categories[k];
        assert categories[..k + 1][..k] == categories[..k];
        if c.key !in config.categoryKeys || !c.isEnabled { continue; }
        if created >= limit {
          SweepStops(p, config, categories, k, replied, limit, w, fates);
          return;
        }
        if !w.fetchOk(c.gmailLabel) { continue; }
        created := SweepCategory(config, c.key, InCategory(box, c, w), replied, limit, created);
      }
    }

    /** The loop of the nudge pass. */
    method NudgeAll(config: Config, quiet: seq<(Message, int)>, limit: int) returns (created: int)
      requires config.followUpEnabled
      modifies this
      ensures var p := Pass(old(calls), old(box), 0);
              Pass(calls, box, created) == if config.isEnabled then TryAll(p, QuietIds(quiet), limit, fates) else p
    {
      created := 0;
      ghost var p := Pass(calls, box, 0);
      ghost var ids := QuietIds(quiet);
      assert ids[..|ids|] == ids;
      for k := 0 to |quiet|
        invariant Pass(calls, box, created) == if config.isEnabled then TryAll(p, ids[..k], limit, fates) else p
      {
        if created >= limit {
          if config.isEnabled { LimitStops(p, ids, k, limit, fates); }
          return;
        }
        assert ids[..k + 1][..k] == ids[..k];
        var r := DraftFollowUp(config, quiet[k].0.id);
        if r == Drafted(true) { created := created + 1; }
      }
    }

    /** One nudge pass; a failed fetch of either list ends it. */
    method NudgeUser(config: Config, budget: Option<int>, w: Weather) returns (created: int)
      modifies this
      ensures Pass(calls, box, created) == Nudged(old(box), old(calls), config, budget, w, fates)
    {
      created := 0;
      var limit := EffectiveLimit(budget, MAX_PER_SWEEP);
      if !config.followUpEnabled || limit <= 0 || !w.fetchOk("in:sent") { return; }
      var sent := SentMail(box, config, w);
      if sent == [] || !w.fetchOk("-in:sent") { return; }
      var quiet := FollowUp.FindQuietThreads(sent, InboundMail(box, config, w), w.now);
      created := NudgeAll(config, quiet, limit);
    }

    method Handle(e: Event)
      modifies this
      ensures var q := After(Pass(old(calls), old(box), 0), e, fates); calls == q.calls && box == q.box
      ensures e.UserMarks? ==> box == old(box).(marked := old(box).marked + {e.id})
      ensures e.UserLiftsMark? ==> box.marked == old(box).marked - {e.id}
    {
      match e {
        case Sweep(config, categories, budget, w) =>
          var _ := SweepUser(config, categories, budget, w);
        case Nudge(config, budget, w) =>
          var _ := NudgeUser(config, budget, w);
        case MailChanges(messages) =>
          if Distinct(messages) { box := box.(messages := messages); }
        case UserMarks(id) =>
          box := box.(marked := box.marked + {id});
        case UserLiftsMark(id) =>
          if id in box.marked {
            box := box.(marked := box.marked - {id}, lifted := box.lifted + multiset{id});
          }
      }
    }

    /** Any script of passes and changes to the mailbox. */
    method Live(script: seq<Event>)
      modifies this
      ensures var q := AfterAll(Pass(old(calls), old(box), 0), script, fates); calls == q.calls && box == q.box
    {
      ghost var p := Pass(calls, box, 0);
      assert script[..|script|] == script;
      for k := 0 to |script|
        invariant var q := AfterAll(p, script[..k], fates); calls == q.calls && box == q.box
      {
        assert script[..k + 1][..k] == script[..k];
        CountForgotten(AfterAll(p, script[..k], fates), script[k], fates);
        Handle(script[k]);
      }
    }
  }

  /** What an event does never depends on an earlier pass's count. */
  lemma CountForgotten(p: Pass, e: Event, fates: nat -> Fate)
    ensures var q, r := After(p, e, fates), After(p.(created := 0), e, fates); q.calls == r.calls && q.box == r.box
  {
  }
}
