/** One category per thread: the label change that applies a verdict, and what any sequence of them leaves. */
module Labels {
  import opened Wrappers
  import opened Gmail

  const INBOX := "INBOX"
  const UNREAD := "UNREAD"
  const STARRED := "STARRED"

  datatype Actions = Actions(archive: bool, markRead: bool, star: bool)

  /** The ids of one label listing by folded name; entries without a name or an id are left out, and
      the last of several alike stands. */
  function ListedIds(labels: seq<(string, string)>, fold: string -> string): map<string, string> {
    if labels == [] then map[]
    else
      var (name, id) := labels[|labels| - 1];
      var before := ListedIds(labels[..|labels| - 1], fold);
      if fold(name) == "" || id == "" then before else before[fold(name) := id]
  }

  /** Entry `k` gives `key` its id: named so when folded, with an id, and no later entry alike. */
  ghost predicate Gives(labels: seq<(string, string)>, fold: string -> string, key: string, k: nat) {
    && k < |labels| && key != "" && fold(labels[k].0) == key && labels[k].1 != ""
    && forall j :: k < j < |labels| && labels[j].1 != "" ==> fold(labels[j].0) != key
  }

  /** A listing gives exactly the names its usable entries fold to, each the id of its last. */
  lemma {:induction false} ListedIdsExact(labels: seq<(string, string)>, fold: string -> string, key: string)
    ensures key in ListedIds(labels, fold) <==> exists k: nat :: Gives(labels, fold, key, k)
    ensures forall k: nat :: Gives(labels, fold, key, k) ==>
              key in ListedIds(labels, fold) && ListedIds(labels, fold)[key] == labels[k].1
  {
    if labels != [] {
      var front, last: nat := labels[..|labels| - 1], |labels| - 1;
      ListedIdsExact(front, fold, key);
      forall k: nat ensures Gives(labels, fold, key, k) <==>
                              if k == last then key != "" && fold(labels[last].0) == key && labels[last].1 != ""
                              else Gives(front, fold, key, k)
                                   && (labels[last].1 != "" ==> fold(labels[last].0) != key)
      {
        GivesFront(labels, fold, key, k);
      }
      if key != "" && fold(labels[last].0) == key && labels[last].1 != "" {
        assert Gives(labels, fold, key, last);
      } else if k: nat :| Gives(front, fold, key, k) {
        assert Gives(labels, fold, key, k);
      }
    }
  }

  lemma GivesFront(labels: seq<(string, string)>, fold: string -> string, key: string, k: nat)
    requires labels != []
    ensures Gives(labels, fold, key, k) <==>
              if k == |labels| - 1 then key != "" && fold(labels[k].0) == key && labels[k].1 != ""
              else Gives(labels[..|labels| - 1], fold, key, k)
                   && (labels[|labels| - 1].1 != "" ==> fold(labels[|labels| - 1].0) != key)
  {
    var front := labels[..|labels| - 1];
    assert forall j :: 0 <= j < |front| ==> front[j] == labels[j];
  }

  /** Per-process label ids by folded name, in front of Gmail's own list. */
  class Resolver {
    const fold: string -> string
    var cache: map<string, string>

    constructor (fold: string -> string)
      ensures this.fold == fold && cache == map[]
    {
      this.fold := fold;
      cache := map[];
    }

    /** A hit needs no listing, so an id outlives its label until the cache is cleared; a miss lists, warms the
        cache with all of it, and is never itself cached. `listing` is Gmail's answer, if it gives one. */
    method Resolve(name: string, listing: Option<seq<(string, string)>>) returns (id: Option<string>)
      modifies this`cache
      ensures var key := fold(name);
              && cache == (if key in old(cache) || listing.None? then old(cache)
                           else old(cache) + ListedIds(listing.value, fold))
              && id == (if key in cache then Some(cache[key]) else None)
    {
      var key := fold(name);
      if key in cache { return Some(cache[key]); }
      if listing.None? { return None; }
      cache := cache + ListedIds(listing.value, fold);
      id := if key in cache then Some(cache[key]) else None;
    }

    method Clear()
      modifies this`cache
      ensures cache == map[]
    {
      cache := map[];
    }
  }

  /** The cache after misses that got the listings `listings`, in turn. */
  function CacheAfter(listings: seq<map<string, string>>): map<string, string> {
    if listings == [] then map[] else CacheAfter(listings[..|listings| - 1]) + listings[|listings| - 1]
  }

  /** A resolved id is current exactly when the latest listing to name the label still gives Gmail's id:
      one that later listings do not name stays as it was. */
  lemma {:induction false} CachedFromLatest(listings: seq<map<string, string>>, key: string, i: nat)
    requires i < |listings| && key in listings[i]
    requires forall k :: i < k < |listings| ==> key !in listings[k]
    ensures key in CacheAfter(listings) && CacheAfter(listings)[key] == listings[i][key]
  {
    if i < |listings| - 1 {
      CachedFromLatest(listings[..|listings| - 1], key, i);
    }
  }

  /** A resolved call: the winner's id, its actions, and the ids of the taxonomy labels whose lookup worked. */
  datatype Call = Call(winner: string, actions: Actions, taxonomy: set<string>)

  function Added(c: Call): set<string> { {c.winner} + if c.actions.star then {STARRED} else {} }

  function Removed(c: Call): set<string> {
    (if c.actions.archive then {INBOX} else {}) + (if c.actions.markRead then {UNREAD} else {})
    + (c.taxonomy - {c.winner}) - Added(c)
  }

  function Resolved(resolve: string -> Option<string>, names: seq<string>): set<string> {
    set n | n in names && resolve(n).Some? :: resolve(n).value
  }

  lemma ResolvedAppend(resolve: string -> Option<string>, names: seq<string>, n: string)
    ensures Resolved(resolve, names + [n])
            == Resolved(resolve, names) + if resolve(n).Some? then {resolve(n).value} else {}
  {
    assert forall x :: x in names + [n] <==> x in names || x == n;
  }

  /** Builds the two lists and makes one change; a label that does not resolve raises and changes nothing. */
  method ApplyCategory(mailbox: Labels, targets: set<string>, resolve: string -> Option<string>, labelName: string,
                       actions: Actions, taxonomyLabels: seq<string>)
    returns (after: Labels, raised: bool)
    ensures raised <==> resolve(labelName).None?
    ensures raised ==> after == mailbox
    ensures !raised ==>
              var c := Call(resolve(labelName).value, actions, Resolved(resolve, taxonomyLabels));
              Added(c) !! Removed(c) && after == Relabel(mailbox, targets, Added(c), Removed(c))
    ensures !raised ==>
              forall m :: m in mailbox && m in targets ==>
                && m in after && resolve(labelName).value in after[m] && (actions.star ==> STARRED in after[m])
                && (actions.archive && INBOX in after[m] ==> INBOX == resolve(labelName).value)
                && (actions.markRead && UNREAD in after[m] ==> UNREAD == resolve(labelName).value)
    ensures forall m :: m in mailbox && m !in targets ==> m in after && after[m] == mailbox[m]
  {
    var labelId := resolve(labelName);
    if labelId.None? { return mailbox, true; }
    var add, remove := [labelId.value], [];
    if actions.archive { remove := remove + [INBOX]; }
    if actions.markRead { remove := remove + [UNREAD]; }
    if actions.star { add := add + [STARRED]; }
    ghost var base := Elements(remove);
    for k := 0 to |taxonomyLabels|
      invariant Elements(remove) == base + (Resolved(resolve, taxonomyLabels[..k]) - {labelId.value})
    {
      var id := resolve(taxonomyLabels[k]);
      assert taxonomyLabels[..k + 1] == taxonomyLabels[..k] + [taxonomyLabels[k]];
      ResolvedAppend(resolve, taxonomyLabels[..k], taxonomyLabels[k]);
      if id.Some? && id.value != labelId.value {
        ElementsConcat(remove, [id.value]);
        remove := remove + [id.value];
      }
    }
    assert taxonomyLabels[..|taxonomyLabels|] == taxonomyLabels;
    ghost var c := Call(labelId.value, actions, Resolved(resolve, taxonomyLabels));
    assert Elements(add) == Added(c);
    assert Elements(remove) - Elements(add) == Removed(c);
    after := Relabel(mailbox, targets, Elements(add), Elements(remove) - Elements(add));
    raised := false;
  }

  /** Verdicts of a taxonomy, given by the ids Gmail has for its labels, on a message. */
  function Verdicts(labels: set<string>, taxonomy: set<string>): set<string> { labels * taxonomy }

  /** Every other verdict among `labels` is one the call looked up, or one its actions take off. */
  predicate Clears(c: Call, taxonomy: set<string>, labels: set<string>) {
    forall l :: l in Verdicts(labels, taxonomy) && l != c.winner ==>
      l in c.taxonomy || (c.actions.archive && l == INBOX) || (c.actions.markRead && l == UNREAD)
  }

  /** The call names a winner in the taxonomy, and stars only if no other category has the star label. */
  predicate Regular(c: Call, taxonomy: set<string>) {
    c.winner in taxonomy && (c.actions.star && STARRED in taxonomy ==> c.winner == STARRED)
  }

  /** After a call, a target carries exactly the winner of the taxonomy, if and only if the call does not star
      while the star label is another category's, and no lookup that failed left an older verdict on. */
  lemma ExclusiveExactly(mailbox: Labels, targets: set<string>, c: Call, taxonomy: set<string>, m: string)
    requires c.winner in taxonomy && m in mailbox && m in targets
    ensures Verdicts(Relabel(mailbox, targets, Added(c), Removed(c))[m], taxonomy) == {c.winner}
            <==> Regular(c, taxonomy) && Clears(c, taxonomy, mailbox[m])
  {
    var after := Relabel(mailbox, targets, Added(c), Removed(c))[m];
    if !Regular(c, taxonomy) {
      assert STARRED in after * taxonomy;
    } else if !Clears(c, taxonomy, mailbox[m]) {
      var l :| l in Verdicts(mailbox[m], taxonomy) && l != c.winner && l !in c.taxonomy
               && !(c.actions.archive && l == INBOX) && !(c.actions.markRead && l == UNREAD);
      assert l in after * taxonomy;
    } else {
      assert forall x :: x in after * taxonomy ==> x == c.winner;
      assert c.winner in after * taxonomy;
    }
  }

  /** Every lookup that gives an id gives Gmail's. */
  ghost predicate Honest(resolve: string -> Option<string>, truth: string -> Option<string>) {
    forall n :: resolve(n).Some? ==> resolve(n) == truth(n)
  }

  /** So when lookups are honest, whatever the message wore and whatever fails: a plain label is safe from older
      verdicts if and only if every label of the taxonomy that Gmail has was looked up, or is the winner's. */
  lemma AlwaysClearsExactly(resolve: string -> Option<string>, truth: string -> Option<string>, names: seq<string>,
                            winner: string)
    requires Honest(resolve, truth)
    ensures var c := Call(winner, Actions(false, false, false), Resolved(resolve, names));
            (forall labels :: Clears(c, Resolved(truth, names), labels))
            <==> Resolved(truth, names) <= Resolved(resolve, names) + {winner}
  {
    var c, taxonomy := Call(winner, Actions(false, false, false), Resolved(resolve, names)), Resolved(truth, names);
    if l :| l in taxonomy && l !in c.taxonomy + {winner} {
      assert l in Verdicts({l}, taxonomy);
      assert !Clears(c, taxonomy, {l});
    }
  }

  // ----- any sequence on one thread -----------------------------------------

  /** Mail arrives in the thread with whatever labels, or some worker's call takes effect on it. */
  datatype Step = Arrive(message: string, labels: set<string>) | Take(call: Call)

  function Next(thread: Labels, s: Step): Labels {
    match s
    case Arrive(m, labels) => if m in thread then thread else thread[m := labels]
    case Take(c) => Relabel(thread, thread.Keys, Added(c), Removed(c))
  }

  function Run(thread: Labels, steps: seq<Step>): Labels {
    if steps == [] then thread else Next(Run(thread, steps[..|steps| - 1]), steps[|steps| - 1])
  }

  /** However calls and arrivals interleave, whatever taxonomies earlier calls were made under and whatever their
      lookups missed: each message present at the last call carries exactly that call's winner of the taxonomy, if
      and only if that call does not clash with the star and clears what the message then wore. */
  lemma {:induction false} LastVerdictWins(thread: Labels, steps: seq<Step>, last: nat, taxonomy: set<string>,
                                           m: string)
    requires last < |steps| && steps[last].Take? && steps[last].call.winner in taxonomy
    requires forall k :: last < k < |steps| ==> !steps[k].Take?
    requires m in Run(thread, steps[..last])
    ensures m in Run(thread, steps)
    ensures var c := steps[last].call;
            Verdicts(Run(thread, steps)[m], taxonomy) == {c.winner}
            <==> Regular(c, taxonomy) && Clears(c, taxonomy, Run(thread, steps[..last])[m])
    decreases |steps|
  {
    var front := steps[..|steps| - 1];
    if last == |steps| - 1 {
      var before := Run(thread, front);
      ExclusiveExactly(before, before.Keys, steps[last].call, taxonomy, m);
    } else {
      assert front[..last] == steps[..last];
      LastVerdictWins(thread, front, last, taxonomy, m);
    }
  }

  /** A label in no call's taxonomy and not one of the three action labels never changes on a message
      once there. */
  lemma {:induction false} OthersUntouched(thread: Labels, steps: seq<Step>, m: string, other: string)
    requires m in thread && other !in {INBOX, UNREAD, STARRED}
    requires forall k :: 0 <= k < |steps| && steps[k].Take? ==>
               other !in steps[k].call.taxonomy && steps[k].call.winner in steps[k].call.taxonomy
    ensures m in Run(thread, steps) && (other in Run(thread, steps)[m] <==> other in thread[m])
    decreases |steps|
  {
    if steps != [] {
      OthersUntouched(thread, steps[..|steps| - 1], m, other);
    }
  }
}
