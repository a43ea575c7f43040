/** Guards on new mail: one claim per event and window, and a cap on replies per thread. */
module Claims {
  import opened Redis
  import opened Wrappers
  import RateLimit

  const EVENT_TTL := 24 * 60 * 60
  const REPLY_WINDOW := 60 * 60
  const MAX_REPLIES_PER_THREAD := 5

  function EventKey(userId: string, messageId: string): string { "evt:" + userId + ":" + messageId }

  function ReplyKey(threadId: string): string { "reply:" + threadId }

  /** `claim_event` and `claim_event_sync` alike: both set the same key with the same lifetime. */
  method ClaimEvent(store: Store, userId: string, messageId: string) returns (claimed: bool)
    modifies store`keys
    ensures claimed <==> Seen(old(store.Slot(EventKey(userId, messageId))), store.now).None?
    ensures store.keys == if claimed
                          then old(store.keys)[EventKey(userId, messageId) := Entry(1, Some(store.now + EVENT_TTL))]
                          else old(store.keys)
  {
    claimed := store.SetNxEx(EventKey(userId, messageId), EVENT_TTL);
  }

  method AllowReply(store: Store, threadId: string) returns (ok: bool)
    modifies store`keys
    ensures var before := old(store.Slot(ReplyKey(threadId)));
            var bumped := Bumped(before, store.now);
            && ok == (bumped.value <= MAX_REPLIES_PER_THREAD)
            && store.Slot(ReplyKey(threadId))
               == (if bumped.value == 1 then WithTtl(Some(bumped), store.now, REPLY_WINDOW) else Some(bumped))
            && store.keys - {ReplyKey(threadId)} == old(store.keys) - {ReplyKey(threadId)}
  {
    var key := ReplyKey(threadId);
    var count := store.Incr(key);
    if count == 1 { store.Expire(key, REPLY_WINDOW); }
    ok := count <= MAX_REPLIES_PER_THREAD;
  }

  /** Two different events never share a key, and no event key is a reply key:
      ids hold no colon, so the first colon after the prefix ends the user id. */
  lemma KeysApart(u: string, m: string, v: string, n: string, thread: string)
    requires ':' !in u && ':' !in v
    ensures EventKey(u, m) == EventKey(v, n) ==> u == v && m == n
    ensures EventKey(u, m) != ReplyKey(thread)
  {
    var x, y := EventKey(u, m), EventKey(v, n);
    assert x[0] == 'e' && ReplyKey(thread)[0] == 'r';
    var a, b := u + ":" + m, v + ":" + n;
    assert x[4..] == a && y[4..] == b;
    assert a[|u|] == ':' && b[|v|] == ':';
    assert a[..|u|] == u && b[..|v|] == v && a[|u| + 1..] == m && b[|v| + 1..] == n;
    assert forall k :: 0 <= k < |u| ==> a[k] == u[k];
    assert forall k :: 0 <= k < |v| ==> b[k] == v[k];
    if x == y {
      assert |u| == |v|;
    }
  }

  // ----- many workers, one event --------------------------------------------

  /** The slot after the attempts at `times`, by whatever workers, through whichever client. */
  function SlotAfter(times: seq<int>, ttl: int): Option<Entry> {
    if times == [] then None
    else
      var at := times[|times| - 1];
      var before := SlotAfter(times[..|times| - 1], ttl);
      if Seen(before, at).None? then Some(Entry(1, Some(at + ttl))) else before
  }

  predicate Claims(times: seq<int>, ttl: int, k: nat)
    requires k < |times|
  {
    Seen(SlotAfter(times[..k], ttl), times[k]).None?
  }

  ghost predicate Ascending(times: seq<int>) {
    forall i, j :: 0 <= i < j < |times| ==> times[i] <= times[j]
  }

  lemma FrontClaims(times: seq<int>, ttl: int, k: nat)
    requires k <= |times|
    ensures forall i: nat :: i < k ==> Claims(times[..k], ttl, i) == Claims(times, ttl, i)
  {
    forall i: nat | i < k ensures Claims(times[..k], ttl, i) == Claims(times, ttl, i) {
      assert times[..k][..i] == times[..i];
    }
  }

  /** The latest successful claim decides the slot. */
  lemma {:induction false} LastClaim(times: seq<int>, ttl: int) returns (j: nat)
    requires ttl > 0 && Ascending(times) && times != []
    ensures j < |times| && Claims(times, ttl, j)
    ensures SlotAfter(times, ttl) == Some(Entry(1, Some(times[j] + ttl)))
    ensures forall i: nat :: j < i < |times| ==> !Claims(times, ttl, i)
  {
    j := |times| - 1;
    if !Claims(times, ttl, j) {
      FrontClaims(times, ttl, j);
      j := LastClaim(times[..j], ttl);
    }
  }

  /** An attempt wins exactly when no earlier win is less than one lifetime old:
      so at most one worker handles an event per lifetime, and after it the event can be claimed again. */
  lemma WinsExactly(times: seq<int>, ttl: int, k: nat)
    requires ttl > 0 && Ascending(times) && k < |times|
    ensures Claims(times, ttl, k) <==> forall j: nat :: j < k && Claims(times, ttl, j) ==> times[j] + ttl <= times[k]
  {
    if k > 0 {
      FrontClaims(times, ttl, k);
      var j := LastClaim(times[..k], ttl);
      assert Claims(times, ttl, j);
      forall i: nat | i < k && Claims(times, ttl, i) ensures times[i] <= times[j] {
        assert Claims(times[..k], ttl, i);
      }
    }
  }

  /** The reply cap is per key lifetime; over an arbitrary hour it is 9, not 5. */
  lemma RepliesPerHour(start: int, steps: seq<RateLimit.Step>, from: int)
    requires RateLimit.RunOk(RateLimit.Idle(start), steps, REPLY_WINDOW)
    ensures |RateLimit.Passed(RateLimit.Run(RateLimit.Idle(start), steps, REPLY_WINDOW).log,
                              MAX_REPLIES_PER_THREAD, from, from + REPLY_WINDOW)| <= 9
  {
    RateLimit.TraceBound(start, steps, REPLY_WINDOW, MAX_REPLIES_PER_THREAD, from);
  }
}
