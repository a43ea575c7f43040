/** The authorised request loop: which attempts it makes, and how it ends. */
module GoogleClient {

  const MAX_ATTEMPTS := 4

  datatype Reply = Timeout | TransportError | Response(status: int, reason: string)

  /** What attempt number n meets: the reply we see, and whether Google carried the request out. */
  datatype Attempt = Attempt(reply: Reply, applied: bool)

  datatype Outcome = Ok | NotFound | ScopeMissing | RateLimited | ApiError | RefreshFailed | Exhausted

  predicate Success(r: Reply) { r.Response? && 200 <= r.status < 300 }

  predicate Unauthorized(r: Reply) { r.Response? && r.status == 401 }

  predicate RateReason(reason: string) {
    reason in {"rateLimitExceeded", "userRateLimitExceeded", "quotaExceeded", "backendError"}
  }

  predicate ScopeReason(reason: string) {
    reason in {"insufficientPermissions", "ACCESS_TOKEN_SCOPE_INSUFFICIENT"}
  }

  /** Worth another try for a request that may be repeated. */
  predicate Transient(r: Reply) {
    match r
    case Response(status, reason) => status == 429 || status >= 500 || (status == 403 && RateReason(reason))
    case _ => true
  }

  /** The exception, or success, a reply ends the call with. */
  function Verdict(r: Reply): Outcome {
    match r
    case Response(status, reason) =>
      if Success(r) then Ok
      else if status == 404 then NotFound
      else if status == 403 && ScopeReason(reason) then ScopeMissing
      else if status == 429 || (status == 403 && RateReason(reason)) then RateLimited
      else ApiError
    case _ => ApiError
  }

  /** A 401 is followed by a refreshed attempt only the first time. */
  ghost predicate FirstRejection(world: nat -> Attempt, k: nat) {
    Unauthorized(world(k).reply) && forall j: nat :: j < k ==> !Unauthorized(world(j).reply)
  }

  /** Whether attempt `k`'s reply leads to another turn of the loop. */
  ghost predicate Retried(world: nat -> Attempt, idempotent: bool, k: nat) {
    || FirstRejection(world, k)
    || (idempotent && Transient(world(k).reply) && k < MAX_ATTEMPTS - 1)
  }

  /** Which attempts are followed by another, and how the call ends. `refreshOk` tells whether
      `force_refresh` succeeds when a 401 asks for it. */
  ghost predicate Ends(world: nat -> Attempt, idempotent: bool, refreshOk: bool, out: Outcome, sent: nat) {
    && 1 <= sent <= MAX_ATTEMPTS
    && (forall k: nat :: k < sent - 1 ==> Retried(world, idempotent, k))
    && (forall k: nat :: k < sent - 1 && FirstRejection(world, k) ==> refreshOk)
    && (out.RefreshFailed? <==> FirstRejection(world, sent - 1) && !refreshOk)
    && (out.Exhausted? <==> FirstRejection(world, sent - 1) && refreshOk)
    && (out.Exhausted? ==> sent == MAX_ATTEMPTS)
    && (!out.RefreshFailed? && !out.Exhausted? ==>
          !Retried(world, idempotent, sent - 1) && out == Verdict(world(sent - 1).reply))
  }

  /** The end a last answer is reported as, by its status and reason. */
  predicate Named(r: Reply, out: Outcome) {
    && (out.Ok? <==> r.Response? && 200 <= r.status <= 299)
    && (out.NotFound? <==> r.Response? && r.status == 404)
    && (out.ScopeMissing? <==>
          r.Response? && r.status == 403 && r.reason in {"insufficientPermissions", "ACCESS_TOKEN_SCOPE_INSUFFICIENT"})
    && (out.RateLimited? <==>
          && r.Response?
          && (r.status == 429
              || (r.status == 403
                  && r.reason in {"rateLimitExceeded", "userRateLimitExceeded", "quotaExceeded", "backendError"})))
  }

  method Request(world: nat -> Attempt, idempotent: bool, refreshOk: bool) returns (out: Outcome, sent: nat)
    ensures Ends(world, idempotent, refreshOk, out, sent)
    ensures !out.RefreshFailed? && !out.Exhausted? ==> Named(world(sent - 1).reply, out)
  {
    var refreshed := false;
    sent := 0;
    while sent < MAX_ATTEMPTS
      invariant 0 <= sent <= MAX_ATTEMPTS
      invariant refreshed <==> exists j: nat :: j < sent && Unauthorized(world(j).reply)
      invariant forall k: nat :: k < sent ==> Retried(world, idempotent, k)
      invariant forall k: nat :: k < sent && FirstRejection(world, k) ==> refreshOk
    {
      var reply := world(sent).reply;
      sent := sent + 1;
      if !reply.Response? {
        if !idempotent || sent == MAX_ATTEMPTS { return ApiError, sent; }
        continue;
      }
      if Success(reply) { return Ok, sent; }
      if reply.status == 401 && !refreshed {
        refreshed := true;
        if !refreshOk { return RefreshFailed, sent; }
        continue;
      }
      if reply.status == 404 { return NotFound, sent; }
      if reply.status == 403 && ScopeReason(reply.reason) { return ScopeMissing, sent; }
      if Transient(reply) && idempotent && sent < MAX_ATTEMPTS { continue; }
      if reply.status == 429 || (reply.status == 403 && RateReason(reply.reason)) { return RateLimited, sent; }
      return ApiError, sent;
    }
    assert Retried(world, idempotent, sent - 1);
    return Exhausted, sent;
  }

  /** Google rejects an unauthorised request without acting on it, and acts on those it accepts. */
  ghost predicate Honest(world: nat -> Attempt) {
    forall k: nat ::
      && (Unauthorized(world(k).reply) ==> !world(k).applied)
      && (Success(world(k).reply) ==> world(k).applied)
  }

  function Effects(world: nat -> Attempt, n: nat): nat {
    if n == 0 then 0 else Effects(world, n - 1) + if world(n - 1).applied then 1 else 0
  }

  lemma {:induction false} NoEffects(world: nat -> Attempt, n: nat)
    requires forall k: nat :: k < n ==> !world(k).applied
    ensures Effects(world, n) == 0
  {
    if n > 0 { NoEffects(world, n - 1); }
  }

  /** A request that must not be repeated is carried out at most once: every request but the last
      was answered 401, and there are at most two. */
  lemma AtMostOnce(world: nat -> Attempt, sent: nat)
    requires Honest(world) && sent >= 1
    requires forall k: nat :: k < sent - 1 ==> Retried(world, false, k)
    ensures sent <= 2 && (sent == 2 ==> Unauthorized(world(0).reply))
    ensures Effects(world, sent) == if world(sent - 1).applied then 1 else 0
  {
    var first: nat, second: nat := 0, 1;
    assert sent >= 2 ==> Retried(world, false, first);
    assert sent >= 3 ==> Retried(world, false, second);
    NoEffects(world, sent - 1);
  }

  /** How a request that must not be repeated ends: after its first answer, or after one refresh. */
  function Once(world: nat -> Attempt, refreshOk: bool): (Outcome, nat) {
    if !Unauthorized(world(0).reply) then (Verdict(world(0).reply), 1)
    else if !refreshOk then (RefreshFailed, 1)
    else (Verdict(world(1).reply), 2)
  }

  /** What `Request` promises leaves one possible end. */
  lemma OnceIs(world: nat -> Attempt, refreshOk: bool, out: Outcome, sent: nat)
    requires Ends(world, false, refreshOk, out, sent)
    ensures (out, sent) == Once(world, refreshOk)
  {
    var first: nat, second: nat, last: nat := 0, 1, sent - 1;
    if Unauthorized(world(0).reply) {
      assert FirstRejection(world, first) && !FirstRejection(world, second);
      assert sent >= 3 ==> Retried(world, false, second);
      assert last <= 1;
    } else {
      assert !Retried(world, false, first);
      assert last == 0;
    }
  }

  /** So it is carried out at most once, and exactly once when it succeeds. */
  lemma OnceAtMostOnce(world: nat -> Attempt, refreshOk: bool)
    requires Honest(world)
    ensures var (out, sent) := Once(world, refreshOk);
            Effects(world, sent) <= 1 && (out.Ok? ==> Effects(world, sent) == 1)
  {
    var (out, sent) := Once(world, refreshOk);
    assert FirstRejection(world, 0) <==> Unauthorized(world(0).reply);
    AtMostOnce(world, sent);
  }

  /** The refresh that comes too late, in terms of the answers alone: the request gives up with a fresh
      token in hand exactly when it may be repeated, the first three answers are transient and the fourth
      is the first 401. */
  lemma ExhaustedExactly(world: nat -> Attempt, idempotent: bool, refreshOk: bool, out: Outcome, sent: nat)
    requires Ends(world, idempotent, refreshOk, out, sent)
    ensures out.Exhausted? <==>
              && idempotent && refreshOk
              && (forall k: nat :: k < MAX_ATTEMPTS - 1 ==> Transient(world(k).reply))
              && Unauthorized(world(MAX_ATTEMPTS - 1).reply)
  {
    if idempotent && refreshOk && Unauthorized(world(MAX_ATTEMPTS - 1).reply)
       && forall k: nat :: k < MAX_ATTEMPTS - 1 ==> Transient(world(k).reply)
    {
      assert FirstRejection(world, MAX_ATTEMPTS - 1);
      forall k: nat | k < MAX_ATTEMPTS - 1 ensures Retried(world, idempotent, k) && !FirstRejection(world, k) {
        assert Transient(world(k).reply);
      }
    }
    if out.Exhausted? {
      forall k: nat | k < MAX_ATTEMPTS - 1 ensures Transient(world(k).reply) && idempotent {
        assert Retried(world, idempotent, k) && !FirstRejection(world, k);
      }
      var first: nat := 0;
      assert Retried(world, idempotent, first);
    }
  }

  /** No answer, a server's fault, or a limit on the rate of requests. */
  predicate Passing(r: Reply) {
    || !r.Response? || r.status == 429 || r.status >= 500
    || (r.status == 403
        && r.reason in {"rateLimitExceeded", "userRateLimitExceeded", "quotaExceeded", "backendError"})
  }

  /** A request that may be repeated, and is never refused as unauthorised, goes on exactly while what it meets
      may pass, and at most four times. */
  lemma RepeatsExactly(world: nat -> Attempt, refreshOk: bool, out: Outcome, sent: nat)
    requires Ends(world, true, refreshOk, out, sent) && forall k: nat :: !Unauthorized(world(k).reply)
    ensures forall k: nat :: k < sent - 1 ==> Passing(world(k).reply)
    ensures sent == 4 || !Passing(world(sent - 1).reply)
    ensures out != RefreshFailed && out != Exhausted
  {
    forall k: nat | k < sent - 1 ensures Passing(world(k).reply) {
      assert Retried(world, true, k);
    }
    assert !Retried(world, true, sent - 1);
  }

  /** One such run of answers. */
  lemma RefreshTooLate() returns (world: nat -> Attempt)
    ensures Ends(world, true, true, Exhausted, MAX_ATTEMPTS)
  {
    world := (k: nat) => Attempt(if k < 3 then Timeout else Response(401, ""), false);
    assert FirstRejection(world, MAX_ATTEMPTS - 1);
  }
}
