/** The stored Google grant: guarded token writes, a sticky revocation, and a compare-and-set cursor.
    Times are seconds. */
module Credentials {
  import opened Wrappers

  datatype Row = Row(
    email: string, accessToken: Option<string>, refreshToken: string, expiry: Option<int>,
    scopes: set<string>, historyId: Option<string>, watchExpiry: Option<int>,
    revoked: bool, lastError: Option<string>)

  /** A refresh response: rotation and scopes are optional in Google's answer. */
  datatype Refreshed = Refreshed(
    accessToken: string, refreshToken: Option<string>, expiry: int, scopes: Option<set<string>>)

  datatype Grant = Grant(
    email: string, accessToken: string, refreshToken: Option<string>, expiry: int, scopes: set<string>)

  /** The guard: a refresh replaces only an older token; rotation is unconditional. */
  function Persisted(row: Row, r: Refreshed): Row {
    var guarded :=
      if row.expiry.Some? && row.expiry.value >= r.expiry then row
      else row.(accessToken := Some(r.accessToken), expiry := Some(r.expiry), lastError := None,
                scopes := if r.scopes.Some? then r.scopes.value else row.scopes);
    if r.refreshToken.Some? then guarded.(refreshToken := r.refreshToken.value) else guarded
  }

  function Granted(row: Option<Row>, g: Grant): Row {
    match row
    case None =>
      Row(g.email, Some(g.accessToken), if g.refreshToken.Some? then g.refreshToken.value else "",
          Some(g.expiry), g.scopes, None, None, false, None)
    case Some(was) =>
      was.(email := g.email, accessToken := Some(g.accessToken), expiry := Some(g.expiry), scopes := g.scopes,
            refreshToken := if g.refreshToken.Some? then g.refreshToken.value else was.refreshToken,
            revoked := false, lastError := None)
  }

  function Revoked(row: Row, reason: string): Row {
    row.(revoked := true, lastError := Some(reason), accessToken := None)
  }

  function Seeded(row: Row, id: string, onlyIfUnset: bool): Row {
    if onlyIfUnset && row.historyId.Some? then row else row.(historyId := Some(id))
  }

  /** One process: the shared table and this process's snapshots, (cached at, state). */
  class Connections {
    var rows: map<string, Row>
    var snapshots: map<string, (int, Option<Row>)>

    constructor ()
      ensures rows == map[] && snapshots == map[]
    {
      rows, snapshots := map[], map[];
    }

    function Stored(user: string): Option<Row>
      reads this
    {
      if user in rows then Some(rows[user]) else None
    }

    /** The cached state while younger than 60 seconds, else the row, cached anew. */
    method GetConnection(user: string, bypass: bool, now: int) returns (state: Option<Row>)
      modifies this`snapshots
      ensures !bypass && user in old(snapshots) && now - old(snapshots)[user].0 < 60 ==>
                state == old(snapshots)[user].1 && snapshots == old(snapshots)
      ensures bypass || user !in old(snapshots) || now - old(snapshots)[user].0 >= 60 ==>
                state == Stored(user) && snapshots == old(snapshots)[user := (now, state)]
    {
      if !bypass && user in snapshots && now - snapshots[user].0 < 60 { return snapshots[user].1; }
      state := Stored(user);
      snapshots := snapshots[user := (now, state)];
    }

    method PersistRefreshed(user: string, r: Refreshed)
      modifies this
      ensures rows == if user in old(rows) then old(rows)[user := Persisted(old(rows)[user], r)] else old(rows)
      ensures user in old(rows) ==>
                var was, now := old(rows)[user], rows[user];
                && now.refreshToken == (if r.refreshToken.Some? then r.refreshToken.value else was.refreshToken)
                && (was.expiry.Some? && was.expiry.value >= r.expiry ==> now == was.(refreshToken := now.refreshToken))
                && (was.expiry.None? || was.expiry.value < r.expiry ==>
                      now == was.(refreshToken := now.refreshToken, accessToken := Some(r.accessToken),
                                  expiry := Some(r.expiry), lastError := None,
                                  scopes := if r.scopes.Some? then r.scopes.value else was.scopes))
      ensures snapshots == old(snapshots) - {user}
    {
      if user in rows {
        var row := rows[user];
        if row.expiry.None? || row.expiry.value < r.expiry {
          row := row.(accessToken := Some(r.accessToken), expiry := Some(r.expiry), lastError := None);
          if r.scopes.Some? { row := row.(scopes := r.scopes.value); }
        }
        if r.refreshToken.Some? { row := row.(refreshToken := r.refreshToken.value); }
        rows := rows[user := row];
      }
      snapshots := snapshots - {user};
    }

    method StoreGrant(user: string, g: Grant)
      modifies this
      ensures rows == old(rows)[user := Granted(old(Stored(user)), g)]
      ensures var now := rows[user];
              && now.email == g.email && now.accessToken == Some(g.accessToken) && now.expiry == Some(g.expiry)
              && now.scopes == g.scopes && !now.revoked && now.lastError.None?
      ensures user in old(rows) ==>
                && rows[user].historyId == old(rows)[user].historyId
                && rows[user].watchExpiry == old(rows)[user].watchExpiry
      ensures user !in old(rows) ==> rows[user].historyId.None? && rows[user].watchExpiry.None?
      ensures snapshots == old(snapshots) - {user}
    {
      rows := rows[user := Granted(Stored(user), g)];
      snapshots := snapshots - {user};
    }

    /** The write may fail and is then only logged; the snapshot goes either way. */
    method MarkRevoked(user: string, reason: string, writes: bool)
      modifies this
      ensures rows == if writes && user in old(rows) then old(rows)[user := Revoked(old(rows)[user], reason)]
                      else old(rows)
      ensures writes && user in old(rows) ==>
                rows[user] == old(rows)[user].(revoked := true, lastError := Some(reason), accessToken := None)
      ensures snapshots == old(snapshots) - {user}
    {
      if writes && user in rows {
        rows := rows[user := Revoked(rows[user], reason)];
      }
      snapshots := snapshots - {user};
    }

    /** Compare and set: moved only if the cursor is still where the caller read it. */
    method AdvanceHistoryId(user: string, previous: Option<string>, next: string) returns (moved: bool)
      modifies this
      ensures moved <==> user in old(rows) && old(rows)[user].historyId == previous
      ensures rows == if moved then old(rows)[user := old(rows)[user].(historyId := Some(next))] else old(rows)
      ensures snapshots == old(snapshots) - {user}
    {
      moved := user in rows && rows[user].historyId == previous;
      if moved { rows := rows[user := rows[user].(historyId := Some(next))]; }
      snapshots := snapshots - {user};
    }

    /** Seeds or resets the cursor, whatever it was unless asked to leave a set one alone. */
    method SetHistoryId(user: string, id: string, onlyIfUnset: bool)
      modifies this
      ensures rows == if user in old(rows) then old(rows)[user := Seeded(old(rows)[user], id, onlyIfUnset)]
                      else old(rows)
      ensures user in old(rows) && (!onlyIfUnset || old(rows)[user].historyId.None?) ==>
                rows[user] == old(rows)[user].(historyId := Some(id))
      ensures user in old(rows) && onlyIfUnset && old(rows)[user].historyId.Some? ==> rows == old(rows)
      ensures snapshots == old(snapshots) - {user}
    {
      if user in rows {
        if !onlyIfUnset || rows[user].historyId.None? {
          rows := rows[user := rows[user].(historyId := Some(id))];
        }
      }
      snapshots := snapshots - {user};
    }

    method SetWatchExpiry(user: string, until: Option<int>)
      modifies this
      ensures rows == if user in old(rows) then old(rows)[user := old(rows)[user].(watchExpiry := until)] else old(rows)
      ensures snapshots == old(snapshots) - {user}
    {
      if user in rows { rows := rows[user := rows[user].(watchExpiry := until)]; }
      snapshots := snapshots - {user};
    }

    /** Forgets the grant entirely, cursor and all. */
    method Disconnect(user: string)
      modifies this
      ensures rows == old(rows) - {user} && snapshots == old(snapshots) - {user}
    {
      rows := rows - {user};
      snapshots := snapshots - {user};
    }
  }

  // ----- concurrent writers of one row --------------------------------------

  datatype Write =
    | Refresh(token: Refreshed)
    | Grants(grant: Grant)
    | Revoke(reason: string)
    | Advance(previous: Option<string>, next: string)
    | SetHistory(id: string, onlyIfUnset: bool)
    | SetWatch(until: Option<int>)
    | Forget

  /** One committed write; only a grant makes a row where there is none. */
  function Commit(row: Option<Row>, w: Write): Option<Row> {
    match w
    case Grants(grant) => Some(Granted(row, grant))
    case Forget => None
    case _ => if row.None? then None else Some(Changed(row.value, w))
  }

  function Changed(row: Row, w: Write): Row {
    match w
    case Refresh(token) => Persisted(row, token)
    case Revoke(reason) => Revoked(row, reason)
    case Advance(previous, next) => if row.historyId == previous then row.(historyId := Some(next)) else row
    case SetHistory(id, onlyIfUnset) => Seeded(row, id, onlyIfUnset)
    case SetWatch(until) => row.(watchExpiry := until)
    case _ => row
  }

  function CommitAll(row: Option<Row>, writes: seq<Write>): Option<Row> {
    if writes == [] then row
    else Commit(CommitAll(row, writes[..|writes| - 1]), writes[|writes| - 1])
  }

  ghost predicate NoGrant(writes: seq<Write>) {
    forall k :: 0 <= k < |writes| ==> !writes[k].Grants?
  }

  predicate ExpiryLe(x: Option<int>, y: Option<int>) {
    x.None? || (y.Some? && x.value <= y.value)
  }

  /** Between two grants, no write un-revokes the row, brings it back or moves its expiry back. */
  lemma {:induction false} OnlyGrantsRevive(row: Option<Row>, writes: seq<Write>)
    requires NoGrant(writes)
    ensures var end := CommitAll(row, writes);
            end.Some? ==>
              && row.Some?
              && (row.value.revoked ==> end.value.revoked)
              && ((exists k :: 0 <= k < |writes| && writes[k].Revoke?) ==> end.value.revoked)
              && ExpiryLe(row.value.expiry, end.value.expiry)
  {
    if writes != [] {
      OnlyGrantsRevive(row, writes[..|writes| - 1]);
      assert forall k :: 0 <= k < |writes| - 1 ==> writes[k] == writes[..|writes| - 1][k];
    }
  }

  /** The stored pair is the starting one, or that of the first refresh to expire latest. */
  ghost predicate LatestPair(row: Row, writes: seq<Write>, end: Row) {
    && (forall k :: 0 <= k < |writes| && writes[k].Refresh? ==>
          end.expiry.Some? && writes[k].token.expiry <= end.expiry.value)
    && ((end.expiry == row.expiry && end.accessToken == row.accessToken)
        || (ExpiryLe(row.expiry, end.expiry) && row.expiry != end.expiry && exists k :: First(writes, k, end)))
  }

  /** Between grants and revocations, a row that is still there holds the latest-expiring pair of those on
      offer, the starting one included; on equal expiry the one committed first stays. */
  lemma {:induction false} LatestExpiryWins(row: Option<Row>, writes: seq<Write>)
    requires forall k :: 0 <= k < |writes| ==> !writes[k].Grants? && !writes[k].Revoke?
    ensures var end := CommitAll(row, writes);
            end.Some? ==> row.Some? && LatestPair(row.value, writes, end.value)
  {
    if writes != [] {
      var last := |writes| - 1;
      var front := writes[..last];
      LatestExpiryWins(row, front);
      var mid, end := CommitAll(row, front), CommitAll(row, writes);
      if end.Some? {
        assert forall k :: 0 <= k < last ==> writes[k] == front[k];
        if end.value.expiry == mid.value.expiry && end.value.accessToken == mid.value.accessToken {
          if k :| First(front, k, mid.value) { assert First(writes, k, end.value); }
        } else {
          assert First(writes, last, end.value);
        }
      }
    }
  }

  /** Write `k` is the refresh that left `row` its pair, and no earlier refresh expires as late. */
  ghost predicate First(writes: seq<Write>, k: int, row: Row) {
    && 0 <= k < |writes| && writes[k].Refresh?
    && row.expiry == Some(writes[k].token.expiry) && row.accessToken == Some(writes[k].token.accessToken)
    && forall j :: 0 <= j < k && writes[j].Refresh? ==> writes[j].token.expiry < writes[k].token.expiry
  }

  /** The refresh token a write brings, if any. */
  function Carried(w: Write): Option<string> {
    match w
    case Refresh(token) => token.refreshToken
    case Grants(grant) => grant.refreshToken
    case _ => None
  }

  /** A rotated refresh token is never lost, not even by a refresh whose access token loses to a newer one: the
      stored one is that of the last write to carry one since the row began, which is else its own, or none when
      it began with a grant without one. */
  lemma {:induction false} RotationKept(row: Option<Row>, writes: seq<Write>) returns (k: int)
    requires CommitAll(row, writes).Some?
    ensures -1 <= k < |writes|
    ensures forall j :: k < j < |writes| ==> !writes[j].Forget? && Carried(writes[j]).None?
    ensures var token := CommitAll(row, writes).value.refreshToken;
            if k == -1 then row.Some? && token == row.value.refreshToken
            else if Carried(writes[k]).Some? then Carried(writes[k]) == Some(token)
            else writes[k].Grants? && CommitAll(row, writes[..k]).None? && token == ""
  {
    k := |writes| - 1;
    if writes != [] {
      var front, last := writes[..k], writes[k];
      if Carried(last).None? && (!last.Grants? || CommitAll(row, front).Some?) {
        k := RotationKept(row, front);
        assert forall j :: 0 <= j < |front| ==> writes[j] == front[j];
        if k >= 0 { assert writes[..k] == front[..k]; }
      }
    }
  }

  ghost predicate SameRefreshes(xs: seq<Write>, ys: seq<Write>) {
    && (forall k :: 0 <= k < |xs| ==> xs[k].Refresh?)
    && (forall k :: 0 <= k < |ys| ==> ys[k].Refresh?)
    && (forall w :: w in xs <==> w in ys)
  }

  lemma {:induction false} RefreshesKeepRow(row: Option<Row>, xs: seq<Write>)
    requires forall k :: 0 <= k < |xs| ==> xs[k].Refresh?
    ensures CommitAll(row, xs).Some? <==> row.Some?
  {
    if xs != [] { RefreshesKeepRow(row, xs[..|xs| - 1]); }
  }

  lemma NoLater(row: Row, xs: seq<Write>, ys: seq<Write>)
    requires SameRefreshes(xs, ys)
    requires CommitAll(Some(row), xs).Some? && CommitAll(Some(row), ys).Some?
    ensures ExpiryLe(CommitAll(Some(row), xs).value.expiry, CommitAll(Some(row), ys).value.expiry)
  {
    LatestExpiryWins(Some(row), xs);
    OnlyGrantsRevive(Some(row), ys);
    var x := CommitAll(Some(row), xs).value;
    if x.expiry != row.expiry {
      var k :| First(xs, k, x);
      assert xs[k] in ys;
      var j :| 0 <= j < |ys| && ys[j] == xs[k];
      LatestExpiryWins(Some(row), ys);
    }
  }

  predicate SamePair(x: Option<Row>, y: Option<Row>) {
    x.Some? == y.Some? && (x.Some? ==> x.value.expiry == y.value.expiry && x.value.accessToken == y.value.accessToken)
  }

  /** Expires after the row's token, and no other refresh expires later. */
  ghost predicate Latest(row: Row, xs: seq<Write>, w: Write) {
    && w in xs && w.Refresh? && (row.expiry.Some? ==> row.expiry.value < w.token.expiry)
    && forall v :: v in xs && v.Refresh? ==> v.token.expiry <= w.token.expiry
  }

  /** The refreshes that expire latest carry one token. */
  ghost predicate OneToken(row: Option<Row>, xs: seq<Write>) {
    row.Some? ==> forall v, w :: Latest(row.value, xs, v) && Latest(row.value, xs, w) ==>
                    v.token.accessToken == w.token.accessToken
  }

  /** If the refreshes that expire latest carry one token, the same refreshes in any commit order, with any
      repeated, leave the same pair. */
  lemma CommitOrderIrrelevant(row: Option<Row>, xs: seq<Write>, ys: seq<Write>)
    requires SameRefreshes(xs, ys) && OneToken(row, xs)
    ensures SamePair(CommitAll(row, xs), CommitAll(row, ys))
  {
    RefreshesKeepRow(row, xs);
    RefreshesKeepRow(row, ys);
    if row.Some? {
      NoLater(row.value, xs, ys);
      NoLater(row.value, ys, xs);
      LatestExpiryWins(row, xs);
      LatestExpiryWins(row, ys);
      var x, y := CommitAll(row, xs).value, CommitAll(row, ys).value;
      if x.expiry != row.value.expiry {
        var j :| First(xs, j, x);
        var k :| First(ys, k, y);
        FirstIsLatest(row.value, xs, xs, j, x);
        FirstIsLatest(row.value, xs, ys, k, y);
      }
    }
  }

  lemma FirstIsLatest(row: Row, xs: seq<Write>, ys: seq<Write>, k: int, end: Row)
    requires SameRefreshes(xs, ys) && LatestPair(row, ys, end) && First(ys, k, end) && end.expiry != row.expiry
    ensures Latest(row, xs, ys[k])
  {
    assert ys[k] in ys;
    forall v | v in xs && v.Refresh? ensures v.token.expiry <= ys[k].token.expiry {
      assert v in ys;
    }
  }

  /** A refresh that expires latest wins if it is committed first. */
  lemma FirstCommitWins(row: Row, v: Write, rest: seq<Write>)
    requires (forall k :: 0 <= k < |rest| ==> rest[k].Refresh?) && Latest(row, [v] + rest, v)
    ensures var end := CommitAll(Some(row), [v] + rest);
            end.Some? && end.value.accessToken == Some(v.token.accessToken)
  {
    var writes := [v] + rest;
    RefreshesKeepRow(Some(row), writes);
    LatestExpiryWins(Some(row), writes);
    var end := CommitAll(Some(row), writes).value;
    assert writes[0].Refresh? && writes[0].token.expiry <= end.expiry.value;
    var k :| First(writes, k, end);
    assert writes[k] in writes;
  }

  lemma ToFront(xs: seq<Write>, i: nat)
    requires i < |xs|
    ensures multiset([xs[i]] + (xs[..i] + xs[i + 1..])) == multiset(xs)
  {
    assert xs == xs[..i] + ([xs[i]] + xs[i + 1..]);
  }

  ghost predicate AnyOrder(row: Option<Row>, xs: seq<Write>) {
    forall ys :: multiset(ys) == multiset(xs) ==> SamePair(CommitAll(row, xs), CommitAll(row, ys))
  }

  lemma SameElements(xs: seq<Write>, ys: seq<Write>)
    requires multiset(ys) == multiset(xs) && forall k :: 0 <= k < |xs| ==> xs[k].Refresh?
    ensures SameRefreshes(xs, ys)
  {
    assert forall w :: w in xs <==> w in multiset(xs);
    assert forall w :: w in ys <==> w in multiset(ys);
    assert forall k :: 0 <= k < |ys| ==> ys[k] in ys;
  }

  /** When `v` wins committed first, and every order leaves the same pair, that pair is `v`'s. */
  lemma WinnerOf(row: Row, xs: seq<Write>, v: Write)
    requires (forall k :: 0 <= k < |xs| ==> xs[k].Refresh?) && Latest(row, xs, v) && AnyOrder(Some(row), xs)
    ensures CommitAll(Some(row), xs).Some?
            && CommitAll(Some(row), xs).value.accessToken == Some(v.token.accessToken)
  {
    var i :| 0 <= i < |xs| && xs[i] == v;
    var rest := xs[..i] + xs[i + 1..];
    ToFront(xs, i);
    SameElements(xs, [v] + rest);
    assert forall k :: 0 <= k < |rest| ==> rest[k] in xs;
    FirstCommitWins(row, v, rest);
  }

  /** Commit order does not matter for the stored pair if and only if the refreshes that expire latest carry one
      token, or there is no row to write. */
  lemma CommitOrderExactly(row: Option<Row>, xs: seq<Write>)
    requires forall k :: 0 <= k < |xs| ==> xs[k].Refresh?
    ensures AnyOrder(row, xs) <==> OneToken(row, xs)
  {
    if OneToken(row, xs) {
      forall ys | multiset(ys) == multiset(xs) ensures SamePair(CommitAll(row, xs), CommitAll(row, ys)) {
        SameElements(xs, ys);
        CommitOrderIrrelevant(row, xs, ys);
      }
    } else {
      var v, w :| Latest(row.value, xs, v) && Latest(row.value, xs, w) && v.token.accessToken != w.token.accessToken;
      if AnyOrder(row, xs) {
        WinnerOf(row.value, xs, v);
        WinnerOf(row.value, xs, w);
      }
    }
  }

  // ----- the cursor ---------------------------------------------------------

  function Cursor(row: Option<Row>): Option<string> { if row.Some? then row.value.historyId else None }

  /** Write `k` is an advance that found the cursor where it expected it. */
  predicate Moves(row: Option<Row>, writes: seq<Write>, k: nat)
    requires k < |writes|
  {
    var before := CommitAll(row, writes[..k]);
    writes[k].Advance? && before.Some? && before.value.historyId == writes[k].previous
  }

  /** Write `k` sets the cursor regardless of what a reader of it expects: a reset, a seed, or the row's end. */
  predicate Resets(row: Option<Row>, writes: seq<Write>, k: nat)
    requires k < |writes|
  {
    var before := CommitAll(row, writes[..k]);
    && before.Some?
    && (writes[k].Forget?
        || (writes[k].SetHistory? && (!writes[k].onlyIfUnset || before.value.historyId.None?)))
  }

  predicate Writes(row: Option<Row>, writes: seq<Write>, k: nat)
    requires k < |writes|
  {
    Moves(row, writes, k) || Resets(row, writes, k)
  }

  /** The cursor such a write leaves. */
  function Left(w: Write): Option<string> {
    match w
    case Advance(_, next) => Some(next)
    case SetHistory(id, _) => Some(id)
    case _ => None
  }

  /** Any other write keeps the cursor. */
  lemma CursorStep(row: Option<Row>, writes: seq<Write>, k: nat)
    requires k < |writes|
    ensures Cursor(CommitAll(row, writes[..k + 1]))
            == if Writes(row, writes, k) then Left(writes[k]) else Cursor(CommitAll(row, writes[..k]))
  {
    assert writes[..k + 1][..k] == writes[..k];
  }

  /** The cursor is what the last write to take effect on it left. */
  lemma {:induction false} CursorAfter(row: Option<Row>, writes: seq<Write>, i: nat, j: nat)
    requires i < j <= |writes| && Writes(row, writes, i)
    requires forall k: nat :: i < k < j ==> !Writes(row, writes, k)
    ensures Cursor(CommitAll(row, writes[..j])) == Left(writes[i])
    decreases j
  {
    CursorStep(row, writes, j - 1);
    if i < j - 1 { CursorAfter(row, writes, i, j - 1); }
  }

  /** Every successful advance starts where the last write to take effect on the cursor left it, be that
      an advance, a reset or a disconnect. */
  lemma CursorChain(row: Option<Row>, writes: seq<Write>, i: nat, j: nat)
    requires i < j < |writes| && Writes(row, writes, i) && Moves(row, writes, j)
    requires forall k: nat :: i < k < j ==> !Writes(row, writes, k)
    ensures writes[j].previous == Left(writes[i])
  {
    CursorAfter(row, writes, i, j);
  }

  /** The last write to take effect on the cursor before `j`, from `i` on. */
  lemma {:induction false} LastWrite(row: Option<Row>, writes: seq<Write>, i: nat, j: nat) returns (k: nat)
    requires i < j <= |writes| && Writes(row, writes, i)
    ensures i <= k < j && Writes(row, writes, k) && forall l: nat :: k < l < j ==> !Writes(row, writes, l)
    decreases j
  {
    k := j - 1;
    if !Writes(row, writes, k) { k := LastWrite(row, writes, i, j - 1); }
  }

  /** Of two successive successful advances the second starts where the first ended, exactly when no reset
      took effect between them, or the last one happened to set that very cursor. */
  lemma ChainExactly(row: Option<Row>, writes: seq<Write>, i: nat, j: nat)
    requires i < j < |writes| && Moves(row, writes, i) && Moves(row, writes, j)
    requires forall k: nat :: i < k < j ==> !Moves(row, writes, k)
    ensures writes[j].previous == Some(writes[i].next)
            <==> (forall k: nat :: i < k < j ==> !Resets(row, writes, k))
                 || exists k: nat :: LastReset(row, writes, i, k, j) && Left(writes[k]) == Some(writes[i].next)
  {
    var last := LastWrite(row, writes, i, j);
    CursorChain(row, writes, last, j);
    if last == i {
      forall k: nat | i < k < j ensures !Resets(row, writes, k) { assert !Writes(row, writes, k); }
    } else {
      LastWriteResets(row, writes, i, last, j);
      forall k: nat | LastReset(row, writes, i, k, j) ensures k == last {
        OneLastReset(row, writes, i, k, last, j);
      }
    }
  }

  lemma LastWriteResets(row: Option<Row>, writes: seq<Write>, i: nat, k: nat, j: nat)
    requires i < k < j <= |writes| && Writes(row, writes, k) && !Moves(row, writes, k)
    requires forall l: nat :: k < l < j ==> !Writes(row, writes, l)
    ensures LastReset(row, writes, i, k, j)
  {
    forall l: nat | k < l < j ensures !Resets(row, writes, l) { assert !Writes(row, writes, l); }
  }

  lemma OneLastReset(row: Option<Row>, writes: seq<Write>, i: nat, k: nat, l: nat, j: nat)
    requires j <= |writes| && LastReset(row, writes, i, k, j) && LastReset(row, writes, i, l, j)
    ensures k == l
  {
  }

  ghost predicate LastReset(row: Option<Row>, writes: seq<Write>, i: nat, k: nat, j: nat)
    requires j <= |writes|
  {
    i < k < j && Resets(row, writes, k) && forall l: nat :: k < l < j ==> !Resets(row, writes, l)
  }

  /** A reset between two advances breaks the plain chain. */
  lemma ResetBreaksChain(row: Row) returns (writes: seq<Write>)
    requires row.historyId == Some("1")
    ensures |writes| == 3 && Moves(Some(row), writes, 0) && Resets(Some(row), writes, 1) && Moves(Some(row), writes, 2)
    ensures writes[2].previous != Some(writes[0].next)
  {
    writes := [Advance(Some("1"), "2"), SetHistory("9", false), Advance(Some("9"), "10")];
    assert writes[..0] == [];
    CursorStep(Some(row), writes, 0);
    CursorStep(Some(row), writes, 1);
    assert writes[..1] == [writes[0]] && writes[..2][..1] == writes[..1];
    assert "2"[0] != "9"[0];
  }
}
