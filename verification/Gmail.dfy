/** The looping Gmail calls: chunked label changes, paged listings, and deduplicated history. */
module Gmail {
  import opened Filtering
  import opened Wrappers

  type Labels = map<string, set<string>>

  /** One label change on the messages `ids`; unknown ids are ignored. */
  function Relabel(mailbox: Labels, ids: set<string>, add: set<string>, remove: set<string>): (r: Labels)
    ensures r.Keys == mailbox.Keys
    ensures forall m :: m in mailbox ==> r[m] == if m in ids then (mailbox[m] - remove) + add else mailbox[m]
  {
    map m | m in mailbox :: if m in ids then (mailbox[m] - remove) + add else mailbox[m]
  }

  const CHUNK := 1000

  function Elements(s: seq<string>): set<string> { set x | x in s }

  /** One request per thousand ids. `failing` is the first request Gmail refuses, if any: the
      requests before it have taken effect, and no id is in two requests. */
  method BatchModify(mailbox: Labels, ids: seq<string>, add: set<string>, remove: set<string>, failing: Option<nat>)
    returns (after: Labels, sent: seq<seq<string>>, raised: bool)
    ensures forall k :: 0 <= k < |sent| ==> 0 < |sent[k]| <= CHUNK && sent[k] == Slice(ids, k)
    ensures raised <==> failing.Some? && failing.value * CHUNK < |ids|
    ensures |sent| == if raised then failing.value else (|ids| + CHUNK - 1) / CHUNK
    ensures add !! remove ==> after == Relabel(mailbox, Elements(ids[..Reached(|ids|, |sent|)]), add, remove)
    ensures !raised ==> Reached(|ids|, |sent|) == |ids|
  {
    after, sent, raised := mailbox, [], false;
    assert Relabel(mailbox, {}, add, remove) == mailbox;
    var start := 0;
    while start < |ids|
      invariant start == |sent| * CHUNK && 0 <= start < |ids| + CHUNK
      invariant forall k :: 0 <= k < |sent| ==> 0 < |sent[k]| <= CHUNK && sent[k] == Slice(ids, k)
      invariant failing.Some? ==> |sent| <= failing.value
      invariant add !! remove ==> after == Relabel(mailbox, Elements(ids[..Reached(|ids|, |sent|)]), add, remove)
    {
      if failing == Some(|sent|) { return after, sent, true; }
      var chunk := Slice(ids, |sent|);
      ChunkJoins(ids, |sent|);
      RelabelTwice(mailbox, ids[..start], chunk, add, remove);
      after := Relabel(after, Elements(chunk), add, remove);
      sent := sent + [chunk];
      start := start + CHUNK;
    }
    ChunkCount(|ids|, |sent|);
  }

  lemma ChunkCount(total: nat, n: nat)
    requires total <= n * CHUNK < total + CHUNK
    ensures n == (total + CHUNK - 1) / CHUNK && Reached(total, n) == total
  {
  }

  /** How many ids the first `n` requests cover. */
  function Reached(total: nat, n: nat): (r: nat)
    ensures r <= total
  {
    if n * CHUNK < total then n * CHUNK else total
  }

  function Slice(ids: seq<string>, k: nat): seq<string> {
    if k * CHUNK >= |ids| then [] else ids[k * CHUNK..Reached(|ids|, k + 1)]
  }

  lemma ChunkJoins(ids: seq<string>, n: nat)
    requires n * CHUNK < |ids|
    ensures Reached(|ids|, n) == n * CHUNK && 0 < |Slice(ids, n)| <= CHUNK
    ensures ids[..Reached(|ids|, n + 1)] == ids[..n * CHUNK] + Slice(ids, n)
  {
  }

  lemma RelabelTwice(mailbox: Labels, xs: seq<string>, ys: seq<string>, add: set<string>, remove: set<string>)
    ensures add !! remove ==>
      Relabel(Relabel(mailbox, Elements(xs), add, remove), Elements(ys), add, remove)
      == Relabel(mailbox, Elements(xs + ys), add, remove)
  {
    ElementsConcat(xs, ys);
    if add !! remove {
      var once := Relabel(mailbox, Elements(xs), add, remove);
      var twice, joined := Relabel(once, Elements(ys), add, remove), Relabel(mailbox, Elements(xs + ys), add, remove);
      forall m | m in mailbox ensures twice[m] == joined[m] {
        assert (((mailbox[m] - remove) + add) - remove) + add == (mailbox[m] - remove) + add;
      }
    }
  }

  lemma ElementsConcat(xs: seq<string>, ys: seq<string>)
    ensures Elements(xs + ys) == Elements(xs) + Elements(ys)
  {
    assert forall x :: x in xs + ys <==> x in xs || x in ys;
  }

  // ----- listings -----------------------------------------------------------

  /** The ids on each page up to the first page without a continuation token. */
  function Listed(pages: seq<seq<string>>): seq<string> {
    if pages == [] then [] else Present(pages[0]) + Listed(pages[1..])
  }

  /** Entries without an id are dropped. */
  function Present(page: seq<string>): (r: seq<string>)
    ensures "" !in r && forall x :: x in r ==> x in page
  {
    if page == [] then []
    else (if page[0] == "" then [] else [page[0]]) + Present(page[1..])
  }

  /** Exactly the ids that are there, in page order. */
  lemma {:induction false} PresentExact(page: seq<string>) returns (at: seq<nat>)
    ensures Picks(Present(page), page, HasId, Same, at)
  {
    at := [];
    if page != [] {
      at := PresentExact(page[1..]);
      assert page == [page[0]] + page[1..];
      PicksCons(Present(page[1..]), page[0], page[1..], HasId, Same, at);
      assert Present(page) == if HasId(page[0]) then [Same(page[0])] + Present(page[1..]) else Present(page[1..]);
      at := if page[0] != "" then [0] + Shifted(at) else Shifted(at);
    }
  }

  predicate HasId(id: string) { id != "" }

  function Same(id: string): string { id }

  /** The pages, one after another. */
  function Joined(pages: seq<seq<string>>): seq<string> {
    if pages == [] then [] else Joined(pages[..|pages| - 1]) + pages[|pages| - 1]
  }

  lemma {:induction false} PresentConcat(xs: seq<string>, ys: seq<string>)
    ensures Present(xs + ys) == Present(xs) + Present(ys)
  {
    if xs == [] {
      assert xs + ys == ys;
    } else {
      assert (xs + ys)[1..] == xs[1..] + ys;
      PresentConcat(xs[1..], ys);
    }
  }

  /** The listing is what is there on the pages one after another. */
  lemma {:induction false} ListedExact(pages: seq<seq<string>>)
    ensures Listed(pages) == Present(Joined(pages))
  {
    if pages != [] {
      var front, last := pages[..|pages| - 1], pages[|pages| - 1];
      ListedExact(front);
      ListedSnoc(front, last);
      assert front + [last] == pages;
      PresentConcat(Joined(front), last);
    }
  }

  lemma {:induction false} ListedSnoc(pages: seq<seq<string>>, page: seq<string>)
    ensures Listed(pages + [page]) == Listed(pages) + Present(page)
  {
    if pages == [] {
      assert [page][1..] == [] && Listed([page]) == Present(page) + Listed([]);
    } else {
      assert (pages + [page])[1..] == pages[1..] + [page];
      ListedSnoc(pages[1..], page);
    }
  }

  function Prefix(s: seq<string>, n: int): (r: seq<string>)
    ensures r <= s && |r| == if n <= 0 then 0 else if n < |s| then n else |s|
  {
    if n <= 0 then [] else if n < |s| then s[..n] else s
  }

  lemma NextPage(pages: seq<seq<string>>, k: nat, out: seq<string>)
    requires k < |pages|
    ensures out + Listed(pages[k..]) == (out + Present(pages[k])) + Listed(pages[k + 1..])
  {
    assert pages[k..][1..] == pages[k + 1..];
  }

  lemma PrefixEnough(out: seq<string>, rest: seq<string>, limit: int)
    requires |out| >= limit || rest == []
    ensures Prefix(out + rest, limit) == Prefix(out, limit)
  {
  }

  /** Stops once `limit` ids are in hand; what is returned is the first `limit` of the whole listing. */
  method ListMessageIds(pages: seq<seq<string>>, maxResults: Option<int>) returns (out: seq<string>)
    ensures out == Prefix(Listed(pages), if maxResults.Some? then maxResults.value else 10_000)
  {
    var limit := if maxResults.Some? then maxResults.value else 10_000;
    out := [];
    var k := 0;
    assert pages[0..] == pages;
    while |out| < limit && k < |pages|
      invariant 0 <= k <= |pages|
      invariant out + Listed(pages[k..]) == Listed(pages)
      invariant limit <= 0 ==> out == []
    {
      NextPage(pages, k, out);
      out := out + Present(pages[k]);
      k := k + 1;
    }
    PrefixEnough(out, Listed(pages[k..]), limit);
    out := Prefix(out, limit);
  }

  /** First occurrences, in order. */
  function Dedupe(s: seq<string>): seq<string> {
    if s == [] then []
    else
      var last := s[|s| - 1];
      var front := Dedupe(s[..|s| - 1]);
      if last == "" || last in front then front else front + [last]
  }

  /** Every id once, and no other. */
  lemma {:induction false} DedupeExact(s: seq<string>)
    ensures forall x :: x in Dedupe(s) <==> x in s && x != ""
    ensures forall i, j :: 0 <= i < j < |Dedupe(s)| ==> Dedupe(s)[i] != Dedupe(s)[j]
  {
    if s != [] {
      DedupeExact(s[..|s| - 1]);
      assert forall x :: x in s <==> x in s[..|s| - 1] || x == s[|s| - 1];
    }
  }

  /** Every id where it first appears, in that order. */
  lemma {:induction false} DedupeFirst(s: seq<string>) returns (at: seq<nat>)
    ensures |Dedupe(s)| == |at| && forall k :: 0 <= k < |at| ==> at[k] < |s| && Dedupe(s)[k] == s[at[k]]
    ensures forall j, k :: 0 <= j < k < |at| ==> at[j] < at[k]
    ensures forall x: nat :: x < |s| ==> (x in at <==> Appears(s, x))
  {
    at := [];
    if s != [] {
      var front, last: nat := s[..|s| - 1], |s| - 1;
      at := DedupeFirst(front);
      DedupeExact(front);
      FirstsOf(s, at);
      if s[last] != "" && s[last] !in front {
        FirstsMore(s, at);
        at := at + [last];
      }
    }
  }

  /** Position `x` is where its id first appears. */
  predicate Appears(s: seq<string>, x: nat)
    requires x < |s|
  {
    s[x] != "" && s[x] !in s[..x]
  }

  /** First places in the front of a list are first places in the list. */
  lemma FirstsOf(s: seq<string>, at: seq<nat>)
    requires s != []
    requires forall x: nat :: x < |s| - 1 ==> (x in at <==> Appears(s[..|s| - 1], x))
    requires forall k :: 0 <= k < |at| ==> at[k] < |s| - 1
    ensures forall x: nat :: x < |s| ==> (x in at <==> x < |s| - 1 && Appears(s, x))
    ensures forall k :: 0 <= k < |at| ==> s[at[k]] == s[..|s| - 1][at[k]]
  {
    forall x: nat | x < |s| - 1 ensures Appears(s[..|s| - 1], x) == Appears(s, x) {
      assert s[..|s| - 1][..x] == s[..x];
    }
  }

  lemma FirstsMore(s: seq<string>, at: seq<nat>)
    requires s != [] && Appears(s, |s| - 1)
    requires forall x: nat :: x < |s| ==> (x in at <==> x < |s| - 1 && Appears(s, x))
    ensures forall x: nat :: x < |s| ==> (x in at + [|s| - 1] <==> Appears(s, x))
  {
  }

  /** One answer of the history call: message ids in record order, and the mailbox's history id. */
  datatype HistoryPage = HistoryPage(records: seq<string>, historyId: string)

  /** The records of the first `n` pages. */
  function Records(pages: seq<HistoryPage>, n: nat): seq<string>
    requires n <= |pages|
  {
    if n == 0 then [] else Records(pages, n - 1) + pages[n - 1].records
  }

  /** The last history id those pages gave. */
  function LatestId(pages: seq<HistoryPage>, n: nat): string
    requires n <= |pages|
  {
    if n == 0 then "" else if pages[n - 1].historyId != "" then pages[n - 1].historyId else LatestId(pages, n - 1)
  }

  /** The latest id that any page gave stands, however many give none after it. */
  lemma {:induction false} LatestIdExact(pages: seq<HistoryPage>, n: nat) returns (k: int)
    requires n <= |pages|
    ensures -1 <= k < n && forall j :: k < j < n ==> pages[j].historyId == ""
    ensures if k == -1 then LatestId(pages, n) == ""
            else pages[k].historyId != "" && LatestId(pages, n) == pages[k].historyId
  {
    k := n - 1;
    if n > 0 && pages[n - 1].historyId == "" { k := LatestIdExact(pages, n - 1); }
  }

  function PagesRead(pages: seq<HistoryPage>, maxPages: nat): (n: nat)
    ensures n <= |pages| && n <= maxPages && (n == |pages| || n == maxPages)
  {
    if maxPages < |pages| then maxPages else |pages|
  }

  /** One page: its messages join the list unless they are in it already. */
  method CollectPage(records: seq<string>, ghost front: seq<string>, before: seq<string>)
    returns (messages: seq<string>)
    requires before == Dedupe(front)
    ensures messages == Dedupe(front + records)
  {
    messages := before;
    var seen := Elements(before);
    assert front + records[..0] == front;
    for k := 0 to |records|
      invariant messages == Dedupe(front + records[..k]) && seen == Elements(messages)
    {
      var id := records[k];
      DedupeNext(front, records, k);
      if id != "" && id !in seen {
        seen := seen + {id};
        messages := messages + [id];
      }
    }
    assert records[..|records|] == records;
  }

  /** Walks at most `maxPages` pages. History may name a message several times; each is reported once,
      where it first appears. */
  method HistorySince(pages: seq<HistoryPage>, maxPages: nat) returns (messages: seq<string>, latest: string)
    ensures messages == Dedupe(Records(pages, PagesRead(pages, maxPages)))
    ensures latest == LatestId(pages, PagesRead(pages, maxPages))
  {
    messages, latest := [], "";
    for n := 0 to PagesRead(pages, maxPages)
      invariant messages == Dedupe(Records(pages, n)) && latest == LatestId(pages, n)
    {
      if pages[n].historyId != "" { latest := pages[n].historyId; }
      messages := CollectPage(pages[n].records, Records(pages, n), messages);
    }
  }

  lemma DedupeNext(front: seq<string>, records: seq<string>, k: nat)
    requires k < |records|
    ensures Dedupe(front + records[..k + 1])
            == var d := Dedupe(front + records[..k]);
               if records[k] == "" || records[k] in d then d else d + [records[k]]
  {
    var s := front + records[..k + 1];
    assert s[..|s| - 1] == front + records[..k];
  }

  lemma {:induction false} DedupeGrows(s: seq<string>, t: seq<string>)
    ensures Dedupe(s) <= Dedupe(s + t)
    ensures Dedupe(s + t) == Dedupe(s) <==> forall x :: x in t ==> x == "" || x in s
  {
    if t == [] {
      assert s + t == s;
    } else {
      var front := t[..|t| - 1];
      DedupeGrows(s, front);
      DedupeExact(s);
      DedupeExact(s + front);
      assert (s + t)[..|s + t| - 1] == s + front;
      assert forall x :: x in t <==> x in front || x == t[|t| - 1];
    }
  }

  function RecordsFrom(pages: seq<HistoryPage>, n: nat): seq<string>
    requires n <= |pages|
    decreases |pages| - n
  {
    if n == |pages| then [] else pages[n].records + RecordsFrom(pages, n + 1)
  }

  lemma {:induction false} RecordsSplit(pages: seq<HistoryPage>, n: nat)
    requires n <= |pages|
    ensures Records(pages, |pages|) == Records(pages, n) + RecordsFrom(pages, n)
    decreases |pages| - n
  {
    if n == |pages| {
      assert Records(pages, n) + [] == Records(pages, n);
    } else {
      RecordsSplit(pages, n + 1);
      assert (Records(pages, n) + pages[n].records) + RecordsFrom(pages, n + 1)
             == Records(pages, n) + (pages[n].records + RecordsFrom(pages, n + 1));
    }
  }

  /** The page cap loses nothing exactly when the pages beyond it name no new message. */
  lemma HistoryCompleteExactly(pages: seq<HistoryPage>, maxPages: nat)
    ensures var n := PagesRead(pages, maxPages);
            Dedupe(Records(pages, n)) == Dedupe(Records(pages, |pages|))
            <==> forall x :: x in RecordsFrom(pages, n) ==> x == "" || x in Records(pages, n)
  {
    var n := PagesRead(pages, maxPages);
    RecordsSplit(pages, n);
    DedupeGrows(Records(pages, n), RecordsFrom(pages, n));
  }
}
