/** Flattening a message payload: its readable text and its attachment names, in document order. */
module Walk {
  import opened Filtering

  const MAX_DEPTH := 10
  const MAX_BODY_CHARS := 500_000

  /** `mimeType` is in lower case; `text` is the part's own decoded body. */
  datatype Part = Part(mimeType: string, filename: string, text: string, parts: seq<Part>)

  predicate Multipart(p: Part) {
    p.filename == "" && "multipart/" <= p.mimeType
  }

  predicate Plain(p: Part) { p.filename == "" && p.mimeType == "text/plain" }

  predicate Html(p: Part) { p.filename == "" && p.mimeType == "text/html" }

  // ----- specification: the leaves in document order ------------------------

  /** The parts that are no containers, down to the depth limit. */
  function Leaves(p: Part, depth: nat): seq<Part>
    decreases p, |p.parts| + 1
  {
    if depth > MAX_DEPTH then []
    else if Multipart(p) then LeavesUpTo(p, |p.parts|, depth + 1)
    else [p]
  }

  /** The leaves of the first `n` children of `p`, which stand at `depth`. */
  function LeavesUpTo(p: Part, n: nat, depth: nat): seq<Part>
    requires n <= |p.parts|
    decreases p, n
  {
    if n == 0 then [] else LeavesUpTo(p, n - 1, depth) + Leaves(p.parts[n - 1], depth)
  }

  function Texts(leaves: seq<Part>, keep: Part -> bool): seq<string> {
    if leaves == [] then []
    else
      var last := leaves[|leaves| - 1];
      Texts(leaves[..|leaves| - 1], keep) + if keep(last) then [last.text] else []
  }

  function Names(leaves: seq<Part>): seq<string> {
    if leaves == [] then []
    else
      var last := leaves[|leaves| - 1];
      Names(leaves[..|leaves| - 1]) + if last.filename != "" then [last.filename] else []
  }

  function Chars(texts: seq<string>): nat {
    if texts == [] then 0 else Chars(texts[..|texts| - 1]) + |texts[|texts| - 1]|
  }

  /** `kept` is the shortest prefix of `all` that fills the budget, or all of it. */
  ghost predicate FillsBudget(kept: seq<string>, all: seq<string>) {
    && kept <= all
    && (|kept| < |all| ==> Chars(kept) >= MAX_BODY_CHARS)
    && (kept != [] ==> Chars(kept[..|kept| - 1]) < MAX_BODY_CHARS)
  }

  function TextOf(p: Part): string { p.text }

  predicate Named(p: Part) { p.filename != "" }

  function NameOf(p: Part): string { p.filename }

  /** The texts are those of the leaves kept, in document order. */
  lemma {:induction false} TextsExact(leaves: seq<Part>, keep: Part -> bool) returns (at: seq<nat>)
    ensures Picks(Texts(leaves, keep), leaves, keep, TextOf, at)
  {
    at := [];
    if leaves != [] {
      var front := leaves[..|leaves| - 1];
      at := TextsExact(front, keep);
      assert Texts(front, keep) + [] == Texts(front, keep);
      at := PicksSnoc(Texts(leaves, keep), leaves, keep, TextOf, Texts(front, keep), at);
    }
  }

  /** The attachment names are those of the leaves that have one, in document order. */
  lemma {:induction false} NamesExact(leaves: seq<Part>) returns (at: seq<nat>)
    ensures Picks(Names(leaves), leaves, Named, NameOf, at)
  {
    at := [];
    if leaves != [] {
      var front := leaves[..|leaves| - 1];
      at := NamesExact(front);
      assert Names(front) + [] == Names(front);
      at := PicksSnoc(Names(leaves), leaves, Named, NameOf, Names(front), at);
    }
  }

  // ----- the visitor --------------------------------------------------------

  datatype Found = Found(plain: seq<string>, markup: seq<string>, attachments: seq<string>)

  function Take(f: Found, leaf: Part): Found {
    if leaf.filename != "" then f.(attachments := f.attachments + [leaf.filename])
    else if Plain(leaf) then
      if Chars(f.plain) < MAX_BODY_CHARS then f.(plain := f.plain + [leaf.text]) else f
    else if Html(leaf) then
      if Chars(f.markup) < MAX_BODY_CHARS then f.(markup := f.markup + [leaf.text]) else f
    else f
  }

  function Collect(f: Found, leaves: seq<Part>): Found {
    if leaves == [] then f else Take(Collect(f, leaves[..|leaves| - 1]), leaves[|leaves| - 1])
  }

  lemma {:induction false} CollectConcat(f: Found, xs: seq<Part>, ys: seq<Part>)
    ensures Collect(f, xs + ys) == Collect(Collect(f, xs), ys)
  {
    if ys == [] {
      assert xs + ys == xs;
    } else {
      assert (xs + ys)[..|xs + ys| - 1] == xs + ys[..|ys| - 1];
      CollectConcat(f, xs, ys[..|ys| - 1]);
    }
  }

  /** One visit: its effect on the three lists is that of its leaves, left to right. */
  method Visit(p: Part, depth: nat, before: Found) returns (f: Found)
    ensures f == Collect(before, Leaves(p, depth))
    decreases p
  {
    f := before;
    if depth > MAX_DEPTH { return; }
    if p.filename == "" && Multipart(p) {
      for n := 0 to |p.parts|
        invariant f == Collect(before, LeavesUpTo(p, n, depth + 1))
      {
        CollectConcat(before, LeavesUpTo(p, n, depth + 1), Leaves(p.parts[n], depth + 1));
        f := Visit(p.parts[n], depth + 1, f);
      }
      return;
    }
    assert [p][..0] == [];
    assert Collect(before, [p]) == Take(before, p);
    if p.filename != "" {
      f := f.(attachments := f.attachments + [p.filename]);
    } else if p.mimeType == "text/plain" && Chars(f.plain) < MAX_BODY_CHARS {
      f := f.(plain := f.plain + [p.text]);
    } else if p.mimeType == "text/html" && Chars(f.markup) < MAX_BODY_CHARS {
      f := f.(markup := f.markup + [p.text]);
    }
  }

  /** Everything the visitor keeps, said of the leaf list: every attachment name, and of each kind of text
      the shortest run of parts from the start that fills the budget. */
  lemma {:induction false} CollectExact(leaves: seq<Part>)
    ensures Exact(Collect(Found([], [], []), leaves), leaves)
  {
    if leaves != [] {
      var front, last := leaves[..|leaves| - 1], leaves[|leaves| - 1];
      CollectExact(front);
      TakeExact(Collect(Found([], [], []), front), front, last);
      assert front + [last] == leaves;
    }
  }

  ghost predicate Exact(f: Found, leaves: seq<Part>) {
    && f.attachments == Names(leaves)
    && FillsBudget(f.plain, Texts(leaves, Plain))
    && FillsBudget(f.markup, Texts(leaves, Html))
  }

  lemma TextsPush(leaves: seq<Part>, p: Part, keep: Part -> bool)
    ensures Texts(leaves + [p], keep) == Texts(leaves, keep) + if keep(p) then [p.text] else []
  {
    assert (leaves + [p])[..|leaves|] == leaves;
  }

  lemma TakeExact(f: Found, leaves: seq<Part>, p: Part)
    requires Exact(f, leaves)
    ensures Exact(Take(f, p), leaves + [p])
  {
    assert (leaves + [p])[..|leaves|] == leaves;
    assert Names(leaves) + [] == Names(leaves);
    var plain, html := Texts(leaves, Plain), Texts(leaves, Html);
    TextsPush(leaves, p, Plain);
    TextsPush(leaves, p, Html);
    assert plain + [] == plain && html + [] == html;
    if Plain(p) { BudgetStep(f.plain, plain, p.text); }
    if Html(p) { BudgetStep(f.markup, html, p.text); }
  }

  lemma BudgetStep(kept: seq<string>, all: seq<string>, text: string)
    requires FillsBudget(kept, all)
    ensures FillsBudget(if Chars(kept) < MAX_BODY_CHARS then kept + [text] else kept, all + [text])
  {
    if Chars(kept) < MAX_BODY_CHARS {
      assert kept == all;
      assert (kept + [text])[..|kept|] == kept;
    }
  }

  /** The texts that are not empty, a line break between them. */
  function Joined(texts: seq<string>): string {
    if texts == [] then ""
    else
      var front, last := Joined(texts[..|texts| - 1]), texts[|texts| - 1];
      if last == "" then front else if front == "" then last else front + "\n" + last
  }

  /** The joined text is empty, and a caller falls back on the other kind, exactly when every part is. */
  lemma {:induction false} JoinedEmptyExactly(texts: seq<string>)
    ensures Joined(texts) == "" <==> forall t :: t in texts ==> t == ""
  {
    if texts != [] {
      var front, last := texts[..|texts| - 1], texts[|texts| - 1];
      JoinedEmptyExactly(front);
      assert last in texts;
      assert forall t :: t in texts <==> t in front || t == last;
    }
  }

  /** Texts read from the front: each on a line of its own, in order. */
  function Lines(texts: seq<string>): string {
    if texts == [] then ""
    else if |texts| == 1 then texts[0]
    else texts[0] + "\n" + Lines(texts[1..])
  }

  function NonEmpty(texts: seq<string>): (r: seq<string>)
    ensures "" !in r
  {
    if texts == [] then [] else (if texts[0] == "" then [] else [texts[0]]) + NonEmpty(texts[1..])
  }

  lemma {:induction false} NonEmptySnoc(texts: seq<string>, last: string)
    ensures NonEmpty(texts + [last]) == NonEmpty(texts) + if last == "" then [] else [last]
  {
    var all := texts + [last];
    if texts == [] {
      assert all == [last] && [last][1..] == [] && NonEmpty([]) == [];
    } else {
      var head := if texts[0] == "" then [] else [texts[0]];
      assert all[0] == texts[0] && all[1..] == texts[1..] + [last];
      NonEmptySnoc(texts[1..], last);
      assert NonEmpty(all) == head + NonEmpty(texts[1..] + [last]);
      assert NonEmpty(texts) == head + NonEmpty(texts[1..]);
    }
  }

  lemma {:induction false} LinesSnoc(texts: seq<string>, last: string)
    requires "" !in texts
    ensures Lines(texts + [last]) == if texts == [] then last else Lines(texts) + "\n" + last
    ensures Lines(texts) == "" <==> texts == []
  {
    if texts != [] {
      assert texts[0] in texts;
      assert (texts + [last])[1..] == texts[1..] + [last];
      if |texts| == 1 {
        assert [texts[0]] == texts && Lines([last]) == last;
      } else {
        LinesSnoc(texts[1..], last);
        var rest := Lines(texts[1..]);
        assert texts[0] + "\n" + (rest + "\n" + last) == (texts[0] + "\n" + rest) + "\n" + last;
      }
    }
  }

  /** Joining keeps every text that is not empty, whole, in order, one line break between two. */
  lemma {:induction false} JoinedExact(texts: seq<string>)
    ensures Joined(texts) == Lines(NonEmpty(texts))
  {
    if texts != [] {
      var front, last := texts[..|texts| - 1], texts[|texts| - 1];
      JoinedExact(front);
      NonEmptySnoc(front, last);
      assert front + [last] == texts;
      LinesSnoc(NonEmpty(front), last);
      if last == "" { assert NonEmpty(front) + [] == NonEmpty(front); }
      JoinedSnoc(texts, Lines(NonEmpty(front)));
    }
  }

  lemma JoinedSnoc(texts: seq<string>, before: string)
    requires texts != [] && before == Joined(texts[..|texts| - 1])
    ensures var last := texts[|texts| - 1];
            Joined(texts) == if last == "" then before else if before == "" then last else before + "\n" + last
  {
  }

  /** What `walk` returns; `f` is what the visits found. */
  method WalkPayload(payload: Part) returns (plain: string, markup: string, attachments: seq<string>, ghost f: Found)
    ensures f == Collect(Found([], [], []), Leaves(payload, 0)) && Exact(f, Leaves(payload, 0))
    ensures plain == Joined(f.plain) && markup == Joined(f.markup) && attachments == Names(Leaves(payload, 0))
  {
    var found := Visit(payload, 0, Found([], [], []));
    f := found;
    CollectExact(Leaves(payload, 0));
    plain, markup, attachments := Joined(found.plain), Joined(found.markup), found.attachments;
  }

  /** Every text kept comes from a nameless part of its own type, and no container is taken for a part. */
  lemma TextsOfType(payload: Part, f: Found, text: string)
    requires Exact(f, Leaves(payload, 0))
    ensures text in f.plain ==>
              exists p :: p in Leaves(payload, 0) && p.filename == "" && p.mimeType == "text/plain" && p.text == text
    ensures text in f.markup ==>
              exists p :: p in Leaves(payload, 0) && p.filename == "" && p.mimeType == "text/html" && p.text == text
    ensures forall p :: p in Leaves(payload, 0) ==> p.filename != "" || !("multipart/" <= p.mimeType)
  {
    var leaves := Leaves(payload, 0);
    if text in f.plain {
      var at := TextsExact(leaves, Plain);
      OfType(leaves, Plain, at, f.plain, text);
    }
    if text in f.markup {
      var at := TextsExact(leaves, Html);
      OfType(leaves, Html, at, f.markup, text);
    }
    NoContainers(payload, 0);
  }

  lemma OfType(leaves: seq<Part>, keep: Part -> bool, at: seq<nat>, kept: seq<string>, text: string)
    requires Picks(Texts(leaves, keep), leaves, keep, TextOf, at) && kept <= Texts(leaves, keep) && text in kept
    ensures exists p :: p in leaves && keep(p) && p.text == text
  {
    var i :| 0 <= i < |kept| && kept[i] == text;
    assert Texts(leaves, keep)[i] == text;
    assert leaves[at[i]] in leaves && keep(leaves[at[i]]) && leaves[at[i]].text == text;
  }

  lemma {:induction false} NoContainers(p: Part, depth: nat)
    ensures forall q :: q in Leaves(p, depth) ==> q.filename != "" || !("multipart/" <= q.mimeType)
    decreases p, |p.parts| + 1
  {
    if depth <= MAX_DEPTH && Multipart(p) { NoContainersUpTo(p, |p.parts|, depth + 1); }
  }

  lemma {:induction false} NoContainersUpTo(p: Part, n: nat, depth: nat)
    requires n <= |p.parts|
    ensures forall q :: q in LeavesUpTo(p, n, depth) ==> q.filename != "" || !("multipart/" <= q.mimeType)
    decreases p, n
  {
    if n > 0 {
      NoContainersUpTo(p, n - 1, depth);
      NoContainers(p.parts[n - 1], depth);
    }
  }

  // ----- how much is kept ---------------------------------------------------

  /** The budget bounds what is read in, up to one part: a text list stays under it but for its last part. */
  lemma BudgetBounds(kept: seq<string>, all: seq<string>, longest: nat)
    requires FillsBudget(kept, all) && forall t :: t in all ==> |t| <= longest
    ensures Chars(kept) < MAX_BODY_CHARS + longest || kept == []
  {
    if kept != [] {
      assert kept[|kept| - 1] == all[|kept| - 1];
    }
  }

  /** A shallow payload loses no part: below the depth limit every leaf is found. */
  ghost predicate Shallow(p: Part, depth: nat)
    decreases p
  {
    depth <= MAX_DEPTH && (Multipart(p) ==> forall k :: 0 <= k < |p.parts| ==> Shallow(p.parts[k], depth + 1))
  }

  function AllLeaves(p: Part): seq<Part>
    decreases p, |p.parts| + 1
  {
    if Multipart(p) then AllLeavesUpTo(p, |p.parts|) else [p]
  }

  function AllLeavesUpTo(p: Part, n: nat): seq<Part>
    requires n <= |p.parts|
    decreases p, n
  {
    if n == 0 then [] else AllLeavesUpTo(p, n - 1) + AllLeaves(p.parts[n - 1])
  }

  lemma {:induction false} ShallowKeepsAll(p: Part, depth: nat)
    requires Shallow(p, depth)
    ensures Leaves(p, depth) == AllLeaves(p)
    decreases p, |p.parts| + 1
  {
    if Multipart(p) { ShallowUpTo(p, |p.parts|, depth); }
  }

  /** `p` cut off `levels` levels below itself. */
  function Pruned(p: Part, levels: nat): (q: Part)
    ensures q.filename == p.filename && q.mimeType == p.mimeType
    decreases p
  {
    p.(parts := if levels == 0 then []
                else seq(|p.parts|, k requires 0 <= k < |p.parts| => Pruned(p.parts[k], levels - 1)))
  }

  /** The leaf itself without what hangs below it, which no visit looks at. */
  function Bare(p: Part): Part { p.(parts := []) }

  function BareAll(leaves: seq<Part>): (r: seq<Part>)
    ensures |r| == |leaves| && forall k :: 0 <= k < |r| ==> r[k] == Bare(leaves[k])
  {
    seq(|leaves|, k requires 0 <= k < |leaves| => Bare(leaves[k]))
  }

  /** The depth limit, exactly: what is found is all that is left of the payload cut off at that depth. */
  lemma {:induction false} LeavesPruned(p: Part, depth: nat)
    requires depth <= MAX_DEPTH
    ensures BareAll(Leaves(p, depth)) == BareAll(AllLeaves(Pruned(p, MAX_DEPTH - depth)))
    decreases p, |p.parts| + 1
  {
    if Multipart(p) {
      if depth == MAX_DEPTH {
        TooDeep(p, |p.parts|, depth + 1);
      } else {
        PrunedUpTo(p, |p.parts|, depth);
      }
    }
  }

  lemma {:induction false} TooDeep(p: Part, n: nat, depth: nat)
    requires n <= |p.parts| && depth > MAX_DEPTH
    ensures LeavesUpTo(p, n, depth) == []
  {
    if n > 0 { TooDeep(p, n - 1, depth); }
  }

  lemma {:induction false} PrunedUpTo(p: Part, n: nat, depth: nat)
    requires depth < MAX_DEPTH && n <= |p.parts|
    ensures BareAll(LeavesUpTo(p, n, depth + 1)) == BareAll(AllLeavesUpTo(Pruned(p, MAX_DEPTH - depth), n))
    decreases p, n
  {
    if n > 0 {
      PrunedUpTo(p, n - 1, depth);
      LeavesPruned(p.parts[n - 1], depth + 1);
    }
  }

  lemma {:induction false} ShallowUpTo(p: Part, n: nat, depth: nat)
    requires Multipart(p) && Shallow(p, depth) && n <= |p.parts|
    ensures LeavesUpTo(p, n, depth + 1) == AllLeavesUpTo(p, n)
    decreases p, n
  {
    if n > 0 {
      ShallowUpTo(p, n - 1, depth);
      ShallowKeepsAll(p.parts[n - 1], depth + 1);
    }
  }
}
