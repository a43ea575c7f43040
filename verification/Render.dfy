/** The block structure of a rendered reply: paragraphs, lists, headings and the sign-off. */
module Render {
  import opened Wrappers

  /** A line with the outcome of each pattern test; `text` is the line stripped on the right. */
  datatype Line = Line(
    text: string, blank: bool, signature: bool,
    bullet: Option<string>, ordered: Option<string>, heading: Option<string>)

  datatype Kind = Blank | Signature | Item(ordered: bool, text: string) | Heading(text: string) | Text(text: string)

  datatype Block = Para(lines: seq<string>) | Items(ordered: bool, items: seq<string>) | Head(text: string) | SignOff

  /** The tests in the order the renderer tries them; `inline` formats one line's text. */
  function KindOf(l: Line, inline: string -> string): Kind {
    if l.blank then Blank
    else if l.signature then Signature
    else if l.bullet.Some? then Item(l.ordered.Some?, inline(l.bullet.value))
    else if l.ordered.Some? then Item(true, inline(l.ordered.value))
    else if l.heading.Some? then Heading(inline(l.heading.value))
    else Text(inline(l.text))
  }

  /** Which line is which: a blank or signature line is nothing else; bullet and number both make an item, a
      numbered one if it has a number, under the bullet's text if it has a bullet; a heading is one only if it is
      no item; the rest is text. */
  lemma KindsApart(l: Line, inline: string -> string)
    ensures var kind := KindOf(l, inline);
            && (kind == Blank <==> l.blank)
            && (kind == Signature <==> !l.blank && l.signature)
            && (kind.Item? <==> !l.blank && !l.signature && (l.bullet.Some? || l.ordered.Some?))
            && (kind.Heading? <==>
                  !l.blank && !l.signature && l.bullet.None? && l.ordered.None? && l.heading.Some?)
            && (kind.Item? ==> (kind.ordered <==> l.ordered.Some?))
            && (kind.Item? && l.bullet.Some? ==> kind.text == inline(l.bullet.value))
            && (kind.Item? && l.bullet.None? ==> kind.text == inline(l.ordered.value))
            && (kind.Heading? ==> kind.text == inline(l.heading.value))
            && (kind.Text? ==> kind.text == inline(l.text))
  {
  }

  function Kinds(lines: seq<Line>, inline: string -> string): (ks: seq<Kind>)
    ensures |ks| == |lines| && forall k :: 0 <= k < |ks| ==> ks[k] == KindOf(lines[k], inline)
  {
    seq(|lines|, k requires 0 <= k < |lines| => KindOf(lines[k], inline))
  }

  // ----- specification: maximal runs ----------------------------------------

  /** `x` and `y`, adjacent, belong to one block. */
  predicate Joins(x: Kind, y: Kind) {
    (x.Text? && y.Text?) || (x.Item? && y.Item? && x.ordered == y.ordered)
  }

  /** Lines of one block: all text, or all items of one list style. */
  ghost predicate IsRun(run: seq<Kind>) {
    run != [] && (run[0].Text? || run[0].Item?) && forall k :: 0 <= k < |run| ==> Joins(run[0], run[k])
  }

  /** Length of the longest run at the front of `ks`. */
  function RunLength(ks: seq<Kind>): (n: nat)
    requires ks != [] && (ks[0].Text? || ks[0].Item?)
    ensures 1 <= n <= |ks| && IsRun(ks[..n])
    ensures n < |ks| ==> !Joins(ks[0], ks[n])
  {
    if |ks| > 1 && Joins(ks[0], ks[1]) then
      var n := 1 + RunLength(ks[1..]);
      assert forall k :: 0 < k < n ==> ks[..n][k] == ks[1..][..n - 1][k - 1];
      n
    else 1
  }

  function Texts(ks: seq<Kind>): (r: seq<string>)
    requires forall k :: 0 <= k < |ks| ==> ks[k].Item? || ks[k].Text?
    ensures |r| == |ks| && forall k :: 0 <= k < |r| ==> r[k] == ks[k].text
  {
    seq(|ks|, k requires 0 <= k < |ks| => ks[k].text)
  }

  /** The block a run of lines makes. */
  function BlockOf(run: seq<Kind>): Block
    requires IsRun(run)
  {
    if run[0].Text? then Para(Texts(run)) else Items(run[0].ordered, Texts(run))
  }

  function Group(ks: seq<Kind>): seq<Block> {
    if ks == [] then []
    else
      match ks[0]
      case Blank => Group(ks[1..])
      case Signature => [SignOff] + Group(ks[1..])
      case Heading(text) => [Head(text)] + Group(ks[1..])
      case _ => var n := RunLength(ks); [BlockOf(ks[..n])] + Group(ks[n..])
  }

  // ----- the renderer -------------------------------------------------------

  /** What the two buffers hold, as the lines they came from. */
  function ParaKinds(para: seq<string>): (r: seq<Kind>)
    ensures |r| == |para| && forall k :: 0 <= k < |r| ==> r[k] == Text(para[k])
  {
    seq(|para|, k requires 0 <= k < |para| => Text(para[k]))
  }

  function ItemKinds(items: seq<string>, ordered: bool): (r: seq<Kind>)
    ensures |r| == |items| && forall k :: 0 <= k < |r| ==> r[k] == Item(ordered, items[k])
  {
    seq(|items|, k requires 0 <= k < |items| => Item(ordered, items[k]))
  }

  lemma {:induction false} RunIs(ks: seq<Kind>, n: nat)
    requires 1 <= n <= |ks| && IsRun(ks[..n]) && (n < |ks| ==> !Joins(ks[0], ks[n]))
    ensures RunLength(ks) == n
  {
    var m := RunLength(ks);
    forall k | 0 <= k < m ensures Joins(ks[0], ks[k]) { assert ks[..m][k] == ks[k]; }
    forall k | 0 <= k < n ensures Joins(ks[0], ks[k]) { assert ks[..n][k] == ks[k]; }
  }

  /** A run that the next line does not extend is one block. */
  lemma GroupRun(run: seq<Kind>, rest: seq<Kind>)
    requires IsRun(run) && (rest != [] ==> !Joins(run[0], rest[0]))
    ensures Group(run + rest) == [BlockOf(run)] + Group(rest)
  {
    var ks := run + rest;
    assert ks[..|run|] == run && ks[|run|..] == rest;
    RunIs(ks, |run|);
  }

  /** Where the loop stands: what is out, what the two buffers hold, one of them empty, and the lines to come. */
  ghost predicate Pending(blocks: seq<Block>, para: seq<string>, items: seq<string>, ordered: bool, rest: seq<Kind>,
                          ks: seq<Kind>)
  {
    && (para == [] || items == [])
    && blocks + Group(ParaKinds(para) + ItemKinds(items, ordered) + rest) == Group(ks)
  }

  lemma PushText(blocks: seq<Block>, para: seq<string>, text: string, ordered: bool, rest: seq<Kind>, ks: seq<Kind>)
    requires Pending(blocks, para, [], ordered, [Text(text)] + rest, ks)
    ensures Pending(blocks, para + [text], [], ordered, rest, ks)
  {
    assert ParaKinds(para) + ItemKinds([], ordered) + ([Text(text)] + rest)
           == ParaKinds(para + [text]) + ItemKinds([], ordered) + rest;
  }

  lemma PushItem(blocks: seq<Block>, items: seq<string>, text: string, was: bool, ordered: bool, rest: seq<Kind>,
                 ks: seq<Kind>)
    requires Pending(blocks, [], items, was, [Item(ordered, text)] + rest, ks) && (items == [] || was == ordered)
    ensures Pending(blocks, [], items + [text], ordered, rest, ks)
  {
    assert ParaKinds([]) + ItemKinds(items, was) + ([Item(ordered, text)] + rest)
           == ParaKinds([]) + ItemKinds(items + [text], ordered) + rest;
  }

  /** A line that makes no part of a run is passed once both buffers are empty. */
  lemma PassLine(blocks: seq<Block>, kind: Kind, ordered: bool, rest: seq<Kind>, ks: seq<Kind>)
    requires Pending(blocks, [], [], ordered, [kind] + rest, ks) && !kind.Text? && !kind.Item?
    ensures Pending(match kind
                    case Blank => blocks
                    case Signature => blocks + [SignOff]
                    case Heading(text) => blocks + [Head(text)],
                    [], [], ordered, rest, ks)
  {
    var next := [kind] + rest;
    assert ParaKinds([]) + ItemKinds([], ordered) + next == next && next[1..] == rest;
    assert ParaKinds([]) + ItemKinds([], ordered) + rest == rest;
  }

  method FlushPara(blocks: seq<Block>, para: seq<string>, ordered: bool, ghost next: seq<Kind>, ghost ks: seq<Kind>)
    returns (out: seq<Block>)
    requires Pending(blocks, para, [], ordered, next, ks) && (next != [] ==> !next[0].Text?)
    ensures Pending(out, [], [], ordered, next, ks)
  {
    out := blocks;
    if para != [] {
      assert ParaKinds(para) + ItemKinds([], ordered) + next == ParaKinds(para) + next;
      GroupRun(ParaKinds(para), next);
      assert Texts(ParaKinds(para)) == para;
      assert ParaKinds([]) + ItemKinds([], ordered) + next == next;
      out := out + [Para(para)];
    }
  }

  lemma ItemsBlock(items: seq<string>, ordered: bool)
    requires items != []
    ensures IsRun(ItemKinds(items, ordered)) && BlockOf(ItemKinds(items, ordered)) == Items(ordered, items)
  {
    assert Texts(ItemKinds(items, ordered)) == items;
  }

  lemma Emit(blocks: seq<Block>, run: seq<Kind>, next: seq<Kind>, ks: seq<Kind>)
    requires IsRun(run) && (next != [] ==> !Joins(run[0], next[0])) && blocks + Group(run + next) == Group(ks)
    ensures (blocks + [BlockOf(run)]) + Group(next) == Group(ks)
  {
    GroupRun(run, next);
    assert blocks + ([BlockOf(run)] + Group(next)) == (blocks + [BlockOf(run)]) + Group(next);
  }

  method FlushList(blocks: seq<Block>, items: seq<string>, ordered: bool, ghost next: seq<Kind>, ghost ks: seq<Kind>)
    returns (out: seq<Block>)
    requires Pending(blocks, [], items, ordered, next, ks)
    requires next != [] ==> !(next[0].Item? && next[0].ordered == ordered)
    ensures Pending(out, [], [], ordered, next, ks)
  {
    out := blocks;
    if items != [] {
      ItemsBlock(items, ordered);
      assert ParaKinds([]) + ItemKinds(items, ordered) + next == ItemKinds(items, ordered) + next;
      Emit(blocks, ItemKinds(items, ordered), next, ks);
      assert ParaKinds([]) + ItemKinds([], ordered) + next == next;
      out := out + [Items(ordered, items)];
    }
  }

  /** `flush_para` then `flush_list`; at most one of them has work. */
  method FlushBoth(blocks: seq<Block>, para: seq<string>, items: seq<string>, ordered: bool, ghost next: seq<Kind>,
                   ghost ks: seq<Kind>)
    returns (out: seq<Block>)
    requires Pending(blocks, para, items, ordered, next, ks)
    requires next != [] ==> !next[0].Text? && !next[0].Item?
    ensures Pending(out, [], [], ordered, next, ks)
  {
    if para != [] {
      out := FlushPara(blocks, para, ordered, next, ks);
    } else {
      out := FlushList(blocks, items, ordered, next, ks);
    }
  }

  /** Text never meets a pending list and an item never a pending paragraph: one buffer is always empty. */
  method ToBlocks(lines: seq<Line>, inline: string -> string) returns (blocks: seq<Block>)
    ensures blocks == Group(Kinds(lines, inline))
  {
    ghost var ks := Kinds(lines, inline);
    blocks := [];
    var para: seq<string>, items: seq<string>, ordered := [], [], false;
    StartPending(ks);
    for k := 0 to |lines|
      invariant Pending(blocks, para, items, ordered, ks[k..], ks)
    {
      assert ks[k..] == [ks[k]] + ks[k + 1..];
      blocks, para, items, ordered := TakeLine(lines[k], inline, blocks, para, items, ordered, ks[k + 1..], ks);
    }
    assert ks[|lines|..] == [];
    blocks := FlushBoth(blocks, para, items, ordered, [], ks);
    EndPending(blocks, ordered, ks);
  }

  lemma StartPending(ks: seq<Kind>)
    ensures Pending([], [], [], false, ks[0..], ks)
  {
    assert ParaKinds([]) + ItemKinds([], false) + ks[0..] == ks;
  }

  lemma EndPending(blocks: seq<Block>, ordered: bool, ks: seq<Kind>)
    requires Pending(blocks, [], [], ordered, [], ks)
    ensures blocks == Group(ks)
  {
    assert ParaKinds([]) + ItemKinds([], ordered) + [] == [];
    assert blocks + [] == blocks;
  }

  /** One turn of the loop. */
  method TakeLine(line: Line, inline: string -> string, blocks0: seq<Block>, para0: seq<string>, items0: seq<string>,
                  ordered0: bool, ghost rest: seq<Kind>, ghost ks: seq<Kind>)
    returns (blocks: seq<Block>, para: seq<string>, items: seq<string>, ordered: bool)
    requires Pending(blocks0, para0, items0, ordered0, [KindOf(line, inline)] + rest, ks)
    ensures Pending(blocks, para, items, ordered, rest, ks)
  {
    blocks, para, items, ordered := blocks0, para0, items0, ordered0;
    ghost var kind := KindOf(line, inline);
    ghost var next := [kind] + rest;
    if line.blank {
      blocks := FlushBoth(blocks, para, items, ordered, next, ks);
      PassLine(blocks, kind, ordered, rest, ks);
      return blocks, [], [], ordered;
    }
    if line.signature {
      blocks := FlushBoth(blocks, para, items, ordered, next, ks);
      PassLine(blocks, kind, ordered, rest, ks);
      return blocks + [SignOff], [], [], ordered;
    }
    if line.bullet.Some? || line.ordered.Some? {
      var isOrdered := line.ordered.Some?;
      var text := inline(if line.bullet.Some? then line.bullet.value else line.ordered.value);
      if para != [] { blocks := FlushPara(blocks, para, ordered, next, ks); }
      if items != [] && isOrdered != ordered {
        blocks := FlushList(blocks, items, ordered, next, ks);
        items := [];
      }
      PushItem(blocks, items, text, ordered, isOrdered, rest, ks);
      return blocks, [], items + [text], isOrdered;
    }
    if line.heading.Some? {
      blocks := FlushBoth(blocks, para, items, ordered, next, ks);
      PassLine(blocks, kind, ordered, rest, ks);
      return blocks + [Head(inline(line.heading.value))], [], [], ordered;
    }
    if items != [] { blocks := FlushList(blocks, items, ordered, next, ks); }
    PushText(blocks, para, inline(line.text), ordered, rest, ks);
    return blocks, para + [inline(line.text)], [], ordered;
  }

  // ----- what grouping keeps ------------------------------------------------

  /** The lines a block was made of. */
  function Members(b: Block): seq<Kind> {
    match b
    case Para(lines) => seq(|lines|, k requires 0 <= k < |lines| => Text(lines[k]))
    case Items(ordered, items) => seq(|items|, k requires 0 <= k < |items| => Item(ordered, items[k]))
    case Head(text) => [Heading(text)]
    case SignOff => [Signature]
  }

  function AllMembers(blocks: seq<Block>): seq<Kind> {
    if blocks == [] then [] else Members(blocks[0]) + AllMembers(blocks[1..])
  }

  function NonBlank(ks: seq<Kind>): seq<Kind> {
    if ks == [] then [] else (if ks[0].Blank? then [] else [ks[0]]) + NonBlank(ks[1..])
  }

  lemma {:induction false} NonBlankSplit(xs: seq<Kind>, ys: seq<Kind>)
    requires forall k :: 0 <= k < |xs| ==> !xs[k].Blank?
    ensures NonBlank(xs + ys) == xs + NonBlank(ys)
  {
    if xs == [] {
      assert xs + ys == ys;
    } else {
      assert (xs + ys)[1..] == xs[1..] + ys;
      NonBlankSplit(xs[1..], ys);
    }
  }

  lemma RunMembers(run: seq<Kind>)
    requires IsRun(run)
    ensures Members(BlockOf(run)) == run
  {
  }

  /** How many lines the first block takes. */
  function Width(ks: seq<Kind>): (n: nat)
    requires ks != []
    ensures 1 <= n <= |ks|
  {
    if ks[0].Text? || ks[0].Item? then RunLength(ks) else 1
  }

  lemma FirstBlock(ks: seq<Kind>)
    requires ks != [] && !ks[0].Blank?
    ensures Group(ks) != [] && Group(ks)[1..] == Group(ks[Width(ks)..]) && Members(Group(ks)[0]) == ks[..Width(ks)]
    ensures forall k :: 0 <= k < Width(ks) ==> !ks[k].Blank?
  {
    var n := Width(ks);
    if ks[0].Text? || ks[0].Item? {
      var run := ks[..n];
      RunMembers(run);
      assert forall k :: 0 <= k < n ==> run[k] == ks[k];
    }
  }

  /** The blocks, read in order, are the non-blank lines in order: none lost, none repeated. */
  lemma {:induction false} BlocksPartitionLines(ks: seq<Kind>)
    ensures AllMembers(Group(ks)) == NonBlank(ks)
    decreases |ks|
  {
    if ks != [] {
      var n := Width(ks);
      BlocksPartitionLines(ks[n..]);
      if !ks[0].Blank? {
        FirstBlock(ks);
        assert ks == ks[..n] + ks[n..];
        NonBlankSplit(ks[..n], ks[n..]);
      }
    }
  }

  /** Blocks are as long as they can be: within a run of non-blank lines no two neighbours could merge. */
  lemma {:induction false} BlocksMaximal(ks: seq<Kind>)
    requires forall k :: 0 <= k < |ks| ==> !ks[k].Blank?
    ensures var g := Group(ks);
            && (ks != [] ==> g != [] && Members(g[0]) != [] && Members(g[0])[0] == ks[0])
            && forall i :: 0 <= i < |g| - 1 ==> !Mergeable(g[i], g[i + 1])
    decreases |ks|
  {
    if ks != [] {
      var n := Width(ks);
      BlocksMaximal(ks[n..]);
      FirstBlock(ks);
      var g, rest := Group(ks), Group(ks[n..]);
      assert g == [g[0]] + rest;
      if rest != [] {
        assert Members(rest[0])[0] == ks[n];
      }
    }
  }

  predicate Mergeable(x: Block, y: Block) {
    (x.Para? && y.Para?) || (x.Items? && y.Items? && x.ordered == y.ordered)
  }
}
