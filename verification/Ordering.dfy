/** Stable ordering by a preorder, as Python's `sorted` computes it.

    An ordering of a list is the list of its positions in sorted order, so that a
    reader can always say which input element stands at which place of the output. */
module Ordering {

  ghost predicate TotalPreorder<T(!new)>(le: (T, T) -> bool) {
    && (forall x, y :: le(x, y) || le(y, x))
    && (forall x, y, z :: le(x, y) && le(y, z) ==> le(x, z))
  }

  /** Each position of `s` occurs exactly once in `p`. */
  ghost predicate IsPermutation(p: seq<nat>, n: nat) {
    && |p| == n
    && (forall k :: 0 <= k < n ==> p[k] < n)
    && (forall j, k :: 0 <= j < k < n ==> p[j] != p[k])
  }

  /** `x` strictly before `y` in a stable sort of `s`: smaller, or equivalent and earlier. */
  ghost predicate Before<T>(le: (T, T) -> bool, s: seq<T>, x: nat, y: nat)
    requires x < |s| && y < |s|
  {
    le(s[x], s[y]) && (le(s[y], s[x]) ==> x < y)
  }

  function Insert<T>(le: (T, T) -> bool, s: seq<T>, i: nat, p: seq<nat>): (q: seq<nat>)
    requires i < |s| && forall k :: 0 <= k < |p| ==> p[k] < |s|
    ensures forall k :: 0 <= k < |q| ==> q[k] < |s|
  {
    if p == [] || le(s[i], s[p[0]]) then [i] + p else [p[0]] + Insert(le, s, i, p[1..])
  }

  /** The positions `from..|s|` of `s` in stable sorted order. */
  function OrderFrom<T>(le: (T, T) -> bool, s: seq<T>, from: nat): (p: seq<nat>)
    requires from <= |s|
    ensures forall k :: 0 <= k < |p| ==> p[k] < |s|
    decreases |s| - from
  {
    if from == |s| then [] else Insert(le, s, from, OrderFrom(le, s, from + 1))
  }

  function Order<T>(le: (T, T) -> bool, s: seq<T>): (p: seq<nat>)
    ensures forall k :: 0 <= k < |p| ==> p[k] < |s|
  {
    OrderFrom(le, s, 0)
  }

  function Apply<T>(s: seq<T>, p: seq<nat>): (r: seq<T>)
    requires forall k :: 0 <= k < |p| ==> p[k] < |s|
    ensures |r| == |p| && forall k :: 0 <= k < |p| ==> r[k] == s[p[k]]
  {
    seq(|p|, k requires 0 <= k < |p| => s[p[k]])
  }

  function Sorted<T>(le: (T, T) -> bool, s: seq<T>): seq<T> {
    Apply(s, Order(le, s))
  }

  ghost predicate Ordered<T>(le: (T, T) -> bool, s: seq<T>, p: seq<nat>)
    requires forall k :: 0 <= k < |p| ==> p[k] < |s|
  {
    forall j, k :: 0 <= j < k < |p| ==> Before(le, s, p[j], p[k])
  }

  lemma {:induction false} InsertKeepsOrder<T(!new)>(le: (T, T) -> bool, s: seq<T>, i: nat, p: seq<nat>)
    requires TotalPreorder(le) && i < |s|
    requires forall k :: 0 <= k < |p| ==> i < p[k] < |s|
    requires Ordered(le, s, p)
    ensures var q := Insert(le, s, i, p);
            && |q| == |p| + 1 && Ordered(le, s, q)
            && (forall x :: x in q <==> x == i || x in p)
  {
    if p != [] && !le(s[i], s[p[0]]) {
      InsertKeepsOrder(le, s, i, p[1..]);
      var t := Insert(le, s, i, p[1..]);
      forall k | 0 <= k < |t| ensures Before(le, s, p[0], t[k]) {
        assert t[k] in t;
      }
    } else {
      forall k | 0 <= k < |p| ensures Before(le, s, i, p[k]) {
        if k > 0 { assert Before(le, s, p[0], p[k]); }
      }
    }
  }

  lemma {:induction false} OrderFromSorts<T(!new)>(le: (T, T) -> bool, s: seq<T>, from: nat)
    requires TotalPreorder(le) && from <= |s|
    ensures var p := OrderFrom(le, s, from);
            && |p| == |s| - from && Ordered(le, s, p)
            && (forall x: nat :: x in p <==> from <= x < |s|)
    decreases |s| - from
  {
    if from < |s| {
      OrderFromSorts(le, s, from + 1);
      var p := OrderFrom(le, s, from + 1);
      forall k | 0 <= k < |p| ensures from < p[k] { assert p[k] in p; }
      InsertKeepsOrder(le, s, from, p);
    }
  }

  /** The ordering is a permutation of all positions, sorted, and stable. */
  lemma OrderSorts<T(!new)>(le: (T, T) -> bool, s: seq<T>)
    requires TotalPreorder(le)
    ensures IsPermutation(Order(le, s), |s|)
    ensures Ordered(le, s, Order(le, s))
    ensures forall x: nat :: x in Order(le, s) <==> x < |s|
  {
    OrderFromSorts(le, s, 0);
    var p := Order(le, s);
    forall j, k | 0 <= j < k < |p| ensures p[j] != p[k] { assert Before(le, s, p[j], p[k]); }
  }
}
