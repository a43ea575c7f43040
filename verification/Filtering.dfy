/** What a filter keeps, said by position, so that nothing is lost, repeated or moved. */
module Filtering {

  ghost predicate Ascending(at: seq<nat>) { forall j, k :: 0 <= j < k < |at| ==> at[j] < at[k] }

  ghost predicate Kept<T>(s: seq<T>, keep: T -> bool, at: seq<nat>) {
    forall k :: 0 <= k < |at| ==> at[k] < |s| && keep(s[at[k]])
  }

  ghost predicate AllKept<T>(s: seq<T>, keep: T -> bool, at: seq<nat>) {
    forall x: nat :: x < |s| && keep(s[x]) ==> x in at
  }

  /** `at` lists, in order, exactly the positions of `s` whose element `keep` holds of. */
  ghost predicate Places<T>(s: seq<T>, keep: T -> bool, at: seq<nat>) {
    Kept(s, keep, at) && Ascending(at) && AllKept(s, keep, at)
  }

  /** `r` is `f` of exactly the elements of `s` that `keep` holds of, in order. */
  ghost predicate Picks<T, U>(r: seq<U>, s: seq<T>, keep: T -> bool, f: T -> U, at: seq<nat>) {
    Places(s, keep, at) && |r| == |at| && forall k :: 0 <= k < |at| ==> r[k] == f(s[at[k]])
  }

  lemma AllKeptSnoc<T>(s: seq<T>, x: T, keep: T -> bool, at: seq<nat>)
    requires AllKept(s, keep, at)
    ensures AllKept(s + [x], keep, if keep(x) then at + [|s|] else at)
  {
    var t, p := s + [x], if keep(x) then at + [|s|] else at;
    forall y: nat | y < |t| && keep(t[y]) ensures y in p {
      if y < |s| {
        assert t[y] == s[y];
      } else {
        assert p[|p| - 1] == |s|;
      }
    }
  }

  /** One more element at the end: what was picked from the front, and that element if it is kept. */
  lemma PicksSnoc<T, U>(r: seq<U>, s: seq<T>, keep: T -> bool, f: T -> U, q: seq<U>, at: seq<nat>) returns (p: seq<nat>)
    requires s != [] && Picks(q, s[..|s| - 1], keep, f, at)
    requires r == if keep(s[|s| - 1]) then q + [f(s[|s| - 1])] else q
    ensures Picks(r, s, keep, f, p)
  {
    var front, x := s[..|s| - 1], s[|s| - 1];
    p := if keep(x) then at + [|front|] else at;
    AllKeptSnoc(front, x, keep, at);
    assert front + [x] == s;
    PicksFurther(s, keep, f, q, at);
    if keep(x) { PicksLast(s, keep, f, q, at); }
  }

  /** What was picked from the front was picked from the whole. */
  lemma PicksFurther<T, U>(s: seq<T>, keep: T -> bool, f: T -> U, q: seq<U>, at: seq<nat>)
    requires s != [] && Picks(q, s[..|s| - 1], keep, f, at)
    ensures Kept(s, keep, at) && Ascending(at) && |q| == |at| && forall k :: 0 <= k < |at| ==> at[k] < |s| - 1
    ensures forall k :: 0 <= k < |at| ==> at[k] < |s| && q[k] == f(s[at[k]])
  {
    var front := s[..|s| - 1];
    forall k | 0 <= k < |at| ensures at[k] < |s| - 1 && keep(s[at[k]]) && q[k] == f(s[at[k]]) {
      assert front[at[k]] == s[at[k]];
    }
  }

  lemma PicksLast<T, U>(s: seq<T>, keep: T -> bool, f: T -> U, q: seq<U>, at: seq<nat>)
    requires s != [] && keep(s[|s| - 1]) && |q| == |at|
    requires Kept(s, keep, at) && Ascending(at) && forall k :: 0 <= k < |at| ==> at[k] < |s| - 1
    requires forall k :: 0 <= k < |at| ==> q[k] == f(s[at[k]])
    ensures var p := at + [|s| - 1];
            && Kept(s, keep, p) && Ascending(p)
            && forall k :: 0 <= k < |p| ==> p[k] < |s| && (q + [f(s[|s| - 1])])[k] == f(s[p[k]])
  {
  }

  function Shifted(at: seq<nat>): (r: seq<nat>)
    ensures |r| == |at| && forall k :: 0 <= k < |r| ==> r[k] == at[k] + 1
  {
    seq(|at|, k requires 0 <= k < |at| => at[k] + 1)
  }

  lemma AllKeptCons<T>(x: T, s: seq<T>, keep: T -> bool, at: seq<nat>)
    requires AllKept(s, keep, at)
    ensures AllKept([x] + s, keep, if keep(x) then [0] + Shifted(at) else Shifted(at))
  {
    var t, p := [x] + s, if keep(x) then [0] + Shifted(at) else Shifted(at);
    forall y: nat | y < |t| && keep(t[y]) ensures y in p {
      if y > 0 {
        assert t[y] == s[y - 1];
        var k :| 0 <= k < |at| && at[k] == y - 1;
        assert Shifted(at)[k] == y && y in Shifted(at);
      }
    }
  }

  lemma PicksShifted<T, U>(r: seq<U>, x: T, s: seq<T>, keep: T -> bool, f: T -> U, at: seq<nat>)
    requires Picks(r, s, keep, f, at)
    ensures |r| == |Shifted(at)|
    ensures Kept([x] + s, keep, Shifted(at)) && Ascending(Shifted(at)) && 0 !in Shifted(at)
    ensures forall k :: 0 <= k < |Shifted(at)| ==> Shifted(at)[k] < |s| + 1 && r[k] == f(([x] + s)[Shifted(at)[k]])
  {
  }

  /** One more element at the front. */
  lemma PicksCons<T, U>(r: seq<U>, x: T, s: seq<T>, keep: T -> bool, f: T -> U, at: seq<nat>)
    requires Picks(r, s, keep, f, at)
    ensures Picks(if keep(x) then [f(x)] + r else r, [x] + s, keep, f,
                  if keep(x) then [0] + Shifted(at) else Shifted(at))
  {
    AllKeptCons(x, s, keep, at);
    PicksShifted(r, x, s, keep, f, at);
    if keep(x) { PicksFront(r, x, s, keep, f, Shifted(at)); }
  }

  lemma PicksFront<T, U>(r: seq<U>, x: T, s: seq<T>, keep: T -> bool, f: T -> U, at: seq<nat>)
    requires keep(x) && |r| == |at| && Kept([x] + s, keep, at) && Ascending(at) && 0 !in at
    requires forall k :: 0 <= k < |at| ==> at[k] < |s| + 1 && r[k] == f(([x] + s)[at[k]])
    ensures Kept([x] + s, keep, [0] + at) && Ascending([0] + at)
    ensures forall k :: 0 <= k < |at| + 1 ==> ([f(x)] + r)[k] == f(([x] + s)[([0] + at)[k]])
  {
    assert forall k :: 0 <= k < |at| ==> at[k] in at;
    forall k | 0 <= k < |at| + 1 ensures ([f(x)] + r)[k] == f(([x] + s)[([0] + at)[k]]) {
      if k > 0 { assert ([f(x)] + r)[k] == r[k - 1] && ([0] + at)[k] == at[k - 1]; }
    }
  }
}
