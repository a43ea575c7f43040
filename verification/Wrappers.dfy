module Wrappers {
  datatype Option<+T> = None | Some(value: T)

  ghost predicate AllDistinct<T>(s: seq<T>) { forall i, j :: 0 <= i < j < |s| ==> s[i] != s[j] }
}
