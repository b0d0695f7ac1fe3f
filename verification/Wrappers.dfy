/**
 An optional value, and two notions several modules share.
 */
module Wrappers {

  datatype Option<+T> = None | Some(value: T)

  predicate Distinct<T(==)>(s: seq<T>) {
    forall j, k | 0 <= j < k < |s| :: s[j] != s[k]
  }

  function SaturatingSub(a: int, b: int): nat {
    if b <= a then a - b else 0
  }
}
