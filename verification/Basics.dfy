/** Small notions that several modules share. */
module Basics {
  datatype Option<T> = None | Some(value: T)

  ghost predicate Distinct<T>(c: seq<T>) {
    forall j, k :: 0 <= j < k < |c| ==> c[j] != c[k]
  }

  function Without<T>(c: seq<T>, j: nat): seq<T>
    requires j < |c|
  {
    c[..j] + c[j + 1..]
  }

  ghost function Members<T>(c: seq<T>): set<T> {
    set x | x in c
  }
}
