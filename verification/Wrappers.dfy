/** Small shared notions. */
module Wrappers {
  datatype Option<+T> = None | Some(value: T)

  const TWO32: nat := 0x1_0000_0000

  /** First and last place, for lists and strings. */
  const DOH_BEGIN := -1
  const DOH_END := -2

  function Min(a: int, b: int): int { if a <= b then a else b }

  ghost predicate NoDuplicates<T>(c: seq<T>) {
    forall i, j :: 0 <= i < j < |c| ==> c[i] != c[j]
  }
}
