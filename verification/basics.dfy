/** Small facts shared by the other modules. */
module Basics {

  /** The smaller of two integers. */
  function Min(a: int, b: int): int {
    if a <= b then a else b
  }

  /** Concatenation is associative. The recursive filters use it to regroup
      a kept head with the filtered rest. */
  lemma ConcatAssoc<T>(x: seq<T>, y: seq<T>, z: seq<T>)
    ensures x + (y + z) == (x + y) + z
  {
  }
}
