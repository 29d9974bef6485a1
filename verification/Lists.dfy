/** Small operations on lists. */
module Lists {
  /** The list without its element at `i`. */
  function Omit<T>(list: seq<T>, i: nat): (rest: seq<T>)
    requires i < |list|
    ensures |rest| == |list| - 1
  {
    seq(|list| - 1, k requires 0 <= k < |list| - 1 => list[if k < i then k else k + 1])
  }

  ghost predicate Distinct<T>(list: seq<T>) {
    forall i, j :: 0 <= i < j < |list| ==> list[i] != list[j]
  }

  function Members<T(==)>(list: seq<T>): set<T> {
    set x | x in list
  }
}
