/** Two notions that several modules share. */
module Basics {
  function Bit(b: bool): nat {
    if b then 1 else 0
  }

  ghost predicate NoRepeats<T>(a: seq<T>) {
    forall i, j :: 0 <= i < j < |a| ==> a[i] != a[j]
  }
}
