/** Positions in a list, ascending: the witnesses of statements about which entries of a list are picked. */
module Positions {
  /** Strictly ascending, from `first` on, below `end`. */
  ghost predicate Rising(at: seq<nat>, first: nat, end: nat) {
    && (forall k :: 0 <= k < |at| ==> first <= at[k] < end)
    && (forall j, k :: 0 <= j < k < |at| ==> at[j] < at[k])
  }

  /** The positions of `at`, then `last`, if `picked`. */
  ghost function Then(at: seq<nat>, picked: bool, last: nat): seq<nat> {
    if picked then at + [last] else at
  }

  lemma RisingThen(at: seq<nat>, picked: bool, end: nat)
    requires Rising(at, 0, end)
    ensures Rising(Then(at, picked, end), 0, end + 1)
    ensures forall i: nat :: i in Then(at, picked, end) <==> i in at || (picked && i == end)
  {
  }

  /** `first`, if `picked`, and then the positions of `at`. */
  ghost function Behind(picked: bool, first: nat, at: seq<nat>): seq<nat> {
    if picked then [first] + at else at
  }

  lemma RisingBehind(picked: bool, first: nat, at: seq<nat>, end: nat)
    requires first < end && Rising(at, first + 1, end)
    ensures Rising(Behind(picked, first, at), first, end)
    ensures forall i: nat :: i in Behind(picked, first, at) <==> i in at || (picked && i == first)
  {
  }
}
