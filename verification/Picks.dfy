/** Selecting from a sequence in order: which positions are taken, and what stands there. */
module Picks {

  /** `items` are what stands in `all` at the positions `picks`, which ascend. */
  predicate Picked<T(==)>(items: seq<T>, picks: seq<nat>, all: seq<T>) {
    && |items| == |picks|
    && (forall i, j :: 0 <= i < j < |picks| ==> picks[i] < picks[j])
    && forall i :: 0 <= i < |picks| ==> picks[i] < |all| && items[i] == all[picks[i]]
  }

  lemma PickedNone<T>()
    ensures Picked<T>([], [], [])
  {
  }

  /** One more element of the sequence, taken or not. */
  lemma PickedNext<T>(items: seq<T>, picks: seq<nat>, all: seq<T>, take: bool)
    requires all != [] && Picked(items, picks, all[..|all| - 1])
    ensures var n := |all| - 1;
            Picked(if take then items + [all[n]] else items, if take then picks + [n] else picks, all)
  {
  }

  /** The positions taken of one more element. */
  lemma MemberNext(picks: seq<nat>, n: nat, k: nat)
    ensures k in picks + [n] <==> k in picks || k == n
  {
  }
}
