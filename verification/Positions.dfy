/** Lists of positions: which members of another list were picked, in their order and each once. */
module Positions {

  ghost predicate Increasing(at: seq<nat>) {
    forall i, j :: 0 <= i < j < |at| ==> at[i] < at[j]
  }

  // One more position, larger than all others.
  lemma IncreasingSnoc(at: seq<nat>, n: nat)
    requires Increasing(at) && forall k :: k in at ==> k < n
    ensures Increasing(at + [n]) && forall k: nat :: k in at + [n] <==> k in at || k == n
  {
    assert forall i :: 0 <= i < |at| ==> at[i] in at;
  }
}
