/** Subsequences, told by the positions that were picked. */
module Picks {
  /** `taken` is what stands at the positions idx of `all`, in the same order. */
  ghost predicate InOrder<X>(all: seq<X>, taken: seq<X>, idx: seq<nat>)
  {
    && |idx| == |taken|
    && (forall j :: 0 <= j < |idx| ==> idx[j] < |all| && taken[j] == all[idx[j]])
    && (forall i, j :: 0 <= i < j < |idx| ==> idx[i] < idx[j])
  }

  /** The positions picked are those that `keep` marks. */
  ghost predicate Exactly(idx: seq<nat>, keep: seq<bool>)
  {
    forall m: nat :: m in idx <==> m < |keep| && keep[m]
  }

  /** One more item, picked or not. */
  lemma PickLast<X>(all: seq<X>, keep: seq<bool>, taken: seq<X>, idx: seq<nat>) returns (idx': seq<nat>)
    requires all != [] && |keep| == |all|
    requires InOrder(all[..|all| - 1], taken, idx) && Exactly(idx, keep[..|all| - 1])
    ensures InOrder(all, if keep[|all| - 1] then taken + [all[|all| - 1]] else taken, idx')
    ensures Exactly(idx', keep)
  {
    var n := |all| - 1;
    var front := keep[..n];
    idx' := idx;
    if keep[n] {
      idx' := idx + [n];
      assert idx'[|idx|] == n;
    }
    forall m: nat
      ensures m in idx' <==> m < |keep| && keep[m]
    {
      assert m in idx <==> m < |front| && front[m];
    }
  }
}
