/** BZ2_blockSort (blocksort.c): which of the two sorts is used, and where the original
    rotation ends up. */
module BlockSort {
  import opened Words
  import opened Permutations
  import opened Rotations
  import opened BitTable
  import opened MainCompare
  import Fallback = FallbackSort
  import Main = MainSort

  /** Sorting with the fallback algorithm, on arrays of its own. */
  method SortFallback(block: seq<byte>) returns (ptr: seq<nat>)
    requires 0 < |block| <= 900000
    ensures SortsRotations(block, ptr)
  {
    hide SortsRotations;
    var n := |block|;
    var fmap, eclass := new nat[n], new nat[n];
    var eclass8 := new byte[n](i requires 0 <= i < n => block[i]);
    var bhtab := new nat[n / 32 + 3](_ => 0);
    assert eclass8[..] == block;
    ZeroTable(bhtab[..]);
    Fallback.Sort(fmap, eclass, eclass8, bhtab, n);
    ptr := fmap[..];
  }

  lemma ZeroTable(t: seq<nat>)
    requires forall i :: 0 <= i < |t| ==> t[i] == 0
    ensures Table(t)
  {
  }

  /** Sorting with the main algorithm, on arrays of its own. */
  method SortMain(block: seq<byte>, budgetInit: int) returns (ptr: seq<nat>, budget: int)
    requires 10000 <= |block| <= 900000 && budgetInit >= 0
    ensures budget <= budgetInit && (budget >= 0 ==> SortsRotations(block, ptr))
  {
    hide SortsRotations;
    var n := |block|;
    var fmap, quadrant, ftab := new nat[n], new nat[n + BZ_N_OVERSHOOT], new nat[65537];
    var bytes := new byte[n + BZ_N_OVERSHOOT](i requires 0 <= i < n + BZ_N_OVERSHOOT => if i < n then block[i] else 0);
    assert bytes[..n] == block;
    budget := Main.Sort(fmap, bytes, quadrant, ftab, n, budgetInit, block);
    ptr := fmap[..];
  }

  /** `BZ2_blockSort`: the sorted rotations, and the row of the one that starts the block,
      whichever of the two sorts delivers them and whatever the work factor. Its assertion
      1003 holds: that row is always found. */
  method BlockSort(block: seq<byte>, workFactor: int) returns (ptr: seq<nat>, origPtr: nat)
    requires 0 < |block| <= 900000
    ensures SortsRotations(block, ptr) && origPtr < |ptr| == |block| && ptr[origPtr] == 0
  {
    hide SortedBy;
    if |block| < 10000 {
      ptr := SortFallback(block);
    } else {
      var wfact := workFactor;
      if wfact < 1 { wfact := 1; }
      if wfact > 100 { wfact := 100; }
      var factor := (wfact - 1) / 3;
      BudgetPositive(|block|, factor);
      var budget;
      ptr, budget := SortMain(block, |block| * factor);
      if budget < 0 {
        ptr := SortFallback(block);
      }
    }
    Surjective(ptr, |block|);
    assert 0 in ptr;
    var at: int := -1;
    for i := 0 to |block|
      invariant at == -1 && 0 !in ptr[..i]
    {
      if ptr[i] == 0 {
        at := i;
        break;
      }
      assert ptr[..i + 1] == ptr[..i] + [ptr[i]];
    }
    assert at != -1 by { assert ptr[..|block|] == ptr; }
    origPtr := at;
  }

  lemma BudgetPositive(n: nat, k: nat)
    ensures n * k >= 0
  {
  }
}
