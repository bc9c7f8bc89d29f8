/** The 3-way quicksort of the fallback sorter (blocksort.c): it orders a range of
    `fmap` by the equivalence class of each entry, in place and on a fixed stack. */
module FallbackQSort {
  import opened Words
  import opened Permutations
  import opened Rearrange
  import opened RangeStack

  const FALLBACK_QSORT_SMALL_THRESH := 10
  const FALLBACK_QSORT_STACK_SIZE := 100

  /** The sort key of position x. */
  function Key(f: seq<nat>, ec: seq<nat>, x: int): nat {
    if 0 <= x < |f| && f[x] < |ec| then ec[f[x]] else 0
  }

  ghost predicate SortedKeys(f: seq<nat>, ec: seq<nat>, lo: int, hi: int) {
    forall x, y :: lo <= x < y <= hi ==> Key(f, ec, x) <= Key(f, ec, y)
  }

  ghost predicate InRange(f: seq<nat>, ec: seq<nat>, lo: int, hi: int) {
    && 0 <= lo <= hi + 1 <= |f|
    && forall x :: 0 <= x < |f| ==> f[x] < |ec|
  }

  lemma InRangeKept(f: seq<nat>, g: seq<nat>, ec: seq<nat>, lo: int, hi: int, a: int, b: int)
    requires InRange(f, ec, lo, hi) && Rearranged(f, g, a, b)
    ensures InRange(g, ec, lo, hi)
  {
    forall x | 0 <= x < |g| ensures g[x] < |ec| {
      assert g[x] in multiset(f);
    }
  }

  // ---------- insertion sort with a stride ----------

  /** Positions h apart are in order from i on. */
  ghost predicate StrideSorted(f: seq<nat>, ec: seq<nat>, i: int, hi: int, h: int) {
    forall x, y :: i <= x && y == x + h && y <= hi ==> Key(f, ec, x) <= Key(f, ec, y)
  }

  /** As StrideSorted, but position `hole` is free and everything shifted down past it
      was below ec_tmp. */
  ghost predicate Shifting(f: seq<nat>, ec: seq<nat>, i: int, hole: int, hi: int, h: int, t: nat) {
    && (forall x, y :: i <= x && y == x + h && y <= hi && x != hole && y != hole ==>
          Key(f, ec, x) <= Key(f, ec, y))
    && (i <= hole - h ==> Key(f, ec, hole - h) <= t)
    && (i <= hole - h && hole + h <= hi ==> Key(f, ec, hole - h) <= Key(f, ec, hole + h))
  }

  lemma ShiftStep(f: seq<nat>, ec: seq<nat>, i: int, j: int, hi: int, h: int, t: nat)
    requires 0 < h && 0 <= i && i + h <= j <= hi < |f| && f[j] < |ec| && Key(f, ec, j) < t
    requires Shifting(f, ec, i, j - h, hi, h, t)
    ensures Shifting(f[j - h := f[j]], ec, i, j, hi, h, t)
  {
    var g := f[j - h := f[j]];
    KeyUpdate(f, ec, j - h, f[j]);
    assert Key(g, ec, j - h) == Key(f, ec, j);
    if j + h <= hi {
      assert Key(f, ec, j) <= Key(f, ec, j + h) == Key(g, ec, j + h);
    }
    forall x, y | i <= x && y == x + h && y <= hi && x != j && y != j ensures Key(g, ec, x) <= Key(g, ec, y) {
      assert Key(g, ec, x) == Key(f, ec, x);
      assert Key(g, ec, y) == if y == j - h then Key(f, ec, j) else Key(f, ec, y);
    }
  }

  lemma KeyUpdate(f: seq<nat>, ec: seq<nat>, p: int, v: nat)
    requires 0 <= p < |f| && v < |ec|
    ensures forall x :: Key(f[p := v], ec, x) == if x == p then ec[v] else Key(f, ec, x)
  {
    var g := f[p := v];
    forall x ensures Key(g, ec, x) == if x == p then ec[v] else Key(f, ec, x) {
      if 0 <= x < |f| && x != p { assert g[x] == f[x]; }
    }
  }

  lemma DropIn(f: seq<nat>, ec: seq<nat>, i: int, hole: int, hi: int, h: int, tmp: nat)
    requires 0 < h && 0 <= i <= hole <= hi < |f| && tmp < |ec|
    requires Shifting(f, ec, i, hole, hi, h, ec[tmp])
    requires hole + h <= hi ==> ec[tmp] <= Key(f, ec, hole + h)
    ensures StrideSorted(f[hole := tmp], ec, i, hi, h)
  {
    KeyUpdate(f, ec, hole, tmp);
    var g := f[hole := tmp];
    forall x, y | i <= x && y == x + h && y <= hi ensures Key(g, ec, x) <= Key(g, ec, y) {
      assert Key(g, ec, x) == if x == hole then ec[tmp] else Key(f, ec, x);
      assert Key(g, ec, y) == if y == hole then ec[tmp] else Key(f, ec, y);
    }
  }

  lemma ShiftRearranged(f0: seq<nat>, f: seq<nat>, ec: seq<nat>, lo: int, hi: int, j: int, h: int, tmp: nat)
    requires h > 0 && InRange(f, ec, lo, hi) && lo <= j - h < j <= hi
    requires Rearranged(f0, f[j - h := tmp], lo, hi)
    ensures InRange(f[j - h := f[j]], ec, lo, hi)
    ensures Rearranged(f0, f[j - h := f[j]][j := tmp], lo, hi)
  {
    var g := f[j - h := tmp];
    assert f[j - h := f[j]][j := tmp] == g[j - h := g[j]][j := g[j - h]];
    RearrangedSwap(g, j - h, j, lo, hi);
    RearrangedTrans(f0, g, f[j - h := f[j]][j := tmp], lo, hi);
  }

  /** One of the two insertion passes: stride 4, then stride 1. */
  method StridePass(fmap: array<nat>, eclass: array<nat>, lo: int, hi: int, h: int)
    requires fmap != eclass && h > 0 && lo <= hi + 1
    requires InRange(fmap[..], eclass[..], lo, hi)
    modifies fmap
    ensures Rearranged(old(fmap[..]), fmap[..], lo, hi)
    ensures StrideSorted(fmap[..], eclass[..], lo, hi, h)
  {
    ghost var f0, ec := fmap[..], eclass[..];
    var i := hi - h;
    while i >= lo
      invariant i <= hi - h
      invariant Rearranged(f0, fmap[..], lo, hi) && eclass[..] == ec
      invariant StrideSorted(fmap[..], ec, if i < lo then lo else i + 1, hi, h)
    {
      InRangeKept(f0, fmap[..], ec, lo, hi, lo, hi);
      i := InsertAt(fmap, eclass, lo, hi, h, i, f0);
    }
  }

  /** Entry tmp has been lifted out of position i and the gap has moved up to j - h. */
  ghost predicate Inserting(f0: seq<nat>, f: seq<nat>, ec: seq<nat>, lo: int, hi: int, h: int, i: int, j: int, tmp: nat) {
    && h > 0 && lo <= i && i + h <= j <= hi + h && InRange(f, ec, lo, hi) && tmp < |ec|
    && Shifting(f, ec, i, j - h, hi, h, ec[tmp])
    && Rearranged(f0, f[j - h := tmp], lo, hi)
  }

  lemma LiftOut(f0: seq<nat>, f: seq<nat>, ec: seq<nat>, lo: int, hi: int, h: int, i: int)
    requires h > 0 && lo <= i && i + h <= hi && InRange(f, ec, lo, hi)
    requires Rearranged(f0, f, lo, hi) && StrideSorted(f, ec, i + 1, hi, h)
    ensures Inserting(f0, f, ec, lo, hi, h, i, i + h, f[i])
  {
    assert f[i := f[i]] == f;
  }

  lemma InsertBounds(f0: seq<nat>, f: seq<nat>, ec: seq<nat>, lo: int, hi: int, h: int, i: int, j: int, tmp: nat)
    requires Inserting(f0, f, ec, lo, hi, h, i, j, tmp)
    ensures 0 <= lo <= j - h <= hi < |f| && (j <= hi ==> f[j] < |ec|)
  {
  }

  lemma MoveGap(f0: seq<nat>, f: seq<nat>, ec: seq<nat>, lo: int, hi: int, h: int, i: int, j: int, tmp: nat)
    requires Inserting(f0, f, ec, lo, hi, h, i, j, tmp) && j <= hi && ec[f[j]] < ec[tmp]
    ensures Inserting(f0, f[j - h := f[j]], ec, lo, hi, h, i, j + h, tmp)
  {
    ShiftStep(f, ec, i, j, hi, h, ec[tmp]);
    ShiftRearranged(f0, f, ec, lo, hi, j, h, tmp);
  }

  lemma CloseGap(f0: seq<nat>, f: seq<nat>, ec: seq<nat>, lo: int, hi: int, h: int, i: int, j: int, tmp: nat)
    requires Inserting(f0, f, ec, lo, hi, h, i, j, tmp) && (j <= hi ==> ec[tmp] <= ec[f[j]])
    ensures StrideSorted(f[j - h := tmp], ec, i, hi, h) && Rearranged(f0, f[j - h := tmp], lo, hi)
  {
    DropIn(f, ec, i, j - h, hi, h, tmp);
  }

  method InsertAt(fmap: array<nat>, eclass: array<nat>, lo: int, hi: int, h: int, i: int, ghost f0: seq<nat>)
    returns (next: int)
    requires fmap != eclass && h > 0 && lo <= i && i + h <= hi
    requires InRange(fmap[..], eclass[..], lo, hi)
    requires Rearranged(f0, fmap[..], lo, hi)
    requires StrideSorted(fmap[..], eclass[..], i + 1, hi, h)
    modifies fmap
    ensures next == i - 1
    ensures Rearranged(f0, fmap[..], lo, hi)
    ensures StrideSorted(fmap[..], eclass[..], i, hi, h)
  {
    hide Inserting, StrideSorted, Rearranged, Key;
    ghost var ec, f := eclass[..], fmap[..];
    LiftOut(f0, f, ec, lo, hi, h, i);
    InsertBounds(f0, f, ec, lo, hi, h, i, i + h, fmap[i]);
    var tmp := fmap[i];
    var ecTmp := eclass[tmp];
    var j := i + h;
    while j <= hi && ecTmp > eclass[fmap[j]]
      invariant fmap[..] == f && eclass[..] == ec
      invariant Inserting(f0, f, ec, lo, hi, h, i, j, tmp)
      invariant lo <= j - h <= hi && (j <= hi ==> f[j] < |ec|)
      decreases hi + h - j
    {
      MoveGap(f0, f, ec, lo, hi, h, i, j, tmp);
      fmap[j - h] := fmap[j];
      f := f[j - h := f[j]];
      j := j + h;
      InsertBounds(f0, f, ec, lo, hi, h, i, j, tmp);
    }
    CloseGap(f0, f, ec, lo, hi, h, i, j, tmp);
    fmap[j - h] := tmp;
    assert fmap[..] == f[j - h := tmp];
    next := i - 1;
  }

  lemma {:induction false} StrideOneSorted(f: seq<nat>, ec: seq<nat>, lo: int, hi: int, x: int, y: int)
    requires StrideSorted(f, ec, lo, hi, 1) && lo <= x <= y <= hi
    ensures Key(f, ec, x) <= Key(f, ec, y)
    decreases y - x
  {
    if x < y {
      StrideOneSorted(f, ec, lo, hi, x + 1, y);
      assert Key(f, ec, x) <= Key(f, ec, x + 1);
    }
  }

  method FallbackSimpleSort(fmap: array<nat>, eclass: array<nat>, lo: int, hi: int)
    requires fmap != eclass && InRange(fmap[..], eclass[..], lo, hi)
    modifies fmap
    ensures Rearranged(old(fmap[..]), fmap[..], lo, hi)
    ensures SortedKeys(fmap[..], eclass[..], lo, hi)
  {
    if lo == hi { return; }
    ghost var f0, ec := fmap[..], eclass[..];
    if hi - lo > 3 {
      StridePass(fmap, eclass, lo, hi, 4);
      InRangeKept(f0, fmap[..], ec, lo, hi, lo, hi);
    }
    ghost var f1 := fmap[..];
    StridePass(fmap, eclass, lo, hi, 1);
    RearrangedTrans(f0, f1, fmap[..], lo, hi);
    forall x, y | lo <= x < y <= hi ensures Key(fmap[..], eclass[..], x) <= Key(fmap[..], eclass[..], y) {
      StrideOneSorted(fmap[..], eclass[..], lo, hi, x, y);
    }
  }

  /** The `fswap` macro. */
  method Swap(fmap: array<nat>, i: int, j: int)
    requires 0 <= i < fmap.Length && 0 <= j < fmap.Length
    modifies fmap
    ensures fmap[..] == old(fmap[..])[i := old(fmap[j])][j := old(fmap[i])]
  {
    var tmp := fmap[i];
    fmap[i] := fmap[j];
    fmap[j] := tmp;
  }

  // ---------- partitioning ----------

  /** The state of a partition around med: equal keys at both ends, smaller and larger
      ones next to them, and [unLo..unHi] not yet looked at. */
  ghost predicate Split(f: seq<nat>, ec: seq<nat>, med: nat, lo: int, ltLo: int, unLo: int, unHi: int, gtHi: int, hi: int) {
    && lo <= ltLo <= unLo <= unHi + 1 && unHi <= gtHi <= hi
    && (forall x :: lo <= x < ltLo ==> Key(f, ec, x) == med)
    && (forall x :: ltLo <= x < unLo ==> Key(f, ec, x) < med)
    && (forall x :: unHi < x <= gtHi ==> Key(f, ec, x) > med)
    && (forall x :: gtHi < x <= hi ==> Key(f, ec, x) == med)
  }

  ghost predicate Partitioning(f0: seq<nat>, f: seq<nat>, ec: seq<nat>, med: nat, lo: int, ltLo: int, unLo: int, unHi: int, gtHi: int, hi: int) {
    InRange(f, ec, lo, hi) && Rearranged(f0, f, lo, hi) && Split(f, ec, med, lo, ltLo, unLo, unHi, gtHi, hi)
  }

  lemma SwapKeys(f: seq<nat>, ec: seq<nat>, i: int, j: int, lo: int, hi: int)
    requires InRange(f, ec, lo, hi) && lo <= i <= hi && lo <= j <= hi
    ensures InRange(f[i := f[j]][j := f[i]], ec, lo, hi)
    ensures var g := f[i := f[j]][j := f[i]];
            && Key(g, ec, i) == Key(f, ec, j) && Key(g, ec, j) == Key(f, ec, i)
            && forall x :: x != i && x != j ==> Key(g, ec, x) == Key(f, ec, x)
  {
    var g := f[i := f[j]];
    KeyUpdate(f, ec, i, f[j]);
    KeyUpdate(g, ec, j, f[i]);
  }

  lemma SwapStep(f0: seq<nat>, f: seq<nat>, ec: seq<nat>, i: int, j: int, lo: int, hi: int)
    requires InRange(f, ec, lo, hi) && Rearranged(f0, f, lo, hi) && lo <= i <= hi && lo <= j <= hi
    ensures InRange(f[i := f[j]][j := f[i]], ec, lo, hi)
    ensures Rearranged(f0, f[i := f[j]][j := f[i]], lo, hi)
  {
    SwapKeys(f, ec, i, j, lo, hi);
    RearrangedSwap(f, i, j, lo, hi);
    RearrangedTrans(f0, f, f[i := f[j]][j := f[i]], lo, hi);
  }

  lemma TakeLow(f0: seq<nat>, f: seq<nat>, ec: seq<nat>, med: nat, lo: int, ltLo: int, unLo: int, unHi: int, gtHi: int, hi: int)
    requires Partitioning(f0, f, ec, med, lo, ltLo, unLo, unHi, gtHi, hi) && unLo <= unHi
    ensures Key(f, ec, unLo) < med ==> Partitioning(f0, f, ec, med, lo, ltLo, unLo + 1, unHi, gtHi, hi)
    ensures Key(f, ec, unLo) == med ==>
              Partitioning(f0, f[unLo := f[ltLo]][ltLo := f[unLo]], ec, med, lo, ltLo + 1, unLo + 1, unHi, gtHi, hi)
  {
    SwapStep(f0, f, ec, unLo, ltLo, lo, hi);
    SwapKeys(f, ec, unLo, ltLo, lo, hi);
  }

  lemma TakeHigh(f0: seq<nat>, f: seq<nat>, ec: seq<nat>, med: nat, lo: int, ltLo: int, unLo: int, unHi: int, gtHi: int, hi: int)
    requires Partitioning(f0, f, ec, med, lo, ltLo, unLo, unHi, gtHi, hi) && unLo <= unHi
    ensures Key(f, ec, unHi) > med ==> Partitioning(f0, f, ec, med, lo, ltLo, unLo, unHi - 1, gtHi, hi)
    ensures Key(f, ec, unHi) == med ==>
              Partitioning(f0, f[unHi := f[gtHi]][gtHi := f[unHi]], ec, med, lo, ltLo, unLo, unHi - 1, gtHi - 1, hi)
  {
    SwapStep(f0, f, ec, unHi, gtHi, lo, hi);
    SwapKeys(f, ec, unHi, gtHi, lo, hi);
  }

  lemma TakeBoth(f0: seq<nat>, f: seq<nat>, ec: seq<nat>, med: nat, lo: int, ltLo: int, unLo: int, unHi: int, gtHi: int, hi: int)
    requires Partitioning(f0, f, ec, med, lo, ltLo, unLo, unHi, gtHi, hi) && unLo < unHi
    requires Key(f, ec, unLo) > med && Key(f, ec, unHi) < med
    ensures Partitioning(f0, f[unLo := f[unHi]][unHi := f[unLo]], ec, med, lo, ltLo, unLo + 1, unHi - 1, gtHi, hi)
  {
    SwapStep(f0, f, ec, unLo, unHi, lo, hi);
    SwapKeys(f, ec, unLo, unHi, lo, hi);
  }

  method ScanLow(fmap: array<nat>, eclass: array<nat>, med: nat, lo: int, ltLo0: int, unLo0: int, unHi: int, ghost gtHi: int, ghost hi: int, ghost f0: seq<nat>)
    returns (ltLo: int, unLo: int)
    requires fmap != eclass && Partitioning(f0, fmap[..], eclass[..], med, lo, ltLo0, unLo0, unHi, gtHi, hi)
    modifies fmap
    ensures Partitioning(f0, fmap[..], eclass[..], med, lo, ltLo, unLo, unHi, gtHi, hi)
    ensures unLo0 <= unLo && (unLo <= unHi ==> Key(fmap[..], eclass[..], unLo) > med)
  {
    ltLo, unLo := ltLo0, unLo0;
    ghost var f, ec := fmap[..], eclass[..];
    while unLo <= unHi && eclass[fmap[unLo]] <= med
      invariant fmap[..] == f && eclass[..] == ec && unLo0 <= unLo
      invariant Partitioning(f0, f, ec, med, lo, ltLo, unLo, unHi, gtHi, hi)
    {
      TakeLow(f0, f, ec, med, lo, ltLo, unLo, unHi, gtHi, hi);
      if eclass[fmap[unLo]] == med {
        f := f[unLo := f[ltLo]][ltLo := f[unLo]];
        Swap(fmap, unLo, ltLo);
        ltLo := ltLo + 1;
      }
      unLo := unLo + 1;
    }
  }

  method ScanHigh(fmap: array<nat>, eclass: array<nat>, med: nat, ghost lo: int, ghost ltLo: int, unLo: int, unHi0: int, gtHi0: int, hi: int, ghost f0: seq<nat>)
    returns (unHi: int, gtHi: int)
    requires fmap != eclass && Partitioning(f0, fmap[..], eclass[..], med, lo, ltLo, unLo, unHi0, gtHi0, hi)
    requires unLo <= unHi0 ==> Key(fmap[..], eclass[..], unLo) > med
    modifies fmap
    ensures Partitioning(f0, fmap[..], eclass[..], med, lo, ltLo, unLo, unHi, gtHi, hi)
    ensures unHi <= unHi0
    ensures unLo <= unHi ==> Key(fmap[..], eclass[..], unLo) > med && Key(fmap[..], eclass[..], unHi) < med
  {
    unHi, gtHi := unHi0, gtHi0;
    ghost var f, ec := fmap[..], eclass[..];
    while unLo <= unHi && eclass[fmap[unHi]] >= med
      invariant fmap[..] == f && eclass[..] == ec && unHi <= unHi0
      invariant Partitioning(f0, f, ec, med, lo, ltLo, unLo, unHi, gtHi, hi)
      invariant unLo <= unHi ==> Key(f, ec, unLo) > med
    {
      TakeHigh(f0, f, ec, med, lo, ltLo, unLo, unHi, gtHi, hi);
      if eclass[fmap[unHi]] == med {
        SwapKeys(f, ec, unHi, gtHi, lo, hi);
        f := f[unHi := f[gtHi]][gtHi := f[unHi]];
        Swap(fmap, unHi, gtHi);
        gtHi := gtHi - 1;
      }
      unHi := unHi - 1;
    }
  }

  /** The partition loop: it ends with unHi == unLo - 1. */
  method Partition(fmap: array<nat>, eclass: array<nat>, lo: int, hi: int, med: nat)
    returns (ltLo: int, unLo: int, gtHi: int)
    requires fmap != eclass && InRange(fmap[..], eclass[..], lo, hi)
    modifies fmap
    ensures Partitioning(old(fmap[..]), fmap[..], eclass[..], med, lo, ltLo, unLo, unLo - 1, gtHi, hi)
  {
    ghost var f0, ec := fmap[..], eclass[..];
    ltLo, unLo := lo, lo;
    var unHi := hi;
    gtHi := hi;
    while true
      invariant eclass[..] == ec
      invariant Partitioning(f0, fmap[..], ec, med, lo, ltLo, unLo, unHi, gtHi, hi)
      decreases unHi - unLo + 1
    {
      ltLo, unLo := ScanLow(fmap, eclass, med, lo, ltLo, unLo, unHi, gtHi, hi, f0);
      unHi, gtHi := ScanHigh(fmap, eclass, med, lo, ltLo, unLo, unHi, gtHi, hi, f0);
      if unLo > unHi { break; }
      ghost var f := fmap[..];
      TakeBoth(f0, f, ec, med, lo, ltLo, unLo, unHi, gtHi, hi);
      Swap(fmap, unLo, unHi);
      unLo := unLo + 1;
      unHi := unHi - 1;
    }
  }

  // ---------- moving the equal keys to the middle ----------

  /** g is f with the blocks of length n at p and q exchanged. */
  ghost predicate Exchanged(f: seq<nat>, g: seq<nat>, p: int, q: int, n: int) {
    && |g| == |f| && 0 <= p && p + n <= q && q + n <= |f|
    && (forall x :: p <= x < p + n ==> g[x] == f[x - p + q])
    && (forall x :: q <= x < q + n ==> g[x] == f[x - q + p])
    && (forall x :: 0 <= x < |f| && !(p <= x < p + n) && !(q <= x < q + n) ==> g[x] == f[x])
  }

  lemma ExchangeStep(f: seq<nat>, g: seq<nat>, p: int, q: int, k: int)
    requires Exchanged(f, g, p, q, k) && 0 <= k && p + k < q && q + k < |f|
    ensures Exchanged(f, g[p + k := g[q + k]][q + k := g[p + k]], p, q, k + 1)
  {
    var h := g[p + k := g[q + k]][q + k := g[p + k]];
    assert h[p + k] == f[p + k - p + q] && h[q + k] == f[q + k - q + p];
  }

  lemma ExchangeStart(f: seq<nat>, ec: seq<nat>, p: int, q: int, n: int, lo: int, hi: int)
    requires 0 <= n && lo <= p && p + n <= q && q + n <= hi + 1 && InRange(f, ec, lo, hi)
    ensures Exchanged(f, f, p, q, 0) && Rearranged(f, f, lo, hi) && 0 <= lo && hi < |f|
  {
  }

  /** The `fvswap` macro. */
  method VSwap(fmap: array<nat>, p: int, q: int, n: int, ghost ec: seq<nat>, ghost lo: int, ghost hi: int)
    requires 0 <= n && lo <= p && p + n <= q && q + n <= hi + 1
    requires InRange(fmap[..], ec, lo, hi)
    modifies fmap
    ensures InRange(fmap[..], ec, lo, hi) && Rearranged(old(fmap[..]), fmap[..], lo, hi)
    ensures Exchanged(old(fmap[..]), fmap[..], p, q, n)
  {
    hide Rearranged, Exchanged, InRange;
    ghost var f0, g := fmap[..], fmap[..];
    ExchangeStart(f0, ec, p, q, n, lo, hi);
    var yyp1, yyp2, yyn := p, q, n;
    while yyn > 0
      invariant 0 <= yyn <= n && yyp1 == p + (n - yyn) && yyp2 == q + (n - yyn)
      invariant fmap[..] == g && Exchanged(f0, g, p, q, n - yyn)
      invariant InRange(g, ec, lo, hi) && Rearranged(f0, g, lo, hi)
    {
      ExchangeStep(f0, g, p, q, n - yyn);
      SwapStep(f0, g, ec, yyp1, yyp2, lo, hi);
      g := g[yyp1 := g[yyp2]][yyp2 := g[yyp1]];
      Swap(fmap, yyp1, yyp2);
      yyp1, yyp2, yyn := yyp1 + 1, yyp2 + 1, yyn - 1;
    }
  }

  function Min(x: int, y: int): int { if x < y then x else y }

  lemma KeyOf(f: seq<nat>, ec: seq<nat>, lo: int, hi: int, x: int)
    requires InRange(f, ec, lo, hi) && 0 <= x < |f|
    ensures Key(f, ec, x) == ec[f[x]]
  {
  }

  lemma LowMoved(f: seq<nat>, g: seq<nat>, ec: seq<nat>, med: nat, lo: int, ltLo: int, unLo: int, gtHi: int, hi: int)
    requires InRange(f, ec, lo, hi) && Split(f, ec, med, lo, ltLo, unLo, unLo - 1, gtHi, hi)
    requires var n := Min(ltLo - lo, unLo - ltLo); Exchanged(f, g, lo, unLo - n, n)
    ensures forall x :: lo <= x < lo + unLo - ltLo ==> Key(g, ec, x) < med
    ensures forall x :: lo + unLo - ltLo <= x < unLo ==> Key(g, ec, x) == med
    ensures forall x :: unLo <= x <= hi ==> Key(g, ec, x) == Key(f, ec, x)
  {
    var n := Min(ltLo - lo, unLo - ltLo);
    forall x | lo <= x < unLo
      ensures if x < lo + unLo - ltLo then Key(g, ec, x) < med else Key(g, ec, x) == med
    {
      var y := if x < lo + n then x - lo + (unLo - n) else if x >= unLo - n then x - (unLo - n) + lo else x;
      assert g[x] == f[y];
      assert Key(g, ec, x) == Key(f, ec, y);
    }
  }

  lemma HighMoved(f: seq<nat>, g: seq<nat>, ec: seq<nat>, med: nat, lo: int, unLo: int, gtHi: int, hi: int)
    requires InRange(f, ec, lo, hi) && lo <= unLo <= gtHi + 1 && gtHi <= hi
    requires forall x :: unLo <= x <= gtHi ==> Key(f, ec, x) > med
    requires forall x :: gtHi < x <= hi ==> Key(f, ec, x) == med
    requires var m := Min(hi - gtHi, gtHi - (unLo - 1)); Exchanged(f, g, unLo, hi - m + 1, m)
    ensures var m := hi - (gtHi - (unLo - 1)) + 1;
            && (forall x :: m <= x <= hi ==> Key(g, ec, x) > med)
            && (forall x :: unLo <= x < m ==> Key(g, ec, x) == med)
    ensures forall x :: lo <= x < unLo ==> Key(g, ec, x) == Key(f, ec, x)
  {
    var m := Min(hi - gtHi, gtHi - (unLo - 1));
    forall x | unLo <= x <= hi
      ensures if x >= hi - (gtHi - (unLo - 1)) + 1 then Key(g, ec, x) > med else Key(g, ec, x) == med
    {
      var y := if x < unLo + m then x - unLo + (hi - m + 1) else if x >= hi - m + 1 then x - (hi - m + 1) + unLo else x;
      assert g[x] == f[y];
      assert Key(g, ec, x) == Key(f, ec, y);
    }
  }

  /** Keys below med on [lo..n], equal to it in between, above it on [m..hi]. */
  ghost predicate ThreeWay(f: seq<nat>, ec: seq<nat>, med: nat, lo: int, n: int, m: int, hi: int) {
    && lo - 1 <= n && n + 1 <= m && m <= hi + 1
    && (forall x :: lo <= x <= n ==> Key(f, ec, x) < med)
    && (forall x :: n < x < m ==> Key(f, ec, x) == med)
    && (forall x :: m <= x <= hi ==> Key(f, ec, x) > med)
  }

  /** After the partition loop, unless every key was equal, the two runs of equal keys
      are exchanged into the middle. */
  method GatherEqual(fmap: array<nat>, lo: int, ltLo: int, unLo: int, gtHi: int, hi: int, ghost med: nat, ghost ec: seq<nat>)
    returns (n: int, m: int)
    requires InRange(fmap[..], ec, lo, hi) && ltLo <= gtHi
    requires Split(fmap[..], ec, med, lo, ltLo, unLo, unLo - 1, gtHi, hi)
    modifies fmap
    ensures InRange(fmap[..], ec, lo, hi) && Rearranged(old(fmap[..]), fmap[..], lo, hi)
    ensures ThreeWay(fmap[..], ec, med, lo, n, m, hi)
    ensures lo <= n || m <= hi
  {
    hide Rearranged, Exchanged, InRange, ThreeWay;
    ghost var f1 := fmap[..];
    SplitBounds(f1, ec, med, lo, ltLo, unLo, gtHi, hi);
    var unHi := unLo - 1;
    n := Min(ltLo - lo, unLo - ltLo);
    VSwap(fmap, lo, unLo - n, n, ec, lo, hi);
    ghost var f2 := fmap[..];
    m := Min(hi - gtHi, gtHi - unHi);
    VSwap(fmap, unLo, hi - m + 1, m, ec, lo, hi);
    Gathered(f1, f2, fmap[..], ec, med, lo, ltLo, unLo, gtHi, hi);
    n := lo + unLo - ltLo - 1;
    m := hi - (gtHi - unHi) + 1;
  }

  lemma SplitBounds(f: seq<nat>, ec: seq<nat>, med: nat, lo: int, ltLo: int, unLo: int, gtHi: int, hi: int)
    requires InRange(f, ec, lo, hi) && Split(f, ec, med, lo, ltLo, unLo, unLo - 1, gtHi, hi)
    ensures 0 <= lo <= ltLo <= unLo <= gtHi + 1 && gtHi <= hi < |f|
  {
  }

  lemma Gathered(f: seq<nat>, g: seq<nat>, h: seq<nat>, ec: seq<nat>, med: nat, lo: int, ltLo: int, unLo: int, gtHi: int, hi: int)
    requires InRange(f, ec, lo, hi) && InRange(g, ec, lo, hi) && ltLo <= gtHi
    requires Split(f, ec, med, lo, ltLo, unLo, unLo - 1, gtHi, hi)
    requires Rearranged(f, g, lo, hi) && Rearranged(g, h, lo, hi)
    requires var n := Min(ltLo - lo, unLo - ltLo); Exchanged(f, g, lo, unLo - n, n)
    requires var m := Min(hi - gtHi, gtHi - (unLo - 1)); Exchanged(g, h, unLo, hi - m + 1, m)
    ensures Rearranged(f, h, lo, hi)
    ensures ThreeWay(h, ec, med, lo, lo + unLo - ltLo - 1, hi - (gtHi - (unLo - 1)) + 1, hi)
  {
    RearrangedTrans(f, g, h, lo, hi);
    LowMoved(f, g, ec, med, lo, ltLo, unLo, gtHi, hi);
    HighMoved(g, h, ec, med, lo, unLo, gtHi, hi);
  }

  /** The median that was chosen is still in the range, so the middle part is not empty. */
  lemma MedianKept(f: seq<nat>, g: seq<nat>, ec: seq<nat>, med: nat, lo: int, n: int, m: int, hi: int, x: int)
    requires InRange(f, ec, lo, hi) && Rearranged(f, g, lo, hi) && ThreeWay(g, ec, med, lo, n, m, hi)
    requires lo <= x <= hi && Key(f, ec, x) == med
    ensures n + 1 < m
  {
    var y := RangeSource(g, f, lo, hi, x);
    assert Key(g, ec, y) == med;
  }

  // ---------- the explicit stack ----------

  /** Any two positions of [a..b] are in order, or wait in the same pending range. */
  ghost predicate Resolved(f: seq<nat>, ec: seq<nat>, rs: seq<Range>, a: int, b: int) {
    forall x, y :: a <= x < y <= b ==> Key(f, ec, x) <= Key(f, ec, y) || InSame(rs, x, y)
  }

  lemma SameInTop(rs: seq<Range>, r: Range, x: int, y: int)
    requires InSame(rs + [r], x, y)
    ensures InSame(rs, x, y) || (r.lo <= x && y <= r.hi)
  {
    var s :| 0 <= s < |rs + [r]| && (rs + [r])[s].lo <= x && y <= (rs + [r])[s].hi;
    if s < |rs| { assert rs[s] == (rs + [r])[s]; }
  }

  lemma SameLower(rs: seq<Range>, more: seq<Range>, x: int, y: int)
    requires InSame(rs, x, y)
    ensures InSame(rs + more, x, y)
  {
    var s :| 0 <= s < |rs| && rs[s].lo <= x && y <= rs[s].hi;
    assert (rs + more)[s] == rs[s];
  }

  lemma NotSameAcross(rs: seq<Range>, r: Range, x: int, y: int)
    requires forall s :: 0 <= s < |rs| ==> Disjoint(rs[s], r)
    requires r.lo <= x <= r.hi || r.lo <= y <= r.hi
    requires x <= y
    ensures !InSame(rs, x, y)
  {
  }

  /** Rearranging the top range leaves every pair across its border in order. */
  lemma AcrossKept(f: seq<nat>, g: seq<nat>, ec: seq<nat>, rs: seq<Range>, r: Range, a: int, b: int, x: int, y: int)
    requires InRange(f, ec, a, b) && Within(r, a, b) && Rearranged(f, g, r.lo, r.hi)
    requires Resolved(f, ec, rs + [r], a, b) && (forall s :: 0 <= s < |rs| ==> Disjoint(rs[s], r))
    requires a <= x < y <= b && !(r.lo <= x && y <= r.hi)
    ensures Key(g, ec, x) <= Key(g, ec, y) || InSame(rs, x, y)
  {
    var x', y' := x, y;
    if r.lo <= x <= r.hi {
      x' := RangeSource(f, g, r.lo, r.hi, x);
    }
    if r.lo <= y <= r.hi {
      y' := RangeSource(f, g, r.lo, r.hi, y);
    }
    assert Key(g, ec, x) == Key(f, ec, x') && Key(g, ec, y) == Key(f, ec, y');
    assert x' < y';
    if InSame(rs + [r], x', y') {
      SameInTop(rs, r, x', y');
      if (r.lo <= x <= r.hi) || (r.lo <= y <= r.hi) {
        NotSameAcross(rs, r, x', y');
      }
    }
  }

  /** A small range has been sorted outright. */
  lemma ResolveSorted(f: seq<nat>, g: seq<nat>, ec: seq<nat>, rs: seq<Range>, r: Range, a: int, b: int)
    requires InRange(f, ec, a, b) && Apart(rs + [r], a, b) && Rearranged(f, g, r.lo, r.hi)
    requires Resolved(f, ec, rs + [r], a, b) && SortedKeys(g, ec, r.lo, r.hi)
    ensures Resolved(g, ec, rs, a, b) && Apart(rs, a, b)
  {
    ApartPop(rs, r, a, b);
    forall x, y | a <= x < y <= b ensures Key(g, ec, x) <= Key(g, ec, y) || InSame(rs, x, y) {
      if !(r.lo <= x && y <= r.hi) {
        AcrossKept(f, g, ec, rs, r, a, b, x, y);
      }
    }
  }

  /** A large range has been split three ways and its outer parts are pending. */
  lemma ResolveSplit(f: seq<nat>, g: seq<nat>, ec: seq<nat>, rs: seq<Range>, r: Range, p: Range, q: Range, a: int, b: int, med: nat, n: int, m: int)
    requires InRange(f, ec, a, b) && Apart(rs + [r], a, b) && Rearranged(f, g, r.lo, r.hi)
    requires Resolved(f, ec, rs + [r], a, b) && ThreeWay(g, ec, med, r.lo, n, m, r.hi)
    requires {p, q} == {Range(r.lo, n), Range(m, r.hi)}
    ensures Resolved(g, ec, rs + [p, q], a, b)
  {
    ApartPop(rs, r, a, b);
    var rs' := rs + [p, q];
    assert rs'[|rs|] == p && rs'[|rs| + 1] == q;
    forall x, y | a <= x < y <= b ensures Key(g, ec, x) <= Key(g, ec, y) || InSame(rs', x, y) {
      if !(r.lo <= x && y <= r.hi) {
        AcrossKept(f, g, ec, rs, r, a, b, x, y);
        if InSame(rs, x, y) { SameLower(rs, [p, q], x, y); }
      } else if y <= n || m <= x {
        assert Range(r.lo, n) in {p, q} && Range(m, r.hi) in {p, q};
      }
    }
  }

  /** The arrays `stackLo`/`stackHi` up to sp hold the pending ranges. */
  ghost predicate Holds(stackLo: seq<int>, stackHi: seq<int>, rs: seq<Range>) {
    && |stackLo| == |stackHi| == FALLBACK_QSORT_STACK_SIZE && |rs| <= FALLBACK_QSORT_STACK_SIZE
    && forall s :: 0 <= s < |rs| ==> stackLo[s] == rs[s].lo && stackHi[s] == rs[s].hi
  }

  method Push(stackLo: array<int>, stackHi: array<int>, sp: int, lo: int, hi: int, ghost rs: seq<Range>)
    requires stackLo != stackHi && Holds(stackLo[..], stackHi[..], rs) && sp == |rs| < FALLBACK_QSORT_STACK_SIZE
    modifies stackLo, stackHi
    ensures Holds(stackLo[..], stackHi[..], rs + [Range(lo, hi)])
  {
    stackLo[sp] := lo;
    stackHi[sp] := hi;
  }

  /** The larger part goes below the smaller one, which is sorted first. */
  method PushParts(stackLo: array<int>, stackHi: array<int>, sp: int, lo: int, n: int, m: int, hi: int, ghost rest: seq<Range>)
    returns (ghost big: Range, ghost small: Range)
    requires stackLo != stackHi && Holds(stackLo[..], stackHi[..], rest) && sp == |rest| < FALLBACK_QSORT_STACK_SIZE - 1
    modifies stackLo, stackHi
    ensures {big, small} == {Range(lo, n), Range(m, hi)} && Size(small) <= Size(big)
    ensures Size(big) + Size(small) == (n - lo + 1) + (hi - m + 1)
    ensures Holds(stackLo[..], stackHi[..], rest + [big, small])
  {
    hide Holds;
    if n - lo > hi - m {
      Push(stackLo, stackHi, sp, lo, n, rest);
      Push(stackLo, stackHi, sp + 1, m, hi, rest + [Range(lo, n)]);
      big, small := Range(lo, n), Range(m, hi);
    } else {
      Push(stackLo, stackHi, sp, m, hi, rest);
      Push(stackLo, stackHi, sp + 1, lo, n, rest + [Range(m, hi)]);
      big, small := Range(m, hi), Range(lo, n);
    }
    assert rest + [big] + [small] == rest + [big, small];
  }

  /** Everything the main loop keeps: the order among resolved positions, the shape of
      the stack, and the bound on its depth. */
  ghost predicate Sorting(f0: seq<nat>, f: seq<nat>, ec: seq<nat>, rs: seq<Range>, a: int, b: int) {
    && InRange(f, ec, a, b) && Rearranged(f0, f, a, b)
    && Apart(rs, a, b) && Resolved(f, ec, rs, a, b) && Halving(rs, b - a + 1)
  }

  lemma StartSorting(f: seq<nat>, ec: seq<nat>, a: int, b: int)
    requires InRange(f, ec, a, b)
    ensures Sorting(f, f, ec, [Range(a, b)], a, b)
  {
    var rs := [Range(a, b)];
    forall x, y | a <= x < y <= b ensures InSame(rs, x, y) {
      assert rs[0].lo <= x && y <= rs[0].hi;
    }
  }

  lemma TopRange(f0: seq<nat>, f: seq<nat>, ec: seq<nat>, rs: seq<Range>, r: Range, a: int, b: int)
    requires Sorting(f0, f, ec, rs + [r], a, b)
    ensures InRange(f, ec, r.lo, r.hi) && a <= r.lo <= r.hi + 1 <= b + 1
    ensures 0 <= Work(rs) < Work(rs + [r])
  {
    ApartPop(rs, r, a, b);
    WorkPush(rs, r);
    WorkNonnegative(rs, a, b);
  }

  /** The stack never comes near its limit, so assertion 1004 holds. */
  lemma StackFits(f0: seq<nat>, f: seq<nat>, ec: seq<nat>, rs: seq<Range>, a: int, b: int)
    requires Sorting(f0, f, ec, rs, a, b) && b - a + 1 <= 0x8000_0000
    ensures |rs| <= 33
  {
    if |rs| > 33 {
      Pow2Word();
      HalvingDepth(rs, b - a + 1);
      Pow2Monotone(32, |rs| - 2);
    }
  }

  lemma Widen(f: seq<nat>, g: seq<nat>, r: Range, a: int, b: int)
    requires Rearranged(f, g, r.lo, r.hi) && Within(r, a, b)
    ensures Rearranged(f, g, a, b)
  {
  }

  lemma SortedStep(f0: seq<nat>, f: seq<nat>, g: seq<nat>, ec: seq<nat>, rs: seq<Range>, r: Range, a: int, b: int)
    requires Sorting(f0, f, ec, rs + [r], a, b)
    requires Rearranged(f, g, r.lo, r.hi) && SortedKeys(g, ec, r.lo, r.hi)
    ensures Sorting(f0, g, ec, rs, a, b)
  {
    ResolveSorted(f, g, ec, rs, r, a, b);
    ApartPop(rs, r, a, b);
    Widen(f, g, r, a, b);
    RearrangedTrans(f0, f, g, a, b);
    InRangeKept(f, g, ec, a, b, a, b);
    HalvingPop(rs, r, b - a + 1);
  }

  lemma SplitStep(f0: seq<nat>, f: seq<nat>, g: seq<nat>, ec: seq<nat>, rs: seq<Range>, r: Range, big: Range, small: Range, a: int, b: int, med: nat, n: int, m: int)
    requires Sorting(f0, f, ec, rs + [r], a, b)
    requires Rearranged(f, g, r.lo, r.hi) && ThreeWay(g, ec, med, r.lo, n, m, r.hi)
    requires n + 1 < m && (r.lo <= n || m <= r.hi)
    requires {big, small} == {Range(r.lo, n), Range(m, r.hi)} && Size(small) <= Size(big)
    requires Size(big) + Size(small) == (n - r.lo + 1) + (r.hi - m + 1)
    ensures Sorting(f0, g, ec, rs + [big, small], a, b)
    ensures Work(rs + [big, small]) < Work(rs + [r])
  {
    ResolveSplit(f, g, ec, rs, r, big, small, a, b, med, n, m);
    ApartPop(rs, r, a, b);
    assert (big == Range(r.lo, n) && small == Range(m, r.hi)) || (big == Range(m, r.hi) && small == Range(r.lo, n)) by {
      assert Range(r.lo, n) in {big, small} && Range(m, r.hi) in {big, small};
      assert big in {Range(r.lo, n), Range(m, r.hi)} && small in {Range(r.lo, n), Range(m, r.hi)};
    }
    ApartSplit(rs, r, big, small, a, b);
    Widen(f, g, r, a, b);
    RearrangedTrans(f0, f, g, a, b);
    InRangeKept(f, g, ec, a, b, a, b);
    HalvingSplit(rs, r, big, small, b - a + 1);
    WorkSplit(rs, r, big, small);
  }

  /** The key the partition works around, at one of three places chosen by the generator. */
  method ChooseMedian(fmap: array<nat>, eclass: array<nat>, lo: int, hi: int, r: nat) returns (med: nat)
    requires fmap != eclass && InRange(fmap[..], eclass[..], lo, hi) && lo <= hi
    ensures exists at :: lo <= at <= hi && Key(fmap[..], eclass[..], at) == med
  {
    var r3 := r % 3;
    var pick := if r3 == 0 then lo else if r3 == 1 then (lo + hi) / 2 else hi;
    med := eclass[fmap[pick]];
    assert Key(fmap[..], eclass[..], pick) == med;
  }

  /** Partition the popped range; unless all its keys are equal, give back the two parts
      to push. */
  method PartitionRange(fmap: array<nat>, eclass: array<nat>, lo: int, hi: int, med: nat, ghost at: int)
    returns (allEqual: bool, n: int, m: int)
    requires fmap != eclass && InRange(fmap[..], eclass[..], lo, hi)
    requires lo <= at <= hi && Key(fmap[..], eclass[..], at) == med
    modifies fmap
    ensures Rearranged(old(fmap[..]), fmap[..], lo, hi)
    ensures allEqual ==> SortedKeys(fmap[..], eclass[..], lo, hi)
    ensures !allEqual ==> ThreeWay(fmap[..], eclass[..], med, lo, n, m, hi) && n + 1 < m && (lo <= n || m <= hi)
  {
    hide Rearranged, ThreeWay;
    ghost var f0, ec := fmap[..], eclass[..];
    var ltLo, unLo, gtHi := Partition(fmap, eclass, lo, hi, med);
    ghost var f1 := fmap[..];
    allEqual := gtHi < ltLo;
    n, m := lo - 1, hi + 1;
    if !allEqual {
      n, m := GatherEqual(fmap, lo, ltLo, unLo, gtHi, hi, med, ec);
      RearrangedTrans(f0, f1, fmap[..], lo, hi);
      MedianKept(f0, fmap[..], ec, med, lo, n, m, hi, at);
    }
  }

  /** Sort fmap[loSt..hiSt] by eclass. Assertion 1004 (room on the stack) is proved for
      every range a 32-bit index can describe. */
  method FallbackQSort3(fmap: array<nat>, eclass: array<nat>, loSt: int, hiSt: int)
    requires fmap != eclass && InRange(fmap[..], eclass[..], loSt, hiSt) && hiSt - loSt + 1 <= 0x8000_0000
    modifies fmap
    ensures Rearranged(old(fmap[..]), fmap[..], loSt, hiSt)
    ensures SortedKeys(fmap[..], eclass[..], loSt, hiSt)
  {
    hide Sorting, Holds, InRange, Rearranged, SortedKeys, ThreeWay, Key, Work;
    ghost var f0, ec := fmap[..], eclass[..];
    var stackLo := new int[FALLBACK_QSORT_STACK_SIZE];
    var stackHi := new int[FALLBACK_QSORT_STACK_SIZE];
    var r := 0;
    var sp := 0;
    ghost var rs: seq<Range> := [];
    EmptyHolds(stackLo[..], stackHi[..]);
    Push(stackLo, stackHi, sp, loSt, hiSt, rs);
    assert rs + [Range(loSt, hiSt)] == [Range(loSt, hiSt)];
    rs := [Range(loSt, hiSt)];
    sp := 1;
    StartSorting(f0, ec, loSt, hiSt);
    while sp > 0
      invariant sp == |rs| && eclass[..] == ec && r < 32768
      invariant Holds(stackLo[..], stackHi[..], rs)
      invariant Sorting(f0, fmap[..], ec, rs, loSt, hiSt)
      decreases Work(rs)
    {
      StackFits(f0, fmap[..], ec, rs, loSt, hiSt);
      assert sp < FALLBACK_QSORT_STACK_SIZE - 1;  // AssertH 1004
      ghost var f, rest, top := fmap[..], rs[..sp - 1], rs[sp - 1];
      assert rs == rest + [top];
      PopHolds(stackLo[..], stackHi[..], rs);
      TopRange(f0, f, ec, rest, top, loSt, hiSt);
      sp := sp - 1;
      var lo, hi := stackLo[sp], stackHi[sp];
      if hi - lo < FALLBACK_QSORT_SMALL_THRESH {
        FallbackSimpleSort(fmap, eclass, lo, hi);
        SortedStep(f0, f, fmap[..], ec, rest, top, loSt, hiSt);
        rs := rest;
        continue;
      }
      r := (r * 7621 + 1) % 32768;
      var med := ChooseMedian(fmap, eclass, lo, hi, r);
      ghost var at :| lo <= at <= hi && Key(fmap[..], eclass[..], at) == med;
      var allEqual, n, m := PartitionRange(fmap, eclass, lo, hi, med, at);
      if allEqual {
        SortedStep(f0, f, fmap[..], ec, rest, top, loSt, hiSt);
        rs := rest;
        continue;
      }
      ghost var big, small := PushParts(stackLo, stackHi, sp, lo, n, m, hi, rest);
      SplitStep(f0, f, fmap[..], ec, rest, top, big, small, loSt, hiSt, med, n, m);
      rs := rest + [big, small];
      sp := sp + 2;
    }
    Finished(f0, fmap[..], ec, rs, loSt, hiSt);
  }

  lemma EmptyHolds(stackLo: seq<int>, stackHi: seq<int>)
    requires |stackLo| == |stackHi| == FALLBACK_QSORT_STACK_SIZE
    ensures Holds(stackLo, stackHi, [])
    ensures FALLBACK_QSORT_STACK_SIZE == 100
  {
  }

  lemma PopHolds(stackLo: seq<int>, stackHi: seq<int>, rs: seq<Range>)
    requires Holds(stackLo, stackHi, rs) && rs != []
    ensures Holds(stackLo, stackHi, rs[..|rs| - 1]) && |stackLo| == |stackHi| == FALLBACK_QSORT_STACK_SIZE >= |rs|
    ensures rs[|rs| - 1] == Range(stackLo[|rs| - 1], stackHi[|rs| - 1])
  {
  }

  lemma Finished(f0: seq<nat>, f: seq<nat>, ec: seq<nat>, rs: seq<Range>, a: int, b: int)
    requires Sorting(f0, f, ec, rs, a, b) && rs == []
    ensures Rearranged(f0, f, a, b) && SortedKeys(f, ec, a, b)
  {
    forall x, y | a <= x < y <= b ensures Key(f, ec, x) <= Key(f, ec, y) {
      assert !InSame(rs, x, y);
    }
  }
}