/** The order on rotations that the main sorter (blocksort.c) works with, and mainGtU, which
    decides it from the block and the cached quadrants. */
module MainCompare {
  import opened Words
  import opened Permutations
  import opened Rotations

  const BZ_N_RADIX := 2
  const BZ_N_QSORT := 12
  const BZ_N_SHELL := 18
  const BZ_N_OVERSHOOT := 34

  /** The block, with its beginning repeated beyond its end. */
  ghost predicate Overshot(b: seq<byte>, blk: seq<byte>) {
    |b| > BZ_N_OVERSHOOT && |blk| >= |b| + BZ_N_OVERSHOOT && forall i :: 0 <= i < |b| + BZ_N_OVERSHOOT ==> blk[i] == At(b, i)
  }

  /** What the quadrants promise: among rotations that begin with the same character a
      smaller quadrant means an earlier, or equal, rotation. */
  ghost predicate Quadrants(b: seq<byte>, q: seq<nat>)
    requires |b| > 0
  {
    && |q| >= |b| + BZ_N_OVERSHOOT && |b| > BZ_N_OVERSHOOT
    && (forall i :: 0 <= i < BZ_N_OVERSHOOT ==> q[|b| + i] == q[i])
    && forall i, j :: 0 <= i < |b| && 0 <= j < |b| && b[i] == b[j] && q[i] < q[j] ==> Cmp(b, i, j, |b|) <= 0
  }

  // ---------- ranks ----------

  /** The rotations that come before rotation i. */
  ghost function Smaller(b: seq<byte>, i: nat): set<nat>
    requires |b| > 0
  {
    set j: nat | j < |b| && Cmp(b, j, i, |b|) < 0
  }

  ghost function Rank(b: seq<byte>, i: nat): nat
    requires |b| > 0
  {
    |Smaller(b, i)|
  }

  /** The rank of every rotation, to sort by. */
  ghost function Ranks(b: seq<byte>): (r: seq<nat>)
    requires |b| > 0
    ensures |r| == |b| && forall i :: 0 <= i < |b| ==> r[i] == Rank(b, i)
  {
    seq(|b|, i requires 0 <= i < |b| => Rank(b, i))
  }

  /** Ranks are ordered exactly as rotations are. */
  lemma RankOrder(b: seq<byte>, i: nat, j: nat)
    requires i < |b| && j < |b|
    ensures Rank(b, i) <= Rank(b, j) <==> Cmp(b, i, j, |b|) <= 0
  {
    CmpSym(b, i, j, |b|);
    if Cmp(b, i, j, |b|) <= 0 {
      SmallerSubset(b, i, j);
    } else {
      SmallerSubset(b, j, i);
      assert j in Smaller(b, i);
      CmpRefl(b, j, |b|);
      assert j !in Smaller(b, j);
      if |Smaller(b, i)| <= |Smaller(b, j)| { SubsetCard(Smaller(b, j), Smaller(b, i)); }
    }
  }

  lemma SmallerSubset(b: seq<byte>, i: nat, j: nat)
    requires i < |b| && j < |b| && Cmp(b, i, j, |b|) <= 0
    ensures Smaller(b, i) <= Smaller(b, j) && Rank(b, i) <= Rank(b, j)
  {
    forall k | k in Smaller(b, i) ensures k in Smaller(b, j) {
      CmpTrans(b, k, i, j, |b|);
    }
    SubsetCard(Smaller(b, i), Smaller(b, j));
  }

  // ---------- comparing ----------

  /** t characters after a and c have been found equal, and i1, i2 stand after them. */
  ghost predicate Matched(b: seq<byte>, a: nat, c: nat, t: nat, i1: nat, i2: nat)
    requires |b| > 0
  {
    Cmp(b, a, c, t) == 0 && i1 % |b| == (a + t) % |b| && i2 % |b| == (c + t) % |b|
  }

  lemma MatchedStart(b: seq<byte>, a: nat, c: nat)
    requires |b| > 0
    ensures Matched(b, a, c, 0, a, c)
  {
  }

  lemma MatchedStep(b: seq<byte>, a: nat, c: nat, t: nat, i1: nat, i2: nat)
    requires |b| > 0 && Matched(b, a, c, t, i1, i2) && At(b, i1) == At(b, i2)
    ensures Matched(b, a, c, t + 1, i1 + 1, i2 + 1)
  {
    CmpSplit(b, a, c, t, 1);
    assert Cmp(b, a + t, c + t, 1) == Cmp(b, a + t + 1, c + t + 1, 0);
    ModStep(i1, |b|);
    ModStep(i2, |b|);
    ModStep(a + t, |b|);
    ModStep(c + t, |b|);
  }

  /** The first difference decides. */
  lemma MatchedDiffer(b: seq<byte>, a: nat, c: nat, t: nat, i1: nat, i2: nat)
    requires |b| > 0 && Matched(b, a, c, t, i1, i2)
    ensures At(b, i1) > At(b, i2) ==> Cmp(b, a, c, |b|) >= 0
    ensures At(b, i1) < At(b, i2) ==> Cmp(b, a, c, |b|) <= 0
  {
    var n := |b|;
    if t >= n {
      CmpPrefix(b, a, c, n, t);
    } else {
      CmpSplit(b, a, c, t, n - t);
    }
  }

  lemma QuadrantAt(b: seq<byte>, q: seq<nat>, i: nat)
    requires |b| > 0 && Quadrants(b, q) && i < |b| + BZ_N_OVERSHOOT
    ensures i % |b| < |b| && |q| > i && q[i] == q[i % |b|]
  {
    if i >= |b| {
      DivModUnique(i, |b|, 1, i - |b|);
      assert q[|b| + (i - |b|)] == q[i - |b|];
    } else {
      DivModUnique(i, |b|, 0, i);
    }
  }

  /** So does a difference in the quadrants. */
  lemma MatchedQuadrant(b: seq<byte>, q: seq<nat>, a: nat, c: nat, t: nat, i1: nat, i2: nat)
    requires |b| > 0 && Quadrants(b, q) && Matched(b, a, c, t, i1, i2) && At(b, i1) == At(b, i2)
    requires i1 < |b| + BZ_N_OVERSHOOT && i2 < |b| + BZ_N_OVERSHOOT
    ensures |q| > i1 && |q| > i2
    ensures q[i1] > q[i2] ==> Cmp(b, a, c, |b|) >= 0
    ensures q[i1] < q[i2] ==> Cmp(b, a, c, |b|) <= 0
  {
    hide Cmp;
    var n := |b|;
    QuadrantAt(b, q, i1);
    QuadrantAt(b, q, i2);
    var x, y := i1 % n, i2 % n;
    assert b[x] == b[y];
    MatchedRest(b, a, c, t, i1, i2);
    CmpSym(b, x, y, n);
  }

  /** What is left to compare is the comparison from i1 and i2 on. */
  lemma MatchedRest(b: seq<byte>, a: nat, c: nat, t: nat, i1: nat, i2: nat)
    requires |b| > 0 && Matched(b, a, c, t, i1, i2)
    ensures 0 <= i1 % |b| < |b| && 0 <= i2 % |b| < |b| && Cmp(b, a, c, |b|) == Cmp(b, i1 % |b|, i2 % |b|, |b|)
  {
    hide Cmp;
    var n := |b|;
    CmpSplit(b, a, c, t, n);
    FullTurn(b, a, c, t + n);
    ModOf(a + t, n);
    ModOf(c + t, n);
    CmpWrap2(b, a + t, i1 % n, c + t, i2 % n, n);
  }

  lemma ModOf(i: nat, n: nat)
    requires n > 0
    ensures i % n < n && (i % n) % n == i % n
  {
    DivModUnique(i % n, n, 0, i % n);
  }

  lemma MatchedWrap(b: seq<byte>, a: nat, c: nat, t: nat, i1: nat, i2: nat)
    requires |b| > 0 && Matched(b, a, c, t, i1, i2) && i1 < 2 * |b| && i2 < 2 * |b|
    ensures Matched(b, a, c, t, if i1 >= |b| then i1 - |b| else i1, if i2 >= |b| then i2 - |b| else i2)
  {
    WrapOnce(i1, |b|);
    WrapOnce(i2, |b|);
  }

  lemma WrapOnce(i: nat, n: nat)
    requires n > 0 && i < 2 * n
    ensures i >= n ==> (i - n) % n == i % n
  {
    if i >= n {
      DivModUnique(i, n, 1, i - n);
      DivModUnique(i - n, n, 0, i - n);
    }
  }

  lemma MatchedAll(b: seq<byte>, a: nat, c: nat, t: nat, i1: nat, i2: nat)
    requires |b| > 0 && Matched(b, a, c, t, i1, i2) && t >= |b|
    ensures Cmp(b, a, c, |b|) == 0
  {
    CmpPrefix(b, a, c, |b|, t);
  }

  lemma OvershotAt(b: seq<byte>, blk: seq<byte>, i: nat)
    requires Overshot(b, blk) && i < |b| + BZ_N_OVERSHOOT
    ensures i < |blk| && blk[i] == At(b, i)
  {
  }

  /** Characters and quadrants, eight at a time: the first difference, if there is one. */
  method CompareEight(block: array<byte>, quadrant: array<nat>, i: nat, j: nat, ghost b: seq<byte>, ghost a: nat, ghost c: nat, ghost t: nat)
    returns (differ: bool, gt: bool, i1: nat, i2: nat)
    requires |b| > 0 && Overshot(b, block[..]) && Quadrants(b, quadrant[..]) && Matched(b, a, c, t, i, j)
    requires i + 8 <= |b| + BZ_N_OVERSHOOT && j + 8 <= |b| + BZ_N_OVERSHOOT
    ensures differ ==> if gt then Cmp(b, a, c, |b|) >= 0 else Cmp(b, a, c, |b|) <= 0
    ensures !differ ==> Matched(b, a, c, t + 8, i1, i2) && i1 == i + 8 && i2 == j + 8
  {
    hide Overshot, Quadrants, Matched, Cmp, At;
    i1, i2 := i, j;
    ghost var blk, q := block[..], quadrant[..];
    for k := 0 to 8
      invariant i1 == i + k && i2 == j + k && Matched(b, a, c, t + k, i1, i2)
    {
      OvershotAt(b, blk, i1);
      OvershotAt(b, blk, i2);
      MatchedDiffer(b, a, c, t + k, i1, i2);
      var c1, c2 := block[i1], block[i2];
      if c1 != c2 { return true, c1 > c2, i1, i2; }
      MatchedQuadrant(b, q, a, c, t + k, i1, i2);
      var s1, s2 := quadrant[i1], quadrant[i2];
      if s1 != s2 { return true, s1 > s2, i1, i2; }
      MatchedStep(b, a, c, t + k, i1, i2);
      i1, i2 := i1 + 1, i2 + 1;
    }
    differ, gt := false, false;
  }

  /** `mainGtU`: whether the rotation at i comes after the one at j. Equal rotations may be
      answered either way. */
  method MainGtU(i: nat, j: nat, block: array<byte>, quadrant: array<nat>, nblock: nat, budget0: int, ghost b: seq<byte>)
    returns (gt: bool, budget: int)
    requires nblock == |b| && nblock > 0 && Overshot(b, block[..]) && Quadrants(b, quadrant[..])
    requires i <= nblock + 14 && j <= nblock + 14
    ensures gt ==> Cmp(b, i, j, nblock) >= 0
    ensures !gt ==> Cmp(b, i, j, nblock) <= 0
    ensures budget <= budget0
  {
    hide Overshot, Quadrants, Matched, Cmp, At;
    budget := budget0;
    var i1: nat, i2: nat := i, j;
    ghost var blk := block[..];
    MatchedStart(b, i, j);
    LargeBlock(b, blk);
    for k := 0 to 12
      invariant i1 == i + k && i2 == j + k && Matched(b, i, j, k, i1, i2)
    {
      OvershotAt(b, blk, i1);
      OvershotAt(b, blk, i2);
      MatchedDiffer(b, i, j, k, i1, i2);
      var c1, c2 := block[i1], block[i2];
      if c1 != c2 { return c1 > c2, budget; }
      MatchedStep(b, i, j, k, i1, i2);
      i1, i2 := i1 + 1, i2 + 1;
    }
    var k: int := nblock + 8;
    ghost var t := 12;
    while true
      invariant Matched(b, i, j, t, i1, i2) && t == nblock + 20 - k && k >= 0 && budget <= budget0
      invariant i1 <= nblock + 26 && i2 <= nblock + 26
      decreases k
    {
      var differ, r;
      differ, r, i1, i2 := CompareEight(block, quadrant, i1, i2, b, i, j, t);
      if differ { return r, budget; }
      t := t + 8;
      MatchedWrap(b, i, j, t, i1, i2);
      if i1 >= nblock { i1 := i1 - nblock; }
      if i2 >= nblock { i2 := i2 - nblock; }
      k := k - 8;
      budget := budget - 1;
      if k < 0 { break; }
    }
    MatchedAll(b, i, j, t, i1, i2);
    gt := false;
  }

  lemma LargeBlock(b: seq<byte>, blk: seq<byte>)
    requires Overshot(b, blk)
    ensures |b| > BZ_N_OVERSHOOT && |blk| >= |b| + BZ_N_OVERSHOOT
  {
  }
}
