/** mainSimpleSort (blocksort.c): a shell sort of a range of `ptr` whose rotations agree in
    their first d characters. */
module MainSimpleSort {
  import opened Words
  import opened Permutations
  import opened Rotations
  import opened Rearrange
  import opened FallbackQSort
  import opened MainCompare

  /** The rotations listed in [lo..hi] begin with the same d characters. */
  ghost predicate Agree(b: seq<byte>, f: seq<nat>, lo: int, hi: int, d: nat)
    requires |b| > 0
  {
    0 <= lo <= hi + 1 <= |f| && forall x, y :: lo <= x <= hi && lo <= y <= hi ==> Cmp(b, f[x], f[y], d) == 0
  }

  lemma AgreeKept(b: seq<byte>, f: seq<nat>, g: seq<nat>, lo: int, hi: int, d: nat)
    requires |b| > 0 && Agree(b, f, lo, hi, d) && Rearranged(f, g, lo, hi)
    ensures Agree(b, g, lo, hi, d)
  {
    forall x, y | lo <= x <= hi && lo <= y <= hi ensures Cmp(b, g[x], g[y], d) == 0 {
      var x' := RangeSource(f, g, lo, hi, x);
      var y' := RangeSource(f, g, lo, hi, y);
      assert f[x'] == g[x] && f[y'] == g[y];
    }
  }

  /** Rotations that agree in their first d characters compare as their rests do. */
  lemma DeepCompare(b: seq<byte>, p: nat, v: nat, d: nat)
    requires |b| > 0 && Cmp(b, p, v, d) == 0
    ensures Cmp(b, p, v, |b|) == Cmp(b, p + d, v + d, |b|)
  {
    CmpSplit(b, p, v, d, |b|);
    FullTurn(b, p, v, d + |b|);
  }

  // ---------- inserting upwards with a stride ----------

  /** Positions h apart in [lo..i] are in order, but for the free position `hole`; all that
      has moved up past it was not below t. */
  ghost predicate Rising(f: seq<nat>, ec: seq<nat>, lo: int, hole: int, i: int, h: int, t: nat) {
    && (forall x, y :: lo <= x && y == x + h && y <= i && x != hole && y != hole ==> Key(f, ec, x) <= Key(f, ec, y))
    && (hole + h <= i ==> t <= Key(f, ec, hole + h))
    && (lo <= hole - h && hole + h <= i ==> Key(f, ec, hole - h) <= Key(f, ec, hole + h))
  }

  lemma RiseStep(f: seq<nat>, ec: seq<nat>, lo: int, j: int, i: int, h: int, t: nat)
    requires 0 < h && 0 <= lo && lo + h <= j <= i < |f| && f[j - h] < |ec| && t <= Key(f, ec, j - h)
    requires Rising(f, ec, lo, j, i, h, t)
    ensures Rising(f[j := f[j - h]], ec, lo, j - h, i, h, t)
  {
    var g := f[j := f[j - h]];
    KeyUpdate(f, ec, j, f[j - h]);
    assert Key(g, ec, j) == Key(f, ec, j - h);
    forall x, y | lo <= x && y == x + h && y <= i && x != j - h && y != j - h ensures Key(g, ec, x) <= Key(g, ec, y) {
      assert Key(g, ec, x) == if x == j then Key(f, ec, j - h) else Key(f, ec, x);
      assert Key(g, ec, y) == Key(f, ec, y);
    }
    if lo <= j - h - h {
      assert Key(f, ec, j - h - h) <= Key(f, ec, j - h);
      assert Key(g, ec, j - h - h) == Key(f, ec, j - h - h);
    }
  }

  lemma RiseEnd(f: seq<nat>, ec: seq<nat>, lo: int, hole: int, i: int, h: int, v: nat)
    requires 0 < h && 0 <= lo <= hole <= i < |f| && v < |ec| && Rising(f, ec, lo, hole, i, h, ec[v])
    requires lo + h <= hole ==> Key(f, ec, hole - h) <= ec[v]
    ensures StrideSorted(f[hole := v], ec, lo, i, h)
  {
    KeyUpdate(f, ec, hole, v);
    var g := f[hole := v];
    forall x, y | lo <= x && y == x + h && y <= i ensures Key(g, ec, x) <= Key(g, ec, y) {
      assert Key(g, ec, x) == if x == hole then ec[v] else Key(f, ec, x);
      assert Key(g, ec, y) == if y == hole then ec[v] else Key(f, ec, y);
    }
  }

  /** Entry v has been lifted out of position i and the gap has moved down to j. */
  ghost predicate Lifting(f0: seq<nat>, f: seq<nat>, ec: seq<nat>, lo: int, hi: int, h: int, i: int, j: int, v: nat) {
    && h > 0 && lo <= j <= i <= hi && InRange(f, ec, lo, hi) && v < |ec|
    && Rising(f, ec, lo, j, i, h, ec[v]) && Rearranged(f0, f[j := v], lo, hi)
  }

  lemma Lift(f0: seq<nat>, f: seq<nat>, ec: seq<nat>, lo: int, hi: int, h: int, i: int)
    requires h > 0 && lo <= i <= hi && InRange(f, ec, lo, hi) && Rearranged(f0, f, lo, hi)
    requires StrideSorted(f, ec, lo, i - 1, h)
    ensures 0 <= i < |f| && Lifting(f0, f, ec, lo, hi, h, i, i, f[i])
  {
    assert f[i := f[i]] == f;
  }

  lemma LiftBounds(f0: seq<nat>, f: seq<nat>, ec: seq<nat>, lo: int, hi: int, h: int, i: int, j: int, v: nat)
    requires Lifting(f0, f, ec, lo, hi, h, i, j, v)
    ensures 0 <= lo <= j <= hi < |f| && v < |ec|
    ensures lo + h <= j ==> f[j - h] < |ec| && Key(f, ec, j - h) == ec[f[j - h]]
  {
  }

  lemma LiftDown(f0: seq<nat>, f: seq<nat>, ec: seq<nat>, lo: int, hi: int, h: int, i: int, j: int, v: nat)
    requires Lifting(f0, f, ec, lo, hi, h, i, j, v) && lo + h <= j && ec[v] <= Key(f, ec, j - h)
    ensures j < |f| && Lifting(f0, f[j := f[j - h]], ec, lo, hi, h, i, j - h, v)
  {
    RiseStep(f, ec, lo, j, i, h, ec[v]);
    var g := f[j := v];
    assert f[j := f[j - h]][j - h := v] == g[j := g[j - h]][j - h := g[j]];
    RearrangedSwap(g, j, j - h, lo, hi);
    RearrangedTrans(f0, g, f[j := f[j - h]][j - h := v], lo, hi);
  }

  lemma LiftEnd(f0: seq<nat>, f: seq<nat>, ec: seq<nat>, lo: int, hi: int, h: int, i: int, j: int, v: nat)
    requires Lifting(f0, f, ec, lo, hi, h, i, j, v) && (lo + h <= j ==> Key(f, ec, j - h) <= ec[v])
    ensures j < |f| && StrideSorted(f[j := v], ec, lo, i, h) && Rearranged(f0, f[j := v], lo, hi) && InRange(f[j := v], ec, lo, hi)
  {
    RiseEnd(f, ec, lo, j, i, h, v);
  }

  /** What mainGtU at depth d tells about two entries of the range. */
  lemma Decided(b: seq<byte>, f0: seq<nat>, f: seq<nat>, lo: int, hi: int, h: int, i: int, j: int, v: nat, d: nat)
    requires |b| > 0 && Lifting(f0, f, Ranks(b), lo, hi, h, i, j, v) && lo + h <= j && Agree(b, f0, lo, hi, d)
    ensures j < |f| && f[j - h] < |b| && v < |b|
    ensures Cmp(b, f[j - h] + d, v + d, |b|) >= 0 ==> Ranks(b)[v] <= Key(f, Ranks(b), j - h)
    ensures Cmp(b, f[j - h] + d, v + d, |b|) <= 0 ==> Key(f, Ranks(b), j - h) <= Ranks(b)[v]
  {
    hide Rank, Cmp, Rising;
    var g := f[j := v];
    AgreeKept(b, f0, g, lo, hi, d);
    assert g[j - h] == f[j - h] && g[j] == v;
    DeepCompare(b, f[j - h], v, d);
    RankOrder(b, f[j - h], v);
    RankOrder(b, v, f[j - h]);
    CmpSym(b, f[j - h], v, |b|);
  }

  /** One insertion. */
  method Insert(ptr: array<nat>, block: array<byte>, quadrant: array<nat>, nblock: nat, lo: int, hi: int, d: nat, h: int, i: int, budget0: int,
                ghost b: seq<byte>, ghost f0: seq<nat>)
    returns (budget: int)
    requires ptr != quadrant && nblock == |b| && nblock > 0 && Overshot(b, block[..]) && Quadrants(b, quadrant[..]) && d <= 15
    requires h > 0 && lo + h <= i <= hi && InRange(ptr[..], Ranks(b), lo, hi) && Rearranged(f0, ptr[..], lo, hi) && Agree(b, f0, lo, hi, d)
    requires StrideSorted(ptr[..], Ranks(b), lo, i - 1, h)
    modifies ptr
    ensures budget <= budget0 && InRange(ptr[..], Ranks(b), lo, hi) && Rearranged(f0, ptr[..], lo, hi)
    ensures StrideSorted(ptr[..], Ranks(b), lo, i, h)
  {
    hide *;
    ghost var f, ec := ptr[..], Ranks(b);
    budget := budget0;
    Lift(f0, f, ec, lo, hi, h, i);
    var v := ptr[i];
    var j := i;
    LiftBounds(f0, f, ec, lo, hi, h, i, j, v);
    while true
      invariant ptr[..] == f && Lifting(f0, f, ec, lo, hi, h, i, j, v) && lo + h <= j <= i && j < ptr.Length
      invariant budget <= budget0 && Overshot(b, block[..]) && Quadrants(b, quadrant[..]) && 0 <= lo
      decreases j
    {
      Decided(b, f0, f, lo, hi, h, i, j, v, d);
      assert ptr[j - h] == f[j - h];
      var gt;
      gt, budget := MainGtU(ptr[j - h] + d, v + d, block, quadrant, nblock, budget, b);
      if !gt { break; }
      LiftDown(f0, f, ec, lo, hi, h, i, j, v);
      ptr[j] := ptr[j - h];
      f := f[j := f[j - h]];
      j := j - h;
      LiftBounds(f0, f, ec, lo, hi, h, i, j, v);
      if j <= lo + h - 1 { break; }
    }
    LiftEnd(f0, f, ec, lo, hi, h, i, j, v);
    ptr[j] := v;
    assert ptr[..] == f[j := v];
  }

  const INCS := [1, 4, 13, 40, 121, 364, 1093, 3280, 9841, 29524, 88573, 265720, 797161, 2391484]

  /** One pass with stride h, in groups of three insertions between which the budget is
      looked at. */
  method Pass(ptr: array<nat>, block: array<byte>, quadrant: array<nat>, nblock: nat, lo: int, hi: int, d: nat, h: int, budget0: int,
              ghost b: seq<byte>, ghost f0: seq<nat>)
    returns (budget: int, abandoned: bool)
    requires ptr != quadrant && nblock == |b| && nblock > 0 && Overshot(b, block[..]) && Quadrants(b, quadrant[..]) && d <= 15
    requires h > 0 && InRange(ptr[..], Ranks(b), lo, hi) && Rearranged(f0, ptr[..], lo, hi) && Agree(b, f0, lo, hi, d)
    modifies ptr
    ensures budget <= budget0 && InRange(ptr[..], Ranks(b), lo, hi) && Rearranged(f0, ptr[..], lo, hi)
    ensures if abandoned then budget < 0 else StrideSorted(ptr[..], Ranks(b), lo, hi, h)
  {
    hide *;
    budget := budget0;
    var i := lo + h;
    NoStride(ptr[..], Ranks(b), lo, i - 1, h);
    while true
      invariant lo + h <= i && InRange(ptr[..], Ranks(b), lo, hi) && Rearranged(f0, ptr[..], lo, hi)
      invariant StrideSorted(ptr[..], Ranks(b), lo, i - 1, h) && budget <= budget0
      invariant Overshot(b, block[..]) && Quadrants(b, quadrant[..])
      decreases hi + 1 - i
    {
      var copy := 0;
      ghost var first := i;
      while copy < 3 && i <= hi
        invariant 0 <= copy <= 3 && lo + h <= i && InRange(ptr[..], Ranks(b), lo, hi) && Rearranged(f0, ptr[..], lo, hi)
        invariant StrideSorted(ptr[..], Ranks(b), lo, i - 1, h) && budget <= budget0
        invariant Overshot(b, block[..]) && Quadrants(b, quadrant[..])
        invariant i == first + copy && (copy > 0 ==> i <= hi + 1)
        decreases 3 - copy
      {
        budget := Insert(ptr, block, quadrant, nblock, lo, hi, d, h, i, budget, b, f0);
        i, copy := i + 1, copy + 1;
      }
      if copy < 3 { break; }
      if budget < 0 { return budget, true; }
    }
    FullStride(ptr[..], Ranks(b), lo, hi, i - 1, h);
    abandoned := false;
  }

  lemma NoPairs(f: seq<nat>, ec: seq<nat>, lo: int, hi: int)
    requires hi - lo + 1 < 2
    ensures SortedKeys(f, ec, lo, hi)
  {
  }

  lemma StrideOne(f: seq<nat>, ec: seq<nat>, lo: int, hi: int)
    requires StrideSorted(f, ec, lo, hi, 1)
    ensures SortedKeys(f, ec, lo, hi)
  {
    forall x, y | lo <= x < y <= hi ensures Key(f, ec, x) <= Key(f, ec, y) {
      StrideOneSorted(f, ec, lo, hi, x, y);
    }
  }

  lemma SameRange(f: seq<nat>, lo: int, hi: int)
    ensures Rearranged(f, f, lo, hi)
  {
  }

  /** The largest increment below bigN. The table reaches far enough for every block. */
  method FirstIncrement(bigN: int) returns (hp: nat)
    requires 2 <= bigN <= 2391484
    ensures hp < |INCS| && INCS[hp] < bigN && (hp + 1 < |INCS| ==> INCS[hp + 1] >= bigN)
  {
    hp := 0;
    while INCS[hp] < bigN
      invariant hp < |INCS| && forall k :: 0 <= k < hp ==> INCS[k] < bigN
      decreases |INCS| - hp
    {
      hp := hp + 1;
    }
    hp := hp - 1;
  }

  /** `mainSimpleSort`. Unless the budget is used up, the range is sorted; in any case it
      still holds the same entries. */
  method SimpleSort(ptr: array<nat>, block: array<byte>, quadrant: array<nat>, nblock: nat, lo: int, hi: int, d: nat, budget0: int, ghost b: seq<byte>)
    returns (budget: int)
    requires ptr != quadrant && nblock == |b| && nblock > 0 && Overshot(b, block[..]) && Quadrants(b, quadrant[..]) && d <= 15
    requires InRange(ptr[..], Ranks(b), lo, hi) && Agree(b, ptr[..], lo, hi, d) && hi - lo + 1 <= 900000
    modifies ptr
    ensures budget <= budget0 && Rearranged(old(ptr[..]), ptr[..], lo, hi)
    ensures budget >= 0 ==> SortedKeys(ptr[..], Ranks(b), lo, hi)
  {
    hide *;
    budget := budget0;
    ghost var f0 := ptr[..];
    var bigN := hi - lo + 1;
    SameRange(f0, lo, hi);
    if bigN < 2 {
      NoPairs(f0, Ranks(b), lo, hi);
      return;
    }
    var first := FirstIncrement(bigN);
    var hp: int := first;
    while hp >= 0
      invariant -1 <= hp < |INCS| && budget <= budget0
      invariant InRange(ptr[..], Ranks(b), lo, hi) && Rearranged(f0, ptr[..], lo, hi) && Agree(b, f0, lo, hi, d)
      invariant Overshot(b, block[..]) && Quadrants(b, quadrant[..])
      invariant hp < first ==> StrideSorted(ptr[..], Ranks(b), lo, hi, INCS[hp + 1])
      decreases hp
    {
      Increment(hp);
      var abandoned;
      budget, abandoned := Pass(ptr, block, quadrant, nblock, lo, hi, d, INCS[hp], budget, b, f0);
      if abandoned { return; }
      hp := hp - 1;
    }
    Increment(0);
    StrideOne(ptr[..], Ranks(b), lo, hi);
  }

  lemma Increment(hp: nat)
    requires hp < |INCS|
    ensures INCS[hp] > 0 && INCS[0] == 1
  {
  }

  lemma NoStride(f: seq<nat>, ec: seq<nat>, lo: int, i: int, h: int)
    requires i < lo + h
    ensures StrideSorted(f, ec, lo, i, h)
  {
  }

  lemma FullStride(f: seq<nat>, ec: seq<nat>, lo: int, hi: int, i: int, h: int)
    requires StrideSorted(f, ec, lo, i, h) && hi <= i
    ensures StrideSorted(f, ec, lo, hi, h)
  {
  }
}
