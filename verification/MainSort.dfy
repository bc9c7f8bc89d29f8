/** mainSort (blocksort.c): the radix sort, the big buckets one after the other from the
    smallest to the largest, and the quadrants that remember the order of those done. */
module MainSort {
  import opened Words
  import opened Permutations
  import opened Rotations
  import opened FallbackQSort
  import opened MainCompare
  import opened Buckets
  import opened BucketScan
  import opened Marks
  import opened BigBuckets
  import X = ExclusiveOr

  // ---------- step 3 ----------

  lemma {:induction false} ShrMonotone(x: nat, y: nat, s: nat)
    requires x <= y
    ensures Shr(x, s) <= Shr(y, s)
    decreases s
  {
    hide Shr;
    X.ShrStep(x, 0);
    X.ShrStep(y, 0);
    if s > 0 {
      X.ShrStep(x, s - 1);
      X.ShrStep(y, s - 1);
      ShrMonotone(x / 2, y / 2, s - 1);
    }
  }

  lemma {:induction false} ShrHalf(x: nat, s: nat)
    ensures Shr(x, s + 1) <= Shr(x, s) / 2
    decreases s
  {
    hide Shr;
    X.ShrStep(x, s);
    X.ShrStep(x / 2, 0);
    X.ShrStep(x, 0);
    if s > 0 {
      ShrHalf(x / 2, s - 1);
      X.ShrStep(x, s - 1);
    }
  }

  /** How far sizes are shifted to fit sixteen bits. */
  method Shifts(bbSize: nat) returns (shifts: nat)
    ensures Shr(bbSize, shifts) <= 65534
  {
    hide Shr;
    shifts := 0;
    while Shr(bbSize, shifts) > 65534
      decreases Shr(bbSize, shifts)
    {
      ShrHalf(bbSize, shifts);
      shifts := shifts + 1;
    }
  }

  /** Entries j and beyond of big bucket c, which begins at slot a, have new quadrants. */
  ghost predicate Updated(b: seq<byte>, f: seq<nat>, q0: seq<nat>, q: seq<nat>, c: byte, a: nat, j: nat, size: nat, shifts: nat)
    requires |b| > 0
  {
    && |q| == |q0| >= |b| + BZ_N_OVERSHOOT && |b| > BZ_N_OVERSHOOT && j <= size && a + size <= |f| == |b|
    && (forall x :: 0 <= x < |f| ==> f[x] < |b|)
    && (forall x :: j <= x < size ==> q[f[a + x]] == Shr(x, shifts))
    && (forall i :: 0 <= i < |b| && b[i] != c ==> q[i] == q0[i])
    && (forall i :: 0 <= i < BZ_N_OVERSHOOT ==> q[|b| + i] == q[i])
  }

  lemma UpdateStart(b: seq<byte>, f: seq<nat>, q: seq<nat>, c: byte, a: nat, size: nat, shifts: nat)
    requires |b| > 0 && Quadrants(b, q) && IsPerm(f, |b|) && a + size <= |b|
    ensures Updated(b, f, q, q, c, a, size, size, shifts)
  {
    hide Cmp, Shr;
  }

  lemma UpdateNext(b: seq<byte>, f: seq<nat>, q0: seq<nat>, q: seq<nat>, c: byte, a: nat, j: nat, size: nat, shifts: nat)
    requires |b| > 0 && Updated(b, f, q0, q, c, a, j + 1, size, shifts) && IsPerm(f, |b|) && b[f[a + j]] == c
    ensures f[a + j] < |b| && |q| >= |b| + BZ_N_OVERSHOOT
    ensures var i, v := f[a + j], Shr(j, shifts);
            var r := q[i := v];
            Updated(b, f, q0, if i < BZ_N_OVERSHOOT then r[i + |b| := v] else r, c, a, j, size, shifts)
  {
    hide Shr;
  }

  /** The big bucket that f lists in order from slot a on. */
  ghost predicate BigOrder(b: seq<byte>, f: seq<nat>, c: byte, a: nat, size: nat)
    requires |b| > 0
  {
    && IsPerm(f, |b|) && a + size <= |b| && (forall x :: a <= x < a + size ==> b[f[x]] == c)
    && (forall i :: 0 <= i < |b| && b[i] == c ==> i in f[a..a + size])
    && forall x, y :: a <= x < y < a + size ==> Cmp(b, f[x], f[y], |b|) <= 0
  }

  /** With all of it updated, the quadrants keep their promise. */
  lemma UpdatedAll(b: seq<byte>, f: seq<nat>, q0: seq<nat>, q: seq<nat>, c: byte, a: nat, size: nat, shifts: nat)
    requires |b| > 0 && Quadrants(b, q0) && Updated(b, f, q0, q, c, a, 0, size, shifts) && BigOrder(b, f, c, a, size)
    ensures Quadrants(b, q)
  {
    hide Cmp, Shr, Injective;
    forall i, j | 0 <= i < |b| && 0 <= j < |b| && b[i] == b[j] && q[i] < q[j] ensures Cmp(b, i, j, |b|) <= 0 {
      if b[i] == c {
        var x :| 0 <= x < size && f[a..a + size][x] == i;
        var y :| 0 <= y < size && f[a..a + size][y] == j;
        assert f[a + x] == i && f[a + y] == j;
        assert q[f[a + x]] == Shr(x, shifts) && q[f[a + y]] == Shr(y, shifts);
        if y <= x { ShrMonotone(y, x, shifts); }
      }
    }
  }

  /** A big bucket whose small buckets are all marked is in order. */
  lemma BigInOrder(b: seq<byte>, f: seq<nat>, t: seq<nat>, fl: seq<bool>, bigDone: seq<bool>, c: byte)
    requires |b| >= 2 && Sound(b, f, t, fl) && MarksDone(fl, bigDone) && bigDone[c]
    ensures Start(b, Small(c, 0)) <= Start(b, Small(c, 0) + 256) <= |b|
    ensures BigOrder(b, f, c, Start(b, Small(c, 0)), Start(b, Small(c, 0) + 256) - Start(b, Small(c, 0)))
  {
    hide Cmp, Code, InOrder, Start, Marked, Injective;
    SoundParts(b, f, t, fl);
    var lo, hi := Small(c, 0), Small(c, 0) + 256;
    StartRange(b, lo, hi);
    StartRange(b, hi, 65536);
    forall d | lo <= d < hi ensures InOrder(b, f, d) { assert d / 256 == c && fl[d]; }
    forall x | Start(b, lo) <= x < Start(b, hi) ensures b[f[x]] == c {
      CodeRange(b, f, x, lo, hi);
      FirstChar(b, f[x], c);
    }
    forall i | 0 <= i < |b| && b[i] == c ensures i in f[Start(b, lo)..Start(b, hi)] {
      CodeOf(b, i);
      InItsBucket(b, f, Code(b, i), i);
      InPart(b, f, Code(b, i), lo, hi, i);
    }
    forall x, y | Start(b, lo) <= x < y < Start(b, hi) ensures Cmp(b, f[x], f[y], |b|) <= 0 {
      PairOrder(b, f, lo, hi, x, y);
    }
  }

  /** Step 3: the quadrants of big bucket ss. Assertion 1002 holds. */
  method UpdateQuadrants(ptr: array<nat>, quadrant: array<nat>, ftab: array<nat>, nblock: nat, ss: byte,
                         ghost b: seq<byte>, ghost fl: seq<bool>, ghost bigDone: seq<bool>)
    requires ptr != quadrant && ftab != quadrant && nblock == |b| && BZ_N_OVERSHOOT < nblock
    requires Sound(b, ptr[..], ftab[..], fl) && MarksDone(fl, bigDone) && bigDone[ss] && Quadrants(b, quadrant[..])
    modifies quadrant
    ensures Quadrants(b, quadrant[..])
  {
    hide *;
    Sizes();
    SmallIs(ss, 0);
    SoundParts(b, ptr[..], ftab[..], fl);
    EntryParts(b, ftab[..], fl, ss as int * 256);
    EntryParts(b, ftab[..], fl, ss as int * 256 + 256);
    BigInOrder(b, ptr[..], ftab[..], fl, bigDone, ss);
    ghost var f, q0 := ptr[..], quadrant[..];
    ghost var q := q0;
    var bbStart := And(ftab[ss as int * 256], CLEARMASK);
    var bbSize: int := And(ftab[(ss as int + 1) * 256], CLEARMASK) as int - bbStart;
    var shifts := Shifts(bbSize);
    UpdateStart(b, f, q, ss, bbStart, bbSize, shifts);
    var j := bbSize - 1;
    while j >= 0
      invariant -1 <= j < bbSize && ptr[..] == f && quadrant[..] == q && Updated(b, f, q0, q, ss, bbStart, j + 1, bbSize, shifts)
    {
      BigEntry(b, f, ss, bbStart, bbSize, j);
      UpdateNext(b, f, q0, q, ss, bbStart, j, bbSize, shifts);
      assert ptr[bbStart + j] == f[bbStart + j];
      var a2update := ptr[bbStart + j];
      var qVal := Shr(j, shifts);
      ShrMonotone(j, bbSize, shifts);
      assert qVal <= 65535;  // AssertH 1002: the value fits the sixteen bits of a quadrant
      q := q[a2update := qVal];
      quadrant[a2update] := qVal;
      if a2update < BZ_N_OVERSHOOT {
        q := q[a2update + nblock := qVal];
        quadrant[a2update + nblock] := qVal;
      }
      j := j - 1;
    }
    assert j + 1 == 0;
    UpdatedAll(b, f, q0, q, ss, bbStart, bbSize, shifts);
  }

  lemma BigEntry(b: seq<byte>, f: seq<nat>, c: byte, a: nat, size: nat, j: nat)
    requires |b| > 0 && BigOrder(b, f, c, a, size) && j < size
    ensures a + j < |f| == |b| && f[a + j] < |b| && b[f[a + j]] == c && IsPerm(f, |b|)
  {
  }

  // ---------- setting up ----------

  /** The first i characters have been repeated beyond the end. */
  ghost predicate Repeated(b: seq<byte>, blk: seq<byte>, q: seq<nat>, i: nat) {
    && |b| > BZ_N_OVERSHOOT && |blk| >= |b| + BZ_N_OVERSHOOT && |q| >= |b| + BZ_N_OVERSHOOT && i <= BZ_N_OVERSHOOT
    && blk[..|b|] == b && (forall k :: 0 <= k < i ==> blk[|b| + k] == b[k])
    && forall k :: 0 <= k < |b| + i ==> q[k] == 0
  }

  lemma RepeatStart(b: seq<byte>, blk: seq<byte>, q: seq<nat>)
    requires |b| > BZ_N_OVERSHOOT && |blk| >= |b| + BZ_N_OVERSHOOT && |q| >= |b| + BZ_N_OVERSHOOT && blk[..|b|] == b && Cleared(q, 0, |b|)
    ensures Repeated(b, blk, q, 0)
  {
  }

  lemma RepeatNext(b: seq<byte>, blk: seq<byte>, q: seq<nat>, i: nat)
    requires Repeated(b, blk, q, i) && i < BZ_N_OVERSHOOT
    ensures |b| > i && |blk| > |b| + i && |q| > |b| + i && blk[i] == b[i] && Repeated(b, blk[|b| + i := blk[i]], q[|b| + i := 0], i + 1)
  {
    assert blk[i] == blk[..|b|][i];
    assert blk[|b| + i := blk[i]][..|b|] == blk[..|b|];
  }

  lemma RepeatEnd(b: seq<byte>, blk: seq<byte>, q: seq<nat>)
    requires Repeated(b, blk, q, BZ_N_OVERSHOOT)
    ensures Overshot(b, blk) && Quadrants(b, q) && blk[..|b|] == b
  {
    forall i | 0 <= i < |b| + BZ_N_OVERSHOOT ensures blk[i] == At(b, i) {
      if i < |b| {
        DivModUnique(i, |b|, 0, i);
        assert blk[i] == blk[..|b|][i];
      } else {
        DivModUnique(i, |b|, 1, i - |b|);
        assert blk[|b| + (i - |b|)] == b[i - |b|];
      }
    }
  }

  /** The characters at the end, which comparisons may read. */
  method Overshoot(block: array<byte>, quadrant: array<nat>, nblock: nat, ghost b: seq<byte>)
    requires block as object != quadrant && nblock == |b| && Repeated(b, block[..], quadrant[..], 0)
    modifies block, quadrant
    ensures Overshot(b, block[..]) && Quadrants(b, quadrant[..]) && block[..nblock] == b
  {
    hide *;
    Sizes();
    for i := 0 to BZ_N_OVERSHOOT
      invariant Repeated(b, block[..], quadrant[..], i)
    {
      ghost var blk, q := block[..], quadrant[..];
      RepeatNext(b, blk, q, i);
      block[nblock + i] := block[i];
      quadrant[nblock + i] := 0;
      assert block[..] == blk[|b| + i := blk[i]] && quadrant[..] == q[|b| + i := 0];
    }
    RepeatEnd(b, block[..], quadrant[..]);
    assert block[..nblock] == block[..][..nblock];
  }

  /** The radix sort. */
  method RadixSort(ptr: array<nat>, block: array<byte>, quadrant: array<nat>, ftab: array<nat>, nblock: nat, ghost b: seq<byte>)
    requires ptr != quadrant && ptr != ftab && ftab != quadrant && block as object != quadrant && block as object != ptr && block as object != ftab
    requires nblock == |b| && BZ_N_OVERSHOOT < nblock == ptr.Length && block.Length >= nblock + BZ_N_OVERSHOOT && quadrant.Length >= nblock + BZ_N_OVERSHOOT
    requires ftab.Length == 65537 && block[..nblock] == b
    modifies ptr, block, quadrant, ftab
    ensures Overshot(b, block[..]) && Quadrants(b, quadrant[..]) && Distributed(b, ftab[..], ptr[..]) && block[..nblock] == b
  {
    hide *;
    Sizes();
    CountPairs(block, quadrant, ftab, nblock, b);
    assert block[..][..nblock] == block[..nblock];
    RepeatStart(b, block[..], quadrant[..]);
    ghost var t := ftab[..];
    Overshoot(block, quadrant, nblock, b);
    assert ftab[..] == t;
    ghost var blk, q := block[..], quadrant[..];
    Accumulate(ftab, b);
    Distribute(ptr, block, ftab, nblock, b);
    assert block[..] == blk && quadrant[..] == q;
  }

  // ---------- the whole sort ----------

  /** Big buckets are done in the running order. */
  ghost predicate Progress(ro: seq<nat>, bigDone: seq<bool>, i: nat) {
    IsPerm(ro, 256) && |bigDone| == 256 && i <= 256 && forall k :: 0 <= k < 256 ==> (bigDone[ro[k]] <==> k < i)
  }

  lemma ProgressNext(ro: seq<nat>, bigDone: seq<bool>, i: nat)
    requires Progress(ro, bigDone, i) && i < 256
    ensures |ro| == 256 && ro[i] < 256 && !bigDone[ro[i]] && Progress(ro, bigDone[ro[i] := true], i + 1)
  {
    forall k | 0 <= k < 256 && k != i ensures ro[k] != ro[i] { if k < i { assert ro[k] != ro[i]; } else { assert ro[i] != ro[k]; } }
  }

  lemma ProgressStart(ro: seq<nat>, bigDone: seq<bool>)
    requires IsPerm(ro, 256) && |bigDone| == 256 && forall c :: 0 <= c < 256 ==> !bigDone[c]
    ensures Progress(ro, bigDone, 0)
  {
  }

  lemma StartSound(b: seq<byte>, f: seq<nat>, t: seq<nat>, fl: seq<bool>)
    requires |b| > 0 && Distributed(b, t, f) && |fl| == 65537 && |b| < SETMASK && forall d :: 0 <= d < |fl| ==> !fl[d]
    ensures Sound(b, f, t, fl)
  {
    hide Start, InOrder, Code;
    NoMarks(b, t, fl);
  }

  lemma DistributedTable(b: seq<byte>, t: seq<nat>, f: seq<nat>)
    requires |b| > 0 && Distributed(b, t, f)
    ensures |t| == 65537 && forall c :: 0 <= c <= 65536 ==> t[c] == Start(b, c)
  {
  }

  /** When every big bucket is done, all rotations are in order. */
  lemma AllSorted(b: seq<byte>, f: seq<nat>, t: seq<nat>, fl: seq<bool>, ro: seq<nat>, bigDone: seq<bool>)
    requires |b| >= 2 && Sound(b, f, t, fl) && MarksDone(fl, bigDone) && Progress(ro, bigDone, 256)
    ensures SortsRotations(b, f)
  {
    hide Cmp, Code, InOrder, Start, Marked, Injective;
    SoundParts(b, f, t, fl);
    AllDone(ro, bigDone);
    forall d | 0 <= d < 65536 ensures InOrder(b, f, d) { assert fl[d]; }
    RangeSorted(b, f, 0, 65536);
    StartRange(b, 0, 65536);
    assert f[0..|b|] == f;
  }

  lemma AllDone(ro: seq<nat>, bigDone: seq<bool>)
    requires Progress(ro, bigDone, 256)
    ensures |bigDone| == 256 && forall c :: 0 <= c < 256 ==> bigDone[c]
  {
    Surjective(ro, 256);
    forall c: nat | c < 256 ensures bigDone[c] {
      assert c in ro;
    }
  }

  /** One big bucket: steps 1 and 2. Assertion 1006 holds. */
  method DoBigBucket(ptr: array<nat>, block: array<byte>, quadrant: array<nat>, ftab: array<nat>, bigDone: array<bool>, nblock: nat, ss: byte, budget0: int,
                     ghost b: seq<byte>, ghost fl0: seq<bool>)
    returns (budget: int, ghost fl: seq<bool>)
    requires ptr != quadrant && ptr != ftab && ftab != quadrant && nblock == |b| && BZ_N_OVERSHOOT < nblock <= 900000 && budget0 >= 0
    requires nblock <= block.Length && block[..nblock] == b && bigDone.Length == 256 && !bigDone[ss]
    requires Overshot(b, block[..]) && Quadrants(b, quadrant[..]) && Sound(b, ptr[..], ftab[..], fl0) && MarksDone(fl0, bigDone[..])
    modifies ptr, ftab, bigDone
    ensures budget <= budget0
    ensures budget >= 0 ==> Sound(b, ptr[..], ftab[..], fl) && bigDone[..] == old(bigDone[..])[ss := true] && MarksDone(fl, bigDone[..])
  {
    hide *;
    ghost var done := bigDone[..];
    ghost var fl1;
    budget, fl1 := SortSmallBuckets(ptr, block, quadrant, ftab, nblock, ss, budget0, b, fl0);
    fl := fl1;
    if budget < 0 { return; }
    assert bigDone[..] == done && !bigDone[ss];  // AssertH 1006
    fl := ScanBig(ptr, block, ftab, bigDone, nblock, ss, b, fl0, fl1);
    ghost var f, t := ptr[..], ftab[..];
    assert bigDone[..] == done;
    bigDone[ss] := true;
    assert bigDone[..] == done[ss := true] && ptr[..] == f && ftab[..] == t;
  }

  /** `mainSort`. Unless the budget is used up, `ptr` lists all rotations of the block in
      order. */
  method Sort(ptr: array<nat>, block: array<byte>, quadrant: array<nat>, ftab: array<nat>, nblock: nat, budget0: int, ghost b: seq<byte>)
    returns (budget: int)
    requires ptr != quadrant && ptr != ftab && ftab != quadrant && block as object != quadrant && block as object != ptr && block as object != ftab
    requires nblock == |b| && BZ_N_OVERSHOOT < nblock == ptr.Length <= 900000 && block.Length >= nblock + BZ_N_OVERSHOOT
    requires quadrant.Length >= nblock + BZ_N_OVERSHOOT && ftab.Length == 65537 && block[..nblock] == b && budget0 >= 0
    modifies ptr, block, quadrant, ftab
    ensures budget <= budget0 && block[..nblock] == b
    ensures budget >= 0 ==> SortsRotations(b, ptr[..])
  {
    hide *;
    Sizes();
    budget := budget0;
    RadixSort(ptr, block, quadrant, ftab, nblock, b);
    DistributedTable(b, ftab[..], ptr[..]);
    var runningOrder := RunningOrder(ftab, b);
    var bigDone := new bool[256](_ => false);
    ghost var ro, fl := runningOrder[..], seq<bool>(65537, _ => false);
    StartSound(b, ptr[..], ftab[..], fl);
    ProgressStart(ro, bigDone[..]);
    MarksStart(fl, bigDone[..]);
    for i := 0 to 256
      invariant Overshot(b, block[..]) && Quadrants(b, quadrant[..]) && block[..nblock] == b && runningOrder[..] == ro && 0 <= budget <= budget0
      invariant Sound(b, ptr[..], ftab[..], fl) && MarksDone(fl, bigDone[..]) && Progress(ro, bigDone[..], i)
    {
      ProgressNext(ro, bigDone[..], i);
      assert runningOrder[i] == ro[i];
      var ss: byte := runningOrder[i];
      budget, fl := DoBigBucket(ptr, block, quadrant, ftab, bigDone, nblock, ss, budget, b, fl);
      if budget < 0 { return; }
      if i < 255 {
        ghost var f, t, done := ptr[..], ftab[..], bigDone[..];
        UpdateQuadrants(ptr, quadrant, ftab, nblock, ss, b, fl, done);
        assert ptr[..] == f && ftab[..] == t && bigDone[..] == done;
      }
    }
    AllSorted(b, ptr[..], ftab[..], fl, ro, bigDone[..]);
  }
}
