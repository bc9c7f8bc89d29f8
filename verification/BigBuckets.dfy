/** The big buckets of mainSort (blocksort.c): the order they are worked on in, and the three
    steps that complete one of them. */
module BigBuckets {
  import opened Words
  import opened Permutations
  import opened Rotations
  import opened Rearrange
  import opened RangeStack
  import opened FallbackQSort
  import opened MainCompare
  import opened MainSimpleSort
  import opened MainQSort
  import opened Buckets
  import opened BucketScan
  import opened ScanLoops
  import opened Marks

  // ---------- the running order ----------

  /** The size of each big bucket. */
  ghost function BigFreqs(b: seq<byte>): (s: seq<nat>)
    requires |b| > 0
    ensures |s| == 256 && forall c :: 0 <= c < 256 ==> s[c] == BigFreq(b, c)
  {
    seq<nat>(256, c requires 0 <= c < 256 => BigFreq(b, c))
  }

  ghost function BigFreq(b: seq<byte>, c: nat): nat
    requires |b| > 0 && c < 256
  {
    StartRange(b, Small(c, 0), Small(c, 0) + 256);
    Start(b, Small(c, 0) + 256) - Start(b, Small(c, 0))
  }

  /** The `BIGFREQ` macro. */
  method BigFreqOf(ftab: array<nat>, c: nat, ghost b: seq<byte>) returns (n: int)
    requires |b| > 0 && c < 256 && ftab.Length == 65537 && forall d :: 0 <= d <= 65536 ==> ftab[d] == Start(b, d)
    ensures n == BigFreqs(b)[c]
  {
    hide Start;
    var above: int, below: int := ftab[(c + 1) * 256], ftab[c * 256];
    n := above - below;
    assert Small(c, 0) == c * 256;
  }

  /** One insertion of the shell sort. */
  method InsertBig(ro: array<nat>, ftab: array<nat>, h: int, i: int, ghost b: seq<byte>, ghost f0: seq<nat>)
    requires ro != ftab && |b| > 0 && ro.Length == 256 && ftab.Length == 65537 && forall d :: 0 <= d <= 65536 ==> ftab[d] == Start(b, d)
    requires 0 < h <= i <= 255 && InRange(ro[..], BigFreqs(b), 0, 255) && Rearranged(f0, ro[..], 0, 255)
    requires StrideSorted(ro[..], BigFreqs(b), 0, i - 1, h)
    modifies ro
    ensures InRange(ro[..], BigFreqs(b), 0, 255) && Rearranged(f0, ro[..], 0, 255) && StrideSorted(ro[..], BigFreqs(b), 0, i, h)
  {
    hide *;
    ghost var f, ec, t := ro[..], BigFreqs(b), ftab[..];
    Lift(f0, f, ec, 0, 255, h, i);
    var vv := ro[i];
    var j := i;
    LiftBounds(f0, f, ec, 0, 255, h, i, j, vv);
    var fv := BigFreqOf(ftab, vv, b);
    while true
      invariant ro[..] == f && Lifting(f0, f, ec, 0, 255, h, i, j, vv) && h <= j <= i && j < ro.Length && ftab[..] == t
      decreases j
    {
      LiftBounds(f0, f, ec, 0, 255, h, i, j, vv);
      assert ro[j - h] == f[j - h];
      assert forall d :: 0 <= d <= 65536 ==> ftab[d] == Start(b, d) by { assert forall d :: 0 <= d <= 65536 ==> ftab[d] == t[d]; }
      var fj := BigFreqOf(ftab, ro[j - h], b);
      if fj <= fv { break; }
      LiftDown(f0, f, ec, 0, 255, h, i, j, vv);
      ro[j] := ro[j - h];
      f := f[j := f[j - h]];
      j := j - h;
      if j <= h - 1 { break; }
    }
    LiftBounds(f0, f, ec, 0, 255, h, i, j, vv);
    LiftEnd(f0, f, ec, 0, 255, h, i, j, vv);
    ro[j] := vv;
    assert ro[..] == f[j := vv];
  }

  /** From the smallest to the largest big bucket, by a shell sort. */
  method RunningOrder(ftab: array<nat>, ghost b: seq<byte>) returns (ro: array<nat>)
    requires |b| > 0 && ftab.Length == 65537 && forall d :: 0 <= d <= 65536 ==> ftab[d] == Start(b, d)
    ensures fresh(ro) && IsPerm(ro[..], 256) && SortedKeys(ro[..], BigFreqs(b), 0, 255)
  {
    hide Start, StrideSorted, Rearranged, Key, SortedKeys, BigFreq, InRange, Injective, BigFreqs;
    ro := new nat[256](i => i);
    ghost var f0 := ro[..];
    IdentityOrder(b, f0);
    SameRange(f0, 0, 255);
    var h: int := 1;
    h := 3 * h + 1;
    while h <= 256
      invariant h in [4, 13, 40, 121, 364]
      decreases 256 - h
    {
      h := 3 * h + 1;
    }
    assert h == 364;
    while true
      invariant h in [364, 121, 40, 13, 4]
      invariant InRange(ro[..], BigFreqs(b), 0, 255) && Rearranged(f0, ro[..], 0, 255)
      decreases h
    {
      h := h / 3;
      NoStride(ro[..], BigFreqs(b), 0, h - 1, h);
      for i := h to 256
        invariant InRange(ro[..], BigFreqs(b), 0, 255) && Rearranged(f0, ro[..], 0, 255) && StrideSorted(ro[..], BigFreqs(b), 0, i - 1, h)
      {
        InsertBig(ro, ftab, h, i, b, f0);
      }
      if h == 1 { break; }
    }
    StrideOne(ro[..], BigFreqs(b), 0, 255);
    RearrangedPerm(f0, ro[..], 0, 255, 256);
  }

  lemma IdentityOrder(b: seq<byte>, f: seq<nat>)
    requires |b| > 0 && |f| == 256 && forall i :: 0 <= i < |f| ==> f[i] == i
    ensures IsPerm(f, 256) && InRange(f, BigFreqs(b), 0, 255)
  {
  }

  // ---------- step 1 ----------

  /** The order and the table while big buckets are worked on: every small bucket is in its
      place, and those that are marked are in order. */
  ghost predicate Sound(b: seq<byte>, f: seq<nat>, t: seq<nat>, fl: seq<bool>)
    requires |b| > 0
  {
    && Marked(b, t, fl) && InBuckets(b, f) && IsPerm(f, |b|)
    && forall d :: 0 <= d < 65536 && fl[d] ==> InOrder(b, f, d)
  }

  lemma SoundParts(b: seq<byte>, f: seq<nat>, t: seq<nat>, fl: seq<bool>)
    requires |b| > 0 && Sound(b, f, t, fl)
    ensures Marked(b, t, fl) && InBuckets(b, f) && IsPerm(f, |b|) && |f| == |b| && |t| == |fl| == 65537
    ensures forall d :: 0 <= d < 65536 && fl[d] ==> InOrder(b, f, d)
  {
  }

  /** One more small bucket is in order, and marked. */
  lemma SoundMark(b: seq<byte>, f: seq<nat>, g: seq<nat>, t: seq<nat>, fl: seq<bool>, d: nat)
    requires |b| > 0 && Sound(b, f, t, fl) && d < 65536 && InBuckets(b, g) && IsPerm(g, |b|) && InOrder(b, g, d)
    requires forall e :: 0 <= e < 65536 && e != d && InOrder(b, f, e) ==> InOrder(b, g, e)
    ensures |t| == |fl| == 65537 && Sound(b, g, t[d := Or(t[d], SETMASK)], fl[d := true])
  {
    hide Marked, InOrder, InBuckets, IsPerm;
    SoundParts(b, f, t, fl);
    MarkEntry(b, t, fl, d);
  }

  /** A small bucket as a range to sort: its rotations agree in two characters. */
  lemma BucketAgrees(b: seq<byte>, f: seq<nat>, d: nat)
    requires |b| > 0 && InBuckets(b, f) && d < 65536
    ensures Start(b, d) <= Start(b, d + 1) <= |b|
    ensures InRange(f, Ranks(b), Start(b, d), Start(b, d + 1) - 1) && Agree(b, f, Start(b, d), Start(b, d + 1) - 1, 2)
  {
    hide Start, Rank, Cmp, Code;
    StartRange(b, d, d + 1);
    StartRange(b, d + 1, 65536);
    var lo, hi := Start(b, d), Start(b, d + 1) - 1;
    forall x, y | lo <= x <= hi && lo <= y <= hi ensures Cmp(b, f[x], f[y], 2) == 0 {
      SameCode(b, f[x], f[y]);
    }
  }

  lemma SameCode(b: seq<byte>, p: nat, q: nat)
    requires |b| > 0 && Code(b, p) == Code(b, q)
    ensures Cmp(b, p, q, 2) == 0
  {
    assert Cmp(b, p, q, 2) == Cmp(b, p + 1, q + 1, 1);
  }

  /** Sorting the range of a small bucket leaves everything in place. */
  lemma SortedSmall(b: seq<byte>, f: seq<nat>, g: seq<nat>, d: nat)
    requires |b| > 0 && InBuckets(b, f) && IsPerm(f, |b|) && d < 65536
    requires Rearranged(f, g, Start(b, d), Start(b, d + 1) - 1) && SortedKeys(g, Ranks(b), Start(b, d), Start(b, d + 1) - 1)
    ensures InBuckets(b, g) && IsPerm(g, |b|) && InOrder(b, g, d)
    ensures forall e :: 0 <= e < 65536 && e != d && InOrder(b, f, e) ==> InOrder(b, g, e)
  {
    hide Start, Rank, Cmp, Code, SortedKeys, Key, Rearranged, Injective;
    var lo, hi := Start(b, d), Start(b, d + 1) - 1;
    BucketAgrees(b, f, d);
    RearrangedPerm(f, g, lo, hi, |b|);
    SortedBuckets(b, f, g, d);
    SortedRange(b, g, lo, hi);
    forall e | 0 <= e < 65536 && e != d && InOrder(b, f, e) ensures InOrder(b, g, e) { OtherKept(b, f, g, d, e); }
  }

  lemma SortedBuckets(b: seq<byte>, f: seq<nat>, g: seq<nat>, d: nat)
    requires |b| > 0 && InBuckets(b, f) && d < 65536 && |g| == |b| && (forall x :: 0 <= x < |g| ==> g[x] < |b|)
    requires Rearranged(f, g, Start(b, d), Start(b, d + 1) - 1)
    ensures InBuckets(b, g)
  {
    hide Start, Code;
    StartRange(b, d + 1, 65536);
    var lo, hi := Start(b, d), Start(b, d + 1) - 1;
    forall e, x | 0 <= e < 65536 && Start(b, e) <= x < Start(b, e + 1) && x < |g| ensures Code(b, g[x]) == e {
      if e == d {
        var y := RangeSource(f, g, lo, hi, x);
        assert f[y] == g[x];
      } else {
        OtherSlots(b, e, d, x);
      }
    }
  }

  lemma SortedRange(b: seq<byte>, g: seq<nat>, lo: int, hi: int)
    requires |b| > 0 && 0 <= lo <= hi + 1 <= |g| && (forall x :: 0 <= x < |g| ==> g[x] < |b|) && SortedKeys(g, Ranks(b), lo, hi)
    ensures SortedBy(b, g[lo..hi + 1], |b|)
  {
    hide Rank, Cmp;
    var s := g[lo..hi + 1];
    forall x, y | 0 <= x < y < |s| ensures Cmp(b, s[x], s[y], |b|) <= 0 {
      assert Key(g, Ranks(b), lo + x) <= Key(g, Ranks(b), lo + y);
      RankOrder(b, s[x], s[y]);
    }
  }

  lemma OtherKept(b: seq<byte>, f: seq<nat>, g: seq<nat>, d: nat, e: nat)
    requires |b| > 0 && d < 65536 && e < 65536 && d != e && InOrder(b, f, e) && Rearranged(f, g, Start(b, d), Start(b, d + 1) - 1)
    ensures InOrder(b, g, e)
  {
    hide Start, Cmp;
    forall x | Start(b, e) <= x < Start(b, e + 1) ensures g[x] == f[x] { OtherSlots(b, e, d, x); }
    SameSlice(f, g, Start(b, e), Start(b, e + 1));
  }

  /** At most one entry: nothing to sort. */
  lemma TinyBucket(b: seq<byte>, f: seq<nat>, d: nat)
    requires |b| > 0 && InBuckets(b, f) && d < 65536 && Start(b, d + 1) - 1 <= Start(b, d)
    ensures InOrder(b, f, d)
  {
    hide Start, Cmp, Code;
    StartRange(b, d, d + 1);
    StartRange(b, d + 1, 65536);
  }

  /** One small bucket is sorted, unless it is marked, and marked. */
  method SortOne(ptr: array<nat>, block: array<byte>, quadrant: array<nat>, ftab: array<nat>, nblock: nat, sb: nat, budget0: int, ghost b: seq<byte>, ghost fl: seq<bool>)
    returns (budget: int)
    requires ptr != quadrant && ptr != ftab && ftab != quadrant && nblock == |b| && BZ_N_OVERSHOOT < nblock <= 900000 && sb < 65536 && budget0 >= 0
    requires Overshot(b, block[..]) && Quadrants(b, quadrant[..]) && Sound(b, ptr[..], ftab[..], fl)
    modifies ptr, ftab
    ensures budget <= budget0 && |fl| == 65537 && ptr.Length == nblock
    ensures IsPerm(ptr[..], nblock)
    ensures budget >= 0 ==> Sound(b, ptr[..], ftab[..], fl[sb := true])
  {
    hide *;
    budget := budget0;
    Sizes();
    ghost var f, t := ptr[..], ftab[..];
    SoundParts(b, f, t, fl);
    EntryParts(b, t, fl, sb);
    EntryParts(b, t, fl, sb + 1);
    BucketAgrees(b, f, sb);
    if And(ftab[sb], SETMASK) == 0 {
      var lo := And(ftab[sb], CLEARMASK);
      var hi := And(ftab[sb + 1], CLEARMASK) - 1;
      if hi > lo {
        budget := QSort3(ptr, block, quadrant, nblock, lo, hi, BZ_N_RADIX, budget, b);
        RearrangedPerm(f, ptr[..], lo, hi, nblock);
        if budget < 0 { return; }
        SortedSmall(b, f, ptr[..], sb);
      } else {
        TinyBucket(b, f, sb);
      }
    }
    SoundMark(b, f, ptr[..], t, fl, sb);
    ftab[sb] := Or(ftab[sb], SETMASK);
    assert ftab[..] == t[sb := Or(t[sb], SETMASK)];
  }

  lemma Sizes()
    ensures BZ_N_RADIX == 2 && MAIN_QSORT_DEPTH_THRESH == 14 && BZ_N_OVERSHOOT == 34 && SETMASK == 0x20_0000
  {
  }

  /** Which small buckets are marked in the middle of step 1. */
  ghost predicate StepOne(fl0: seq<bool>, fl: seq<bool>, ss: nat, j: nat) {
    |fl0| == |fl| == 65537 && forall d :: 0 <= d < 65536 ==> (fl[d] <==> fl0[d] || (d / 256 == ss && d % 256 != ss && d % 256 < j))
  }

  lemma StepOneNext(fl0: seq<bool>, fl: seq<bool>, ss: nat, j: nat)
    requires StepOne(fl0, fl, ss, j) && ss < 256 && j < 256
    ensures Small(ss, j) < 65536 && StepOne(fl0, if j != ss then fl[Small(ss, j) := true] else fl, ss, j + 1)
  {
  }

  lemma StepOneStart(fl: seq<bool>, ss: nat)
    requires |fl| == 65537
    ensures StepOne(fl, fl, ss, 0)
  {
  }

  lemma SmallIs(t: nat, c: nat)
    ensures Small(t, c) == t * 256 + c
  {
  }

  /** Step 1: the small buckets [ss, j], j != ss, that are not in order yet are sorted. */
  method SortSmallBuckets(ptr: array<nat>, block: array<byte>, quadrant: array<nat>, ftab: array<nat>, nblock: nat, ss: nat, budget0: int,
                          ghost b: seq<byte>, ghost fl0: seq<bool>)
    returns (budget: int, ghost fl: seq<bool>)
    requires ptr != quadrant && ptr != ftab && ftab != quadrant && nblock == |b| && BZ_N_OVERSHOOT < nblock <= 900000 && ss < 256 && budget0 >= 0
    requires Overshot(b, block[..]) && Quadrants(b, quadrant[..]) && Sound(b, ptr[..], ftab[..], fl0)
    modifies ptr, ftab
    ensures budget <= budget0 && ptr.Length == nblock && IsPerm(ptr[..], nblock)
    ensures budget >= 0 ==> Sound(b, ptr[..], ftab[..], fl) && StepOne(fl0, fl, ss, 256)
  {
    hide *;
    budget, fl := budget0, fl0;
    Sizes();
    SoundParts(b, ptr[..], ftab[..], fl);
    StepOneStart(fl, ss);
    for j := 0 to 256
      invariant 0 <= budget <= budget0 && Sound(b, ptr[..], ftab[..], fl) && StepOne(fl0, fl, ss, j)
      invariant Overshot(b, block[..]) && Quadrants(b, quadrant[..]) && ptr.Length == nblock
    {
      StepOneNext(fl0, fl, ss, j);
      SmallIs(ss, j);
      if j != ss {
        budget := SortOne(ptr, block, quadrant, ftab, nblock, ss * 256 + j, budget, b, fl);
        if budget < 0 { return; }
        fl := fl[ss * 256 + j := true];
      }
    }
    SoundParts(b, ptr[..], ftab[..], fl);
  }

  // ---------- step 2 ----------

  /** The starts and ends of the small buckets [t, ss]. */
  method CopyBounds(ftab: array<nat>, ss: byte, ghost b: seq<byte>, ghost fl: seq<bool>) returns (copyStart: array<int>, copyEnd: array<int>)
    requires |b| > 0 && Marked(b, ftab[..], fl)
    ensures fresh(copyStart) && fresh(copyEnd) && copyStart != copyEnd && copyStart.Length == copyEnd.Length == 256
    ensures forall t :: 0 <= t < 256 ==> copyStart[t] == Start(b, Small(t, ss)) && copyEnd[t] == Start(b, Small(t, ss) + 1) - 1
  {
    hide *;
    copyStart, copyEnd := NewBounds();
    for j := 0 to 256
      invariant forall t :: 0 <= t < j ==> copyStart[t] == Start(b, Small(t, ss)) && copyEnd[t] == Start(b, Small(t, ss) + 1) - 1
    {
      SmallIs(j, ss);
      EntryParts(b, ftab[..], fl, j * 256 + ss);
      EntryParts(b, ftab[..], fl, j * 256 + ss + 1);
      copyStart[j] := And(ftab[j * 256 + ss], CLEARMASK);
      copyEnd[j] := And(ftab[j * 256 + ss + 1], CLEARMASK) - 1;
    }
  }

  method NewBounds() returns (copyStart: array<int>, copyEnd: array<int>)
    ensures fresh(copyStart) && fresh(copyEnd) && copyStart != copyEnd && copyStart.Length == copyEnd.Length == 256
  {
    copyStart := new int[256];
    copyEnd := new int[256];
  }

  /** The small buckets [t, ss] with t below j are marked. */
  ghost predicate StepTwo(fl0: seq<bool>, fl: seq<bool>, ss: nat, j: nat) {
    |fl0| == |fl| == 65537 && forall d :: 0 <= d < 65536 ==> (fl[d] <==> fl0[d] || (d % 256 == ss && d / 256 < j))
  }

  lemma StepTwoNext(fl0: seq<bool>, fl: seq<bool>, ss: nat, j: nat)
    requires StepTwo(fl0, fl, ss, j) && ss < 256 && j < 256
    ensures j * 256 + ss < 65536 && StepTwo(fl0, fl[j * 256 + ss := true], ss, j + 1)
  {
  }

  lemma StepTwoStart(fl: seq<bool>, ss: nat)
    requires |fl| == 65537
    ensures StepTwo(fl, fl, ss, 0)
  {
  }

  method MarkColumn(ftab: array<nat>, ss: byte, ghost b: seq<byte>, ghost fl0: seq<bool>) returns (ghost fl: seq<bool>)
    requires |b| > 0 && Marked(b, ftab[..], fl0)
    modifies ftab
    ensures Marked(b, ftab[..], fl) && StepTwo(fl0, fl, ss, 256)
  {
    hide *;
    fl := fl0;
    EntryParts(b, ftab[..], fl, 0);
    StepTwoStart(fl, ss);
    for j := 0 to 256
      invariant Marked(b, ftab[..], fl) && StepTwo(fl0, fl, ss, j)
    {
      ghost var t := ftab[..];
      StepTwoNext(fl0, fl, ss, j);
      MarkEntry(b, t, fl, j * 256 + ss);
      ftab[j * 256 + ss] := Or(ftab[j * 256 + ss], SETMASK);
      fl := fl[j * 256 + ss := true];
      assert ftab[..] == t[j * 256 + ss := Or(t[j * 256 + ss], SETMASK)];
    }
  }

  /** Marks agree with the big buckets that are done. */
  ghost predicate MarksDone(fl: seq<bool>, bigDone: seq<bool>) {
    |fl| == 65537 && |bigDone| == 256 && forall d :: 0 <= d < 65536 ==> (fl[d] <==> bigDone[d / 256] || bigDone[d % 256])
  }

  /** After steps 1 and 2 for ss they agree again. */
  lemma MarksNext(fl0: seq<bool>, fl1: seq<bool>, fl: seq<bool>, bigDone: seq<bool>, ss: nat)
    requires MarksDone(fl0, bigDone) && StepOne(fl0, fl1, ss, 256) && StepTwo(fl1, fl, ss, 256) && ss < 256
    ensures MarksDone(fl, bigDone[ss := true])
  {
  }

  lemma MarksStart(fl: seq<bool>, bigDone: seq<bool>)
    requires |fl| == 65537 && |bigDone| == 256 && (forall d :: 0 <= d < |fl| ==> !fl[d]) && forall c :: 0 <= c < 256 ==> !bigDone[c]
    ensures MarksDone(fl, bigDone)
  {
  }

  lemma StepOneReady(b: seq<byte>, f: seq<nat>, t: seq<nat>, fl0: seq<bool>, fl: seq<bool>, ss: byte)
    requires |b| >= 2 && Sound(b, f, t, fl) && StepOne(fl0, fl, ss, 256)
    ensures Ready(b, f, ss)
  {
    hide Marked, InOrder, InBuckets, IsPerm;
    forall j | 0 <= j < 256 && j != ss ensures InOrder(b, f, Small(ss, j)) {
      assert fl[Small(ss, j)];
    }
  }

  /** What the scan leaves is sound with its column marked. */
  lemma StepTwoSound(b: seq<byte>, f0: seq<nat>, f: seq<nat>, t0: seq<nat>, t: seq<nat>, fl0: seq<bool>, fl1: seq<bool>, fl: seq<bool>, bigDone: seq<bool>, ss: byte)
    requires |b| > 0 && Sound(b, f0, t0, fl1) && MarksDone(fl0, bigDone) && StepOne(fl0, fl1, ss, 256) && StepTwo(fl1, fl, ss, 256)
    requires InBuckets(b, f) && IsPerm(f, |b|) && Marked(b, t, fl)
    requires forall d :: 0 <= d < 65536 && (InOrder(b, f0, d) || (d % 256 == ss && !bigDone[d / 256])) ==> InOrder(b, f, d)
    ensures Sound(b, f, t, fl)
  {
    hide Marked, InOrder, InBuckets, IsPerm;
    SoundParts(b, f0, t0, fl1);
    forall d | 0 <= d < 65536 && fl[d] ensures InOrder(b, f, d) {
      if d % 256 == ss && bigDone[d / 256] { assert fl0[d]; }
    }
  }

  /** Step 2: the sorted big bucket ss is scanned from both ends, which puts the small buckets
      [t, ss] in order, and these are marked. Assertion 1007 holds. */
  method ScanBig(ptr: array<nat>, block: array<byte>, ftab: array<nat>, bigDone: array<bool>, nblock: nat, ss: byte,
                 ghost b: seq<byte>, ghost fl0: seq<bool>, ghost fl1: seq<bool>)
    returns (ghost fl: seq<bool>)
    requires ptr != ftab && nblock == |b| && BZ_N_OVERSHOOT < nblock <= block.Length && block[..nblock] == b && bigDone.Length == 256 && !bigDone[ss]
    requires Sound(b, ptr[..], ftab[..], fl1) && MarksDone(fl0, bigDone[..]) && StepOne(fl0, fl1, ss, 256)
    modifies ptr, ftab
    ensures Sound(b, ptr[..], ftab[..], fl) && MarksDone(fl, bigDone[..][ss := true])
  {
    hide *;
    Sizes();
    ghost var f0, t0, done := ptr[..], ftab[..], bigDone[..];
    SoundParts(b, f0, t0, fl1);
    StepOneReady(b, f0, t0, fl0, fl1, ss);
    var copyStart, copyEnd := CopyBounds(ftab, ss, b, fl1);
    SmallIs(ss, 0);
    EntryParts(b, t0, fl1, ss as int * 256);
    EntryParts(b, t0, fl1, ss as int * 256 + 256);
    LeftStart(b, f0, done, ss, copyStart[..]);
    var first := And(ftab[ss as int * 256], CLEARMASK);
    var last := And(ftab[(ss as int + 1) * 256], CLEARMASK) as int - 1;
    ghost var s := ScanLeft(ptr, block, copyStart, bigDone, nblock, first, ss, b, f0);
    RightStart(b, f0, ptr[..], done, ss, copyEnd[..], s);
    ghost var u := ScanRight(ptr, block, copyEnd, bigDone, nblock, last, ss, b, f0, s);
    MakeCaughtUp(b, f0, ptr[..], done, ss, s, u);
    ScansMeet(b, f0, ptr[..], done, ss, s, u);
    assert copyStart[ss] - 1 == copyEnd[ss] || (copyStart[ss] == 0 && copyEnd[ss] == nblock - 1);  // AssertH 1007
    AfterScan(b, f0, ptr[..], done, ss, s, u);
    ghost var f := ptr[..];
    fl := MarkColumn(ftab, ss, b, fl1);
    assert ptr[..] == f;
    StepTwoSound(b, f0, f, t0, ftab[..], fl0, fl1, fl, done, ss);
    MarksNext(fl0, fl1, fl, done, ss);
  }

  lemma MakeCaughtUp(b: seq<byte>, f0: seq<nat>, f: seq<nat>, bigDone: seq<bool>, c: byte, s: seq<nat>, u: seq<nat>)
    requires |b| > 0 && |bigDone| == 256 && |f0| == |b| && Scan(b, f0, f, bigDone, c, s, u)
    requires (forall i :: 0 <= i < |s| ==> s[i] < |b|) && s == LowPart(b, f0, c) + Preds(b, s, c)
    requires (forall i :: 0 <= i < |u| ==> u[i] < |b|) && u == Preds(b, u, c) + HighPart(b, f0, c)
    ensures Side(b, s, c, -1) && Side(b, u, c, 1) && CaughtUp(b, f0, c, s, u)
  {
    hide Preds, Start, LowPart, HighPart, Scanned, Kept, Side;
  }
}
