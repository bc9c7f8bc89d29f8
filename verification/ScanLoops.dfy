/** The two loops of step 2 of mainSort (blocksort.c), with their pointers copyStart and
    copyEnd: they write into the big bucket that they read. */
module ScanLoops {
  import opened Words
  import opened Permutations
  import opened Rotations
  import opened Buckets
  import opened BucketScan
  import opened Marks

  lemma OutsideBig(b: seq<byte>, t: byte, c: byte, x: nat)
    requires |b| > 0 && t != c && Start(b, Small(t, c)) <= x < Start(b, Small(t, c) + 1)
    ensures x < Start(b, Small(c, 0)) || x >= Start(b, Small(c, 0) + 256)
  {
    hide Start;
    if t < c { StartRange(b, Small(t, c) + 1, Small(c, 0)); } else { StartRange(b, Small(c, 0) + 256, Small(t, c)); }
  }

  /** The bounds of the parts of big bucket c. */
  lemma Bounds(b: seq<byte>, c: byte)
    requires |b| > 0
    ensures Start(b, Small(c, 0)) <= Start(b, Small(c, c)) <= Start(b, Small(c, c) + 1) <= Start(b, Small(c, 0) + 256) <= |b|
  {
    hide Start;
    StartRange(b, Small(c, 0), Small(c, c));
    StartRange(b, Small(c, c), Small(c, c) + 1);
    StartRange(b, Small(c, c) + 1, Small(c, 0) + 256);
    StartRange(b, Small(c, 0) + 256, 65536);
  }

  /** Slots of big bucket c outside [c, c] are as they were. */
  lemma KeptSlots(b: seq<byte>, f0: seq<nat>, f: seq<nat>, bigDone: seq<bool>, c: byte, lo: nat, hi: nat)
    requires |b| > 0 && |bigDone| == 256 && Kept(b, f0, f, bigDone, c) && Small(c, 0) <= lo <= hi <= Small(c, 0) + 256
    requires hi <= Small(c, c) || lo > Small(c, c)
    ensures Start(b, lo) <= Start(b, hi) <= |f| == |f0| && f[Start(b, lo)..Start(b, hi)] == f0[Start(b, lo)..Start(b, hi)]
  {
    hide Start;
    StartRange(b, lo, hi);
    StartRange(b, hi, 65536);
    forall x | Start(b, lo) <= x < Start(b, hi) ensures f[x] == f0[x] {
      var d := BucketOf(b, x, hi);
      if d < lo { StartRange(b, d + 1, lo); }
    }
    SameSlice(f, f0, Start(b, lo), Start(b, hi));
  }

  lemma ScanSides(b: seq<byte>, f0: seq<nat>, f: seq<nat>, bigDone: seq<bool>, c: byte, s: seq<nat>, u: seq<nat>)
    requires |b| > 0 && |bigDone| == 256 && Scan(b, f0, f, bigDone, c, s, u)
    ensures (forall i :: 0 <= i < |s| ==> s[i] < |b|) && (forall i :: 0 <= i < |u| ==> u[i] < |b|) && |f| == |f0| == |b|
  {
    hide Start, Preds;
  }

  /** The left part of the big bucket while it is scanned. */
  lemma LeftFrame(b: seq<byte>, f0: seq<nat>, f: seq<nat>, bigDone: seq<bool>, c: byte, s: seq<nat>, u: seq<nat>)
    requires |b| > 0 && |bigDone| == 256 && |f0| == |b| && Scan(b, f0, f, bigDone, c, s, u) && !bigDone[c]
    ensures Start(b, Small(c, 0)) <= Start(b, Small(c, c)) + |Preds(b, s, c)| <= Start(b, Small(c, c) + 1) <= |f|
    ensures f[Start(b, Small(c, 0))..Start(b, Small(c, c)) + |Preds(b, s, c)|] == LowPart(b, f0, c) + Preds(b, s, c)
  {
    hide *;
    SmallOrder(c);
    Bounds(b, c);
    ScanSides(b, f0, f, bigDone, c, s, u);
    ScanOf(b, f0, f, bigDone, c, s, u, c);
    ScanKept(b, f0, f, bigDone, c, s, u);
    KeptSlots(b, f0, f, bigDone, c, Small(c, 0), Small(c, c));
    EdgeParts(b, f0, c);
    FilledParts(f0, f, Start(b, Small(c, c)), Start(b, Small(c, c) + 1), Preds(b, s, c), Preds(b, u, c));
    SliceJoin(f, Start(b, Small(c, 0)), Start(b, Small(c, c)), Start(b, Small(c, c)) + |Preds(b, s, c)|);
  }

  lemma ScanKept(b: seq<byte>, f0: seq<nat>, f: seq<nat>, bigDone: seq<bool>, c: byte, s: seq<nat>, u: seq<nat>)
    requires |b| > 0 && |bigDone| == 256 && Scan(b, f0, f, bigDone, c, s, u)
    ensures Kept(b, f0, f, bigDone, c)
  {
    hide Start, Preds, Side, Scanned;
  }

  lemma EdgeParts(b: seq<byte>, f0: seq<nat>, c: byte)
    requires |b| > 0 && |f0| == |b|
    ensures Start(b, Small(c, 0)) <= Start(b, Small(c, c)) <= Start(b, Small(c, c) + 1) <= Start(b, Small(c, 0) + 256) <= |b|
    ensures LowPart(b, f0, c) == f0[Start(b, Small(c, 0))..Start(b, Small(c, c))]
    ensures HighPart(b, f0, c) == f0[Start(b, Small(c, c) + 1)..Start(b, Small(c, 0) + 256)]
  {
    Bounds(b, c);
  }

  lemma FilledParts(f0: seq<nat>, f: seq<nat>, lo: nat, hi: nat, left: seq<nat>, right: seq<nat>)
    requires Scanned(f0, f, lo, hi, left, right)
    ensures lo + |left| <= hi - |right| && hi <= |f| && f[lo..lo + |left|] == left && f[hi - |right|..hi] == right
  {
  }

  lemma SliceJoin(f: seq<nat>, a: nat, m: nat, e: nat)
    requires a <= m <= e <= |f|
    ensures f[a..e] == f[a..m] + f[m..e]
  {
  }

  lemma SmallOrder(c: byte)
    ensures Small(c, 0) <= Small(c, c) < Small(c, 0) + 256 <= 65536
  {
  }

  lemma RightFrame(b: seq<byte>, f0: seq<nat>, f: seq<nat>, bigDone: seq<bool>, c: byte, s: seq<nat>, u: seq<nat>)
    requires |b| > 0 && |bigDone| == 256 && |f0| == |b| && Scan(b, f0, f, bigDone, c, s, u) && !bigDone[c]
    ensures Start(b, Small(c, c)) <= Start(b, Small(c, c) + 1) - |Preds(b, u, c)| <= Start(b, Small(c, 0) + 256) <= |f|
    ensures f[Start(b, Small(c, c) + 1) - |Preds(b, u, c)|..Start(b, Small(c, 0) + 256)] == Preds(b, u, c) + HighPart(b, f0, c)
  {
    hide *;
    SmallOrder(c);
    Bounds(b, c);
    ScanSides(b, f0, f, bigDone, c, s, u);
    ScanOf(b, f0, f, bigDone, c, s, u, c);
    ScanKept(b, f0, f, bigDone, c, s, u);
    KeptSlots(b, f0, f, bigDone, c, Small(c, c) + 1, Small(c, 0) + 256);
    EdgeParts(b, f0, c);
    FilledParts(f0, f, Start(b, Small(c, c)), Start(b, Small(c, c) + 1), Preds(b, s, c), Preds(b, u, c));
    SliceJoin(f, Start(b, Small(c, c) + 1) - |Preds(b, u, c)|, Start(b, Small(c, c) + 1), Start(b, Small(c, 0) + 256));
  }

  // ---------- from the left ----------

  /** `copyStart` after s has been scanned. */
  ghost predicate CopyStart(b: seq<byte>, bigDone: seq<bool>, c: byte, cs: seq<int>, s: seq<nat>)
    requires |b| > 0 && |bigDone| == 256 && forall i :: 0 <= i < |s| ==> s[i] < |b|
  {
    |cs| == 256 && forall t: byte :: !bigDone[t] ==> cs[t] == Start(b, Small(t, c)) + |Preds(b, s, t)|
  }

  ghost predicate LeftScan(b: seq<byte>, f0: seq<nat>, f: seq<nat>, bigDone: seq<bool>, c: byte, cs: seq<int>, s: seq<nat>, j: int)
    requires |b| > 0 && |bigDone| == 256
  {
    && Ready(b, f0, c) && !bigDone[c] && Scan(b, f0, f, bigDone, c, s, []) && CopyStart(b, bigDone, c, cs, s)
    && j == Start(b, Small(c, 0)) + |s| <= cs[c] && j <= |f| && f[Start(b, Small(c, 0))..j] == s
  }

  lemma LeftScanParts(b: seq<byte>, f0: seq<nat>, f: seq<nat>, bigDone: seq<bool>, c: byte, cs: seq<int>, s: seq<nat>, j: int)
    requires |b| > 0 && |bigDone| == 256 && LeftScan(b, f0, f, bigDone, c, cs, s, j)
    ensures 0 <= j <= |f| == |b| && |cs| == 256 && j <= cs[c] <= |f|
  {
    hide Start, Preds, Side, Small, Scanned;
    LeftFrame(b, f0, f, bigDone, c, s, []);
    KeptLength(b, f0, f, bigDone, c);
  }

  lemma LeftStart(b: seq<byte>, f0: seq<nat>, bigDone: seq<bool>, c: byte, cs: seq<int>)
    requires |b| > 0 && |bigDone| == 256 && Ready(b, f0, c) && !bigDone[c]
    requires |cs| == 256 && forall t :: 0 <= t < 256 ==> cs[t] == Start(b, Small(t, c))
    ensures LeftScan(b, f0, f0, bigDone, c, cs, [], Start(b, Small(c, 0)))
  {
    hide Start, Small;
    SmallOrder(c);
    Bounds(b, c);
    forall t: byte ensures Scanned(f0, f0, Start(b, Small(t, c)), Start(b, Small(t, c) + 1), Preds(b, [], t), Preds(b, [], t)) {
      NoPreds(b, t);
      StartRange(b, Small(t, c), Small(t, c) + 1);
      StartRange(b, Small(t, c) + 1, 65536);
    }
  }

  /** The next slot to read continues the sorted list. */
  lemma LeftNext(b: seq<byte>, f0: seq<nat>, f: seq<nat>, bigDone: seq<bool>, c: byte, cs: seq<int>, s: seq<nat>, j: int)
    requires |b| > 0 && |bigDone| == 256 && LeftScan(b, f0, f, bigDone, c, cs, s, j) && j < cs[c]
    ensures 0 <= j < |f| && Side(b, s + [f[j]], c, -1) && f[Start(b, Small(c, 0))..j + 1] == s + [f[j]]
  {
    hide Start, Preds, Side, Small, Scanned, Kept, LowPart;
    ScanOf(b, f0, f, bigDone, c, s, [], c);
    LeftFrame(b, f0, f, bigDone, c, s, []);
    LeftEdge(b, f0, c, s);
    var a := Start(b, Small(c, 0));
    var w := f[a..cs[c]];
    SidePrefix(b, w, c, -1, 0, |s| + 1);
    assert w[0..|s| + 1] == f[a..j + 1] == s + [f[j]];
  }

  lemma LeftStep(b: seq<byte>, f0: seq<nat>, f: seq<nat>, bigDone: seq<bool>, c: byte, cs: seq<int>, s: seq<nat>, j: int)
    requires |b| > 0 && |bigDone| == 256 && LeftScan(b, f0, f, bigDone, c, cs, s, j) && j < cs[c]
    ensures 0 <= j < |f| && f[j] < |b| && |cs| == 256
    ensures var k := Pred(|b|, f[j]); var t := b[k];
      if bigDone[t] then LeftScan(b, f0, f, bigDone, c, cs, s + [f[j]], j + 1)
      else 0 <= cs[t] < |f| && LeftScan(b, f0, f[cs[t] := k], bigDone, c, cs[t := cs[t] + 1], s + [f[j]], j + 1)
  {
    hide Start, Preds, Side, Small, Scanned, Kept, Ready;
    LeftNext(b, f0, f, bigDone, c, cs, s, j);
    SideElements(b, s + [f[j]], c, -1);
    assert (s + [f[j]])[|s|] == f[j];
    ReadyPerm(b, f0, c);
    AddLeft(b, f0, f, bigDone, c, s, [], f[j]);
    var k := Pred(|b|, f[j]);
    var t := b[k];
    ScanSides(b, f0, f, bigDone, c, s, []);
    forall t2: byte ensures Preds(b, s + [f[j]], t2) == if t2 == t then Preds(b, s, t2) + [k] else Preds(b, s, t2) { PredsLonger(b, s, f[j], t2); }
    if !bigDone[t] {
      LeftFrame(b, f0, f, bigDone, c, s, []);
      Bounds(b, c);
      LeftOutside(b, f, c, t, cs[t], j + 1, k);
    }
  }

  lemma ReadyPerm(b: seq<byte>, f: seq<nat>, c: byte)
    requires |b| > 0 && Ready(b, f, c)
    ensures InBuckets(b, f) && IsPerm(f, |b|) && |f| == |b|
  {
  }

  /** What is written does not touch what has been read. */
  lemma LeftOutside(b: seq<byte>, f: seq<nat>, c: byte, t: byte, x: nat, j: nat, k: nat)
    requires |b| > 0 && Start(b, Small(t, c)) <= x < Start(b, Small(t, c) + 1) && x < |f| && (t == c ==> j <= x)
    requires Start(b, Small(c, 0)) <= j <= Start(b, Small(c, 0) + 256) && j <= |f|
    ensures f[x := k][Start(b, Small(c, 0))..j] == f[Start(b, Small(c, 0))..j]
  {
    hide Start, Small;
    if t != c { OutsideBig(b, t, c, x); }
    SameSlice(f[x := k], f, Start(b, Small(c, 0)), j);
  }

  lemma LeftEnd(b: seq<byte>, f0: seq<nat>, f: seq<nat>, bigDone: seq<bool>, c: byte, cs: seq<int>, s: seq<nat>, j: int)
    requires |b| > 0 && |bigDone| == 256 && LeftScan(b, f0, f, bigDone, c, cs, s, j) && j >= cs[c]
    ensures Scan(b, f0, f, bigDone, c, s, []) && |f0| == |b| && (forall i :: 0 <= i < |s| ==> s[i] < |b|)
    ensures s == LowPart(b, f0, c) + Preds(b, s, c) && cs[c] == Start(b, Small(c, c)) + |Preds(b, s, c)|
  {
    hide Start, Preds, Side, Small, Scanned, Kept, LowPart;
    ReadyPerm(b, f0, c);
    ScanSides(b, f0, f, bigDone, c, s, []);
    LeftFrame(b, f0, f, bigDone, c, s, []);
  }

  /** The scan from the left end. */
  method ScanLeft(ptr: array<nat>, block: array<byte>, copyStart: array<int>, bigDone: array<bool>, nblock: nat, first: nat, ss: byte, ghost b: seq<byte>, ghost f0: seq<nat>)
    returns (ghost s: seq<nat>)
    requires ptr as object != copyStart && |b| == nblock > 0 && nblock <= block.Length && block[..nblock] == b && bigDone.Length == 256
    requires LeftScan(b, f0, ptr[..], bigDone[..], ss, copyStart[..], [], first)
    modifies ptr, copyStart
    ensures Scan(b, f0, ptr[..], bigDone[..], ss, s, []) && |f0| == |b| && (forall i :: 0 <= i < |s| ==> s[i] < |b|)
    ensures s == LowPart(b, f0, ss) + Preds(b, s, ss)
    ensures copyStart.Length == 256 && copyStart[ss] == Start(b, Small(ss, ss)) + |Preds(b, s, ss)|
  {
    hide *;
    s := [];
    var j: int := first;
    ghost var f, cs, done := ptr[..], copyStart[..], bigDone[..];
    LeftScanParts(b, f0, f, done, ss, cs, s, j);
    while j < copyStart[ss]
      invariant ptr[..] == f && copyStart[..] == cs && bigDone[..] == done && copyStart.Length == 256
      invariant LeftScan(b, f0, f, done, ss, cs, s, j) && 0 <= j <= cs[ss] <= |f| == |b|
      decreases |b| - j
    {
      LeftStep(b, f0, f, done, ss, cs, s, j);
      assert ptr[j] == f[j];
      PredIs(nblock, f[j]);
      var k: int := ptr[j] as int - 1;
      if k < 0 { k := k + nblock; }
      assert block[k] == b[k];
      var c1 := block[k];
      s := s + [f[j]];
      if !bigDone[c1] {
        f, cs := f[cs[c1] := k], cs[c1 := cs[c1] + 1];
        ptr[copyStart[c1]] := k;
        copyStart[c1] := copyStart[c1] + 1;
      }
      j := j + 1;
      LeftScanParts(b, f0, f, done, ss, cs, s, j);
    }
    LeftEnd(b, f0, f, done, ss, cs, s, j);
  }

  lemma PredIs(n: nat, p: nat)
    requires p < n
    ensures Pred(n, p) == if p as int - 1 < 0 then p - 1 + n else p - 1
    ensures Pred(n, p) < n
  {
  }

  // ---------- from the right ----------

  /** `copyEnd` after u has been scanned. */
  ghost predicate CopyEnd(b: seq<byte>, bigDone: seq<bool>, c: byte, ce: seq<int>, u: seq<nat>)
    requires |b| > 0 && |bigDone| == 256 && forall i :: 0 <= i < |u| ==> u[i] < |b|
  {
    |ce| == 256 && forall t: byte :: !bigDone[t] ==> ce[t] == Start(b, Small(t, c) + 1) - |Preds(b, u, t)| - 1
  }

  ghost predicate RightScan(b: seq<byte>, f0: seq<nat>, f: seq<nat>, bigDone: seq<bool>, c: byte, ce: seq<int>, s: seq<nat>, u: seq<nat>, j: int)
    requires |b| > 0 && |bigDone| == 256
  {
    && Ready(b, f0, c) && !bigDone[c] && Scan(b, f0, f, bigDone, c, s, u) && CopyEnd(b, bigDone, c, ce, u)
    && ce[c] <= j == Start(b, Small(c, 0) + 256) - |u| - 1 && -1 <= j < Start(b, Small(c, 0) + 256) <= |f| && f[j + 1..Start(b, Small(c, 0) + 256)] == u
  }

  lemma RightScanParts(b: seq<byte>, f0: seq<nat>, f: seq<nat>, bigDone: seq<bool>, c: byte, ce: seq<int>, s: seq<nat>, u: seq<nat>, j: int)
    requires |b| > 0 && |bigDone| == 256 && RightScan(b, f0, f, bigDone, c, ce, s, u, j)
    ensures -1 <= ce[c] <= j < |f| == |b| && |ce| == 256
  {
    hide Start, Preds, Side, Small, Scanned;
    ReadyPerm(b, f0, c);
    RightFrame(b, f0, f, bigDone, c, s, u);
    KeptLength(b, f0, f, bigDone, c);
  }

  lemma RightStart(b: seq<byte>, f0: seq<nat>, f: seq<nat>, bigDone: seq<bool>, c: byte, ce: seq<int>, s: seq<nat>)
    requires |b| > 0 && |bigDone| == 256 && Ready(b, f0, c) && !bigDone[c] && Scan(b, f0, f, bigDone, c, s, [])
    requires |ce| == 256 && forall t :: 0 <= t < 256 ==> ce[t] == Start(b, Small(t, c) + 1) - 1
    ensures RightScan(b, f0, f, bigDone, c, ce, s, [], Start(b, Small(c, 0) + 256) - 1)
  {
    hide Start, Small, Scanned, Kept, Side;
    SmallOrder(c);
    Bounds(b, c);
    KeptLength(b, f0, f, bigDone, c);
    ReadyPerm(b, f0, c);
    forall t: byte ensures Preds(b, [], t) == [] { NoPreds(b, t); }
  }

  lemma RightNext(b: seq<byte>, f0: seq<nat>, f: seq<nat>, bigDone: seq<bool>, c: byte, ce: seq<int>, s: seq<nat>, u: seq<nat>, j: int)
    requires |b| > 0 && |bigDone| == 256 && RightScan(b, f0, f, bigDone, c, ce, s, u, j) && j > ce[c]
    ensures 0 <= j < Start(b, Small(c, 0) + 256) <= |f| && Side(b, [f[j]] + u, c, 1) && f[j..Start(b, Small(c, 0) + 256)] == [f[j]] + u
  {
    hide Start, Preds, Side, Small, Scanned, Kept, HighPart;
    ReadyPerm(b, f0, c);
    ScanOf(b, f0, f, bigDone, c, s, u, c);
    RightFrame(b, f0, f, bigDone, c, s, u);
    RightEdge(b, f0, c, u);
    var e := Start(b, Small(c, 0) + 256);
    var w := f[ce[c] + 1..e];
    SidePrefix(b, w, c, 1, j - ce[c] - 1, |w|);
    assert w[j - ce[c] - 1..|w|] == f[j..e] == [f[j]] + u;
  }

  lemma RightOutside(b: seq<byte>, f: seq<nat>, c: byte, t: byte, x: nat, j: nat, k: nat)
    requires |b| > 0 && Start(b, Small(t, c)) <= x < Start(b, Small(t, c) + 1) && x < |f| && (t == c ==> x < j)
    requires Start(b, Small(c, 0)) <= j <= Start(b, Small(c, 0) + 256) <= |f|
    ensures f[x := k][j..Start(b, Small(c, 0) + 256)] == f[j..Start(b, Small(c, 0) + 256)]
  {
    hide Start, Small;
    if t != c { OutsideBig(b, t, c, x); }
    SameSlice(f[x := k], f, j, Start(b, Small(c, 0) + 256));
  }

  lemma RightStep(b: seq<byte>, f0: seq<nat>, f: seq<nat>, bigDone: seq<bool>, c: byte, ce: seq<int>, s: seq<nat>, u: seq<nat>, j: int)
    requires |b| > 0 && |bigDone| == 256 && RightScan(b, f0, f, bigDone, c, ce, s, u, j) && j > ce[c]
    ensures 0 <= j < |f| && f[j] < |b| && |ce| == 256
    ensures var k := Pred(|b|, f[j]); var t := b[k];
      if bigDone[t] then RightScan(b, f0, f, bigDone, c, ce, s, [f[j]] + u, j - 1)
      else 0 <= ce[t] < |f| && RightScan(b, f0, f[ce[t] := k], bigDone, c, ce[t := ce[t] - 1], s, [f[j]] + u, j - 1)
  {
    hide Start, Preds, Side, Small, Scanned, Kept, Ready;
    RightNext(b, f0, f, bigDone, c, ce, s, u, j);
    SideElements(b, [f[j]] + u, c, 1);
    assert ([f[j]] + u)[0] == f[j];
    ReadyPerm(b, f0, c);
    AddRight(b, f0, f, bigDone, c, s, u, f[j]);
    var k := Pred(|b|, f[j]);
    var t := b[k];
    ScanSides(b, f0, f, bigDone, c, s, u);
    forall t2: byte ensures Preds(b, [f[j]] + u, t2) == if t2 == t then [k] + Preds(b, u, t2) else Preds(b, u, t2) { PredsLonger(b, u, f[j], t2); }
    if !bigDone[t] {
      RightFrame(b, f0, f, bigDone, c, s, u);
      Bounds(b, c);
      RightOutside(b, f, c, t, ce[t], j, k);
    }
  }

  lemma RightEnd(b: seq<byte>, f0: seq<nat>, f: seq<nat>, bigDone: seq<bool>, c: byte, ce: seq<int>, s: seq<nat>, u: seq<nat>, j: int)
    requires |b| > 0 && |bigDone| == 256 && RightScan(b, f0, f, bigDone, c, ce, s, u, j) && j <= ce[c]
    ensures Scan(b, f0, f, bigDone, c, s, u) && |f0| == |b| && (forall i :: 0 <= i < |u| ==> u[i] < |b|)
    ensures u == Preds(b, u, c) + HighPart(b, f0, c) && ce[c] == Start(b, Small(c, c) + 1) - |Preds(b, u, c)| - 1
  {
    hide Start, Preds, Side, Small, Scanned, Kept, HighPart;
    ReadyPerm(b, f0, c);
    ScanSides(b, f0, f, bigDone, c, s, u);
    RightFrame(b, f0, f, bigDone, c, s, u);
  }

  /** The scan from the right end. */
  method ScanRight(ptr: array<nat>, block: array<byte>, copyEnd: array<int>, bigDone: array<bool>, nblock: nat, last: int, ss: byte,
                   ghost b: seq<byte>, ghost f0: seq<nat>, ghost s: seq<nat>)
    returns (ghost u: seq<nat>)
    requires ptr as object != copyEnd && |b| == nblock > 0 && nblock <= block.Length && block[..nblock] == b && bigDone.Length == 256
    requires RightScan(b, f0, ptr[..], bigDone[..], ss, copyEnd[..], s, [], last)
    modifies ptr, copyEnd
    ensures Scan(b, f0, ptr[..], bigDone[..], ss, s, u) && |f0| == |b| && (forall i :: 0 <= i < |u| ==> u[i] < |b|)
    ensures u == Preds(b, u, ss) + HighPart(b, f0, ss)
    ensures copyEnd.Length == 256 && copyEnd[ss] == Start(b, Small(ss, ss) + 1) - |Preds(b, u, ss)| - 1
  {
    hide *;
    u := [];
    var j: int := last;
    ghost var f, ce, done := ptr[..], copyEnd[..], bigDone[..];
    RightScanParts(b, f0, f, done, ss, ce, s, u, j);
    while j > copyEnd[ss]
      invariant ptr[..] == f && copyEnd[..] == ce && bigDone[..] == done && copyEnd.Length == 256
      invariant RightScan(b, f0, f, done, ss, ce, s, u, j) && -1 <= ce[ss] <= j < |f| == |b|
      decreases j + 1
    {
      RightStep(b, f0, f, done, ss, ce, s, u, j);
      assert ptr[j] == f[j];
      PredIs(nblock, f[j]);
      var k: int := ptr[j] as int - 1;
      if k < 0 { k := k + nblock; }
      assert block[k] == b[k];
      var c1 := block[k];
      u := [f[j]] + u;
      if !bigDone[c1] {
        f, ce := f[ce[c1] := k], ce[c1 := ce[c1] - 1];
        ptr[copyEnd[c1]] := k;
        copyEnd[c1] := copyEnd[c1] - 1;
      }
      j := j - 1;
      RightScanParts(b, f0, f, done, ss, ce, s, u, j);
    }
    RightEnd(b, f0, f, done, ss, ce, s, u, j);
  }
}
