/** The Burrows-Wheeler transform and its inverse, on values: the last column of the
    sorted rotations, the stable counting sort that links rows, and the walk along
    those links that gives the block back. */
module Transform {
  import opened Words
  import opened Permutations
  import opened Rotations

  /** The character that precedes each sorted rotation. */
  function LastColumn(b: seq<byte>, p: seq<nat>): (l: seq<byte>)
    requires |b| > 0
    ensures |l| == |p|
  {
    seq(|p|, i requires 0 <= i < |p| => At(b, p[i] + |b| - 1))
  }

  function CountLess(l: seq<byte>, c: nat): nat
  {
    if l == [] then 0
    else CountLess(l[..|l| - 1], c) + if l[|l| - 1] < c then 1 else 0
  }

  function CountEq(l: seq<byte>, c: nat): nat
  {
    if l == [] then 0
    else CountEq(l[..|l| - 1], c) + if l[|l| - 1] == c then 1 else 0
  }

  /** Where row i of the last column lands in a stable sort of its characters. */
  function Slot(l: seq<byte>, i: nat): nat
    requires i < |l|
  {
    CountLess(l, l[i]) + CountEq(l[..i], l[i])
  }

  function Slots(l: seq<byte>): (t: seq<nat>)
    ensures |t| == |l| && forall i :: 0 <= i < |l| ==> t[i] == Slot(l, i)
  {
    seq(|l|, i requires 0 <= i < |l| => Slot(l, i))
  }

  lemma {:induction false} CountNext(l: seq<byte>, c: nat)
    ensures CountLess(l, c + 1) == CountLess(l, c) + CountEq(l, c)
  {
    if l != [] { CountNext(l[..|l| - 1], c); }
  }

  lemma {:induction false} CountLessMonotone(l: seq<byte>, c: nat, d: nat)
    requires c <= d
    ensures CountLess(l, c) <= CountLess(l, d) <= |l|
  {
    if l != [] { CountLessMonotone(l[..|l| - 1], c, d); }
  }

  lemma {:induction false} CountLessAll(l: seq<byte>)
    ensures CountLess(l, 0) == 0 && CountLess(l, 256) == |l|
  {
    if l != [] { CountLessAll(l[..|l| - 1]); }
  }

  lemma CountEqStep(l: seq<byte>, i: nat, c: nat)
    requires i < |l|
    ensures CountEq(l[..i + 1], c) == CountEq(l[..i], c) + if l[i] == c then 1 else 0
  {
    assert l[..i + 1][..i] == l[..i];
  }

  lemma {:induction false} CountEqPrefix(l: seq<byte>, i: nat, j: nat, c: nat)
    requires i <= j <= |l|
    ensures CountEq(l[..i], c) <= CountEq(l[..j], c)
    decreases j
  {
    if i < j {
      CountEqStep(l, j - 1, c);
      CountEqPrefix(l, i, j - 1, c);
    }
  }

  lemma SlotRange(l: seq<byte>, i: nat)
    requires i < |l|
    ensures CountLess(l, l[i]) <= Slot(l, i) < CountLess(l, l[i] as int + 1) <= |l|
  {
    CountEqStep(l, i, l[i]);
    CountEqPrefix(l, i + 1, |l|, l[i]);
    assert l[..|l|] == l;
    CountNext(l, l[i]);
    CountLessMonotone(l, l[i] as int + 1, l[i] as int + 1);
  }

  /** The sort is by character, and stable. */
  lemma SlotOrder(l: seq<byte>, i: nat, j: nat)
    requires i < |l| && j < |l|
    requires l[i] < l[j] || (l[i] == l[j] && i < j)
    ensures Slot(l, i) < Slot(l, j)
  {
    SlotRange(l, i);
    if l[i] < l[j] {
      CountLessMonotone(l, l[i] as int + 1, l[j]);
    } else {
      CountEqStep(l, i, l[i]);
      CountEqPrefix(l, i + 1, j, l[i]);
    }
  }

  lemma SlotsArePerm(l: seq<byte>)
    ensures IsPerm(Slots(l), |l|)
  {
    forall i | 0 <= i < |l| ensures Slot(l, i) < |l| { SlotRange(l, i); }
    forall i, j | 0 <= i < j < |l| ensures Slot(l, i) != Slot(l, j) {
      if l[i] <= l[j] { SlotOrder(l, i, j); } else { SlotOrder(l, j, i); }
    }
  }

  /** The row whose character was sorted into place j: the inverse of Slot. */
  ghost function Origin(l: seq<byte>, j: nat): (i: nat)
    requires j < |l|
    ensures i < |l| && Slot(l, i) == j
  {
    SlotsArePerm(l);
    Surjective(Slots(l), |l|);
    assert j in Slots(l);
    var i: nat :| i < |l| && Slots(l)[i] == j;
    i
  }

  lemma OriginSlot(l: seq<byte>, i: nat)
    requires i < |l|
    ensures Slot(l, i) < |l| && Origin(l, Slot(l, i)) == i
  {
    SlotsArePerm(l);
    assert Slots(l)[i] == Slot(l, i);
    var k := Origin(l, Slot(l, i));
    assert Slots(l)[k] == Slots(l)[i];
  }

  /** The row reached after k links from start. */
  ghost function Walk(l: seq<byte>, start: nat, k: nat): (i: nat)
    requires start < |l|
    ensures i < |l|
  {
    if k == 0 then start else Origin(l, Walk(l, start, k - 1))
  }

  /** Character k of the decoded block. */
  ghost function Decoded(l: seq<byte>, orig: nat, k: nat): byte
    requires orig < |l|
  {
    l[Walk(l, orig, k + 1)]
  }

  /** The first n characters the walk emits. */
  ghost function DecodedBlock(l: seq<byte>, orig: nat, n: nat): (b: seq<byte>)
    requires orig < |l|
    ensures |b| == n && forall k :: 0 <= k < n ==> b[k] == Decoded(l, orig, k)
  {
    seq(n, k requires 0 <= k < n => Decoded(l, orig, k))
  }

  /** Prefixing two sorted rotations with their last characters compares those
      characters first: the step that makes a stable sort by last character list
      the rotations in order again. */
  lemma PrecedingOrder(b: seq<byte>, i: nat, j: nat)
    requires |b| > 0
    requires At(b, i + |b| - 1) < At(b, j + |b| - 1) ||
             (At(b, i + |b| - 1) == At(b, j + |b| - 1) && Cmp(b, i, j, |b|) <= 0)
    ensures Cmp(b, i + |b| - 1, j + |b| - 1, |b|) <= 0
  {
    var n := |b|;
    CmpPrefix(b, i, j, n - 1, n);
    assert (i + n) % n == i % n && (j + n) % n == j % n by { ModPlus(i, n); ModPlus(j, n); }
    CmpWrap2(b, i + n, i, j + n, j, n - 1);
    assert i + n - 1 + 1 == i + n && j + n - 1 + 1 == j + n;
  }

  lemma ModPlus(i: nat, n: nat)
    requires n > 0
    ensures (i + n) % n == i % n
  {
    DivModUnique(i + n, n, i / n + 1, i % n);
  }

  /** The positions one before those of the rows, in the order of the counting sort. */
  ghost function Shifted(b: seq<byte>, p: seq<nat>): (q: seq<nat>)
    requires |b| > 0 && |p| == |b|
    ensures |q| == |b|
    ensures forall j :: 0 <= j < |b| ==> q[j] == (p[Origin(LastColumn(b, p), j)] + |b| - 1) % |b|
  {
    seq(|b|, j requires 0 <= j < |b| => (p[Origin(LastColumn(b, p), j)] + |b| - 1) % |b|)
  }

  lemma PredInjective(x: nat, y: nat, n: nat)
    requires x < n && y < n && (x + n - 1) % n == (y + n - 1) % n
    ensures x == y
  {
    DivModUnique(x + n - 1, n, if x == 0 then 0 else 1, if x == 0 then n - 1 else x - 1);
    DivModUnique(y + n - 1, n, if y == 0 then 0 else 1, if y == 0 then n - 1 else y - 1);
  }

  lemma ShiftedIsPerm(b: seq<byte>, p: seq<nat>)
    requires |b| > 0 && IsPerm(p, |b|)
    ensures IsPerm(Shifted(b, p), |b|)
  {
    var n, l, q := |b|, LastColumn(b, p), Shifted(b, p);
    forall i, j | 0 <= i < j < n ensures q[i] != q[j] {
      if q[i] == q[j] {
        PredInjective(p[Origin(l, i)], p[Origin(l, j)], n);
      }
    }
  }

  lemma ShiftedSorted(b: seq<byte>, p: seq<nat>)
    requires |b| > 0 && SortsRotations(b, p)
    ensures SortedBy(b, Shifted(b, p), |b|)
  {
    var n, l, q := |b|, LastColumn(b, p), Shifted(b, p);
    forall x, y | 0 <= x < y < n ensures Cmp(b, q[x], q[y], n) <= 0 {
      var i, j := Origin(l, x), Origin(l, y);
      if l[j] < l[i] || (l[i] == l[j] && j < i) { SlotOrder(l, j, i); }
      PrecedingOrder(b, p[i], p[j]);
      ModIdem(p[i] + n - 1, n);
      ModIdem(p[j] + n - 1, n);
      CmpWrap2(b, p[i] + n - 1, q[x], p[j] + n - 1, q[y], n);
    }
  }

  lemma ModIdem(i: nat, n: nat)
    requires n > 0
    ensures i % n % n == i % n
  {
    DivModUnique(i % n, n, 0, i % n);
  }

  /** One link moves one character forward: the row it reaches holds a rotation equal
      to the next one of the block, whichever of several equal rotations that is. */
  lemma LinkAdvances(b: seq<byte>, p: seq<nat>, j: nat)
    requires |b| > 0 && SortsRotations(b, p) && j < |b|
    ensures Cmp(b, p[Origin(LastColumn(b, p), j)], p[j] + 1, |b|) == 0
  {
    hide Shifted, LastColumn, Origin, SortedBy, IsPerm, Cmp;
    RowCount(b, p);
    var q := Shifted(b, p);
    ShiftedIsPerm(b, p);
    ShiftedSorted(b, p);
    SortedUnique(b, p, q, |b|, j);
    NextRotation(b, p[j], q[j], p[Origin(LastColumn(b, p), j)]);
  }

  lemma RowCount(b: seq<byte>, p: seq<nat>)
    requires |b| > 0 && SortsRotations(b, p)
    ensures |p| == |b|
  {
  }

  /** If rotations i and r - 1 agree, so do rotations i + 1 and r. */
  lemma NextRotation(b: seq<byte>, i: nat, q: nat, r: nat)
    requires |b| > 0 && Cmp(b, i, q, |b|) == 0 && q == (r + |b| - 1) % |b|
    ensures Cmp(b, r, i + 1, |b|) == 0
  {
    hide Cmp;
    EqualForever(b, i, q, 1, |b|);
    NextOfPred(r, |b|);
    CmpSym(b, i + 1, q + 1, |b|);
    CmpWrap(b, q + 1, r, i + 1, |b|);
  }

  lemma NextOfPred(r: nat, n: nat)
    requires n > 0
    ensures ((r + n - 1) % n + 1) % n == r % n
  {
    ModStep(r + n - 1, n);
    ModPlus(r, n);
    assert r + n - 1 + 1 == r + n;
  }

  lemma {:induction false} WalkAdvances(b: seq<byte>, p: seq<nat>, orig: nat, k: nat)
    requires |b| > 0 && SortsRotations(b, p) && orig < |b| && p[orig] == 0
    ensures Cmp(b, p[Walk(LastColumn(b, p), orig, k)], k, |b|) == 0
  {
    hide LastColumn, Origin, SortedBy, Cmp;
    var n, l := |b|, LastColumn(b, p);
    if k == 0 {
      CmpRefl(b, 0, n);
    } else {
      var j := Walk(l, orig, k - 1);
      WalkAdvances(b, p, orig, k - 1);
      LinkAdvances(b, p, j);
      EqualForever(b, p[j], k - 1, 1, n);
      CmpTrans(b, p[Origin(l, j)], p[j] + 1, k - 1 + 1, n);
    }
  }

  /** The inverse transform, for every block (periodic ones included) and every
      permutation that sorts its rotations: the walk from the row of rotation 0
      emits the block, and then the block again. */
  lemma WalkEmitsBlock(b: seq<byte>, p: seq<nat>, orig: nat, k: nat)
    requires |b| > 0 && SortsRotations(b, p) && orig < |b| && p[orig] == 0
    ensures Decoded(LastColumn(b, p), orig, k) == At(b, k)
  {
    var n, l := |b|, LastColumn(b, p);
    var i := Walk(l, orig, k + 1);
    WalkAdvances(b, p, orig, k + 1);
    EqualAt(b, p[i], k + 1, n, n - 1);
    assert k + 1 + (n - 1) == k + n;
    assert p[i] + (n - 1) == p[i] + n - 1;
    ModPlus(k, n);
  }

  lemma InverseTransform(b: seq<byte>, p: seq<nat>, orig: nat)
    requires |b| > 0 && SortsRotations(b, p) && orig < |b| && p[orig] == 0
    ensures DecodedBlock(LastColumn(b, p), orig, |b|) == b
  {
    forall k | 0 <= k < |b| ensures Decoded(LastColumn(b, p), orig, k) == b[k] {
      WalkEmitsBlock(b, p, orig, k);
      DivModUnique(k, |b|, 0, k);
    }
  }

  /** Any two permutations that sort the rotations give the same last column, and hence the
      same symbols; for the row of rotation 0 see Ties. */
  lemma LastColumnUnique(b: seq<byte>, p: seq<nat>, q: seq<nat>)
    requires |b| > 0 && SortsRotations(b, p) && SortsRotations(b, q)
    ensures LastColumn(b, p) == LastColumn(b, q)
  {
    forall j | 0 <= j < |b| ensures LastColumn(b, p)[j] == LastColumn(b, q)[j] {
      SortedUnique(b, p, q, |b|, j);
      EqualAt(b, p[j], q[j], |b|, |b| - 1);
      assert p[j] + (|b| - 1) == p[j] + |b| - 1 && q[j] + (|b| - 1) == q[j] + |b| - 1;
    }
  }
}
