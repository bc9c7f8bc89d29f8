/** What of a compressed block depends on how a sort arranges equal rotations (blocksort.c,
    compress.c): never the symbols; the row of rotation 0 exactly when some other rotation
    equals it. */
module Ties {
  import opened Words
  import opened Permutations
  import opened Rotations
  import opened Transform
  import opened MtfEncoder

  /** Whichever sort is used, the same symbols are sent. */
  lemma SameSymbols(b: seq<byte>, p: seq<nat>, q: seq<nat>, inUse: seq<bool>)
    requires |b| > 0 && SortsRotations(b, p) && SortsRotations(b, q) && UsedIn(b, inUse)
    ensures BlockSymbols(b, p, inUse) == BlockSymbols(b, q, inUse)
  {
    hide SortsRotations, LastColumn, Rank;
    LastColumnUnique(b, p, q);
    assert Column(b, p, inUse) == Column(b, q, inUse) by {
      hide UsedIn;
      ColumnsAgree(b, p, q, inUse);
    }
  }

  lemma ColumnsAgree(b: seq<byte>, p: seq<nat>, q: seq<nat>, inUse: seq<bool>)
    requires |b| > 0 && LastColumn(b, p) == LastColumn(b, q) && |inUse| == 256
    ensures Column(b, p, inUse) == Column(b, q, inUse)
  {
    assert |p| == |LastColumn(b, p)| == |q|;
  }

  /** Some other rotation equals rotation 0. */
  ghost predicate Tied(b: seq<byte>) {
    |b| > 0 && exists k :: 0 < k < |b| && Cmp(b, 0, k, |b|) == 0
  }

  /** That is: turning the block by some number of characters gives the block again. */
  lemma TiedIsPeriodic(b: seq<byte>)
    requires |b| > 0
    ensures Tied(b) <==> exists k :: 0 < k < |b| && b[k..] + b[..k] == b
  {
    forall k | 0 < k < |b| ensures Cmp(b, 0, k, |b|) == 0 <==> b[k..] + b[..k] == b {
      TurnIs(b, k);
    }
  }

  lemma TurnIs(b: seq<byte>, k: nat)
    requires 0 < k < |b|
    ensures Cmp(b, 0, k, |b|) == 0 <==> b[k..] + b[..k] == b
  {
    hide At;
    var n, t := |b|, b[k..] + b[..k];
    if Cmp(b, 0, k, n) == 0 {
      forall i | 0 <= i < n ensures t[i] == b[i] {
        EqualAt(b, 0, k, n, i);
        TurnAt(b, k, i);
      }
    } else if t == b {
      forall x: nat | x < n ensures Alike(b, 0, k, x) { TurnAt(b, k, x); }
      SameCmp(b, 0, k, n);
    }
  }

  lemma TurnAt(b: seq<byte>, k: nat, i: nat)
    requires 0 < k < |b| && i < |b|
    ensures At(b, 0 + i) == b[i] && At(b, k + i) == (b[k..] + b[..k])[i]
  {
    DivModUnique(i, |b|, 0, i);
    if k + i < |b| {
      DivModUnique(k + i, |b|, 0, k + i);
    } else {
      DivModUnique(k + i, |b|, 1, k + i - |b|);
    }
  }

  ghost predicate Alike(b: seq<byte>, i: nat, j: nat, x: nat)
    requires |b| > 0
  {
    At(b, i + x) == At(b, j + x)
  }

  lemma {:induction false} SameCmp(b: seq<byte>, i: nat, j: nat, m: nat)
    requires |b| > 0 && forall x: nat :: x < m ==> Alike(b, i, j, x)
    ensures Cmp(b, i, j, m) == 0
    decreases m
  {
    if m > 0 {
      assert Alike(b, i, j, 0);
      var i', j' := i + 1, j + 1;
      forall x: nat | x < m - 1 ensures Alike(b, i', j', x) {
        assert Alike(b, i, j, x + 1);
        assert i + (x + 1) == i' + x && j + (x + 1) == j' + x;
      }
      SameCmp(b, i', j', m - 1);
    }
  }

  // ---------- the row of rotation 0 ----------

  /** The places i and j exchanged. */
  function Exchange(p: seq<nat>, i: nat, j: nat): (q: seq<nat>)
    requires i < |p| && j < |p|
  {
    p[i := p[j]][j := p[i]]
  }

  lemma ExchangeTied(b: seq<byte>, p: seq<nat>, i: nat, j: nat)
    requires |b| > 0 && SortsRotations(b, p) && i < |b| && j < |b| && i != j && Cmp(b, p[i], p[j], |b|) == 0
    ensures SortsRotations(b, Exchange(p, i, j))
  {
    var n, q := |b|, Exchange(p, i, j);
    forall x | 0 <= x < n ensures Cmp(b, p[x], q[x], n) == 0 && Cmp(b, q[x], p[x], n) == 0 {
      CmpRefl(b, p[x], n);
      CmpSym(b, p[i], p[j], n);
    }
    forall x, y | 0 <= x < y < n ensures Cmp(b, q[x], q[y], n) <= 0 {
      CmpTrans(b, q[x], p[x], p[y], n);
      CmpTrans(b, q[x], p[y], q[y], n);
    }
    assert Injective(q) by {
      forall x, y | 0 <= x < y < n ensures q[x] != q[y] { }
    }
  }

  /** Rotation 0 is in row i of a sorted listing. */
  ghost predicate OriginAt(b: seq<byte>, p: seq<nat>, i: nat) {
    |b| > 0 && SortsRotations(b, p) && i < |p| && p[i] == 0
  }

  /** The row of rotation 0 is the same in every order of the rotations, unless another
      rotation equals it: then some other order has it in another row. */
  lemma OriginDecided(b: seq<byte>, p: seq<nat>, i: nat)
    requires OriginAt(b, p, i)
    ensures Tied(b) <==> exists q, j: nat :: OriginAt(b, q, j) && j != i
  {
    var n := |b|;
    if Tied(b) {
      var k :| 0 < k < n && Cmp(b, 0, k, n) == 0;
      Surjective(p, n);
      assert k in p;
      var j :| 0 <= j < n && p[j] == k;
      ExchangeTied(b, p, i, j);
      assert OriginAt(b, Exchange(p, i, j), j);
    }
    if q, j: nat :| OriginAt(b, q, j) && j != i {
      SortedUnique(b, p, q, n, j);
      CmpSym(b, p[j], 0, n);
      assert p[j] != 0;
      assert 0 < p[j] < n && Cmp(b, 0, p[j], n) == 0;
    }
  }

  /** What is sent of a block, other than its checksum and the choice of tables, is the same
      whichever sort is used, if no other rotation equals rotation 0. */
  lemma SameBlock(b: seq<byte>, p: seq<nat>, i: nat, q: seq<nat>, j: nat, inUse: seq<bool>)
    requires OriginAt(b, p, i) && OriginAt(b, q, j) && UsedIn(b, inUse)
    ensures BlockSymbols(b, p, inUse) == BlockSymbols(b, q, inUse)
    ensures !Tied(b) ==> i == j
  {
    SameSymbols(b, p, q, inUse);
    hide Tied, UsedIn, BlockSymbols;
    OriginDecided(b, p, i);
  }

  /** Any block that is some string twice is such a block. */
  lemma Doubled(w: seq<byte>)
    requires w != []
    ensures Tied(w + w)
  {
    var b := w + w;
    assert b[|w|..] + b[..|w|] == b;
    TiedIsPeriodic(b);
  }

  /** A block that is one character twice: each of its two orders is sorted, and they differ in
      the row of rotation 0. */
  lemma TwoOrders()
    ensures OriginAt([251, 251], [0, 1], 0) && OriginAt([251, 251], [1, 0], 1)
  {
    AllEqual([251, 251], [0, 1]);
    AllEqual([251, 251], [1, 0]);
  }

  lemma AllEqual(b: seq<byte>, p: seq<nat>)
    requires b == [251, 251] && IsPerm(p, 2)
    ensures SortsRotations(b, p)
  {
    forall x, y | 0 <= x < y < |p| ensures Cmp(b, p[x], p[y], |b|) <= 0 {
      forall k: nat | k < 2 ensures Alike(b, p[x], p[y], k) { }
      SameCmp(b, p[x], p[y], 2);
    }
  }
}
