/** The bucket-header bitmap of the fallback sorter: single bits in 32-bit words, and
    the scan that skips whole words. */
module BitTable {
  import opened Words
  import opened WordBits

  lemma OrBit(x: nat, k: nat, j: nat)
    ensures Bit(Or(x, Pow2(k)), j) <==> Bit(x, j) || j == k
  {
    hide Or, Pow2, Bit;
    BitOr(x, Pow2(k), j);
    BitPow(k, j);
  }

  lemma {:induction false} OrFits(x: nat, y: nat, n: nat)
    requires x < Pow2(n) && y < Pow2(n)
    ensures Or(x, y) < Pow2(n)
    decreases n
  {
    if n > 0 { OrFits(x / 2, y / 2, n - 1); }
  }

  lemma {:induction false} AndFits(x: nat, y: nat)
    ensures And(x, y) <= x
    decreases x
  {
    if x > 0 { AndFits(x / 2, y / 2); }
  }

  lemma ClearLowBit(x: nat, n: nat, j: nat)
    requires 0 < n && j < n
    ensures Bit(And(x, Pow2(n) - 2), j) <==> Bit(x, j) && j != 0
  {
    hide And;
    AndEven(x, Pow2(n - 1) - 1);
    AndMask(x / 2, n - 1);
    var y := And(x / 2, Pow2(n - 1) - 1);
    assert 2 * y / 2 == y && 2 * y % 2 == 0;
    if j > 0 { MaskBit(x / 2, n - 1, j - 1); }
  }

  lemma BelowTop(k: nat, n: nat)
    requires k < n
    ensures Pow2(k) < Pow2(n)
  {
    Pow2Monotone(k + 1, n);
  }

  /** Clearing a bit: the mask is the complement of that bit within n bits. */
  lemma {:induction false} ClearBit(x: nat, n: nat, k: nat, j: nat)
    requires k < n && j < n && Pow2(k) < Pow2(n)
    ensures Bit(And(x, Pow2(n) - 1 - Pow2(k)), j) <==> Bit(x, j) && j != k
    decreases n
  {
    if k == 0 {
      ClearLowBit(x, n, j);
    } else {
      BelowTop(k - 1, n - 1);
      var m := Pow2(n - 1) - 1 - Pow2(k - 1);
      assert Pow2(n) - 1 - Pow2(k) == 2 * m + 1;
      AndOdd(x, m);
      if j > 0 { ClearBit(x / 2, n - 1, k - 1, j - 1); }
    }
  }

  lemma {:induction false} MaskBit(x: nat, n: nat, j: nat)
    requires j < n
    ensures Bit(x % Pow2(n), j) == Bit(x, j)
    decreases n
  {
    HalfMod(x, Pow2(n - 1));
    if j > 0 { MaskBit(x / 2, n - 1, j - 1); }
  }

  lemma {:induction false} OnesBit(n: nat, j: nat)
    requires j < n
    ensures Bit(Pow2(n) - 1, j)
  {
    assert (Pow2(n) - 1) / 2 == Pow2(n - 1) - 1 && (Pow2(n) - 1) % 2 == 1;
    if j > 0 { OnesBit(n - 1, j - 1); }
  }

  lemma {:induction false} ZeroBit(j: nat)
    ensures !Bit(0, j)
  {
    if j > 0 { ZeroBit(j - 1); }
  }

  ghost predicate Table(bh: seq<nat>) {
    forall w :: 0 <= w < |bh| ==> bh[w] < 0x1_0000_0000
  }

  /** `ISSET_BH`. */
  predicate IsSet(bh: seq<nat>, z: nat) {
    z / 32 < |bh| && Bit(bh[z / 32], z % 32)
  }

  method SetBH(bhtab: array<nat>, zz: nat)
    requires Table(bhtab[..]) && zz / 32 < bhtab.Length
    modifies bhtab
    ensures Table(bhtab[..])
    ensures forall z: nat :: IsSet(bhtab[..], z) <==> IsSet(old(bhtab[..]), z) || z == zz
  {
    ghost var b := bhtab[..];
    bhtab[zz / 32] := Or(bhtab[zz / 32], Shl(1, zz % 32));
    SetBit(b, zz, Or(b[zz / 32], Shl(1, zz % 32)));
    assert bhtab[..] == b[zz / 32 := Or(b[zz / 32], Shl(1, zz % 32))];
  }

  method ClearBH(bhtab: array<nat>, zz: nat)
    requires Table(bhtab[..]) && zz / 32 < bhtab.Length
    modifies bhtab
    ensures Table(bhtab[..])
    ensures forall z: nat :: IsSet(bhtab[..], z) <==> IsSet(old(bhtab[..]), z) && z != zz
  {
    ghost var b := bhtab[..];
    ClearMask(zz % 32);
    bhtab[zz / 32] := And(bhtab[zz / 32], 0xffff_ffff - Shl(1, zz % 32));
    ResetBit(b, zz, And(b[zz / 32], 0xffff_ffff - Shl(1, zz % 32)));
    assert bhtab[..] == b[zz / 32 := And(b[zz / 32], 0xffff_ffff - Shl(1, zz % 32))];
  }

  lemma ClearMask(k: nat)
    requires k < 32
    ensures Shl(1, k) == Pow2(k) <= 0xffff_ffff
  {
    Pow2Word();
    Pow2Monotone(k, 31);
  }

  lemma SetBit(b: seq<nat>, zz: nat, v: nat)
    requires Table(b) && zz / 32 < |b| && v == Or(b[zz / 32], Shl(1, zz % 32))
    ensures Table(b[zz / 32 := v])
    ensures forall z: nat :: IsSet(b[zz / 32 := v], z) <==> IsSet(b, z) || z == zz
  {
    Pow2Word();
    ClearMask(zz % 32);
    OrFits(b[zz / 32], Pow2(zz % 32), 32);
    forall z: nat ensures IsSet(b[zz / 32 := v], z) <==> IsSet(b, z) || z == zz {
      if z / 32 == zz / 32 { OrBit(b[zz / 32], zz % 32, z % 32); }
    }
  }

  lemma ResetBit(b: seq<nat>, zz: nat, v: nat)
    requires Table(b) && zz / 32 < |b| && Shl(1, zz % 32) <= 0xffff_ffff
    requires v == And(b[zz / 32], 0xffff_ffff - Shl(1, zz % 32))
    ensures Table(b[zz / 32 := v])
    ensures forall z: nat :: IsSet(b[zz / 32 := v], z) <==> IsSet(b, z) && z != zz
  {
    Pow2Word();
    ClearMask(zz % 32);
    AndFits(b[zz / 32], 0xffff_ffff - Shl(1, zz % 32));
    forall z: nat ensures IsSet(b[zz / 32 := v], z) <==> IsSet(b, z) && z != zz {
      if z / 32 == zz / 32 { ClearBit(b[zz / 32], 32, zz % 32, z % 32); }
    }
  }

  lemma WordRun(bh: seq<nat>, k: nat, v: bool)
    requires Table(bh) && k % 32 == 0 && k / 32 < |bh|
    requires bh[k / 32] == if v then 0xffff_ffff else 0
    ensures forall z: nat :: k <= z < k + 32 ==> IsSet(bh, z) == v
  {
    Pow2Word();
    forall z: nat | k <= z < k + 32 ensures IsSet(bh, z) == v {
      assert z / 32 == k / 32 && z % 32 == z - k;
      OnesBit(32, z - k);
      ZeroBit(z - k);
    }
  }

  /** The scan for the end of a run of bits equal to v: singly up to a word boundary,
      then by whole words, then singly again. It stops because some bit at or before
      `limit` differs. */
  method SkipRun(bhtab: array<nat>, k0: nat, v: bool, ghost limit: nat) returns (k: nat)
    requires Table(bhtab[..]) && k0 <= limit && limit / 32 < bhtab.Length
    requires IsSet(bhtab[..], limit) != v
    ensures k0 <= k <= limit && IsSet(bhtab[..], k) != v
    ensures forall z: nat :: k0 <= z < k ==> IsSet(bhtab[..], z) == v
  {
    hide Bit, IsSet, Table;
    k := k0;
    while IsSet(bhtab[..], k) == v && k % 32 != 0
      invariant k0 <= k <= limit
      invariant forall z: nat :: k0 <= z < k ==> IsSet(bhtab[..], z) == v
      decreases limit - k
    {
      k := k + 1;
    }
    if IsSet(bhtab[..], k) == v {
      while bhtab[k / 32] == (if v then 0xffff_ffff else 0)
        invariant k0 <= k <= limit && k % 32 == 0
        invariant forall z: nat :: k0 <= z < k ==> IsSet(bhtab[..], z) == v
        decreases limit - k
      {
        WordRun(bhtab[..], k, v);
        k := k + 32;
      }
      while IsSet(bhtab[..], k) == v
        invariant k0 <= k <= limit
        invariant forall z: nat :: k0 <= z < k ==> IsSet(bhtab[..], z) == v
        decreases limit - k
      {
        k := k + 1;
      }
    }
  }
}
