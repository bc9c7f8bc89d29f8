/** Period certification of the SFMT generator (SFMT.c): after it, the inner product of the
    first word with the parity check vector is odd. */
module SfmtPeriod {
  import opened Words
  import opened ExclusiveOr

  /** Whether the number of set bits is odd. */
  function Parity(x: nat): bool {
    if x == 0 then false else (x % 2 == 1) != Parity(x / 2)
  }

  lemma ParityStep(x: nat)
    ensures Parity(x) == ((x % 2 == 1) != Parity(x / 2))
  {
  }

  lemma {:induction false} ParityXor(x: nat, y: nat)
    ensures Parity(Xor(x, y)) == (Parity(x) != Parity(y))
    decreases x + y
  {
    if x + y > 0 {
      hide Xor;
      XorParts(x, y);
      ParityXor(x / 2, y / 2);
      ParityStep(x); ParityStep(y); ParityStep(Xor(x, y));
    } else {
      XorZero(0);
    }
  }

  lemma {:induction false} ParityShl(x: nat, n: nat)
    ensures Parity(Shl(x, n)) == Parity(x)
    decreases n
  {
    hide Shl;
    ShlStep(x, 0);
    if n > 0 {
      ShlStep(x, n - 1);
      ParityShl(x, n - 1);
      ParityStep(Shl(x, n));
    }
  }

  lemma {:induction false} AndXor(x: nat, y: nat, m: nat)
    ensures And(Xor(x, y), m) == Xor(And(x, m), And(y, m))
    decreases m
  {
    if m == 0 {
      XorZero(0);
    } else {
      AndXor(x / 2, y / 2, m / 2);
      XorParts(x, y);
      hide Xor;
      AndParts(x, m);
      AndParts(y, m);
      AndParts(Xor(x, y), m);
      XorJoin(And(x / 2, m / 2), And(y / 2, m / 2), AndBit(x, m), AndBit(y, m));
    }
  }

  function AndBit(x: nat, y: nat): nat { if x % 2 == 1 && y % 2 == 1 then 1 else 0 }

  lemma AndParts(x: nat, y: nat)
    ensures And(x, y) == 2 * And(x / 2, y / 2) + AndBit(x, y)
  {
  }

  /** One bit of a mask. */
  lemma {:induction false} AndPower(j: nat, m: nat)
    ensures And(Pow2(j), m) == 0 || And(Pow2(j), m) == Pow2(j)
    ensures Parity(Pow2(j))
    decreases j
  {
    AndParts(Pow2(j), m);
    if j > 0 {
      AndPower(j - 1, m / 2);
    } else {
      assert !Parity(0);
      assert And(0, m / 2) == 0;
    }
  }

  lemma {:induction false} SomeBit(m: nat, n: nat)
    requires 0 < m < Pow2(n)
    ensures exists j :: 0 <= j < n && And(Pow2(j), m) != 0
    decreases n
  {
    if m % 2 == 1 {
      AndParts(Pow2(0), m);
      assert And(Pow2(0), m) != 0;
    } else {
      SomeBit(m / 2, n - 1);
      var j :| 0 <= j < n - 1 && And(Pow2(j), m / 2) != 0;
      AndParts(Pow2(j + 1), m);
      assert And(Pow2(j + 1), m) != 0;
    }
  }

  /** Folding the upper half of 2k bits onto the lower keeps the parity in k bits. */
  lemma FoldHalf(x: nat, k: nat)
    ensures Parity(Low(Xor(x, Shr(x, k)), k)) == Parity(Low(x, 2 * k))
  {
    hide Xor, Shr, Low, Shl, Pow2;
    XorLow(x, Shr(x, k), k);
    ParityXor(Low(x, k), Low(Shr(x, k), k));
    LowSplit(x, k);
    XorFields(Low(Shr(x, k), k), k, Low(x, k));
    ParityXor(Shl(Low(Shr(x, k), k), k), Low(x, k));
    ParityShl(Low(Shr(x, k), k), k);
  }

  lemma LowSplit(x: nat, k: nat)
    ensures Low(x, 2 * k) == Shl(Low(Shr(x, k), k), k) + Low(x, k)
  {
    hide Shr, Low, Shl, Pow2;
    SplitSum(x, k);
    SplitSum(Shr(x, k), k);
    var h := Shr(Shr(x, k), k);
    ShlSum(Shl(h, k), Low(Shr(x, k), k), k);
    ShlAdd(h, k, k);
    TwoFields(Low(Shr(x, k), k), Low(x, k), k);
    JoinedParts(h, k + k, Shl(Low(Shr(x, k), k), k) + Low(x, k));
  }

  lemma TwoFields(hi: nat, lo: nat, k: nat)
    requires hi < Pow2(k) && lo < Pow2(k)
    ensures Shl(hi, k) + lo < Pow2(k + k)
  {
    Pow2Add(k, k);
    MulWeak(hi + 1, Pow2(k), Pow2(k));
    ShlSum(hi, 1, k);
  }

  /** The inner product of the words with the check vector. */
  function Inner(w: seq<nat>, parity: seq<nat>): bool
    requires |w| >= 4 && |parity| == 4
  {
    Parity(And(w[0], parity[0])) != (Parity(And(w[1], parity[1])) != (Parity(And(w[2], parity[2])) != Parity(And(w[3], parity[3]))))
  }

  /** The xor of the masked words, folded down to one bit. */
  method InnerProduct(w: seq<nat>, parity: seq<nat>) returns (inner: nat)
    requires |w| >= 4 && |parity| == 4
    requires forall i :: 0 <= i < 4 ==> parity[i] < Pow2(32)
    ensures inner == if Inner(w, parity) then 1 else 0
  {
    hide Xor, And, Shr, Low, Pow2, Parity;
    inner := 0;
    ghost var acc := false;
    ParityNone();
    var i: nat := 0;
    while i < 4
      invariant i <= 4 && inner < Pow2(32) && Parity(inner) == acc
      invariant acc == (((i > 0 && Parity(And(w[0], parity[0]))) != (i > 1 && Parity(And(w[1], parity[1])))) !=
                        ((i > 2 && Parity(And(w[2], parity[2]))) != (i > 3 && Parity(And(w[3], parity[3])))))
    {
      AndBelow(w[i], parity[i], 32);
      XorBelow(inner, And(w[i], parity[i]), 32);
      ParityXor(inner, And(w[i], parity[i]));
      inner := Xor(inner, And(w[i], parity[i]));
      acc := acc != Parity(And(w[i], parity[i]));
      i := i + 1;
    }
    LowSmall(inner, 32);
    var s: nat := 16;
    while s > 0
      invariant s == 16 || s == 8 || s == 4 || s == 2 || s == 1 || s == 0
      invariant Parity(Low(inner, if s == 0 then 1 else 2 * s)) == acc
    {
      FoldHalf(inner, s);
      inner := Xor(inner, Shr(inner, s));
      s := s / 2;
    }
    OneBit(inner);
    inner := And(inner, 1);
  }

  lemma ParityNone()
    ensures !Parity(0) && 0 < Pow2(32)
  {
  }

  lemma OneBit(x: nat)
    ensures And(x, 1) == if Parity(Low(x, 1)) then 1 else 0
  {
    assert Pow2(1) == 2;
    AndMask(x, 1);
    ParityStep(x % 2);
  }

  lemma {:induction false} AndBelow(x: nat, m: nat, n: nat)
    requires m < Pow2(n)
    ensures And(x, m) < Pow2(n)
    decreases n
  {
    if n > 0 {
      AndBelow(x / 2, m / 2, n - 1);
      AndParts(x, m);
    }
  }

  lemma FlipOne(w: seq<nat>, parity: seq<nat>, i: nat, j: nat)
    requires |w| >= 4 && |parity| == 4 && i < 4 && And(Pow2(j), parity[i]) != 0
    ensures Inner(w[i := Xor(w[i], Pow2(j))], parity) == !Inner(w, parity)
  {
    AndPower(j, parity[i]);
    AndXor(w[i], Pow2(j), parity[i]);
    ParityXor(And(w[i], parity[i]), And(Pow2(j), parity[i]));
    hide Xor, And, Parity, Pow2;
  }

  /** `period_certification`: if the check vector has a bit at all, the inner product is odd
      afterwards, and at most one bit of the state has changed. */
  method PeriodCertification(w: array<nat>, parity: seq<nat>)
    requires w.Length >= 4 && |parity| == 4
    requires forall i :: 0 <= i < 4 ==> parity[i] < Pow2(32)
    modifies w
    ensures (exists i :: 0 <= i < 4 && parity[i] != 0) ==> Inner(w[..], parity)
    ensures w[..] == old(w[..]) ||
            exists i, j: nat :: 0 <= i < 4 && j < 32 && w[..] == old(w[..])[i := Xor(old(w[i]), Pow2(j))]
    ensures Inner(old(w[..]), parity) ==> w[..] == old(w[..])
  {
    hide Xor, And, Pow2, Inner;
    var inner := InnerProduct(w[..], parity);
    if inner == 1 { return; }
    ghost var w0 := w[..];
    for i := 0 to 4
      invariant w[..] == w0
      invariant forall k :: 0 <= k < i ==> parity[k] == 0
    {
      var work: nat := 1;
      PowerZero();
      for j := 0 to 32
        invariant w[..] == w0 && work == Pow2(j)
        invariant forall k :: 0 <= k < j ==> And(Pow2(k), parity[i]) == 0
      {
        if And(work, parity[i]) != 0 {
          FlipOne(w0, parity, i, j);
          w[i] := Xor(w[i], work);
          assert w[..] == w0[i := Xor(w0[i], Pow2(j))];
          return;
        }
        PowerNext(j);
        work := 2 * work;
      }
      if parity[i] > 0 { SomeBit(parity[i], 32); }
    }
  }

  lemma PowerZero()
    ensures Pow2(0) == 1
  {
  }

  lemma PowerNext(j: nat)
    ensures Pow2(j + 1) == 2 * Pow2(j)
  {
  }
}
