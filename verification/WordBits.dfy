/** Single bits of a word, and what the operators of C do to each of them. */
module WordBits {
  import opened Words
  import opened ExclusiveOr

  /** Bit i is set. */
  predicate Bit(x: nat, i: nat) { if i == 0 then x % 2 == 1 else Bit(x / 2, i - 1) }

  /** Bit i is there and is set. */
  predicate BitAt(x: nat, i: int) { i >= 0 && Bit(x, i) }

  lemma BitLowest(x: nat)
    ensures Bit(x, 0) <==> x % 2 == 1
  {
  }

  lemma BitNext(x: nat, i: nat)
    ensures Bit(x, i + 1) == Bit(x / 2, i)
  {
  }

  /** Bit i is the lowest after a shift by i. */
  lemma {:induction false} BitIsShr(x: nat, i: nat)
    ensures Bit(x, i) <==> Shr(x, i) % 2 == 1
    decreases i
  {
    hide Shr;
    ShrStep(x, 0);
    if i > 0 {
      ShrStep(x, i - 1);
      BitIsShr(x / 2, i - 1);
    }
  }

  lemma {:induction false} BitXor(x: nat, y: nat, i: nat)
    ensures Bit(Xor(x, y), i) <==> Bit(x, i) != Bit(y, i)
    decreases i
  {
    hide Xor;
    XorParts(x, y);
    if i > 0 { BitXor(x / 2, y / 2, i - 1); }
  }

  lemma {:induction false} BitAnd(x: nat, y: nat, i: nat)
    ensures Bit(And(x, y), i) <==> Bit(x, i) && Bit(y, i)
    decreases i
  {
    hide Bit;
    assert And(x, y) / 2 == And(x / 2, y / 2) && (And(x, y) % 2 == 1 <==> x % 2 == 1 && y % 2 == 1);
    if i == 0 {
      BitLowest(x);
      BitLowest(y);
      BitLowest(And(x, y));
    } else {
      BitNext(x, i - 1);
      BitNext(y, i - 1);
      BitNext(And(x, y), i - 1);
      BitAnd(x / 2, y / 2, i - 1);
    }
  }

  lemma {:induction false} BitOr(x: nat, y: nat, i: nat)
    ensures Bit(Or(x, y), i) <==> Bit(x, i) || Bit(y, i)
    decreases i
  {
    hide Bit;
    assert Or(x, y) / 2 == Or(x / 2, y / 2) && (Or(x, y) % 2 == 1 <==> x % 2 == 1 || y % 2 == 1);
    if i == 0 {
      BitLowest(x);
      BitLowest(y);
      BitLowest(Or(x, y));
    } else {
      BitNext(x, i - 1);
      BitNext(y, i - 1);
      BitNext(Or(x, y), i - 1);
      BitOr(x / 2, y / 2, i - 1);
    }
  }

  lemma {:induction false} BitPow(k: nat, i: nat)
    ensures Bit(Pow2(k), i) <==> i == k
    decreases k
  {
    hide Bit;
    if i == 0 {
      BitLowest(Pow2(k));
    } else {
      BitNext(Pow2(k), i - 1);
      if k == 0 { NoBit(i - 1); } else { BitPow(k - 1, i - 1); }
    }
  }

  lemma {:induction false} BitShl(x: nat, n: nat, i: nat)
    ensures Bit(Shl(x, n), i) <==> i >= n && Bit(x, i - n)
    decreases n
  {
    hide Bit, Shl;
    ShlStep(x, 0);
    if n > 0 {
      ShlStep(x, n - 1);
      if i == 0 {
        BitLowest(Shl(x, n));
      } else {
        BitNext(Shl(x, n), i - 1);
        BitShl(x, n - 1, i - 1);
      }
    }
  }

  lemma {:induction false} BitShr(x: nat, n: nat, i: nat)
    ensures Bit(Shr(x, n), i) == Bit(x, i + n)
    decreases n
  {
    hide Bit, Shr;
    ShrStep(x, 0);
    if n > 0 {
      ShrStep(x, n - 1);
      BitNext(x, i + n - 1);
      BitShr(x / 2, n - 1, i);
    }
  }

  lemma {:induction false} BitLow(x: nat, n: nat, i: nat)
    ensures Bit(Low(x, n), i) <==> i < n && Bit(x, i)
    decreases n
  {
    hide Bit, Low;
    LowStep(x, 0);
    if n == 0 {
      NoBit(i);
    } else {
      LowStep(x, n - 1);
      if i == 0 {
        BitLowest(x);
        BitLowest(Low(x, n));
      } else {
        BitNext(x, i - 1);
        BitNext(Low(x, n), i - 1);
        BitLow(x / 2, n - 1, i - 1);
      }
    }
  }

  lemma {:induction false} NoBit(i: nat)
    ensures !Bit(0, i)
    decreases i
  {
    if i > 0 { NoBit(i - 1); }
  }

  /** A word below 2^n has no bits from n on. */
  lemma BitBelow(x: nat, n: nat, i: nat)
    requires x < Pow2(n) && i >= n
    ensures !Bit(x, i)
  {
    hide Bit;
    LowSmall(x, n);
    BitLow(x, n, i);
  }

  /** Two fields side by side. */
  lemma BitJoin(hi: nat, n: nat, lo: nat, i: nat)
    requires lo < Pow2(n)
    ensures Bit(Shl(hi, n) + lo, i) <==> if i < n then Bit(lo, i) else Bit(hi, i - n)
  {
    hide Bit, Shl, Xor;
    XorFields(hi, n, lo);
    BitXor(Shl(hi, n), lo, i);
    BitShl(hi, n, i);
    if i >= n { BitBelow(lo, n, i); }
  }

  /** A word is its bits. */
  lemma {:induction false} SameBits(x: nat, y: nat)
    requires forall i: nat :: Bit(x, i) == Bit(y, i)
    ensures x == y
    decreases x + y
  {
    hide Bit;
    BitLowest(x);
    BitLowest(y);
    if x + y > 0 {
      forall i: nat ensures Bit(x / 2, i) == Bit(y / 2, i) {
        BitNext(x, i);
        BitNext(y, i);
      }
      SameBits(x / 2, y / 2);
    }
  }
}
