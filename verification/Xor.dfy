/** Exclusive or on unsigned words, as the addition of a vector space over two elements. */
module ExclusiveOr {
  import opened Words

  /** `x ^ y` on unsigned words. */
  function Xor(x: nat, y: nat): nat
  {
    if x == 0 && y == 0 then 0
    else 2 * Xor(x / 2, y / 2) + if x % 2 != y % 2 then 1 else 0
  }

  lemma XorParts(x: nat, y: nat)
    ensures Xor(x, y) / 2 == Xor(x / 2, y / 2)
    ensures Xor(x, y) % 2 == if x % 2 != y % 2 then 1 else 0
    ensures Xor(x, y) == 2 * Xor(x / 2, y / 2) + if x % 2 != y % 2 then 1 else 0
  {
  }

  /** A word is its half and its low bit. */
  lemma XorJoin(x: nat, y: nat, d: nat, e: nat)
    requires d < 2 && e < 2
    ensures Xor(2 * x + d, 2 * y + e) == 2 * Xor(x, y) + if d != e then 1 else 0
  {
    XorParts(2 * x + d, 2 * y + e);
  }

  lemma {:induction false} XorComm(x: nat, y: nat)
    ensures Xor(x, y) == Xor(y, x)
  {
    if x != 0 || y != 0 { XorComm(x / 2, y / 2); }
  }

  lemma {:induction false} XorZero(x: nat)
    ensures Xor(x, 0) == x && Xor(0, x) == x
  {
    if x != 0 { XorZero(x / 2); }
  }

  lemma {:induction false} XorSelf(x: nat)
    ensures Xor(x, x) == 0
  {
    if x != 0 { XorSelf(x / 2); }
  }

  lemma {:induction false} XorAssoc(x: nat, y: nat, z: nat)
    ensures Xor(Xor(x, y), z) == Xor(x, Xor(y, z))
    decreases x + y + z
  {
    if x + y + z > 0 {
      XorAssoc(x / 2, y / 2, z / 2);
      XorParts(x, y);
      XorParts(y, z);
      XorParts(Xor(x, y), z);
      XorParts(x, Xor(y, z));
    }
  }

  lemma XorSwap(a: nat, b: nat, c: nat, d: nat)
    ensures Xor(Xor(a, b), Xor(c, d)) == Xor(Xor(a, c), Xor(b, d))
  {
    hide Xor;
    XorAssoc(a, b, Xor(c, d));
    XorAssoc(b, c, d);
    XorComm(b, c);
    XorAssoc(c, b, d);
    XorAssoc(a, c, Xor(b, d));
  }

  lemma {:induction false} XorBelow(x: nat, y: nat, n: nat)
    requires x < Pow2(n) && y < Pow2(n)
    ensures Xor(x, y) < Pow2(n)
    decreases n
  {
    if n > 0 {
      XorBelow(x / 2, y / 2, n - 1);
      XorParts(x, y);
    }
  }

  /** The low n bits. */
  function Low(x: nat, n: nat): (r: nat)
    ensures r < Pow2(n)
  {
    x % Pow2(n)
  }

  lemma ShlStep(x: nat, n: nat)
    ensures Shl(x, 0) == x && Shl(x, n + 1) == 2 * Shl(x, n)
  {
    MulEven(x, Pow2(n));
  }

  lemma ShrStep(x: nat, n: nat)
    ensures Shr(x, 0) == x && Shr(x, n + 1) == Shr(x / 2, n)
  {
    HalfDiv(x, Pow2(n));
  }

  lemma LowStep(x: nat, n: nat)
    ensures Low(x, 0) == 0 && Low(x, n + 1) == 2 * Low(x / 2, n) + x % 2
  {
    HalfMod(x, Pow2(n));
  }

  lemma MulEven(x: nat, p: nat)
    ensures x * (2 * p) == 2 * (x * p)
  {
  }

  lemma HalfDiv(x: nat, p: nat)
    requires p > 0
    ensures x / (2 * p) == x / 2 / p
  {
    var q, r := x / 2 / p, x / 2 % p;
    assert x == 2 * (p * q + r) + x % 2;
    MulTwice(p, q);
    DivModUnique(x, 2 * p, q, 2 * r + x % 2);
  }

  /** Shifts and masks distribute over exclusive or. */
  lemma {:induction false} XorShl(x: nat, y: nat, n: nat)
    ensures Xor(Shl(x, n), Shl(y, n)) == Shl(Xor(x, y), n)
    decreases n
  {
    hide Shl;
    if n == 0 {
      ShlStep(x, 0); ShlStep(y, 0); ShlStep(Xor(x, y), 0);
    } else {
      XorShl(x, y, n - 1);
      ShlStep(x, n - 1); ShlStep(y, n - 1); ShlStep(Xor(x, y), n - 1);
      XorJoin(Shl(x, n - 1), Shl(y, n - 1), 0, 0);
    }
  }

  lemma {:induction false} XorShr(x: nat, y: nat, n: nat)
    ensures Shr(Xor(x, y), n) == Xor(Shr(x, n), Shr(y, n))
    decreases n
  {
    hide Shr;
    ShrStep(x, 0); ShrStep(y, 0); ShrStep(Xor(x, y), 0);
    if n > 0 {
      XorShr(x / 2, y / 2, n - 1);
      ShrStep(x, n - 1); ShrStep(y, n - 1); ShrStep(Xor(x, y), n - 1);
      XorParts(x, y);
    }
  }

  lemma {:induction false} XorLow(x: nat, y: nat, n: nat)
    ensures Low(Xor(x, y), n) == Xor(Low(x, n), Low(y, n))
    decreases n
  {
    hide Low;
    LowStep(x, 0); LowStep(y, 0); LowStep(Xor(x, y), 0);
    if n > 0 {
      XorLow(x / 2, y / 2, n - 1);
      LowStep(x, n - 1); LowStep(y, n - 1); LowStep(Xor(x, y), n - 1);
      XorParts(x, y);
      XorJoin(Low(x / 2, n - 1), Low(y / 2, n - 1), x % 2, y % 2);
    }
  }

  /** High and low fields that do not overlap are added. */
  lemma {:induction false} XorFields(hi: nat, n: nat, lo: nat)
    requires lo < Pow2(n)
    ensures Xor(Shl(hi, n), lo) == Shl(hi, n) + lo
    decreases n
  {
    if n == 0 {
      XorZero(hi);
    } else {
      XorFields(hi, n - 1, lo / 2);
      ShlStep(hi, n - 1);
      XorJoin(Shl(hi, n - 1), lo / 2, 0, lo % 2);
    }
  }

  lemma SplitSum(x: nat, n: nat)
    ensures x == Shl(Shr(x, n), n) + Low(x, n)
  {
  }

  lemma SplitWord(x: nat, n: nat)
    ensures x == Xor(Shl(Shr(x, n), n), Low(x, n))
  {
    hide Xor, Shl, Shr, Low;
    SplitSum(x, n);
    XorFields(Shr(x, n), n, Low(x, n));
  }

  /** Fields put together can be taken apart. */
  lemma JoinedParts(hi: nat, n: nat, lo: nat)
    requires lo < Pow2(n)
    ensures Shr(Shl(hi, n) + lo, n) == hi && Low(Shl(hi, n) + lo, n) == lo
  {
    DivModUnique(Shl(hi, n) + lo, Pow2(n), hi, lo);
  }

  lemma LowSmall(x: nat, n: nat)
    requires x < Pow2(n)
    ensures Low(x, n) == x && Shr(x, n) == 0
  {
    DivModUnique(x, Pow2(n), 0, x);
  }

  lemma ShlAdd(x: nat, m: nat, n: nat)
    ensures Shl(Shl(x, m), n) == Shl(x, m + n)
  {
    Pow2Add(m, n);
    MulAssoc(x, Pow2(m), Pow2(n));
  }

  lemma MulAssoc(x: nat, y: nat, z: nat)
    ensures x * y * z == x * (y * z)
  {
  }

  lemma ShlBelow(x: nat, m: nat, n: nat)
    requires x < Pow2(m)
    ensures Shl(x, n) < Pow2(m + n)
  {
    Pow2Add(m, n);
    MulStrict(x, Pow2(m), Pow2(n));
  }

  lemma MulStrict(x: nat, y: nat, z: nat)
    requires x < y && z > 0
    ensures x * z < y * z
  {
  }

  lemma ShrBelow(x: nat, m: nat, n: nat)
    requires x < Pow2(m + n)
    ensures Shr(x, n) < Pow2(m)
  {
    Pow2Add(m, n);
    if Shr(x, n) >= Pow2(m) {
      SplitSum(x, n);
      MulWeak(Pow2(m), Shr(x, n), Pow2(n));
    }
  }

  lemma MulWeak(x: nat, y: nat, z: nat)
    requires x <= y
    ensures x * z <= y * z
  {
  }

  lemma ShlSum(x: nat, y: nat, n: nat)
    ensures Shl(x + y, n) == Shl(x, n) + Shl(y, n)
  {
  }

  /** Shifting left by k moves the boundary at n up to n + k. */
  lemma ShlFields(x: nat, n: nat, k: nat)
    ensures Low(Shl(x, k), n + k) == Shl(Low(x, n), k)
    ensures Shr(Shl(x, k), n + k) == Shr(x, n)
  {
    hide Shl, Shr, Low;
    SplitSum(x, n);
    ShlSum(Shl(Shr(x, n), n), Low(x, n), k);
    ShlAdd(Shr(x, n), n, k);
    ShlBelow(Low(x, n), n, k);
    JoinedParts(Shr(x, n), n + k, Shl(Low(x, n), k));
  }
}
