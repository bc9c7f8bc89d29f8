/** Bit strings, most significant bit first, and the numbers they stand for. */
module Bits {
  import opened Words

  function Digit(b: bool): nat { if b then 1 else 0 }

  /** The n low bits of v. */
  function BitsOf(v: nat, n: nat): (s: seq<bool>)
    ensures |s| == n
  {
    if n == 0 then [] else BitsOf(v / 2, n - 1) + [v % 2 == 1]
  }

  function ValueOf(s: seq<bool>): nat {
    if s == [] then 0 else 2 * ValueOf(s[..|s| - 1]) + Digit(s[|s| - 1])
  }

  lemma {:induction false} ValueRange(s: seq<bool>)
    ensures ValueOf(s) < Pow2(|s|)
  {
    if s != [] { ValueRange(s[..|s| - 1]); }
  }

  lemma {:induction false} ValueOfBits(v: nat, n: nat)
    requires v < Pow2(n)
    ensures ValueOf(BitsOf(v, n)) == v
  {
    if n > 0 {
      ValueOfBits(v / 2, n - 1);
      assert BitsOf(v, n)[..n - 1] == BitsOf(v / 2, n - 1);
    }
  }

  lemma {:induction false} BitsOfValue(s: seq<bool>)
    ensures BitsOf(ValueOf(s), |s|) == s
  {
    if s != [] {
      BitsOfValue(s[..|s| - 1]);
      assert s == s[..|s| - 1] + [s[|s| - 1]];
    }
  }

  lemma {:induction false} ValueConcat(s: seq<bool>, t: seq<bool>)
    ensures ValueOf(s + t) == ValueOf(s) * Pow2(|t|) + ValueOf(t)
  {
    if t == [] {
      assert s + t == s;
    } else {
      var init, last := t[..|t| - 1], t[|t| - 1];
      ValueConcat(s, init);
      assert (s + t)[..|s + t| - 1] == s + init;
      ShiftDistributes(ValueOf(s), Pow2(|init|), ValueOf(init));
    }
  }

  lemma ShiftDistributes(a: nat, p: nat, c: nat)
    ensures 2 * (a * p + c) == a * (2 * p) + 2 * c
  {
  }

  /** The first k of n bits are the number without its n - k low bits. */
  lemma {:induction false} BitsPrefix(v: nat, n: nat, k: nat)
    requires k <= n
    ensures BitsOf(v, n)[..k] == BitsOf(v / Pow2(n - k), k)
    decreases n
  {
    if k < n {
      BitsPrefix(v / 2, n - 1, k);
      assert BitsOf(v, n)[..k] == BitsOf(v / 2, n - 1)[..k];
      DivTwice(v, Pow2(n - 1 - k));
    } else {
      assert BitsOf(v, n)[..n] == BitsOf(v, n);
    }
  }

  lemma DivTwice(v: nat, p: nat)
    requires p > 0
    ensures v / 2 / p == v / (2 * p)
  {
    var q, r := v / 2 / p, v / 2 % p;
    var d := v % 2;
    assert v == 2 * (p * q + r) + d;
    MulTwice(p, q);
    DivModUnique(v, 2 * p, q, 2 * r + d);
  }
}
