/** Combining the checksums of two strings (crc32.c): operators on 32-bit words as
    matrices over two elements. */
module Crc32Combine {
  import opened Words
  import opened ExclusiveOr
  import opened Crc32

  const GF2_DIM := 32

  /** The sum of the columns selected by the bits of vec. */
  function Times(mat: seq<nat>, vec: nat): nat
    requires vec < Pow2(|mat|)
    decreases |mat|
  {
    if vec == 0 then 0
    else Xor(if vec % 2 == 1 then mat[0] else 0, Times(mat[1..], vec / 2))
  }

  /** Whether or not the word is already used up. */
  lemma TimesStep(mat: seq<nat>, vec: nat)
    requires mat != [] && vec < Pow2(|mat|)
    ensures vec / 2 < Pow2(|mat[1..]|)
    ensures Times(mat, vec) == Xor(if vec % 2 == 1 then mat[0] else 0, Times(mat[1..], vec / 2))
  {
    XorZero(0);
  }

  method Gf2MatrixTimes(mat: array<nat>, vec0: nat) returns (sum: nat)
    requires vec0 < Pow2(mat.Length)
    ensures sum == Times(mat[..], vec0)
  {
    hide Xor, Times;
    sum := 0;
    var vec: nat, i: nat := vec0, 0;
    assert mat[0..] == mat[..];
    XorZero(Times(mat[..], vec0));
    while vec != 0
      invariant i <= mat.Length && vec < Pow2(mat.Length - i)
      invariant Xor(sum, Times(mat[i..], vec)) == Times(mat[..], vec0)
    {
      TimesStep(mat[i..], vec);
      assert mat[i..][1..] == mat[i + 1..];
      XorAssoc(sum, if vec % 2 == 1 then mat[i] else 0, Times(mat[i + 1..], vec / 2));
      XorZero(sum);
      if vec % 2 == 1 { sum := Xor(sum, mat[i]); }
      vec := vec / 2;
      i := i + 1;
    }
    TimesZero(mat[i..]);
    XorZero(sum);
  }

  lemma TimesZero(mat: seq<nat>)
    ensures Times(mat, 0) == 0
  {
  }

  // ---------- linearity ----------

  lemma {:induction false} TimesXor(mat: seq<nat>, x: nat, y: nat)
    requires x < Pow2(|mat|) && y < Pow2(|mat|)
    ensures Xor(x, y) < Pow2(|mat|)
    ensures Times(mat, Xor(x, y)) == Xor(Times(mat, x), Times(mat, y))
    decreases |mat|
  {
    hide Xor, Times;
    XorBelow(x, y, |mat|);
    XorZero(0);
    if mat == [] {
      TimesZero(mat);
    } else {
      TimesStep(mat, x);
      TimesStep(mat, y);
      TimesStep(mat, Xor(x, y));
      XorParts(x, y);
      TimesXor(mat[1..], x / 2, y / 2);
      XorSelf(mat[0]);
      XorZero(mat[0]);
      XorSwap(if x % 2 == 1 then mat[0] else 0, Times(mat[1..], x / 2), if y % 2 == 1 then mat[0] else 0, Times(mat[1..], y / 2));
    }
  }

  /** Column by column, one matrix applied to another. */
  ghost predicate Product(p: seq<nat>, a: seq<nat>, b: seq<nat>) {
    && |p| == |b| && |a| == GF2_DIM
    && forall n :: 0 <= n < |b| ==> b[n] < Pow2(GF2_DIM) && p[n] == Times(a, b[n])
  }

  lemma {:induction false} TimesBelow(mat: seq<nat>, vec: nat)
    requires vec < Pow2(|mat|) && forall n :: 0 <= n < |mat| ==> mat[n] < Pow2(GF2_DIM)
    ensures Times(mat, vec) < Pow2(GF2_DIM)
    decreases |mat|
  {
    hide Xor;
    if vec != 0 {
      TimesBelow(mat[1..], vec / 2);
      XorBelow(if vec % 2 == 1 then mat[0] else 0, Times(mat[1..], vec / 2), GF2_DIM);
    }
  }

  /** The product of matrices is the composition of the operators. */
  lemma {:induction false} ProductComposes(p: seq<nat>, a: seq<nat>, b: seq<nat>, vec: nat)
    requires Product(p, a, b) && vec < Pow2(|b|)
    ensures Times(b, vec) < Pow2(GF2_DIM) && Times(p, vec) == Times(a, Times(b, vec))
    decreases |b|
  {
    hide Xor, Times;
    TimesBelow(b, vec);
    if b == [] {
      TimesZero(b);
      TimesZero(p);
      TimesZero(a);
    } else {
      TimesStep(b, vec);
      TimesStep(p, vec);
      ProductComposes(p[1..], a, b[1..], vec / 2);
      TimesZero(a);
      TimesXor(a, if vec % 2 == 1 then b[0] else 0, Times(b[1..], vec / 2));
    }
  }

  method Gf2MatrixSquare(square: array<nat>, mat: array<nat>)
    requires square != mat && square.Length == mat.Length == GF2_DIM
    requires forall n :: 0 <= n < GF2_DIM ==> mat[n] < Pow2(GF2_DIM)
    modifies square
    ensures Product(square[..], mat[..], mat[..])
    ensures forall n :: 0 <= n < GF2_DIM ==> square[n] < Pow2(GF2_DIM)
  {
    hide Times, Pow2;
    for n := 0 to GF2_DIM
      invariant mat[..] == old(mat[..])
      invariant forall k :: 0 <= k < n ==> square[k] == Times(mat[..], mat[k]) && square[k] < Pow2(GF2_DIM)
    {
      TimesBelow(mat[..], mat[n]);
      square[n] := Gf2MatrixTimes(mat, mat[n]);
    }
  }

  // ---------- operators that shift in zero bits ----------

  /** The matrix takes every word through k zero bits. */
  ghost predicate ShiftsIn(mat: seq<nat>, k: nat) {
    && |mat| == GF2_DIM && (forall n :: 0 <= n < GF2_DIM ==> mat[n] < Pow2(GF2_DIM))
    && forall v: nat :: v < Pow2(GF2_DIM) ==> Times(mat, v) == Steps(v, k)
  }

  lemma SquareDoubles(sq: seq<nat>, mat: seq<nat>, k: nat)
    requires ShiftsIn(mat, k) && Product(sq, mat, mat)
    requires forall n :: 0 <= n < GF2_DIM ==> sq[n] < Pow2(GF2_DIM)
    ensures ShiftsIn(sq, 2 * k)
  {
    hide Times, Steps, Pow2;
    forall v: nat | v < Pow2(GF2_DIM) ensures Times(sq, v) == Steps(v, 2 * k) {
      ProductComposes(sq, mat, mat, v);
      StepsAdd(v, k, k);
      assert k + k == 2 * k;
    }
  }

  /** Columns 2^i, 2^(i+1), ... */
  ghost predicate Powers(mat: seq<nat>, i: nat) {
    forall n :: 0 <= n < |mat| ==> mat[n] == Pow2(i + n)
  }

  lemma {:induction false} PowersTimes(mat: seq<nat>, i: nat, vec: nat)
    requires Powers(mat, i) && vec < Pow2(|mat|)
    ensures Times(mat, vec) == Shl(vec, i)
    decreases |mat|
  {
    hide Xor, Times, Shl;
    if mat == [] {
      TimesZero(mat);
      ShlZero(i);
    } else {
      TimesStep(mat, vec);
      assert Powers(mat[1..], i + 1) by {
        forall n | 0 <= n < |mat| - 1 ensures mat[1..][n] == Pow2(i + 1 + n) {
          assert mat[1 + n] == Pow2(i + (1 + n));
        }
      }
      PowersTimes(mat[1..], i + 1, vec / 2);
      LowestBit(vec, i);
      assert mat[0] == Pow2(i + 0);
    }
  }

  lemma ShlZero(i: nat)
    ensures Shl(0, i) == 0
  {
  }

  lemma LowestBit(vec: nat, i: nat)
    ensures Xor(if vec % 2 == 1 then Pow2(i) else 0, Shl(vec / 2, i + 1)) == Shl(vec, i)
  {
    hide Xor;
    var low := if vec % 2 == 1 then Pow2(i) else 0;
    XorComm(low, Shl(vec / 2, i + 1));
    XorFields(vec / 2, i + 1, low);
    MulEven(vec / 2, Pow2(i));
    ShlParts(vec, Pow2(i));
  }

  lemma ShlParts(vec: nat, p: nat)
    ensures vec * p == 2 * (vec / 2 * p) + if vec % 2 == 1 then p else 0
  {
    assert vec == 2 * (vec / 2) + vec % 2;
    Spread(vec / 2, vec % 2, p);
  }

  lemma Spread(q: nat, d: nat, p: nat)
    requires d < 2
    ensures (2 * q + d) * p == 2 * (q * p) + if d == 1 then p else 0
  {
  }

  /** The first operator: the polynomial, then the powers of two. */
  lemma OneZeroBit(mat: seq<nat>)
    requires |mat| == GF2_DIM && mat[0] == POLY && Powers(mat[1..], 0)
    ensures ShiftsIn(mat, 1)
  {
    hide Xor, Times, Steps;
    forall n | 0 <= n < GF2_DIM ensures mat[n] < Pow2(GF2_DIM) {
      Pow2Word();
      if n > 0 {
        assert mat[1..][n - 1] == Pow2(0 + (n - 1));
        Pow2Monotone(n - 1, 31);
      }
    }
    forall v: nat | v < Pow2(GF2_DIM) ensures Times(mat, v) == Steps(v, 1) {
      TimesStep(mat, v);
      PowersTimes(mat[1..], 0, v / 2);
      ShlStep(v / 2, 0);
      XorComm(if v % 2 == 1 then mat[0] else 0, v / 2);
      StepsSingle(v);
    }
  }

  lemma StepsSingle(v: nat)
    ensures Steps(v, 1) == Step(v)
  {
    assert Steps(Step(v), 0) == Step(v);
  }

  method ZeroBitOperator(odd: array<nat>)
    requires odd.Length == GF2_DIM
    modifies odd
    ensures ShiftsIn(odd[..], 1)
  {
    hide ShiftsIn;
    odd[0] := POLY;
    var row: nat := 1;
    for n := 1 to GF2_DIM
      invariant odd[0] == POLY && row == Pow2(n - 1)
      invariant forall k :: 1 <= k < n ==> odd[k] == Pow2(k - 1)
    {
      odd[n] := row;
      row := 2 * row;
    }
    assert Powers(odd[..][1..], 0) by {
      forall n | 0 <= n < GF2_DIM - 1 ensures odd[..][1..][n] == Pow2(0 + n) {
        assert odd[n + 1] == Pow2(n + 1 - 1);
      }
    }
    OneZeroBit(odd[..]);
  }

  /** The zero bits that n digits of weight k stand for. */
  function ZeroBits(k: nat, n: nat): nat { k * n }

  /** Applying the operator for this binary digit of the length. */
  lemma DigitApplied(c: nat, k: nat, len: nat)
    ensures Steps(if len % 2 == 1 then Steps(c, k) else c, ZeroBits(2 * k, len / 2)) == Steps(c, ZeroBits(k, len))
  {
    hide Steps;
    Spread(len / 2, len % 2, k);
    assert len == 2 * (len / 2) + len % 2;
    assert 2 * k * (len / 2) == 2 * (len / 2 * k) by { Twice(k, len / 2); }
    assert k * len == 2 * (len / 2 * k) + (if len % 2 == 1 then k else 0);
    if len % 2 == 1 {
      StepsAdd(c, k, 2 * (len / 2 * k));
    }
  }

  lemma Twice(k: nat, h: nat)
    ensures 2 * k * h == 2 * (h * k)
  {
  }

  /** One round: square the operator in `from` into `to` and apply it for one digit. */
  method Round(to: array<nat>, from: array<nat>, crc0: nat, len: nat, ghost k: nat) returns (crc: nat)
    requires to != from && to.Length == GF2_DIM && ShiftsIn(from[..], k) && crc0 < Pow2(GF2_DIM)
    modifies to
    ensures ShiftsIn(to[..], 2 * k) && crc < Pow2(GF2_DIM)
    ensures Steps(crc, ZeroBits(4 * k, len / 2)) == Steps(crc0, ZeroBits(2 * k, len))
  {
    hide Steps, Times, Pow2, ZeroBits;
    ColumnsBelow(from[..], k);
    Gf2MatrixSquare(to, from);
    SquareDoubles(to[..], from[..], k);
    hide ShiftsIn;
    crc := crc0;
    DigitApplied(crc0, 2 * k, len);
    assert 2 * (2 * k) == 4 * k;
    if len % 2 == 1 {
      AppliedIs(to[..], 2 * k, crc0);
      crc := Gf2MatrixTimes(to, crc0);
    }
  }

  lemma ColumnsBelow(mat: seq<nat>, k: nat)
    requires ShiftsIn(mat, k)
    ensures |mat| == GF2_DIM && forall n :: 0 <= n < GF2_DIM ==> mat[n] < Pow2(GF2_DIM)
  {
  }

  lemma AppliedIs(mat: seq<nat>, k: nat, c: nat)
    requires ShiftsIn(mat, k) && c < Pow2(GF2_DIM)
    ensures |mat| == GF2_DIM && Times(mat, c) == Steps(c, k) < Pow2(GF2_DIM)
  {
    StepsBelow(c, k);
  }

  /** `crc32_combine_`. Lengths that are zero or negative give the first checksum back. */
  method Combine(crc1: nat, crc2: nat, len2: int) returns (crc: nat)
    requires crc1 < Pow2(GF2_DIM) && crc2 < Pow2(GF2_DIM)
    ensures crc == if len2 <= 0 then crc1 else Xor(Steps(crc1, 8 * len2), crc2)
  {
    hide Steps, Times, ShiftsIn, Xor, Pow2;
    if len2 <= 0 { return crc1; }
    var even, odd := new nat[GF2_DIM], new nat[GF2_DIM];
    ZeroBitOperator(odd);
    ColumnsBelow(odd[..], 1);
    Gf2MatrixSquare(even, odd);
    SquareDoubles(even[..], odd[..], 1);
    ColumnsBelow(even[..], 2);
    Gf2MatrixSquare(odd, even);
    SquareDoubles(odd[..], even[..], 2);
    crc := crc1;
    var len: nat := len2;
    ghost var k: nat := 4;
    while true
      invariant ShiftsIn(odd[..], k) && crc < Pow2(GF2_DIM) && len > 0
      invariant Steps(crc, ZeroBits(2 * k, len)) == Steps(crc1, 8 * len2)
      decreases len
    {
      crc := Round(even, odd, crc, len, k);
      len := len / 2;
      k := 2 * k;
      if len == 0 { break; }
      crc := Round(odd, even, crc, len, k);
      len := len / 2;
      k := 2 * k;
      if len == 0 { break; }
    }
    StepsNone(crc);
    assert ZeroBits(2 * k, 0) == 0;
    crc := Xor(crc, crc2);
  }

  // ---------- what combination computes ----------

  /** The register is linear in its starting value. */
  lemma {:induction false} RegisterXor(x: nat, y: nat, s: seq<byte>)
    ensures Register(Xor(x, y), s) == Xor(Steps(x, 8 * |s|), Register(y, s))
  {
    hide Xor, Steps;
    if s == [] {
      StepsNone(x);
    } else {
      var init, b := s[..|s| - 1], s[|s| - 1];
      RegisterXor(x, y, init);
      var z := Steps(x, 8 * |init|);
      XorAssoc(z, Register(y, init), b);
      StepsXor(z, Xor(Register(y, init), b), 8);
      StepsAdd(x, 8 * |init|, 8);
    }
  }

  /** The checksum of a concatenation from the checksums of its parts. */
  lemma CombineConcatenates(a: seq<byte>, b: seq<byte>)
    ensures Xor(Steps(Crc(0, a), 8 * |b|), Crc(0, b)) == Crc(0, a + b)
  {
    hide Xor, Steps, Register, Not;
    Pow2Word();
    Pow2Positive();
    NotZero();
    RegisterBelow(ONES, a);
    RegisterBelow(ONES, b);
    var ra := Register(ONES, a);
    XorOnes(ra);
    XorOnes(Register(ONES, b));
    XorComm(ONES, Not(ra));
    XorAssoc(ra, ONES, ONES);
    XorSelf(ONES);
    XorZero(ra);
    XorComm(ra, ONES);
    RegisterConcat(ONES, a, b);
    XorNot(ra);
    RegisterXor(Not(ra), ONES, b);
    RegisterBelow(ra, b);
    XorOnes(Register(ra, b));
    XorAssoc(Steps(Not(ra), 8 * |b|), Register(ONES, b), ONES);
  }

  lemma NotZero()
    ensures Not(0) == ONES
  {
  }

  lemma Pow2Positive()
    ensures 0 < Pow2(32)
  {
  }

  lemma XorNot(c: nat)
    requires c <= ONES
    ensures Xor(Not(c), ONES) == c
  {
    hide Xor;
    XorOnes(Not(c));
  }

  /** `crc32_combine_` of two checksums and the second length is the checksum of the two
      strings joined. */
  method CombineChecksums(a: seq<byte>, b: seq<byte>) returns (crc: nat)
    ensures crc == Crc(0, a + b)
  {
    hide Xor, Steps, Register;
    Pow2Word();
    crc := Combine(Crc(0, a), Crc(0, b), |b|);
    CombineConcatenates(a, b);
    if b == [] { assert a + b == a; }
  }
}
