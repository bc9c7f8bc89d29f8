/** The checksums of bzip2 and of zlib bit by bit: both divide by the same polynomial, one
    with the highest power first and one with the lowest, and bzip2 combines the checksums of
    its blocks by rotating. */
module ChecksumBits {
  import opened Words
  import opened ExclusiveOr
  import opened WordBits
  import opened BlockCrc
  import Zlib = Crc32

  // ---------- the generator polynomial ----------

  /** x^e is one of the powers. */
  predicate Power(e: int) {
    e == 0 || e == 1 || e == 2 || e == 4 || e == 5 || e == 7 || e == 8 || e == 10 || e == 11 || e == 12 || e == 16 || e == 22 || e == 23 || e == 26
  }

  function Digit(b: bool): nat { if b then 1 else 0 }

  function FromBits(s: seq<bool>): nat {
    if s == [] then 0 else Digit(s[0]) + 2 * FromBits(s[1..])
  }

  lemma {:induction false} FromBitsAt(s: seq<bool>, k: nat)
    requires k < |s|
    ensures Bit(FromBits(s), k) == s[k]
    decreases k
  {
    hide Bit;
    if k == 0 {
      BitLowest(FromBits(s));
    } else {
      BitNext(FromBits(s), k - 1);
      FromBitsAt(s[1..], k - 1);
    }
  }

  lemma FourDigits(s: seq<bool>)
    requires |s| >= 4
    ensures FromBits(s) == Digit(s[0]) + 2 * Digit(s[1]) + 4 * Digit(s[2]) + 8 * Digit(s[3]) + 16 * FromBits(s[4..])
  {
    assert s[1..][1..] == s[2..] && s[2..][1..] == s[3..] && s[3..][1..] == s[4..];
  }

  /** The bits of a byte, lowest first. */
  lemma BitsOfByte(b: byte, s: seq<bool>, k: nat)
    requires |s| == 8 && k < 8
    requires b == Digit(s[0]) + 2 * Digit(s[1]) + 4 * Digit(s[2]) + 8 * Digit(s[3])
                  + 16 * Digit(s[4]) + 32 * Digit(s[5]) + 64 * Digit(s[6]) + 128 * Digit(s[7])
    ensures Bit(b, k) == s[k]
  {
    hide Bit, Digit, FromBits;
    FourDigits(s);
    FourDigits(s[4..]);
    NoDigits();
    assert s[4..][4..] == [];
    FromBitsAt(s, k);
  }

  lemma NoDigits()
    ensures FromBits([]) == 0
  {
  }

  /** Bit i of a word is bit i % 8 of its byte i / 8. */
  lemma ByteBits(x: nat, i: nat, n: nat, b: byte)
    requires n <= i < n + 8 && x / Pow2(n) % 256 == b
    ensures Bit(x, i) == Bit(b, i - n)
  {
    var k := i - n;
    BitShr(x, n, k);
    Pow2Values();
    BitLow(Shr(x, n), 8, k);
  }

  lemma WordBytes(x: nat)
    requires x < 0x1_0000_0000
    ensures x / Pow2(0) % 256 == x % 256 && x / Pow2(8) % 256 == x / 0x100 % 256
    ensures x / Pow2(16) % 256 == x / 0x1_0000 % 256 && x / Pow2(24) % 256 == x / 0x100_0000
  {
    Pow2Values();
    Pow2Add(16, 8);
  }

  /** bzip2 keeps the power x^i in bit i. */
  lemma GeneratorBits(i: nat)
    requires i < 32
    ensures Bit(BZ_CRC_POLY, i) <==> Power(i)
  {
    hide Bit, Pow2;
    WordBytes(BZ_CRC_POLY);
    if i < 8 {
      ByteBits(BZ_CRC_POLY, i, 0, 0xb7);
      BitsOfByte(0xb7, [true, true, true, false, true, true, false, true], i);
    } else if i < 16 {
      ByteBits(BZ_CRC_POLY, i, 8, 0x1d);
      BitsOfByte(0x1d, [true, false, true, true, true, false, false, false], i - 8);
    } else if i < 24 {
      ByteBits(BZ_CRC_POLY, i, 16, 0xc1);
      BitsOfByte(0xc1, [true, false, false, false, false, false, true, true], i - 16);
    } else {
      ByteBits(BZ_CRC_POLY, i, 24, 0x04);
      BitsOfByte(0x04, [false, false, true, false, false, false, false, false], i - 24);
    }
  }

  /** zlib keeps it in bit 31 - i. */
  lemma ReflectedBits(i: nat)
    requires i < 32
    ensures Bit(Zlib.POLY, i) <==> Power(31 - i)
  {
    hide Bit, Pow2;
    WordBytes(Zlib.POLY);
    if i < 8 {
      ByteBits(Zlib.POLY, i, 0, 0x20);
      BitsOfByte(0x20, [false, false, false, false, false, true, false, false], i);
    } else if i < 16 {
      ByteBits(Zlib.POLY, i, 8, 0x83);
      BitsOfByte(0x83, [true, true, false, false, false, false, false, true], i - 8);
    } else if i < 24 {
      ByteBits(Zlib.POLY, i, 16, 0xb8);
      BitsOfByte(0xb8, [false, false, false, true, true, true, false, true], i - 16);
    } else {
      ByteBits(Zlib.POLY, i, 24, 0xed);
      BitsOfByte(0xed, [true, false, true, true, false, true, true, true], i - 24);
    }
  }

  /** 1 << (31 - e) has the one bit 31 - e. */
  lemma OneBit(e: nat, i: nat)
    requires e <= 31
    ensures Bit(Shl(1, 31 - e), i) <==> e == 31 - i
  {
    hide Bit, Pow2;
    BitPow(31 - e, i);
  }

  /** e is one of the first n. */
  ghost predicate Among(p: seq<nat>, n: nat, e: int)
    requires n <= |p|
  {
    exists k :: 0 <= k < n && p[k] == e
  }

  lemma NoneAmong(p: seq<nat>, e: int)
    ensures !Among(p, 0, e)
  {
  }

  lemma AmongNext(p: seq<nat>, n: nat, e: int)
    requires n < |p|
    ensures Among(p, n + 1, e) <==> Among(p, n, e) || p[n] == e
  {
    if p[n] == e { assert p[n] == e; }
  }

  /** The polynomial as make_crc_table puts it together. */
  method MakePolynomial() returns (poly: nat)
    ensures poly == Zlib.POLY
  {
    hide Bit, Or, Shl, Among, Power;
    var p: seq<nat> := [0, 1, 2, 4, 5, 7, 8, 10, 11, 12, 16, 22, 23, 26];
    poly := 0;
    forall i: nat ensures !Bit(0, i) && !Among(p, 0, 31 - i) {
      NoBit(i);
      NoneAmong(p, 31 - i);
    }
    for n := 0 to |p|
      invariant forall i: nat :: Bit(poly, i) <==> Among(p, n, 31 - i)
    {
      var next := Or(poly, Shl(1, 31 - p[n]));
      forall i: nat ensures Bit(next, i) <==> Among(p, n + 1, 31 - i) {
        AmongNext(p, n, 31 - i);
        BitOr(poly, Shl(1, 31 - p[n]), i);
        OneBit(p[n], i);
      }
      poly := next;
    }
    PowersAre(p);
    forall i: nat ensures Bit(poly, i) == Bit(Zlib.POLY, i) {
      if i < 32 {
        ReflectedBits(i);
      } else {
        Pow2Word();
        BitBelow(Zlib.POLY, 32, i);
        NoPower(31 - i);
      }
    }
    SameBits(poly, Zlib.POLY);
  }

  lemma NoPower(e: int)
    requires e < 0
    ensures !Power(e)
  {
  }

  lemma PowersAre(p: seq<nat>)
    requires p == [0, 1, 2, 4, 5, 7, 8, 10, 11, 12, 16, 22, 23, 26]
    ensures forall e: int :: Power(e) <==> Among(p, |p|, e)
  {
    forall e: int | Power(e) ensures Among(p, |p|, e) {
      var k := if e <= 2 then e else if e <= 5 then e - 1 else if e <= 8 then e - 2 else if e <= 12 then e - 3
               else if e == 16 then 10 else if e == 22 then 11 else if e == 23 then 12 else 13;
      assert p[k] == e;
    }
  }

  // ---------- one bit of the division ----------

  /** A step of bzip2's register: every bit moves up by one, and the one that leaves at the top
      comes back at the powers of the polynomial. */
  lemma BitStepBits(c: nat, i: nat)
    requires i < 32
    ensures Bit(BitStep(c), i) <==> BitAt(c, i - 1) != (Bit(c, 31) && Power(i))
  {
    hide Bit, Xor, Low, Power, Shr, Pow2;
    DoubleIsShl(c);
    BitXor(Low(2 * c, 32), Reduction(c), i);
    BitLow(2 * c, 32, i);
    BitShl(c, 1, i);
    GeneratorBits(i);
    NoBit(i);
    TopBit(c);
  }

  lemma DoubleIsShl(c: nat)
    ensures 2 * c == Shl(c, 1)
  {
    ShlStep(c, 0);
  }

  lemma TopBit(c: nat)
    ensures Bit(c, 31) <==> Shr(c, 31) % 2 == 1
  {
    BitIsShr(c, 31);
  }

  /** A step of zlib's: the mirror image. */
  lemma StepBits(c: nat, i: nat)
    requires c < Pow2(32) && i < 32
    ensures Bit(Zlib.Step(c), i) <==> (i < 31 && Bit(c, i + 1)) != (Bit(c, 0) && Power(31 - i))
  {
    hide Bit, Xor, Power, Pow2;
    BitXor(c / 2, if c % 2 == 1 then Zlib.POLY else 0, i);
    BitNext(c, i);
    if i == 31 { BitBelow(c, 32, 32); }
    BitLowest(c);
    ReflectedBits(i);
    NoBit(i);
  }

  /** The register starts, in both, with all 32 bits set, and in the end all are inverted. */
  lemma Complemented(c: nat, i: nat)
    requires c < Pow2(32) && i < 32
    ensures Bit(BZ_CRC_INIT, i) && Bit(Zlib.Not(0), i)
    ensures Bit(Finalise(c), i) != Bit(c, i) && Bit(Zlib.Not(c), i) != Bit(c, i)
  {
    Pow2Word();
    hide Pow2, Bit;
    AllOnes(32, i);
    Inverted(32, c, i);
  }

  lemma {:induction false} AllOnes(n: nat, i: nat)
    requires i < n
    ensures Bit(Pow2(n) - 1, i)
    decreases n
  {
    hide Bit;
    var x := Pow2(n) - 1;
    assert x / 2 == Pow2(n - 1) - 1 && x % 2 == 1;
    if i == 0 {
      BitLowest(x);
    } else {
      BitNext(x, i - 1);
      AllOnes(n - 1, i - 1);
    }
  }

  lemma {:induction false} Inverted(n: nat, c: nat, i: nat)
    requires c < Pow2(n) && i < n
    ensures Bit(Pow2(n) - 1 - c, i) != Bit(c, i)
    decreases n
  {
    hide Bit;
    var x := Pow2(n) - 1 - c;
    assert x / 2 == Pow2(n - 1) - 1 - c / 2 && x % 2 == 1 - c % 2;
    BitLowest(x);
    BitLowest(c);
    if i > 0 {
      BitNext(x, i - 1);
      BitNext(c, i - 1);
      Inverted(n - 1, c / 2, i - 1);
    }
  }

  // ---------- the two checksums are mirror images ----------

  ghost predicate Mirrored(x: nat, y: nat, n: nat) {
    x < Pow2(n) && y < Pow2(n) && forall i :: 0 <= i < n ==> Bit(x, i) == Bit(y, n - 1 - i)
  }

  lemma MirrorStep(x: nat, y: nat)
    requires Mirrored(x, y, 32)
    ensures Mirrored(BitStep(x), Zlib.Step(y), 32)
  {
    hide Bit, BitStep, Zlib.Step, Power;
    BelowAfter(x, y);
    forall i | 0 <= i < 32 ensures Bit(BitStep(x), i) == Bit(Zlib.Step(y), 31 - i) {
      BitStepBits(x, i);
      StepBits(y, 31 - i);
      if i > 0 { assert Bit(x, i - 1) == Bit(y, 31 - (i - 1)); }
    }
  }

  lemma BelowAfter(x: nat, y: nat)
    requires x < Pow2(32) && y < Pow2(32)
    ensures BitStep(x) < Pow2(32) && Zlib.Step(y) < Pow2(32)
  {
    hide BitStep, Zlib.Step, Pow2;
    BitStepsBelow(x, 1);
    Zlib.StepsBelow(y, 1);
  }

  lemma {:induction false} MirrorSteps(x: nat, y: nat, k: nat)
    requires Mirrored(x, y, 32)
    ensures Mirrored(BitSteps(x, k), Zlib.Steps(y, k), 32)
    decreases k
  {
    hide Mirrored, BitStep, Zlib.Step;
    if k > 0 {
      MirrorStep(x, y);
      MirrorSteps(BitStep(x), Zlib.Step(y), k - 1);
    }
  }

  lemma MirrorByte(x: nat, y: nat, a: byte, b: byte)
    requires Mirrored(x, y, 32) && Mirrored(a, b, 8)
    ensures Mirrored(Update(x, a), Zlib.AddByte(y, b), 32)
  {
    hide Bit, Xor, Shl, BitSteps, Zlib.Steps, Update;
    UpdateIsEightBits(x, a);
    var u, v := Xor(x, Shl(a, 24)), Xor(y, b);
    ShlBelow(a, 8, 24);
    Pow2Monotone(8, 32);
    XorBelow(x, Shl(a, 24), 32);
    XorBelow(y, b, 32);
    forall i | 0 <= i < 32 ensures Bit(u, i) == Bit(v, 31 - i) {
      BitXor(x, Shl(a, 24), i);
      BitXor(y, b, 31 - i);
      BitShl(a, 24, i);
      if i >= 24 {
        assert Bit(a, i - 24) == Bit(b, 7 - (i - 24));
      } else {
        BitBelow(b, 8, 31 - i);
      }
    }
    MirrorSteps(u, v, 8);
  }

  /** bzip2's checksum of a string is zlib's of the string with every byte turned round, turned
      round. */
  lemma {:induction false} MirrorImages(s: seq<byte>, t: seq<byte>)
    requires |s| == |t| && forall k :: 0 <= k < |s| ==> Mirrored(s[k], t[k], 8)
    ensures Mirrored(Checksum(s), Zlib.Crc(0, t), 32)
  {
    hide Mirrored, Bit, Finalise, Zlib.Not, CrcOf, Zlib.Register;
    MirrorStart();
    MirrorStrings(s, t);
    MirrorEnd(CrcOf(BZ_CRC_INIT, s), Zlib.Register(Zlib.Not(0), t));
  }

  lemma MirrorStart()
    ensures Mirrored(BZ_CRC_INIT, Zlib.Not(0), 32)
  {
    hide Bit;
    Pow2Word();
    forall i | 0 <= i < 32 ensures Bit(BZ_CRC_INIT, i) && Bit(Zlib.Not(0), i) {
      Complemented(0, i);
    }
  }

  lemma MirrorEnd(x: nat, y: nat)
    requires Mirrored(x, y, 32)
    ensures Mirrored(Finalise(x), Zlib.Not(y), 32)
  {
    hide Bit;
    Pow2Word();
    forall i | 0 <= i < 32 ensures Bit(Finalise(x), i) == Bit(Zlib.Not(y), 31 - i) {
      Complemented(x, i);
      Complemented(y, 31 - i);
    }
  }

  lemma {:induction false} MirrorStrings(s: seq<byte>, t: seq<byte>)
    requires |s| == |t| && forall k :: 0 <= k < |s| ==> Mirrored(s[k], t[k], 8)
    ensures Mirrored(CrcOf(BZ_CRC_INIT, s), Zlib.Register(Zlib.Not(0), t), 32)
    decreases |s|
  {
    hide Mirrored, Update, Zlib.AddByte, Zlib.Not;
    if s == [] {
      MirrorStart();
    } else {
      var n := |s| - 1;
      MirrorStrings(s[..n], t[..n]);
      MirrorByte(CrcOf(BZ_CRC_INIT, s[..n]), Zlib.Register(Zlib.Not(0), t[..n]), s[n], t[n]);
    }
  }

  // ---------- combining the checksums of blocks ----------

  /** The combined checksum moves round by one bit and takes the new one in. */
  lemma CombineBit(combined: nat, block: nat, j: nat)
    requires combined < Pow2(32) && block < Pow2(32) && j < 32
    ensures Bit(Combine(combined, block), j) <==> Bit(combined, (j + 31) % 32) != Bit(block, j)
  {
    hide Bit, Xor, Low, Shl, Shr, Pow2;
    var low := Low(combined, 31);
    RotatedIs(combined);
    BitXor(Shl(low, 1) + Shr(combined, 31), block, j);
    BitJoin(low, 1, Shr(combined, 31), j);
    if j == 0 {
      BitShr(combined, 31, 0);
    } else {
      BitLow(combined, 31, j - 1);
    }
  }

  lemma RotatedIs(c: nat)
    requires c < Pow2(32)
    ensures Low(Shl(c, 1), 32) == Shl(Low(c, 31), 1) && Shr(c, 31) < Pow2(1)
  {
    ShlFields(c, 31, 1);
    ShrBelow(c, 1, 31);
  }

  ghost predicate WordsOf32(cs: seq<nat>) { forall k :: 0 <= k < |cs| ==> cs[k] < Pow2(32) }

  /** The checksums of all blocks, combined one after the other. */
  ghost function CombineAll(cs: seq<nat>): (c: nat)
    requires WordsOf32(cs)
    ensures c < Pow2(32)
  {
    if cs == [] then 0 else Combine(CombineAll(cs[..|cs| - 1]), cs[|cs| - 1])
  }

  /** The exclusive or over the first k of n checksums of bit j - (n - i), going round, of the
      i-th, counted from one. */
  ghost predicate OddBits(cs: seq<nat>, j: nat, k: nat)
    requires k <= |cs|
  {
    k > 0 && OddBits(cs, j, k - 1) != Bit(cs[k - 1], (j - (|cs| - k)) % 32)
  }

  /** The combined checksum bit by bit: the checksum of a block is turned by as many places as
      blocks follow it, and all of them are added. */
  lemma {:induction false} CombinedBits(cs: seq<nat>, j: nat)
    requires WordsOf32(cs) && j < 32
    ensures Bit(CombineAll(cs), j) <==> OddBits(cs, j, |cs|)
    decreases |cs|
  {
    hide Bit, Combine, Pow2;
    if cs == [] {
      NoBit(j);
    } else {
      var n := |cs| - 1;
      var i := (j + 31) % 32;
      CombineBit(CombineAll(cs[..n]), cs[n], j);
      CombinedBits(cs[..n], i);
      OddBitsBefore(cs, i, j, n);
    }
  }

  lemma {:induction false} OddBitsBefore(cs: seq<nat>, i: nat, j: nat, k: nat)
    requires k < |cs| && i == (j + 31) % 32
    ensures OddBits(cs[..|cs| - 1], i, k) == OddBits(cs, j, k)
  {
    hide Bit;
    if k > 0 {
      OddBitsBefore(cs, i, j, k - 1);
      assert (i - (|cs| - 1 - k)) % 32 == (j - (|cs| - k)) % 32;
    }
  }
}
