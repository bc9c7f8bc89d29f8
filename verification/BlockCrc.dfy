/** The checksum bzip2 keeps of each block: BZ_UPDATE_CRC and its table, which is defined
    here by how it is generated. */
module BlockCrc {
  import opened Words
  import opened ExclusiveOr

  const BZ_CRC_INIT: nat := 0xffff_ffff
  const BZ_CRC_POLY: nat := 0x04c1_1db7

  /** The generator polynomial, if the bit about to be shifted out is set. */
  function Reduction(c: nat): nat { if Shr(c, 31) % 2 == 1 then BZ_CRC_POLY else 0 }

  /** One bit of the division by the generator polynomial, most significant bit first. */
  function BitStep(c: nat): nat { Xor(Low(2 * c, 32), Reduction(c)) }

  function BitSteps(c: nat, k: nat): nat
    decreases k
  {
    if k == 0 then c else BitSteps(BitStep(c), k - 1)
  }

  /** Entry i of the table: the byte i alone, after eight bits. */
  function TableEntry(i: nat): nat { BitSteps(Shl(i, 24), 8) }

  /** `BZ_UPDATE_CRC`. */
  function Update(crc: nat, ch: byte): nat {
    Xor(Low(Shl(crc, 8), 32), TableEntry(Xor(Shr(crc, 24), ch)))
  }

  /** The checksum after a run of bytes. */
  function CrcOf(crc: nat, s: seq<byte>): nat {
    if s == [] then crc else Update(CrcOf(crc, s[..|s| - 1]), s[|s| - 1])
  }

  lemma CrcSnoc(crc: nat, s: seq<byte>, x: byte)
    ensures CrcOf(crc, s + [x]) == Update(CrcOf(crc, s), x)
  {
    assert (s + [x])[..|s + [x]| - 1] == s;
  }

  lemma {:induction false} CrcConcat(crc: nat, s: seq<byte>, t: seq<byte>)
    ensures CrcOf(crc, s + t) == CrcOf(CrcOf(crc, s), t)
  {
    hide Update;
    if t == [] {
      assert s + t == s;
    } else {
      var init, x := t[..|t| - 1], t[|t| - 1];
      CrcConcat(crc, s, init);
      assert s + t == (s + init) + [x] && t == init + [x];
      CrcSnoc(crc, s + init, x);
      CrcSnoc(CrcOf(crc, s), init, x);
    }
  }

  // ---------- the table gives eight bits at once ----------

  lemma ReductionXor(x: nat, y: nat)
    ensures Reduction(Xor(x, y)) == Xor(Reduction(x), Reduction(y))
  {
    XorShr(x, y, 31);
    XorParts(Shr(x, 31), Shr(y, 31));
    XorZero(BZ_CRC_POLY);
    XorSelf(BZ_CRC_POLY);
    XorZero(0);
    hide Xor, Shr;
  }

  lemma DoubleXor(x: nat, y: nat)
    ensures Xor(2 * x, 2 * y) == 2 * Xor(x, y)
  {
    XorJoin(x, y, 0, 0);
  }

  lemma BitStepXor(x: nat, y: nat)
    ensures BitStep(Xor(x, y)) == Xor(BitStep(x), BitStep(y))
  {
    hide Xor, Low, Reduction;
    DoubleXor(x, y);
    XorLow(2 * x, 2 * y, 32);
    ReductionXor(x, y);
    XorSwap(Low(2 * x, 32), Low(2 * y, 32), Reduction(x), Reduction(y));
  }

  lemma {:induction false} BitStepsXor(x: nat, y: nat, k: nat)
    ensures BitSteps(Xor(x, y), k) == Xor(BitSteps(x, k), BitSteps(y, k))
    decreases k
  {
    hide Xor, BitStep;
    if k > 0 {
      BitStepXor(x, y);
      BitStepsXor(BitStep(x), BitStep(y), k - 1);
    }
  }

  /** Clear high bits shift out without reduction. */
  lemma {:induction false} BitStepsShift(x: nat, k: nat)
    requires k <= 32 && x < Pow2(32 - k)
    ensures BitSteps(x, k) == Shl(x, k)
    decreases k
  {
    hide Shl, BitStep;
    if k == 0 {
      ShlStep(x, 0);
    } else {
      NoReduction(x, k);
      BitStepsShift(2 * x, k - 1);
      ShlStep(x, k - 1);
      ShlDouble(x, k - 1);
    }
  }

  lemma NoReduction(x: nat, k: nat)
    requires 0 < k <= 32 && x < Pow2(32 - k)
    ensures BitStep(x) == 2 * x < Pow2(32 - (k - 1))
  {
    hide Xor, Low;
    Pow2Monotone(32 - k, 31);
    LowSmall(x, 31);
    Pow2Monotone(32 - (k - 1), 32);
    LowSmall(2 * x, 32);
    XorZero(2 * x);
  }

  lemma ShlDouble(x: nat, n: nat)
    ensures Shl(2 * x, n) == 2 * Shl(x, n)
  {
  }

  lemma TopShiftedOut(crc: nat)
    ensures Shl(Low(crc, 24), 8) == Low(Shl(crc, 8), 32)
  {
    ShlFields(crc, 24, 8);
  }

  /** One table lookup is eight steps of the bitwise division with the byte brought in
      at the top. */
  lemma UpdateIsEightBits(crc: nat, ch: byte)
    requires crc < Pow2(32)
    ensures Update(crc, ch) == BitSteps(Xor(crc, Shl(ch, 24)), 8)
  {
    hide Xor, Shl, Shr, Low, BitSteps;
    var hi, low := Shr(crc, 24), Low(crc, 24);
    SplitWord(crc, 24);
    XorShl(hi, ch, 24);
    XorAssoc(Shl(hi, 24), low, Shl(ch, 24));
    XorComm(low, Shl(ch, 24));
    XorAssoc(Shl(hi, 24), Shl(ch, 24), low);
    BitStepsXor(Shl(Xor(hi, ch), 24), low, 8);
    BitStepsShift(low, 8);
    TopShiftedOut(crc);
    XorComm(TableEntry(Xor(hi, ch)), Shl(low, 8));
  }

  // ---------- checksums are 32-bit words ----------

  lemma {:induction false} BitStepsBelow(c: nat, k: nat)
    requires c < Pow2(32)
    ensures BitSteps(c, k) < Pow2(32)
    decreases k
  {
    hide Xor, Low;
    if k > 0 {
      Pow2Word();
      XorBelow(Low(2 * c, 32), Reduction(c), 32);
      BitStepsBelow(BitStep(c), k - 1);
    }
  }

  lemma UpdateBelow(crc: nat, ch: byte)
    requires crc < Pow2(32)
    ensures Update(crc, ch) < Pow2(32)
  {
    hide Xor, Low, Shl, Shr, BitSteps;
    Pow2Values();
    ShrBelow(crc, 8, 24);
    XorBelow(Shr(crc, 24), ch, 8);
    ShlBelow(Xor(Shr(crc, 24), ch), 8, 24);
    BitStepsBelow(Shl(Xor(Shr(crc, 24), ch), 24), 8);
    XorBelow(Low(Shl(crc, 8), 32), TableEntry(Xor(Shr(crc, 24), ch)), 32);
  }

  lemma {:induction false} CrcBelow(crc: nat, s: seq<byte>)
    requires crc < Pow2(32)
    ensures CrcOf(crc, s) < Pow2(32)
  {
    hide Update;
    if s != [] {
      CrcBelow(crc, s[..|s| - 1]);
      UpdateBelow(CrcOf(crc, s[..|s| - 1]), s[|s| - 1]);
    }
  }

  /** `BZ_FINALISE_CRC`: the complement of a 32-bit word. */
  function Finalise(crc: nat): (r: nat)
    ensures r < Pow2(32)
  {
    Pow2Word();
    if crc < 0x1_0000_0000 then 0xffff_ffff - crc else 0
  }

  /** What a block of these bytes is checked against. */
  function Checksum(s: seq<byte>): nat { Finalise(CrcOf(BZ_CRC_INIT, s)) }

  /** The combined checksum takes in one more block: rotate left, then add. */
  function Combine(combined: nat, block: nat): (r: nat)
    requires combined < Pow2(32) && block < Pow2(32)
    ensures r < Pow2(32)
  {
    var r := Low(Shl(combined, 1), 32) + Shr(combined, 31);
    CombineRange(combined);
    XorBelow(r, block, 32);
    Xor(r, block)
  }

  /** Rotating: the bit shifted out comes back at the bottom, which is clear. */
  lemma CombineRange(c: nat)
    requires c < Pow2(32)
    ensures Low(Shl(c, 1), 32) + Shr(c, 31) < Pow2(32)
    ensures Or(Low(Shl(c, 1), 32), Shr(c, 31)) == Low(Shl(c, 1), 32) + Shr(c, 31)
  {
    Pow2Word();
    assert Pow2(1) == 2;
    assert Low(Shl(c, 1), 32) == 2 * (c % 0x8000_0000);
    assert Shr(c, 31) < 2;
    OrDisjoint(c % 0x8000_0000, 1, Shr(c, 31));
  }
}
