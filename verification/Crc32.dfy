/** zlib's CRC-32 (crc32.c): the bitwise definition, the tables, the four-bytes-at-a-time
    forms for both byte orders, and the combination of two checksums. */
module Crc32 {
  import opened Words
  import opened ExclusiveOr

  const POLY: nat := 0xedb8_8320
  const ONES: nat := 0xffff_ffff

  // ---------- the definition ----------

  /** One bit: multiply by x modulo the polynomial, lowest power in the highest bit. */
  function Step(c: nat): nat { Xor(c / 2, if c % 2 == 1 then POLY else 0) }

  function Steps(c: nat, k: nat): nat
    decreases k
  {
    if k == 0 then c else Steps(Step(c), k - 1)
  }

  /** The register after one byte, bit by bit. */
  function AddByte(c: nat, b: byte): nat { Steps(Xor(c, b), 8) }

  function Register(c: nat, s: seq<byte>): nat {
    if s == [] then c else AddByte(Register(c, s[..|s| - 1]), s[|s| - 1])
  }

  /** `~c` on 32 bits. */
  function Not(c: nat): nat { if c <= ONES then ONES - c else 0 }

  /** Section 8 of RFC 1952: the running checksum `crc` extended by the bytes of s. */
  function Crc(crc: nat, s: seq<byte>): nat { Not(Register(Not(crc), s)) }

  // ---------- linearity ----------

  lemma StepXor(x: nat, y: nat)
    ensures Step(Xor(x, y)) == Xor(Step(x), Step(y))
  {
    hide Xor;
    XorParts(x, y);
    XorZero(POLY);
    XorSelf(POLY);
    XorZero(0);
    XorSwap(x / 2, y / 2, if x % 2 == 1 then POLY else 0, if y % 2 == 1 then POLY else 0);
  }

  lemma {:induction false} StepsXor(x: nat, y: nat, k: nat)
    ensures Steps(Xor(x, y), k) == Xor(Steps(x, k), Steps(y, k))
    decreases k
  {
    hide Xor, Step;
    if k > 0 {
      StepXor(x, y);
      StepsXor(Step(x), Step(y), k - 1);
    }
  }

  lemma {:induction false} StepsAdd(c: nat, j: nat, k: nat)
    ensures Steps(c, j + k) == Steps(Steps(c, j), k)
    decreases j
  {
    hide Step;
    if j > 0 { StepsAdd(Step(c), j - 1, k); }
  }

  /** Clear low bits are shifted out without reduction. */
  lemma {:induction false} StepsShift(c: nat, k: nat)
    ensures Steps(Shl(c, k), k) == c
    decreases k
  {
    ShlStep(c, 0);
    if k > 0 {
      ShlStep(c, k - 1);
      XorZero(Shl(c, k - 1));
      hide Shl, Xor;
      assert Step(Shl(c, k)) == Shl(c, k - 1);
      StepsShift(c, k - 1);
    }
  }

  lemma StepsShiftPart(c: nat, k: nat, n: nat)
    requires k <= n
    ensures Steps(Shl(c, k), n) == Steps(c, n - k)
  {
    StepsAdd(Shl(c, k), k, n - k);
    StepsShift(c, k);
  }

  lemma {:induction false} StepsBelow(c: nat, k: nat)
    requires c < Pow2(32)
    ensures Steps(c, k) < Pow2(32)
    decreases k
  {
    if k > 0 {
      Pow2Word();
      hide Xor;
      XorBelow(c / 2, if c % 2 == 1 then POLY else 0, 32);
      StepsBelow(Step(c), k - 1);
    }
  }

  lemma {:induction false} StepsZero(k: nat)
    ensures Steps(0, k) == 0
    decreases k
  {
    if k > 0 {
      XorZero(0);
      StepsZero(k - 1);
    }
  }

  lemma AddByteBelow(c: nat, b: byte)
    requires c < Pow2(32)
    ensures AddByte(c, b) < Pow2(32)
  {
    hide Xor, Steps;
    Pow2Values();
    Pow2Monotone(8, 32);
    XorBelow(c, b, 32);
    StepsBelow(Xor(c, b), 8);
  }

  lemma {:induction false} RegisterBelow(c: nat, s: seq<byte>)
    requires c < Pow2(32)
    ensures Register(c, s) < Pow2(32)
  {
    hide AddByte;
    if s != [] {
      RegisterBelow(c, s[..|s| - 1]);
      AddByteBelow(Register(c, s[..|s| - 1]), s[|s| - 1]);
    }
  }

  lemma RegisterSnoc(c: nat, s: seq<byte>, b: byte)
    ensures Register(c, s + [b]) == AddByte(Register(c, s), b)
  {
    assert (s + [b])[..|s + [b]| - 1] == s;
  }

  lemma {:induction false} RegisterConcat(c: nat, s: seq<byte>, t: seq<byte>)
    ensures Register(c, s + t) == Register(Register(c, s), t)
  {
    hide AddByte;
    if t == [] {
      assert s + t == s;
    } else {
      var init, b := t[..|t| - 1], t[|t| - 1];
      RegisterConcat(c, s, init);
      assert s + t == (s + init) + [b] && t == init + [b];
      RegisterSnoc(c, s + init, b);
      RegisterSnoc(Register(c, s), init, b);
    }
  }

  lemma NotTwice(c: nat)
    requires c < Pow2(32)
    ensures Not(Not(c)) == c && Not(c) < Pow2(32)
  {
    Pow2Word();
  }

  /** Checksums can be continued: crc(crc(c, A), B) == crc(c, A ++ B). */
  lemma CrcContinues(crc: nat, a: seq<byte>, b: seq<byte>)
    requires crc < Pow2(32)
    ensures Crc(Crc(crc, a), b) == Crc(crc, a + b)
  {
    hide Register, Not;
    NotTwice(crc);
    RegisterBelow(Not(crc), a);
    NotTwice(Register(Not(crc), a));
    RegisterConcat(Not(crc), a, b);
  }

  // ---------- words of four bytes ----------

  function Word(b0: byte, b1: byte, b2: byte, b3: byte): (w: nat)
    ensures w <= ONES
  {
    b0 + 0x100 * b1 as int + 0x1_0000 * b2 as int + 0x100_0000 * b3 as int
  }

  function ByteAt(w: nat, i: nat): (b: byte)
    requires i < 4
  {
    if i == 0 then w % 256
    else if i == 1 then w / 0x100 % 256
    else if i == 2 then w / 0x1_0000 % 256
    else w / 0x100_0000 % 256
  }

  /** `ZSWAP32`. */
  function Swap(w: nat): (r: nat)
    ensures r <= ONES
  {
    Word(ByteAt(w, 3), ByteAt(w, 2), ByteAt(w, 1), ByteAt(w, 0))
  }

  lemma WordBytes(b0: byte, b1: byte, b2: byte, b3: byte)
    ensures var w := Word(b0, b1, b2, b3);
            ByteAt(w, 0) == b0 && ByteAt(w, 1) == b1 && ByteAt(w, 2) == b2 && ByteAt(w, 3) == b3
  {
    var w := Word(b0, b1, b2, b3);
    DivModUnique(w, 0x100, b1 + 0x100 * b2 as int + 0x1_0000 * b3 as int, b0);
    DivModUnique(w, 0x1_0000, b2 + 0x100 * b3 as int, b0 + 0x100 * b1 as int);
    DivModUnique(w, 0x100_0000, b3, b0 + 0x100 * b1 as int + 0x1_0000 * b2 as int);
  }

  lemma DivByte(w: nat, p: nat)
    requires p == 0x100 || p == 0x1_0000
    ensures w / (0x100 * p) == w / p / 0x100
  {
    var q, r, s := w / p / 0x100, w / p % 0x100, w % p;
    assert w == (0x100 * p) * q + (p * r + s);
    DivModUnique(w, 0x100 * p, q, p * r + s);
  }

  lemma BytesWord(w: nat)
    requires w <= ONES
    ensures w == Word(ByteAt(w, 0), ByteAt(w, 1), ByteAt(w, 2), ByteAt(w, 3))
  {
    DivByte(w, 0x100);
    DivByte(w, 0x1_0000);
  }

  function XorByte(x: byte, y: byte): (r: byte) {
    Pow2Values();
    XorBelow(x, y, 8);
    Xor(x, y)
  }

  lemma WordFields(b0: byte, b1: byte, b2: byte, b3: byte)
    ensures Word(b0, b1, b2, b3) == Xor(Shl(b3, 24), Xor(Shl(b2, 16), Xor(Shl(b1, 8), b0)))
  {
    hide Xor;
    Pow2Values();
    Pow2Add(8, 16);
    XorFields(b1, 8, b0);
    XorFields(b2, 16, Shl(b1, 8) + b0);
    XorFields(b3, 24, Shl(b2, 16) + (Shl(b1, 8) + b0));
  }

  lemma XorWords(a0: byte, a1: byte, a2: byte, a3: byte, b0: byte, b1: byte, b2: byte, b3: byte)
    ensures Xor(Word(a0, a1, a2, a3), Word(b0, b1, b2, b3)) == Word(XorByte(a0, b0), XorByte(a1, b1), XorByte(a2, b2), XorByte(a3, b3))
  {
    hide Xor, Shl, Word;
    WordFields(a0, a1, a2, a3);
    WordFields(b0, b1, b2, b3);
    WordFields(XorByte(a0, b0), XorByte(a1, b1), XorByte(a2, b2), XorByte(a3, b3));
    XorShl(a1, b1, 8);
    XorShl(a2, b2, 16);
    XorShl(a3, b3, 24);
    XorSwap(Shl(a3, 24), Xor(Shl(a2, 16), Xor(Shl(a1, 8), a0)), Shl(b3, 24), Xor(Shl(b2, 16), Xor(Shl(b1, 8), b0)));
    XorSwap(Shl(a2, 16), Xor(Shl(a1, 8), a0), Shl(b2, 16), Xor(Shl(b1, 8), b0));
    XorSwap(Shl(a1, 8), a0, Shl(b1, 8), b0);
  }

  lemma ByteOfXor(x: nat, y: nat, i: nat)
    requires x <= ONES && y <= ONES && i < 4
    ensures Xor(x, y) <= ONES && ByteAt(Xor(x, y), i) == XorByte(ByteAt(x, i), ByteAt(y, i))
  {
    hide Xor, Word, ByteAt, XorByte;
    BytesWord(x);
    BytesWord(y);
    XorWords(ByteAt(x, 0), ByteAt(x, 1), ByteAt(x, 2), ByteAt(x, 3), ByteAt(y, 0), ByteAt(y, 1), ByteAt(y, 2), ByteAt(y, 3));
    WordBytes(XorByte(ByteAt(x, 0), ByteAt(y, 0)), XorByte(ByteAt(x, 1), ByteAt(y, 1)), XorByte(ByteAt(x, 2), ByteAt(y, 2)), XorByte(ByteAt(x, 3), ByteAt(y, 3)));
  }

  lemma SwapXor(x: nat, y: nat)
    requires x <= ONES && y <= ONES
    ensures Swap(Xor(x, y)) == Xor(Swap(x), Swap(y))
  {
    hide Xor, Word, ByteAt, XorByte;
    forall i | 0 <= i < 4 ensures ByteAt(Xor(x, y), i) == XorByte(ByteAt(x, i), ByteAt(y, i)) {
      ByteOfXor(x, y, i);
    }
    XorWords(ByteAt(x, 3), ByteAt(x, 2), ByteAt(x, 1), ByteAt(x, 0), ByteAt(y, 3), ByteAt(y, 2), ByteAt(y, 1), ByteAt(y, 0));
  }

  lemma SwapBytes(w: nat)
    ensures forall i :: 0 <= i < 4 ==> ByteAt(Swap(w), i) == ByteAt(w, 3 - i)
  {
    hide Word, ByteAt;
    WordBytes(ByteAt(w, 3), ByteAt(w, 2), ByteAt(w, 1), ByteAt(w, 0));
  }

  lemma SwapTwice(w: nat)
    requires w <= ONES
    ensures Swap(Swap(w)) == w
  {
    SwapBytes(w);
    BytesWord(w);
    hide Word, ByteAt;
  }

  lemma SwapNot(w: nat)
    requires w <= ONES
    ensures Swap(Not(w)) == Not(Swap(w))
  {
    hide Word, ByteAt, Xor, Not;
    XorOnes(w);
    XorOnes(Swap(w));
    SwapXor(w, ONES);
    SwapOnes();
  }

  lemma SwapOnes()
    ensures Swap(ONES) == ONES
  {
  }

  // ---------- tables ----------

  /** Entry n of table k: the byte n followed by k zero bytes; tables 4 to 7 are the byte
      reversals of tables 0 to 3. */
  function Table(k: nat, n: nat): nat {
    if k < 4 then Steps(n, 8 * (k + 1)) else Swap(Steps(n, 8 * (k - 3)))
  }

  ghost predicate Tables(t: array2<nat>)
    reads t
  {
    && t.Length0 == 8 && t.Length1 == 256
    && forall k, n :: 0 <= k < 8 && 0 <= n < 256 ==> t[k, n] == Table(k, n)
  }

  /** A whole byte of zeros at once, by the first table. */
  lemma ByteByTable(c: nat)
    ensures Steps(c, 8) == Xor(Steps(c % 256, 8), c / 256)
  {
    hide Xor, Steps, Shl;
    SplitWord(c, 8);
    Pow2Values();
    StepsXor(Shl(Shr(c, 8), 8), Low(c, 8), 8);
    StepsShift(Shr(c, 8), 8);
    XorComm(Shr(c, 8), Steps(Low(c, 8), 8));
  }

  method MakeCrcTable(t: array2<nat>)
    requires t.Length0 == 8 && t.Length1 == 256
    modifies t
    ensures Tables(t)
  {
    hide Steps, Swap, Xor;
    for n := 0 to 256
      invariant forall m :: 0 <= m < n ==> t[0, m] == Steps(m, 8)
    {
      var c: nat := n;
      StepsNone(c);
      for k := 0 to 8
        invariant Steps(c, 8 - k) == Steps(n, 8)
        invariant forall m :: 0 <= m < n ==> t[0, m] == Steps(m, 8)
      {
        StepsOne(c, 8 - k);
        c := if c % 2 == 1 then Xor(POLY, c / 2) else c / 2;
      }
      StepsNone(c);
      t[0, n] := c;
    }
    for n := 0 to 256
      invariant forall m :: 0 <= m < 256 ==> t[0, m] == Steps(m, 8)
      invariant forall k, m :: 0 <= k < 8 && 0 <= m < n ==> t[k, m] == Table(k, m)
    {
      var c := t[0, n];
      t[4, n] := Swap(c);
      for k := 1 to 4
        invariant forall m :: 0 <= m < 256 ==> t[0, m] == Steps(m, 8)
        invariant c == Steps(n, 8 * k)
        invariant forall j, m :: 0 <= j < 8 && 0 <= m < n ==> t[j, m] == Table(j, m)
        invariant forall j :: 0 <= j < k || 4 <= j < k + 4 ==> t[j, n] == Table(j, n)
      {
        StepsAdd(n, 8 * k, 8);
        ByteByTable(c);
        c := Xor(t[0, c % 256], c / 256);
        t[k, n] := c;
        t[k + 4, n] := Swap(c);
      }
    }
  }

  lemma StepsNone(c: nat)
    ensures Steps(c, 0) == c
  {
  }

  lemma StepsOne(c: nat, k: nat)
    requires k > 0
    ensures Steps(c, k) == Steps(if c % 2 == 1 then Xor(POLY, c / 2) else c / 2, k - 1)
  {
    XorComm(c / 2, POLY);
    XorZero(c / 2);
  }

  // ---------- one byte at a time ----------

  /** `DO1` and its little-endian twin. */
  lemma OneByte(c: nat, b: byte)
    requires c <= ONES
    ensures AddByte(c, b) == Xor(Table(0, XorByte(c % 256, b)), c / 256) <= ONES
    ensures Xor(c, b) % 256 == XorByte(c % 256, b)
  {
    hide Xor, Steps;
    Pow2Word();
    Pow2Values();
    AddByteBelow(c, b);
    ByteByTable(Xor(c, b));
    XorLow(c, b, 8);
    XorShr(c, b, 8);
    LowSmall(b, 8);
    XorZero(Shr(c, 8));
  }

  method Crc32Bytes(crc: nat, buf: seq<byte>, t: array2<nat>) returns (r: nat)
    requires Tables(t) && crc <= ONES
    ensures r == Crc(crc, buf)
  {
    hide Steps, Xor, AddByte, Register;
    var c := Xor(crc, ONES);
    XorOnes(crc);
    RegisterNone(c);
    ghost var c0 := c;
    var pos: nat, len: nat := 0, |buf|;
    while len >= 8
      invariant pos + len == |buf| && c == Register(c0, buf[..pos]) <= ONES
    {
      for i := 0 to 8
        invariant pos + len == |buf| + i && pos <= |buf| && c == Register(c0, buf[..pos]) <= ONES
      {
        TakeByte(c0, buf, pos);
        OneByte(c, buf[pos]);
        c := Xor(t[0, Xor(c, buf[pos]) % 256], c / 256);
        pos := pos + 1;
      }
      len := len - 8;
    }
    while len > 0
      invariant pos + len == |buf| && c == Register(c0, buf[..pos]) <= ONES
    {
      TakeByte(c0, buf, pos);
      OneByte(c, buf[pos]);
      c := Xor(t[0, Xor(c, buf[pos]) % 256], c / 256);
      pos := pos + 1;
      len := len - 1;
    }
    assert buf[..pos] == buf;
    XorOnes(c);
    r := Xor(c, ONES);
  }

  lemma RegisterNone(c: nat)
    ensures Register(c, []) == c
  {
  }

  lemma TakeByte(c0: nat, buf: seq<byte>, pos: nat)
    requires pos < |buf|
    ensures Register(c0, buf[..pos + 1]) == AddByte(Register(c0, buf[..pos]), buf[pos])
  {
    assert buf[..pos + 1] == buf[..pos] + [buf[pos]];
    RegisterSnoc(c0, buf[..pos], buf[pos]);
  }

  lemma {:induction false} XorAllOnes(c: nat, n: nat)
    requires c < Pow2(n)
    ensures Xor(c, Pow2(n) - 1) == Pow2(n) - 1 - c
    decreases n
  {
    if n > 0 {
      XorAllOnes(c / 2, n - 1);
      XorJoin(c / 2, Pow2(n - 1) - 1, c % 2, 1);
    }
  }

  lemma XorOnes(c: nat)
    requires c <= ONES
    ensures Xor(c, ONES) == Not(c)
  {
    Pow2Word();
    XorAllOnes(c, 32);
  }

  // ---------- four bytes at a time ----------

  /** Four bytes brought in at once. */
  lemma FourBytes(c: nat, b0: byte, b1: byte, b2: byte, b3: byte)
    ensures AddByte(AddByte(AddByte(AddByte(c, b0), b1), b2), b3) == Steps(Xor(c, Word(b0, b1, b2, b3)), 32)
  {
    hide Xor, Steps, Shl;
    var w1 := Shl(b1, 8);
    var x0 := Xor(c, b0);
    BringIn(x0, b1, 8);
    var x1 := Xor(x0, Shl(b1, 8));
    BringIn(x1, b2, 16);
    var x2 := Xor(x1, Shl(b2, 16));
    BringIn(x2, b3, 24);
    var x3 := Xor(x2, Shl(b3, 24));
    WordFields(b0, b1, b2, b3);
    XorComm(Shl(b1, 8), b0);
    XorComm(Shl(b2, 16), Xor(Shl(b1, 8), b0));
    XorComm(Shl(b3, 24), Xor(Shl(b2, 16), Xor(Shl(b1, 8), b0)));
    XorAssoc(c, b0, Shl(b1, 8));
    XorAssoc(c, Xor(b0, Shl(b1, 8)), Shl(b2, 16));
    XorAssoc(c, Xor(Xor(b0, Shl(b1, 8)), Shl(b2, 16)), Shl(b3, 24));
  }

  /** A byte added after k bits may as well be added k bits higher before them. */
  lemma BringIn(x: nat, b: byte, k: nat)
    ensures AddByte(Steps(x, k), b) == Steps(Xor(x, Shl(b, k)), k + 8)
  {
    hide Xor, Steps, Shl;
    StepsXor(x, Shl(b, k), k);
    StepsShift(b, k);
    StepsAdd(Xor(x, Shl(b, k)), k, 8);
  }

  /** `DOLIT4`. */
  lemma FourByTables(y: nat)
    requires y <= ONES
    ensures Steps(y, 32) == Xor(Xor(Xor(Table(3, ByteAt(y, 0)), Table(2, ByteAt(y, 1))), Table(1, ByteAt(y, 2))), Table(0, ByteAt(y, 3)))
  {
    hide Xor, Steps, Shl, Word, ByteAt;
    var b0, b1, b2, b3 := ByteAt(y, 0), ByteAt(y, 1), ByteAt(y, 2), ByteAt(y, 3);
    BytesWord(y);
    WordFields(b0, b1, b2, b3);
    StepsXor(Shl(b3, 24), Xor(Shl(b2, 16), Xor(Shl(b1, 8), b0)), 32);
    StepsXor(Shl(b2, 16), Xor(Shl(b1, 8), b0), 32);
    StepsXor(Shl(b1, 8), b0, 32);
    StepsShiftPart(b1, 8, 32);
    StepsShiftPart(b2, 16, 32);
    StepsShiftPart(b3, 24, 32);
    XorComm(Steps(b1, 24), Steps(b0, 32));
    XorComm(Steps(b2, 16), Xor(Steps(b0, 32), Steps(b1, 24)));
    XorComm(Steps(b3, 8), Xor(Xor(Steps(b0, 32), Steps(b1, 24)), Steps(b2, 16)));
  }
}
