/** The checksum four bytes at a time (crc32.c), for little- and big-endian machines. */
module Crc32Fast {
  import opened Words
  import opened ExclusiveOr
  import opened Crc32

  /** `*buf4` as the two byte orders read it. */
  function LoadLittle(buf: seq<byte>, pos: nat): (w: nat)
    requires pos + 4 <= |buf|
    ensures w <= ONES
  {
    Word(buf[pos], buf[pos + 1], buf[pos + 2], buf[pos + 3])
  }

  function LoadBig(buf: seq<byte>, pos: nat): (w: nat)
    requires pos + 4 <= |buf|
    ensures w <= ONES
  {
    Word(buf[pos + 3], buf[pos + 2], buf[pos + 1], buf[pos])
  }

  lemma LoadSwapped(buf: seq<byte>, pos: nat)
    requires pos + 4 <= |buf|
    ensures LoadBig(buf, pos) == Swap(LoadLittle(buf, pos))
  {
    WordBytes(buf[pos], buf[pos + 1], buf[pos + 2], buf[pos + 3]);
    hide Word, ByteAt;
  }

  lemma XorInRange(x: nat, y: nat)
    requires x <= ONES && y <= ONES
    ensures Xor(x, y) <= ONES
  {
    Pow2Word();
    XorBelow(x, y, 32);
  }

  lemma StepsInRange(c: nat, k: nat)
    requires c <= ONES
    ensures Steps(c, k) <= ONES
  {
    Pow2Word();
    StepsBelow(c, k);
  }

  lemma TopByte(c: nat)
    requires c <= ONES
    ensures c / 0x100_0000 < 256 && ByteAt(c, 3) == c / 0x100_0000
  {
  }

  lemma TakeWord(c0: nat, buf: seq<byte>, pos: nat)
    requires pos + 4 <= |buf|
    ensures Register(c0, buf[..pos + 4]) == Steps(Xor(Register(c0, buf[..pos]), LoadLittle(buf, pos)), 32)
  {
    hide AddByte, Register, Xor, Steps, Word;
    TakeByte(c0, buf, pos);
    TakeByte(c0, buf, pos + 1);
    TakeByte(c0, buf, pos + 2);
    TakeByte(c0, buf, pos + 3);
    FourBytes(Register(c0, buf[..pos]), buf[pos], buf[pos + 1], buf[pos + 2], buf[pos + 3]);
  }

  /** `DOLIT4`. */
  method DoLit4(c0: nat, w: nat, t: array2<nat>) returns (c: nat)
    requires Tables(t) && c0 <= ONES && w <= ONES
    ensures c == Steps(Xor(c0, w), 32) <= ONES
  {
    hide Xor, Steps, Table, Word;
    XorInRange(c0, w);
    c := Xor(c0, w);
    StepsInRange(c, 32);
    FourByTables(c);
    TopByte(c);
    c := Xor(Xor(Xor(t[3, c % 256], t[2, c / 0x100 % 256]), t[1, c / 0x1_0000 % 256]), t[0, c / 0x100_0000]);
  }

  lemma TableSwapped(k: nat, n: nat)
    requires k < 4
    ensures Table(k + 4, n) == Swap(Table(k, n))
  {
  }

  lemma TableBelow(k: nat, n: byte)
    requires k < 4
    ensures Table(k, n) <= ONES
  {
    Pow2Word();
    StepsBelow(n, 8 * (k + 1));
  }

  lemma SwapXor4(x: nat, y: nat, z: nat, w: nat)
    requires x <= ONES && y <= ONES && z <= ONES && w <= ONES
    ensures Xor(Xor(Xor(Swap(x), Swap(y)), Swap(z)), Swap(w)) == Swap(Xor(Xor(Xor(x, y), z), w))
  {
    hide Xor, Swap;
    SwapXor(x, y);
    XorInRange(x, y);
    SwapXor(Xor(x, y), z);
    XorInRange(Xor(x, y), z);
    SwapXor(Xor(Xor(x, y), z), w);
  }

  /** `DOBIG4`: the same, with every word byte-reversed. */
  method DoBig4(c0: nat, w: nat, t: array2<nat>) returns (c: nat)
    requires Tables(t) && c0 <= ONES && w <= ONES
    ensures c == Swap(Steps(Swap(Xor(c0, w)), 32)) <= ONES
  {
    hide Xor, Steps, Swap, Table, Word;
    XorInRange(c0, w);
    c := Xor(c0, w);
    TopByte(c);
    BigTables(c);
    c := Xor(Xor(Xor(t[4, c % 256], t[5, c / 0x100 % 256]), t[6, c / 0x1_0000 % 256]), t[7, c / 0x100_0000]);
  }

  lemma BigTables(c: nat)
    requires c <= ONES
    ensures Xor(Xor(Xor(Table(4, ByteAt(c, 0)), Table(5, ByteAt(c, 1))), Table(6, ByteAt(c, 2))), Table(7, ByteAt(c, 3))) == Swap(Steps(Swap(c), 32))
  {
    hide Xor, Steps, Swap, Table, Word, ByteAt;
    var y := Swap(c);
    SwapBytes(c);
    FourByTables(y);
    var t3, t2, t1, t0 := Table(3, ByteAt(y, 0)), Table(2, ByteAt(y, 1)), Table(1, ByteAt(y, 2)), Table(0, ByteAt(y, 3));
    TableBelow(3, ByteAt(y, 0)); TableBelow(2, ByteAt(y, 1)); TableBelow(1, ByteAt(y, 2)); TableBelow(0, ByteAt(y, 3));
    TableSwapped(3, ByteAt(y, 0)); TableSwapped(2, ByteAt(y, 1)); TableSwapped(1, ByteAt(y, 2)); TableSwapped(0, ByteAt(y, 3));
    SwapXor4(t0, t1, t2, t3);
    Reverse4(t3, t2, t1, t0);
  }

  lemma Reverse4(x: nat, y: nat, z: nat, w: nat)
    ensures Xor(Xor(Xor(x, y), z), w) == Xor(Xor(Xor(w, z), y), x)
  {
    hide Xor;
    XorComm(x, y);
    XorAssoc(y, x, z);
    XorComm(x, z);
    XorAssoc(y, z, x);
    XorComm(y, z);
    XorAssoc(Xor(z, y), x, w);
    XorComm(x, w);
    XorAssoc(Xor(z, y), w, x);
    XorComm(Xor(z, y), w);
    XorAssoc(w, z, y);
  }

  /** `crc32_little`, for a buffer of any length at any address. */
  method Crc32Little(crc: nat, buf: seq<byte>, addr: nat, t: array2<nat>) returns (r: nat)
    requires Tables(t) && crc <= ONES
    ensures r == Crc(crc, buf)
  {
    hide Steps, Xor, AddByte, Register, Table, Word;
    ghost var c0 := Not(crc);
    var c := Not(crc);
    RegisterNone(c);
    var pos: nat, len: nat := 0, |buf|;
    while len > 0 && (addr + pos) % 4 != 0
      invariant pos + len == |buf| && c == Register(c0, buf[..pos]) <= ONES
    {
      TakeByte(c0, buf, pos);
      OneByte(c, buf[pos]);
      c := Xor(t[0, Xor(c, buf[pos]) % 256], c / 256);
      pos := pos + 1;
      len := len - 1;
    }
    while len >= 32
      invariant pos + len == |buf| && c == Register(c0, buf[..pos]) <= ONES
    {
      for i := 0 to 8
        invariant pos + len == |buf| + 4 * i && pos <= |buf| && c == Register(c0, buf[..pos]) <= ONES
      {
        TakeWord(c0, buf, pos);
        c := DoLit4(c, LoadLittle(buf, pos), t);
        pos := pos + 4;
      }
      len := len - 32;
    }
    while len >= 4
      invariant pos + len == |buf| && c == Register(c0, buf[..pos]) <= ONES
    {
      TakeWord(c0, buf, pos);
      c := DoLit4(c, LoadLittle(buf, pos), t);
      pos := pos + 4;
      len := len - 4;
    }
    while len > 0
      invariant pos + len == |buf| && c == Register(c0, buf[..pos]) <= ONES
    {
      TakeByte(c0, buf, pos);
      OneByte(c, buf[pos]);
      c := Xor(t[0, Xor(c, buf[pos]) % 256], c / 256);
      pos := pos + 1;
      len := len - 1;
    }
    assert buf[..pos] == buf;
    r := Not(c);
  }

  /** `c << 8` on 32 bits. */
  function ShiftUp(c: nat): nat { c % 0x100_0000 * 256 }

  /** One byte on a byte-reversed register. */
  lemma OneByteBig(x: nat, b: byte)
    requires x <= ONES
    ensures Swap(x) / 0x100_0000 < 256
    ensures Xor(Table(4, XorByte(Swap(x) / 0x100_0000, b)), ShiftUp(Swap(x))) == Swap(AddByte(x, b)) <= ONES
  {
    hide Xor, Steps, AddByte, Table, Word, ByteAt, Swap;
    TopByte(Swap(x));
    SwapBytes(x);
    LowByte(x);
    OneByte(x, b);
    TableSwapped(0, XorByte(x % 256, b));
    TableBelow(0, XorByte(x % 256, b));
    SwapXor(Table(0, XorByte(x % 256, b)), x / 256);
    SwapShift(x);
  }

  lemma LowByte(x: nat)
    ensures ByteAt(x, 0) == x % 256
  {
  }

  lemma SwapShift(x: nat)
    requires x <= ONES
    ensures ShiftUp(Swap(x)) == Swap(x / 256)
  {
    hide ByteAt, ShiftUp, Word;
    var b0, b1, b2, b3 := ByteAt(x, 0), ByteAt(x, 1), ByteAt(x, 2), ByteAt(x, 3);
    BytesWord(x);
    var zero: byte := 0;
    WordShift(b0, b1, b2, b3);
    WordBytes(b1, b2, b3, zero);
    assert Swap(x) == Word(b3, b2, b1, b0);
    WordShiftUp(b3, b2, b1, b0);
  }

  lemma WordShift(b0: byte, b1: byte, b2: byte, b3: byte)
    ensures Word(b0, b1, b2, b3) / 256 == Word(b1, b2, b3, 0)
  {
    DivModUnique(Word(b0, b1, b2, b3), 256, Word(b1, b2, b3, 0), b0);
  }

  lemma WordShiftUp(b0: byte, b1: byte, b2: byte, b3: byte)
    ensures ShiftUp(Word(b0, b1, b2, b3)) == Word(0, b0, b1, b2)
  {
    DivModUnique(Word(b0, b1, b2, b3), 0x100_0000, b3, b0 + 0x100 * b1 as int + 0x1_0000 * b2 as int);
  }

  /** `crc32_big` works on byte-reversed words and gives the same checksum. */
  method Crc32Big(crc: nat, buf: seq<byte>, addr: nat, t: array2<nat>) returns (r: nat)
    requires Tables(t) && crc <= ONES
    ensures r == Crc(crc, buf)
  {
    hide Steps, Xor, AddByte, Register, Table, Word, Swap, ShiftUp, Not;
    ghost var c0 := Not(crc);
    NotInRange(crc);
    SwapNot(crc);
    var c := Not(Swap(crc));
    RegisterNone(c0);
    var pos: nat, len: nat := 0, |buf|;
    while len > 0 && (addr + pos) % 4 != 0
      invariant pos + len == |buf| && c == Swap(Register(c0, buf[..pos])) && Register(c0, buf[..pos]) <= ONES
    {
      BigByte(c0, buf, pos);
      c := Xor(t[4, XorByte(c / 0x100_0000, buf[pos])], ShiftUp(c));
      pos := pos + 1;
      len := len - 1;
    }
    while len >= 32
      invariant pos + len == |buf| && c == Swap(Register(c0, buf[..pos])) && Register(c0, buf[..pos]) <= ONES
    {
      for i := 0 to 8
        invariant pos + len == |buf| + 4 * i && pos <= |buf|
        invariant c == Swap(Register(c0, buf[..pos])) && Register(c0, buf[..pos]) <= ONES
      {
        BigWord(c0, buf, pos);
        c := DoBig4(c, LoadBig(buf, pos), t);
        pos := pos + 4;
      }
      len := len - 32;
    }
    while len >= 4
      invariant pos + len == |buf| && c == Swap(Register(c0, buf[..pos])) && Register(c0, buf[..pos]) <= ONES
    {
      BigWord(c0, buf, pos);
      c := DoBig4(c, LoadBig(buf, pos), t);
      pos := pos + 4;
      len := len - 4;
    }
    while len > 0
      invariant pos + len == |buf| && c == Swap(Register(c0, buf[..pos])) && Register(c0, buf[..pos]) <= ONES
    {
      BigByte(c0, buf, pos);
      c := Xor(t[4, XorByte(c / 0x100_0000, buf[pos])], ShiftUp(c));
      pos := pos + 1;
      len := len - 1;
    }
    assert buf[..pos] == buf;
    SwapNot(Register(c0, buf));
    NotInRange(Register(c0, buf));
    SwapTwice(Not(Register(c0, buf)));
    r := Swap(Not(c));
  }

  lemma NotInRange(c: nat)
    ensures Not(c) <= ONES
  {
  }

  lemma BigByte(c0: nat, buf: seq<byte>, pos: nat)
    requires pos < |buf| && Register(c0, buf[..pos]) <= ONES
    ensures var c := Swap(Register(c0, buf[..pos]));
            c / 0x100_0000 < 256 &&
            Xor(Table(4, XorByte(c / 0x100_0000, buf[pos])), ShiftUp(c)) == Swap(Register(c0, buf[..pos + 1]))
    ensures Register(c0, buf[..pos + 1]) <= ONES
  {
    hide Steps, Xor, AddByte, Register, Table, Word, Swap, ShiftUp;
    TakeByte(c0, buf, pos);
    OneByteBig(Register(c0, buf[..pos]), buf[pos]);
    Pow2Word();
    AddByteBelow(Register(c0, buf[..pos]), buf[pos]);
  }

  lemma BigWord(c0: nat, buf: seq<byte>, pos: nat)
    requires pos + 4 <= |buf| && Register(c0, buf[..pos]) <= ONES
    ensures Swap(Steps(Swap(Xor(Swap(Register(c0, buf[..pos])), LoadBig(buf, pos))), 32)) == Swap(Register(c0, buf[..pos + 4]))
    ensures Register(c0, buf[..pos + 4]) <= ONES
  {
    hide Steps, Xor, AddByte, Register, Table, Word, Swap, LoadLittle, LoadBig;
    var x, w := Register(c0, buf[..pos]), LoadLittle(buf, pos);
    TakeWord(c0, buf, pos);
    LoadSwapped(buf, pos);
    SwapXor(x, w);
    XorInRange(x, w);
    SwapTwice(Xor(x, w));
    StepsInRange(Xor(x, w), 32);
  }
}
