/** The bit layer: the compressor's buffer filled from the top (compress.c) and the
    decompressor's filled from the bottom (decompress.c), against one string of bits. */
module BitStream {
  import opened Words
  import opened ExclusiveOr
  import opened Bits

  /** The bits of a string of bytes. */
  function BytesBits(s: seq<byte>): (r: seq<bool>)
    ensures |r| == 8 * |s|
  {
    if s == [] then [] else BytesBits(s[..|s| - 1]) + BitsOf(s[|s| - 1], 8)
  }

  lemma BytesSnoc(s: seq<byte>, b: byte)
    ensures BytesBits(s + [b]) == BytesBits(s) + BitsOf(b, 8)
  {
    assert (s + [b])[..|s + [b]| - 1] == s;
  }

  lemma {:induction false} BytesConcat(s: seq<byte>, t: seq<byte>)
    ensures BytesBits(s + t) == BytesBits(s) + BytesBits(t)
  {
    hide BitsOf;
    if t == [] {
      assert s + t == s;
    } else {
      BytesConcat(s, t[..|t| - 1]);
      assert (s + t)[..|s + t| - 1] == s + t[..|t| - 1];
    }
  }

  lemma {:induction false} BitsSplit(v: nat, m: nat, n: nat)
    ensures BitsOf(v, m + n) == BitsOf(Shr(v, n), m) + BitsOf(Low(v, n), n)
    decreases n
  {
    hide Shr, Low;
    if n == 0 {
      ShrStep(v, 0);
      assert BitsOf(v, m + 0) == BitsOf(v, m) + [];
    } else {
      BitsSplit(v / 2, m, n - 1);
      ShrStep(v, n - 1);
      LowStep(v, n - 1);
      assert BitsOf(v, m + n) == BitsOf(v / 2, m + (n - 1)) + [v % 2 == 1];
      assert BitsOf(Low(v, n), n) == BitsOf(Low(v / 2, n - 1), n - 1) + [v % 2 == 1];
    }
  }

  lemma {:induction false} BitsOfLow(v: nat, n: nat)
    ensures BitsOf(Low(v, n), n) == BitsOf(v, n)
    decreases n
  {
    hide Low;
    if n > 0 {
      BitsOfLow(v / 2, n - 1);
      LowStep(v, n - 1);
    }
  }

  lemma JoinBits(x: nat, m: nat, v: nat, n: nat)
    requires v < Pow2(n)
    ensures BitsOf(Shl(x, n) + v, m + n) == BitsOf(x, m) + BitsOf(v, n)
  {
    BitsSplit(Shl(x, n) + v, m, n);
    JoinedParts(x, n, v);
  }

  // ---------- writing ----------

  /** bsBuff holds bsLive bits at the top of a 32-bit word, and zeros below. */
  ghost predicate Topped(bsBuff: nat, bsLive: nat) {
    bsLive <= 32 && bsBuff == Shl(Shr(bsBuff, 32 - bsLive), 32 - bsLive) && bsBuff < Pow2(32)
  }

  ghost function TopBits(bsBuff: nat, bsLive: nat): seq<bool>
    requires bsLive <= 32
  {
    BitsOf(Shr(bsBuff, 32 - bsLive), bsLive)
  }

  /** Taking the top byte. */
  lemma TakeTop(buff: nat, live: nat)
    requires Topped(buff, live) && live >= 8
    ensures Shr(buff, 24) < 256
    ensures Topped(Low(Shl(buff, 8), 32), live - 8)
    ensures TopBits(buff, live) == BitsOf(Shr(buff, 24), 8) + TopBits(Low(Shl(buff, 8), 32), live - 8)
  {
    hide Shl, Shr, Low;
    var x, k := Shr(buff, 32 - live), 32 - live;
    Pow2Values();
    ShrBelow(buff, 8, 24);
    // buff == x << k and so buff >> 24 == x >> (live - 8), and what is left is low bits of x
    ShlFields(x, live - 8, k);
    ShlFields(buff, 24, 8);
    ShlAdd(Low(x, live - 8), k, 8);
    var left := Low(Shl(buff, 8), 32);
    assert left == Shl(Low(x, live - 8), k + 8);
    ShlZeroAdd(Low(x, live - 8), k + 8);
    JoinedParts(Low(x, live - 8), k + 8, 0);
    BitsSplit(x, 8, live - 8);
  }

  lemma ShlZeroAdd(x: nat, k: nat)
    ensures Shl(x, k) + 0 == Shl(x, k) && 0 < Pow2(k)
  {
  }

  /** The last byte, partly filled: the bits beyond are zero. */
  lemma TakeLast(buff: nat, live: nat)
    requires Topped(buff, live) && live < 8
    ensures Shr(buff, 24) < 256 && BitsOf(Shr(buff, 24), 8) == TopBits(buff, live) + BitsOf(0, 8 - live)
    ensures Low(Shl(buff, 8), 32) == 0
  {
    hide Shl, Shr, Low;
    var x, k := Shr(buff, 32 - live), 32 - live;
    Pow2Values();
    ShrBelow(buff, 8, 24);
    ShlAdd(x, 8 - live, 24);
    ShlZeroAdd(Shl(x, 8 - live), 24);
    JoinedParts(Shl(x, 8 - live), 24, 0);
    ShlZeroAdd(x, 8 - live);
    JoinBits(x, live, 0, 8 - live);
    assert Shr(buff, 24) == Shl(x, 8 - live) + 0;
    ShlFields(buff, 24, 8);
    ShlOfZero(8);
  }

  lemma ShlOfZero(k: nat)
    ensures Shl(0, k) == 0
  {
  }

  /** A number of `live` bits at the top of the word. */
  lemma AtTop(y: nat, live: nat)
    requires live <= 32 && y < Pow2(live)
    ensures Topped(Shl(y, 32 - live), live) && TopBits(Shl(y, 32 - live), live) == BitsOf(y, live)
  {
    hide Shl, Shr, Pow2;
    ShlBelow(y, live, 32 - live);
    ShlZeroAdd(y, 32 - live);
    JoinedParts(y, 32 - live, 0);
  }

  /** Where the field goes the buffer is clear. */
  lemma PutOr(buff: nat, live: nat, v: nat, n: nat)
    requires Topped(buff, live) && live + n <= 32 && v < Pow2(n)
    ensures Or(buff, Shl(v, 32 - live - n)) == buff + Shl(v, 32 - live - n)
    ensures buff + Shl(v, 32 - live - n) == Shl(Shl(Shr(buff, 32 - live), n) + v, 32 - live - n)
  {
    hide Shl, Shr, Low, Or, Pow2;
    var x, k := Shr(buff, 32 - live), 32 - live - n;
    ShlAdd(x, n, k);
    ShlBelow(v, n, k);
    OrDisjointShl(x, n + k, Shl(v, k));
    ShlSum(Shl(x, n), v, k);
  }

  lemma ToppedParts(buff: nat, live: nat)
    requires Topped(buff, live)
    ensures live <= 32 && buff < Pow2(32) && TopBits(buff, live) == BitsOf(Shr(buff, 32 - live), live)
  {
  }

  /** Writing a field below the live bits. */
  lemma PutField(buff: nat, live: nat, v: nat, n: nat)
    requires Topped(buff, live) && live + n <= 32 && v < Pow2(n)
    ensures Or(buff, Shl(v, 32 - live - n)) == buff + Shl(v, 32 - live - n)
    ensures Topped(buff + Shl(v, 32 - live - n), live + n)
    ensures TopBits(buff + Shl(v, 32 - live - n), live + n) == TopBits(buff, live) + BitsOf(v, n)
  {
    hide Shl, Shr, Low, Or, Pow2, Topped, TopBits;
    var x := Shr(buff, 32 - live);
    ToppedParts(buff, live);
    PutOr(buff, live, v, n);
    JoinBits(x, live, v, n);
    ShrBelow(buff, live, 32 - live);
    FieldBelow(x, live, v, n);
    AtTop(Shl(x, n) + v, live + n);
  }

  lemma OrDisjointShl(hi: nat, n: nat, lo: nat)
    requires lo < Pow2(n)
    ensures Or(Shl(hi, n), lo) == Shl(hi, n) + lo
  {
    OrDisjoint(hi, n, lo);
  }

  lemma FieldBelow(hi: nat, m: nat, lo: nat, n: nat)
    requires hi < Pow2(m) && lo < Pow2(n)
    ensures Shl(hi, n) + lo < Pow2(m + n)
  {
    Pow2Add(m, n);
    MulWeak(hi + 1, Pow2(m), Pow2(n));
    ShlSum(hi, 1, n);
  }

  /** A buffer between two writes, and everything written through it. */
  ghost predicate Buffered(bsBuff: nat, bsLive: int) {
    0 <= bsLive <= 31 && Topped(bsBuff, bsLive)
  }

  ghost function AllWritten(bsBuff: nat, bsLive: int, zbits: seq<byte>): seq<bool>
    requires Buffered(bsBuff, bsLive)
  {
    BytesBits(zbits) + TopBits(bsBuff, bsLive)
  }

  /** A byte leaves the buffer. */
  lemma ByteOut(buff: nat, live: int, z: seq<byte>)
    requires Buffered(buff, live) && live >= 8
    ensures Shr(buff, 24) < 256 && Buffered(Low(Shl(buff, 8), 32), live - 8)
    ensures AllWritten(Low(Shl(buff, 8), 32), live - 8, z + [Shr(buff, 24)]) == AllWritten(buff, live, z)
  {
    hide Topped, TopBits, Shl, Shr, Low;
    TakeTop(buff, live);
    BytesSnoc(z, Shr(buff, 24));
  }

  lemma FieldIn(buff: nat, live: int, z: seq<byte>, v: nat, n: nat)
    requires Buffered(buff, live) && live < 8 && 1 <= n <= 24 && v < Pow2(n)
    ensures Or(buff, Shl(v, 32 - live - n)) == buff + Shl(v, 32 - live - n)
    ensures Buffered(buff + Shl(v, 32 - live - n), live + n)
    ensures AllWritten(buff + Shl(v, 32 - live - n), live + n, z) == AllWritten(buff, live, z) + BitsOf(v, n)
  {
    hide Topped, TopBits, Shl, Or, Pow2, BitsOf, BytesBits;
    PutField(buff, live, v, n);
    Associate(BytesBits(z), TopBits(buff, live), BitsOf(v, n));
  }

  lemma Associate(a: seq<bool>, b: seq<bool>, c: seq<bool>)
    ensures a + (b + c) == (a + b) + c
  {
  }

  /** The last byte leaves the buffer, filled up with zeros. */
  lemma LastOut(buff: nat, live: int, z: seq<byte>)
    requires Buffered(buff, live) && 0 <= live < 8
    ensures Shr(buff, 24) < 256
    ensures live > 0 ==> BytesBits(z + [Shr(buff, 24)]) == AllWritten(buff, live, z) + BitsOf(0, 8 - live)
    ensures live == 0 ==> BytesBits(z) == AllWritten(buff, live, z)
  {
    hide Topped, Shl, Shr, Low;
    NoBits(buff);
    TakeLast(buff, live);
    BytesSnoc(z, Shr(buff, 24));
  }

  /** The bit-stream part of the compressor's state. */
  class BitWriter {
    var bsBuff: nat
    var bsLive: int
    var zbits: seq<byte>

    ghost predicate Valid()
      reads this
    {
      Buffered(bsBuff, bsLive)
    }

    /** Everything written: whole bytes, and the bits still in the buffer. */
    ghost function Written(): seq<bool>
      requires Valid()
      reads this
    {
      AllWritten(bsBuff, bsLive, zbits)
    }

    lemma Parts()
      ensures Valid() <==> Buffered(bsBuff, bsLive)
      ensures Valid() ==> Written() == AllWritten(bsBuff, bsLive, zbits)
    {
    }

    /** `BZ2_bsInitWrite` */
    constructor ()
      ensures Valid() && zbits == [] && Written() == []
    {
      hide Buffered, AllWritten;
      EmptyBuffer();
      bsBuff, bsLive, zbits := 0, 0, [];
    }

    /** `BZ2_bsInitWrite` on a state that exists already. */
    method InitWrite()
      modifies this`bsBuff, this`bsLive
      ensures Valid() && Written() == BytesBits(zbits)
    {
      hide Buffered, AllWritten, TopBits, BytesBits;
      bsBuff, bsLive := 0, 0;
      EmptyAfter(zbits);
    }

    /** The bytes written so far have been handed over; the next block starts an output of its
        own, with the bits that are left in the buffer. */
    method NewOutput(ghost prior: seq<byte>)
      requires Valid()
      modifies this`zbits
      ensures Valid() && zbits == []
      ensures BytesBits(prior + old(zbits)) + Written() == BytesBits(prior) + old(Written())
    {
      hide Buffered, TopBits, BytesBits;
      BytesConcat(prior, zbits);
      assert BytesBits([]) == [] by { EmptyBuffer(); NoBytes(); }
      zbits := [];
    }

    /** `bsNEEDW`: whole bytes leave the buffer. */
    method NeedW()
      requires Valid()
      modifies this
      ensures Valid() && bsLive < 8 && Written() == old(Written()) && old(zbits) <= zbits
    {
      hide Buffered, AllWritten;
      ghost var w, z0 := Written(), zbits;
      while bsLive >= 8
        invariant Valid() && Written() == w && z0 <= zbits
        decreases bsLive
      {
        ByteOut(bsBuff, bsLive, zbits);
        zbits := zbits + [Shr(bsBuff, 24)];
        bsBuff := Low(Shl(bsBuff, 8), 32);
        bsLive := bsLive - 8;
      }
    }

    /** `bsW`: the n bits of v follow everything written before. */
    method BsW(n: nat, v: nat)
      requires Valid() && 1 <= n <= 24 && v < Pow2(n)
      modifies this
      ensures Valid() && Written() == old(Written()) + BitsOf(v, n) && old(zbits) <= zbits
    {
      hide AllWritten, Topped, Or, Shl;
      NeedW();
      FieldIn(bsBuff, bsLive, zbits, v, n);
      bsBuff := Or(bsBuff, Shl(v, 32 - bsLive - n));
      bsLive := bsLive + n;
    }

    /** `bsPutUChar` */
    method PutUChar(c: byte)
      requires Valid()
      modifies this
      ensures Valid() && Written() == old(Written()) + BitsOf(c, 8) && old(zbits) <= zbits
    {
      hide Buffered, AllWritten;
      Pow2Values();
      BsW(8, c);
    }

    /** `bsPutUInt32`: four bytes, highest first. */
    method PutUInt32(u: nat)
      requires Valid() && u < Pow2(32)
      modifies this
      ensures Valid() && Written() == old(Written()) + BitsOf(u, 32) && old(zbits) <= zbits
    {
      hide Buffered, AllWritten, Pow2, Low, Shr, BitsOf;
      FourBytes(u);
      var b3: byte, b2: byte, b1: byte, b0: byte := Low(Shr(u, 24), 8), Low(Shr(u, 16), 8), Low(Shr(u, 8), 8), Low(u, 8);
      PutUChar(b3);
      PutUChar(b2);
      PutUChar(b1);
      PutUChar(b0);
      assert Written() == old(Written()) + BitsOf(b3, 8) + BitsOf(b2, 8) + BitsOf(b1, 8) + BitsOf(b0, 8);
    }

    /** `bsFinishWrite`: the last byte is filled up with zeros. */
    method FinishWrite() returns (ghost pad: nat)
      requires Valid()
      modifies this
      ensures pad < 8 && BytesBits(zbits) == old(Written()) + BitsOf(0, pad) && old(zbits) <= zbits
      ensures bsLive <= 0
    {
      hide Buffered, AllWritten, Topped, BytesBits, Shl, Shr, Low, BitsOf;
      ghost var w, z0 := Written(), zbits;
      pad := 0;
      NoBits(bsBuff);
      BufferedRange(bsBuff, bsLive);
      while bsLive > 0
        invariant -8 < bsLive && z0 <= zbits
        invariant bsLive >= 0 ==> Valid() && Written() == w
        invariant bsLive < 0 ==> BytesBits(zbits) == w + BitsOf(0, pad) && pad < 8
        decreases bsLive
      {
        BufferedRange(bsBuff, bsLive);
        if bsLive >= 8 {
          ByteOut(bsBuff, bsLive, zbits);
        } else {
          LastOut(bsBuff, bsLive, zbits);
          pad := 8 - bsLive;
        }
        zbits := zbits + [Shr(bsBuff, 24)];
        bsBuff := Low(Shl(bsBuff, 8), 32);
        bsLive := bsLive - 8;
      }
      if bsLive == 0 {
        LastOut(bsBuff, 0, zbits);
        pad := 0;
        assert w + [] == w;
      }
    }
  }

  lemma NoBytes()
    ensures BytesBits([]) == []
  {
  }

  lemma ZeroTop()
    ensures Buffered(0, 0) && TopBits(0, 0) == []
  {
    hide Shl, Shr;
    ShlOfZero(32);
    LowSmall(0, 32);
    NoBits(0);
  }

  lemma EmptyAfter(z: seq<byte>)
    ensures Buffered(0, 0) && AllWritten(0, 0, z) == BytesBits(z)
  {
    hide Buffered, TopBits, BytesBits;
    ZeroTop();
    assert BytesBits(z) + [] == BytesBits(z);
  }

  lemma BufferedRange(buff: nat, live: int)
    requires Buffered(buff, live)
    ensures 0 <= live <= 31
  {
  }

  lemma EmptyBuffer()
    ensures Buffered(0, 0) && AllWritten(0, 0, []) == []
  {
    hide Shl, Shr;
    ShlOfZero(32);
    LowSmall(0, 32);
    NoBits(0);
    assert BytesBits([]) == [];
  }

  lemma NoBits(buff: nat)
    ensures TopBits(buff, 0) == [] && BitsOf(0, 0) == []
  {
  }

  lemma FourBytes(u: nat)
    requires u < Pow2(32)
    ensures Pow2(8) == 256
    ensures BitsOf(u, 32) == BitsOf(Low(Shr(u, 24), 8), 8) + BitsOf(Low(Shr(u, 16), 8), 8) + BitsOf(Low(Shr(u, 8), 8), 8) + BitsOf(Low(u, 8), 8)
  {
    hide Low, Shr;
    Pow2Values();
    BitsSplit(u, 24, 8);
    BitsSplit(Shr(u, 8), 16, 8);
    BitsSplit(Shr(u, 16), 8, 8);
    ShrTwice(u, 8, 8);
    ShrTwice(u, 16, 8);
    BitsOfLow(Shr(u, 24), 8);
  }

  lemma ShrTwice(x: nat, m: nat, n: nat)
    ensures Shr(Shr(x, m), n) == Shr(x, m + n)
  {
    hide Shl, Shr, Low;
    var q := Shr(Shr(x, m), n);
    SplitSum(x, m);
    SplitSum(Shr(x, m), n);
    ShlSum(Shl(q, n), Low(Shr(x, m), n), m);
    ShlAdd(q, n, m);
    FieldBelow(Low(Shr(x, m), n), n, Low(x, m), m);
    JoinedParts(q, m + n, Shl(Low(Shr(x, m), n), m) + Low(x, m));
  }

  // ---------- reading ----------

  /** The unread bits: the low bsLive bits of the buffer. */
  ghost function LowBits(bsBuff: nat, bsLive: nat): seq<bool> {
    BitsOf(bsBuff, bsLive)
  }

  /** One more byte at the bottom; what leaves the 32-bit word at the top has been read. */
  lemma BringInByte(buff: nat, live: nat, b: byte)
    requires live <= 24
    ensures Or(Low(Shl(buff, 8), 32), b) == Low(Shl(buff, 8), 32) + b < Pow2(32)
    ensures LowBits(Low(Shl(buff, 8), 32) + b, live + 8) == LowBits(buff, live) + BitsOf(b, 8)
  {
    hide Shl, Shr, Low, Or;
    Pow2Values();
    ShlFields(buff, 24, 8);
    OrDisjointShl(Low(buff, 24), 8, b);
    FieldBelow(Low(buff, 24), 24, b, 8);
    JoinBits(Low(buff, 24), live, b, 8);
    LowOfLow(buff, live, 24);
  }

  lemma LowOfLow(x: nat, m: nat, n: nat)
    requires m <= n
    ensures BitsOf(Low(x, n), m) == BitsOf(x, m)
  {
    hide Low, Shr;
    BitsSplit(x, n - m, m);
    BitsSplit(Low(x, n), n - m, m);
    BitsOfLow(x, n);
    BitsOfLow(x, m);
    BitsOfLow(Low(x, n), m);
    assert BitsOf(x, n)[n - m..] == BitsOf(x, m);
    assert BitsOf(Low(x, n), n)[n - m..] == BitsOf(Low(x, n), m);
  }

  /** The next n bits are a number. */
  lemma TakeField(buff: nat, live: nat, n: nat)
    requires n <= live
    ensures And(Shr(buff, live - n), Pow2(n) - 1) == Low(Shr(buff, live - n), n) < Pow2(n)
    ensures LowBits(buff, live) == BitsOf(Low(Shr(buff, live - n), n), n) + LowBits(buff, live - n)
  {
    hide Shr, Low, And;
    AndMaskLow(Shr(buff, live - n), n);
    BitsSplit(buff, n, live - n);
    BitsOfLow(Shr(buff, live - n), n);
    BitsOfLow(buff, live - n);
  }

  lemma AndMaskLow(x: nat, n: nat)
    ensures And(x, Pow2(n) - 1) == Low(x, n)
  {
    AndMask(x, n);
  }

  /** Bits brought in and not yet read, and the bits of the bytes ahead. */
  ghost function Unread(bsBuff: nat, bsLive: nat, next_in: seq<byte>, pos: nat): seq<bool>
    requires pos <= |next_in|
  {
    LowBits(bsBuff, bsLive) + BytesBits(next_in[pos..])
  }

  lemma ByteIn(buff: nat, live: nat, s: seq<byte>, pos: nat)
    requires live <= 24 && pos < |s|
    ensures Unread(Or(Low(Shl(buff, 8), 32), s[pos]), live + 8, s, pos + 1) == Unread(buff, live, s, pos)
  {
    hide LowBits, Or, Low, Shl;
    BringInByte(buff, live, s[pos]);
    NextByte(s, pos);
  }

  lemma FieldOut(buff: nat, live: nat, s: seq<byte>, pos: nat, n: nat)
    requires n <= live && pos <= |s|
    ensures And(Shr(buff, live - n), Pow2(n) - 1) < Pow2(n)
    ensures Unread(buff, live, s, pos) == BitsOf(And(Shr(buff, live - n), Pow2(n) - 1), n) + Unread(buff, live - n, s, pos)
  {
    hide LowBits, And, Shr;
    TakeField(buff, live, n);
  }

  /** The bit-buffer part of the decompressor's state, and the caller's input: `next_in`
      is all of it so far, `pos` how far it has been read. */
  class BitReader {
    var bsBuff: nat
    var bsLive: nat
    var next_in: seq<byte>
    var pos: nat

    ghost predicate Valid()
      reads this
    {
      bsLive <= 31 && pos <= |next_in|
    }

    /** Everything that is still to be read. */
    ghost function Left(): seq<bool>
      requires Valid()
      reads this
    {
      Unread(bsBuff, bsLive, next_in, pos)
    }

    constructor ()
      ensures Valid() && Left() == [] && next_in == [] && pos == 0
    {
      bsBuff, bsLive, next_in, pos := 0, 0, [], 0;
      new;
      assert BytesBits([]) == [];
    }

    /** `GET_BITS`: either the next n bits as a number, or the input is used up, fewer than n
        bits are left, and everything stands ready to go on when there is more. */
    method GetBits(n: nat) returns (ok: bool, v: nat)
      requires Valid() && 1 <= n <= 24
      modifies this`bsBuff, this`bsLive, this`pos
      ensures Valid()
      ensures ok ==> v < Pow2(n) && old(Left()) == BitsOf(v, n) + Left()
      ensures !ok ==> pos == |next_in| && |Left()| < n && old(Left()) == Left()
    {
      hide And, Shr, Shl, Low, Or, Unread, Pow2;
      ghost var all := Left();
      while true
        invariant Valid() && Left() == all
        decreases |next_in| - pos
      {
        if bsLive >= n {
          FieldOut(bsBuff, bsLive, next_in, pos, n);
          v := And(Shr(bsBuff, bsLive - n), Pow2(n) - 1);
          bsLive := bsLive - n;
          return true, v;
        }
        if pos == |next_in| {
          NothingAhead(bsBuff, bsLive, next_in);
          return false, 0;
        }
        ByteIn(bsBuff, bsLive, next_in, pos);
        bsBuff := Or(Low(Shl(bsBuff, 8), 32), next_in[pos]);
        bsLive := bsLive + 8;
        pos := pos + 1;
      }
    }

    /** The caller supplies more input. */
    method Supply(more: seq<byte>)
      requires Valid()
      modifies this`next_in
      ensures Valid() && next_in == old(next_in) + more && Left() == old(Left()) + BytesBits(more)
    {
      assert (next_in + more)[pos..] == next_in[pos..] + more;
      BytesConcat(next_in[pos..], more);
      next_in := next_in + more;
    }
  }

  lemma NothingAhead(buff: nat, live: nat, s: seq<byte>)
    ensures |Unread(buff, live, s, |s|)| == live
  {
    assert s[|s|..] == [];
  }

  lemma NextByte(s: seq<byte>, pos: nat)
    requires pos < |s|
    ensures BytesBits(s[pos..]) == BitsOf(s[pos], 8) + BytesBits(s[pos + 1..])
  {
    assert s[pos..] == [s[pos]] + s[pos + 1..];
    BytesConcat([s[pos]], s[pos + 1..]);
    BytesSnoc([], s[pos]);
    assert [] + [s[pos]] == [s[pos]];
  }
}
