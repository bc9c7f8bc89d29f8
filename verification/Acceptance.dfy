/** What is refused and what is accepted: the converse of reading back what was written.
    Whatever input ends well has the stream's frame, with the checksum of every block and of
    the whole being those of the data that come out (decompress.c, bzlib.c). */
module Acceptance {
  import opened Words
  import opened Bits
  import opened BitStream
  import opened BlockCrc
  import opened WordBits
  import opened ChecksumBits
  import opened HuffmanCodes
  import opened MtfCoding
  import opened Parser
  import opened Printer
  import opened StreamFormat
  import opened StreamDecoder
  import D = Decompressor

  // ---------- one field at a time ----------

  lemma FeedOne(p: Parse, bits: seq<bool>)
    requires Ok(p.ctl) && !Stopped(p.ctl) && |bits| >= Need(p.ctl)
    ensures var n := Need(p.ctl); var v := ValueOf(bits[..n]);
            v < Pow2(n) && bits == BitsOf(v, n) + bits[n..] && Feed(p, bits) == Feed(Step(p, v), bits[n..])
  {
    hide Step, Ok, Need;
    ValueRange(bits[..Need(p.ctl)]);
    BitsOfValue(bits[..Need(p.ctl)]);
  }

  /** The states between a block's checksum and its end. */
  predicate InBlock(c: Ctl) {
    c.RandBit? || c.OrigPtr? || c.Mapping1? || c.Mapping2? || c.Selector1? || c.Selector2? || c.Selector3? ||
    c.Coding1? || c.Coding2? || c.Coding3? || c.Mtf1? || c.Mtf2? || c.Output? || c.Randomised? || c.Overrun?
  }

  predicate Inside(c: Ctl) { InBlock(c) || c == Failed(DataError) }

  lemma CodeInside(level: nat, origPtr: nat, t: Tables, groupNo: nat, groupPos: nat, d: Decoder, zn: nat, zvec: nat)
    requires TablesOk(t) && |d.list| == 256 && groupNo < |t.selector|
    ensures Inside(OnCode(level, origPtr, t, groupNo, groupPos, d, zn, zvec))
  {
    hide AlphaSize, DecodeStep, Limit, Base, Perm, Unseq;
  }

  /** A block is left only at its end, and its checksum is not written to. */
  lemma StepInside(p: Parse, v: nat)
    requires Ok(p.ctl) && !Stopped(p.ctl) && InBlock(p.ctl)
    ensures Inside(Step(p, v).ctl) && Step(p, v).storedBlockCRC == p.storedBlockCRC
  {
    hide OnCode, UndoSelectors, Limit, MinLen, TablesOk;
    match p.ctl
    case Mtf1(t, g, pos, d) => CodeInside(p.level, p.origPtr, t, g, pos, d, MinLen(GroupLens(t, g)), v);
    case Mtf2(t, g, pos, d, zn, zvec) => CodeInside(p.level, p.origPtr, t, g, pos, d, zn, 2 * zvec + v);
    case _ =>
  }

  // ---------- the frame of a block, and of the end ----------

  /** The magic number of a block before its k-th byte. */
  function BlkPrefix(k: nat): seq<bool> {
    if k <= 1 then [] else BlkPrefix(k - 1) + BitsOf(BlkByte(k - 1), 8)
  }

  /** The magic number of the end before its k-th byte. */
  function EndPrefix(k: nat): seq<bool> {
    if k <= 1 then [] else EndPrefix(k - 1) + BitsOf(if k == 2 then 0x17 else EndByte(k - 1), 8)
  }

  /** What the machine has read since it was last between blocks. */
  ghost predicate Since(p: Parse, c: seq<bool>) {
    match p.ctl
    case BlkHdr(k) => 1 <= k <= 6 && c == BlkPrefix(k)
    case BCrc(k) => 1 <= k <= 4 && c == BlkPrefix(7) + BitsOf(p.storedBlockCRC, 8 * (k - 1))
    case EndHdr(k) => 2 <= k <= 6 && c == EndPrefix(k)
    case CCrc(k) => 1 <= k <= 4 && c == EndPrefix(7) + BitsOf(p.storedCombinedCRC, 8 * (k - 1))
    case Idle => c == EndPrefix(7) + BitsOf(p.storedCombinedCRC, 32)
    case Failed(_) => true
    case _ => InBlock(p.ctl) && BlkPrefix(7) + BitsOf(p.storedBlockCRC, 32) <= c
  }

  lemma StepSince(p: Parse, v: nat, c: seq<bool>)
    requires Ok(p.ctl) && !Stopped(p.ctl) && Since(p, c) && v < Pow2(Need(p.ctl))
    ensures Since(Step(p, v), c + BitsOf(v, Need(p.ctl)))
  {
    if InBlock(p.ctl) {
      StepBlock(p, v, c);
    } else {
      StepFrame(p, v, c);
    }
  }

  lemma StepBlock(p: Parse, v: nat, c: seq<bool>)
    requires Ok(p.ctl) && !Stopped(p.ctl) && InBlock(p.ctl) && Since(p, c)
    ensures Since(Step(p, v), c + BitsOf(v, Need(p.ctl)))
  {
    hide Step, Ok, Need, BitsOf, BlkPrefix, EndPrefix;
    StepInside(p, v);
  }

  /** One more byte of a checksum. */
  lemma CrcByte(start: seq<bool>, crc: nat, v: nat, n: nat)
    requires v < 0x100
    ensures start + BitsOf(0x100 * crc + v, n + 8) == start + BitsOf(crc, n) + BitsOf(v, 8)
  {
    hide BitsOf;
    ByteSplit(0x100 * crc + v, n);
    assert (0x100 * crc + v) / 0x100 == crc && (0x100 * crc + v) % 0x100 == v;
  }

  lemma StepFrame(p: Parse, v: nat, c: seq<bool>)
    requires Ok(p.ctl) && !Stopped(p.ctl) && !InBlock(p.ctl) && Since(p, c) && v < Pow2(Need(p.ctl))
    ensures Since(Step(p, v), c + BitsOf(v, Need(p.ctl)))
  {
    hide BitsOf, Pow2, BlkPrefix, EndPrefix;
    Pow2Values();
    match p.ctl
    case BlkHdr(k) =>
      BlkNext(k);
      EndNext(1);
      assert BitsOf(0, 0) == [];
    case BCrc(k) => CrcByte(BlkPrefix(7), p.storedBlockCRC, v, 8 * (k - 1));
    case EndHdr(k) =>
      EndNext(k);
      assert BitsOf(0, 0) == [];
    case CCrc(k) => CrcByte(EndPrefix(7), p.storedCombinedCRC, v, 8 * (k - 1));
  }

  lemma BlkNext(k: nat)
    requires k >= 1
    ensures BlkPrefix(1) == [] && BlkPrefix(k + 1) == BlkPrefix(k) + BitsOf(BlkByte(k), 8)
  {
  }

  lemma EndNext(k: nat)
    requires k >= 1
    ensures EndPrefix(1) == [] && EndPrefix(k + 1) == EndPrefix(k) + BitsOf(if k == 1 then 0x17 else EndByte(k), 8)
  {
  }

  lemma {:induction false} FeedSince(p: Parse, bits: seq<bool>, c: seq<bool>) returns (m: seq<bool>)
    requires Ok(p.ctl) && Since(p, c)
    ensures bits == m + Feed(p, bits).1 && Since(Feed(p, bits).0, c + m)
    decreases |bits|
  {
    hide Step, Ok, Need, Since, BitsOf;
    if Stopped(p.ctl) || |bits| < Need(p.ctl) {
      m := [];
      assert c + [] == c;
    } else {
      FeedOne(p, bits);
      var n := Need(p.ctl);
      var v := ValueOf(bits[..n]);
      StepSince(p, v, c);
      var rest := FeedSince(Step(p, v), bits[n..], c + BitsOf(v, n));
      m := BitsOf(v, n) + rest;
      assert c + BitsOf(v, n) + rest == c + m;
    }
  }

  lemma Regroup(a: seq<bool>, b: seq<bool>, c: seq<bool>, d: seq<bool>, e: seq<bool>, f: seq<bool>)
    ensures [] + a + b + c + d + e + f == a + (b + (c + (d + (e + f))))
  {
  }

  lemma BlkFrame()
    ensures BlkPrefix(7) == MagicBits()
  {
    hide BitsOf, BlkPrefix;
    BlkNext(1);
    BlkNext(2);
    BlkNext(3);
    BlkNext(4);
    BlkNext(5);
    BlkNext(6);
    Regroup(BitsOf(0x31, 8), BitsOf(0x41, 8), BitsOf(0x59, 8), BitsOf(0x26, 8), BitsOf(0x53, 8), BitsOf(0x59, 8));
  }

  lemma EndFrame(crc: nat)
    ensures EndPrefix(7) + BitsOf(crc, 32) == TrailerBits(crc)
  {
    hide BitsOf, EndPrefix;
    EndNext(1);
    EndNext(2);
    EndNext(3);
    EndNext(4);
    EndNext(5);
    EndNext(6);
    var a, b, c, d, e, f := BitsOf(0x17, 8), BitsOf(0x72, 8), BitsOf(0x45, 8), BitsOf(0x38, 8), BitsOf(0x50, 8), BitsOf(0x90, 8);
    Regroup(a, b, c, d, e, f);
    TailIn(a, b, c, d, e, f, BitsOf(crc, 32));
  }

  lemma TailIn(a: seq<bool>, b: seq<bool>, c: seq<bool>, d: seq<bool>, e: seq<bool>, f: seq<bool>, g: seq<bool>)
    ensures a + (b + (c + (d + (e + f)))) + g == a + (b + (c + (d + (e + (f + g)))))
  {
  }

  // ---------- blocks and their checksums ----------

  /** What was accepted as a block: the data that came out, and the bits that followed its
      checksum. */
  datatype Piece = Piece(data: seq<byte>, body: seq<bool>)

  ghost function PiecesBits(ps: seq<Piece>): seq<bool> {
    if ps == [] then [] else (MagicBits() + BitsOf(Checksum(ps[0].data), 32) + ps[0].body) + PiecesBits(ps[1..])
  }

  ghost function PiecesData(ps: seq<Piece>): seq<byte> {
    if ps == [] then [] else ps[0].data + PiecesData(ps[1..])
  }

  ghost function PiecesCombined(combined: nat, ps: seq<Piece>): nat
    requires combined < Pow2(32)
    decreases |ps|
  {
    if ps == [] then combined else PiecesCombined(CombinedStep(combined, ps[0].data), ps[1..])
  }

  ghost function PieceChecksums(ps: seq<Piece>): (cs: seq<nat>)
    ensures |cs| == |ps| && WordsOf32(cs)
  {
    seq(|ps|, k requires 0 <= k < |ps| => Checksum(ps[k].data))
  }

  lemma {:induction false} PiecesFold(combined: nat, done: seq<nat>, ps: seq<Piece>)
    requires WordsOf32(done) && combined == CombineAll(done)
    ensures PiecesCombined(combined, ps) == CombineAll(done + PieceChecksums(ps))
    decreases |ps|
  {
    hide Combine, CrcOf, Finalise, Pow2;
    if ps == [] {
      assert done + PieceChecksums(ps) == done;
    } else {
      var next := done + [Checksum(ps[0].data)];
      assert next[..|next| - 1] == done;
      PiecesFold(CombinedStep(combined, ps[0].data), next, ps[1..]);
      assert next + PieceChecksums(ps[1..]) == done + PieceChecksums(ps);
    }
  }

  /** Bit j of the checksum that the trailer must have: of the checksums of the n blocks, the
      k-th gives its bit j - (n - k), going round, and these are added. */
  lemma AcceptedChecksum(ps: seq<Piece>, j: nat)
    requires j < 32
    ensures 0 < Pow2(32) && (Bit(PiecesCombined(0, ps), j) <==> OddBits(PieceChecksums(ps), j, |ps|))
  {
    hide Bit, OddBits, CombineAll, Pow2;
    NoChecksums();
    PiecesFold(0, [], ps);
    assert [] + PieceChecksums(ps) == PieceChecksums(ps);
    CombinedBits(PieceChecksums(ps), j);
  }

  lemma NoChecksums()
    ensures CombineAll([]) == 0
  {
  }

  lemma FirstPiece(f: Piece, rest: seq<Piece>, combined: nat)
    requires combined < Pow2(32)
    ensures PiecesBits([f] + rest) == (MagicBits() + BitsOf(Checksum(f.data), 32) + f.body) + PiecesBits(rest)
    ensures PiecesData([f] + rest) == f.data + PiecesData(rest)
    ensures PiecesCombined(combined, [f] + rest) == PiecesCombined(CombinedStep(combined, f.data), rest)
  {
    assert ([f] + rest)[1..] == rest;
  }

  /** Input that decodes without error to the end is made of blocks that carry the checksums of
      the data that come out, followed by the trailer. */
  lemma {:induction false} BlocksAccepted(p: Parse, combined: nat, bits: seq<bool>) returns (ps: seq<Piece>)
    requires p.ctl == BlkHdr(1) && Ok(p.ctl) && combined < Pow2(32)
    requires !Decompressed(p, combined, bits).bad && Decompressed(p, combined, bits).p.ctl.Idle?
    ensures var d := Decompressed(p, combined, bits);
            && bits == PiecesBits(ps) + (TrailerBits(d.p.storedCombinedCRC) + d.left)
            && d.out == PiecesData(ps) && d.combined == PiecesCombined(combined, ps)
    decreases |bits|
  {
    hide Feed, BitsOf, TrailerBits, MagicBits, Pow2, BlockExpansion, Checksum, CombinedStep, BlkPrefix, EndPrefix;
    BlkNext(1);
    BlkFrame();
    FeedTakes(p, bits);
    var m := FeedSince(p, bits, []);
    assert [] + m == m;
    var (q, rest) := Feed(p, bits);
    if !q.ctl.Output? {
      ps := [];
      EndFrame(q.storedCombinedCRC);
      assert PiecesBits([]) == [];
      assert m + rest == [] + (m + rest);
    } else {
      var data := BlockExpansion(q).out;
      var head := MagicBits() + BitsOf(q.storedBlockCRC, 32);
      var f := Piece(data, m[|head|..]);
      var more := BlocksAccepted(AfterBlock(q), CombinedStep(combined, data), rest);
      ps := [f] + more;
      FirstPiece(f, more, combined);
      assert m == head + f.body;
      var t := TrailerBits(Decompressed(AfterBlock(q), CombinedStep(combined, data), rest).p.storedCombinedCRC) + Decompressed(AfterBlock(q), CombinedStep(combined, data), rest).left;
      assert m + (PiecesBits(more) + t) == (m + PiecesBits(more)) + t;
    }
  }

  // ---------- the header ----------

  /** The first four bytes, as far as they are there, are those of a stream. */
  predicate Begins(z: seq<byte>) {
    && (|z| > 0 ==> z[0] == 0x42) && (|z| > 1 ==> z[1] == 0x5a) && (|z| > 2 ==> z[2] == 0x68) && (|z| > 3 ==> 0x31 <= z[3] <= 0x39)
  }

  predicate GoodAt(k: nat, v: byte) {
    if k == 0 then v == 0x42 else if k == 1 then v == 0x5a else if k == 2 then v == 0x68 else 0x31 <= v <= 0x39
  }

  predicate BeginsFrom(k: nat, z: seq<byte>)
    decreases |z|
  {
    z == [] || k == 4 || (GoodAt(k, z[0]) && BeginsFrom(k + 1, z[1..]))
  }

  lemma BeginsIs(z: seq<byte>)
    ensures Begins(z) == BeginsFrom(0, z)
  {
    if |z| > 0 {
      BeginsNext(0, z);
      if |z| > 1 {
        BeginsNext(1, z[1..]);
        if |z| > 2 {
          BeginsNext(2, z[1..][1..]);
          if |z| > 3 { BeginsNext(3, z[1..][1..][1..]); }
        }
      }
    }
  }

  lemma BeginsNext(k: nat, z: seq<byte>)
    requires k < 4
    ensures BeginsFrom(k, z) == (z == [] || (GoodAt(k, z[0]) && (k == 3 || BeginsFrom(k + 1, z[1..]))))
  {
  }

  lemma {:induction false} FirstByte(z: seq<byte>)
    requires z != []
    ensures BytesBits(z) == BitsOf(z[0], 8) + BytesBits(z[1..])
    decreases |z|
  {
    hide BitsOf;
    if |z| == 1 {
      NoBytes();
      assert z[..0] == [] && z[1..] == [];
    } else {
      FirstByte(z[..|z| - 1]);
      assert z[..|z| - 1][1..] == z[1..][..|z[1..]| - 1];
    }
  }

  /** Past the header nothing is refused as foreign any more. */
  predicate Past(c: Ctl) { !c.Magic? && c != Failed(DataErrorMagic) }

  lemma StepPast(p: Parse, v: nat)
    requires Ok(p.ctl) && !Stopped(p.ctl) && Past(p.ctl)
    ensures Past(Step(p, v).ctl)
  {
    if InBlock(p.ctl) {
      hide Step;
      StepInside(p, v);
    }
  }

  lemma {:induction false} FeedPast(p: Parse, bits: seq<bool>)
    requires Ok(p.ctl) && Past(p.ctl)
    ensures Past(Feed(p, bits).0.ctl)
    decreases |bits|
  {
    hide Step, Ok, Need, Past;
    if !Stopped(p.ctl) && |bits| >= Need(p.ctl) {
      FeedOne(p, bits);
      var v := ValueOf(bits[..Need(p.ctl)]);
      StepPast(p, v);
      FeedPast(Step(p, v), bits[Need(p.ctl)..]);
    }
  }

  lemma {:induction false} DecompressedPast(p: Parse, combined: nat, bits: seq<bool>)
    requires Ok(p.ctl) && Past(p.ctl) && combined < Pow2(32)
    ensures Past(Decompressed(p, combined, bits).p.ctl)
    decreases |bits|, if p.ctl.Output? then 1 else 0
  {
    hide Feed, BlockExpansion, Pow2, CombinedStep;
    FeedTakes(p, bits);
    FeedPast(p, bits);
    var (q, rest) := Feed(p, bits);
    if q.ctl.Output? && BlockGood(q) {
      DecompressedPast(AfterBlock(q), CombinedStep(combined, BlockExpansion(q).out), rest);
    }
  }

  /** One byte of the header. */
  lemma MagicByte(p: Parse, k: nat, z: seq<byte>)
    requires p.ctl == Magic(k) && k < 4
    ensures Ok(p.ctl) && 0 < Pow2(32)
    ensures z == [] ==> Decompressed(p, 0, BytesBits(z)) == Decoding([], p, 0, [], false)
    ensures z != [] ==>
              var q := Step(p, z[0]);
              && Decompressed(p, 0, BytesBits(z)) == Decompressed(q, 0, BytesBits(z[1..]))
              && if !GoodAt(k, z[0]) then q.ctl == Failed(DataErrorMagic) && Decompressed(q, 0, BytesBits(z[1..])) == Decoding([], q, 0, BytesBits(z[1..]), false)
                 else if k < 3 then q == p.(ctl := Magic(k + 1)) else q == p.(ctl := BlkHdr(1), level := z[0] - 0x30)
  {
    hide BitsOf, BytesBits, Feed, Decompressed, Pow2;
    StartOk();
    NoBytes();
    if z == [] {
      NothingToRead(p);
    } else {
      FirstByte(z);
      FeedByte(p, z[0], BytesBits(z[1..]));
      var q := Step(p, z[0]);
      DecompressedFeed(p, BytesBits(z), q, BytesBits(z[1..]), 0);
      if !GoodAt(k, z[0]) { DecompressedStopped(q, 0, BytesBits(z[1..])); }
    }
  }

  lemma NothingToRead(p: Parse)
    requires p.ctl.Magic?
    ensures 0 < Pow2(32) && Decompressed(p, 0, []) == Decoding([], p, 0, [], false)
  {
    hide Pow2, Step;
    StartOk();
  }

  lemma {:induction false} HeaderRead(p: Parse, k: nat, z: seq<byte>)
    requires p.ctl == Magic(k) && k < 4
    ensures Ok(p.ctl) && 0 < Pow2(32)
    ensures var d := Decompressed(p, 0, BytesBits(z));
            && (d.p.ctl == Failed(DataErrorMagic) <==> !BeginsFrom(k, z))
            && (d.p.ctl == Failed(DataErrorMagic) ==> !d.bad)
            && (d.p.ctl.Idle? ==> |z| >= 4 - k && 0x31 <= z[3 - k] <= 0x39 &&
                                  d == Decompressed(p.(ctl := BlkHdr(1), level := z[3 - k] - 0x30), 0, BytesBits(z[4 - k..])))
    decreases 4 - k
  {
    hide BytesBits, Decompressed, Pow2, Step, BeginsFrom;
    MagicByte(p, k, z);
    BeginsNext(k, z);
    if z != [] && GoodAt(k, z[0]) {
      var q := Step(p, z[0]);
      if k < 3 {
        HeaderRead(q, k + 1, z[1..]);
        if |z| >= 4 - k { assert z[1..][3 - k..] == z[4 - k..]; }
      } else {
        DecompressedPast(q, 0, BytesBits(z[1..]));
      }
    }
  }

  // ---------- what the caller is told ----------

  /** Input is refused as foreign exactly if its first four bytes, as far as they are there,
      are not those of a stream. */
  lemma ForeignRefused(z: seq<byte>, out: seq<byte>, room: nat)
    ensures D.Outcome(D.BzError(DataErrorMagic), BytesBits(z), out, room) <==> !Begins(z)
  {
    hide BytesBits, Decompressed, Pow2, BeginsFrom, Begins;
    HeaderRead(Start(), 0, z);
    BeginsIs(z);
  }

  /** Whatever ends well is a header, blocks each with the checksum of its part of the output,
      and a trailer with the combined checksum of all parts. */
  lemma AcceptedFrame(z: seq<byte>, out: seq<byte>, room: nat) returns (ps: seq<Piece>, left: seq<bool>)
    requires D.Outcome(D.BzStreamEnd, BytesBits(z), out, room)
    ensures |z| >= 4 && z[..3] == [0x42, 0x5a, 0x68] && 0x31 <= z[3] <= 0x39
    ensures 0 < Pow2(32) && BytesBits(z[4..]) == PiecesBits(ps) + (TrailerBits(PiecesCombined(0, ps)) + left)
    ensures out == PiecesData(ps)
  {
    hide BytesBits, Decompressed, Pow2, BeginsFrom, PiecesBits, PiecesData, PiecesCombined, TrailerBits;
    HeaderRead(Start(), 0, z);
    BeginsIs(z);
    var d := Decompressed(Start(), 0, BytesBits(z));
    var p := Start().(ctl := BlkHdr(1), level := z[3] - 0x30);
    ps := BlocksAccepted(p, 0, BytesBits(z[4..]));
    left := d.left;
  }
}
