/** How long what is written can get: the bits of a block against the room that `zbits` has in
    `arr2` behind the bytes of the block (compress.c, bzlib.c), and those of a whole stream
    against the data it stands for. */
module OutputSize {
  import opened Words
  import opened Bits
  import opened BitStream
  import opened Transform
  import opened RunLength
  import opened BlockCrc
  import opened HuffmanCodes
  import opened MtfCoding
  import opened MtfEncoder
  import opened MainCompare
  import opened Parser
  import opened Printer
  import opened StreamFormat

  // ---------- the fields ----------

  lemma {:induction false} RowsSize(inUse: seq<bool>, i: nat)
    requires |inUse| == 256 && i <= 16
    ensures |RowBits(inUse, i)| <= 16 * (16 - i)
    decreases 16 - i
  {
    if i < 16 { RowsSize(inUse, i + 1); }
  }

  lemma {:induction false} UnarySize(j: nat)
    ensures |Unary(j)| == j + 1
  {
    if j > 0 { UnarySize(j - 1); }
  }

  lemma {:induction false} SelectorsSize(mtf: seq<nat>)
    requires forall k :: 0 <= k < |mtf| ==> mtf[k] < BZ_N_GROUPS
    ensures |SelectorBits(mtf)| <= BZ_N_GROUPS * |mtf|
  {
    if mtf != [] {
      UnarySize(mtf[0]);
      SelectorsSize(mtf[1..]);
    }
  }

  lemma {:induction false} LenSize(curr: nat, len: nat)
    ensures |LenBits(curr, len)| == 1 + 2 * if curr < len then len - curr else curr - len
    decreases if curr < len then len - curr else curr - len
  {
    if curr < len { LenSize(curr + 1, len); } else if curr > len { LenSize(curr - 1, len); }
  }

  lemma {:induction false} LensSize(curr: nat, lens: seq<byte>, i: nat)
    requires i <= |lens| && Lengths(lens) && 1 <= curr <= LONGEST
    ensures |LensBits(curr, lens, i)| <= 39 * (|lens| - i)
    decreases |lens| - i
  {
    if i < |lens| {
      LenSize(curr, lens[i]);
      LensSize(lens[i], lens, i + 1);
    }
  }

  lemma {:induction false} TablesSize(lens: seq<seq<byte>>, t: nat)
    requires t <= |lens| && forall k :: 0 <= k < |lens| ==> Lengths(lens[k]) && |lens[k]| <= BZ_MAX_ALPHA_SIZE
    ensures forall k :: 0 <= k < |lens| ==> lens[k] != []
    ensures |TablesBits(lens, t)| <= 10067 * (|lens| - t)
    decreases |lens| - t
  {
    hide LensBits;
    if t < |lens| {
      LensSize(lens[t][0], lens[t], 0);
      TablesSize(lens, t + 1);
    }
  }

  lemma {:induction false} CodesSize(t: Tables, syms: seq<nat>, k: nat)
    requires Coded(t, syms) && k <= |syms|
    ensures |CodesBits(t, syms, k)| <= LONGEST * (|syms| - k)
    decreases |syms| - k
  {
    if k < |syms| {
      GroupOf(t, syms, k);
      CodesSize(t, syms, k + 1);
    }
  }

  // ---------- a block ----------

  /** More bits than a block of n symbols can have. */
  function BlockBound(n: nat): nat { 169000 + LONGEST * n }

  lemma BlockSize(b: Block)
    requires Coded(b.tables, b.syms)
    ensures |BlockBits(b)| <= BlockBound(|b.syms|)
  {
    hide Kraft, CodesBits, TablesBits, SelectorBits, SelectorMtf, RowBits, BitsOf, Lengths;
    var t := b.tables;
    RankAtMost(t.inUse);
    RowsSize(t.inUse, 0);
    var mtf := SelectorMtf(t);
    SelectorsSize(mtf);
    TablesSize(t.lens, 0);
    CodesSize(t, b.syms, 0);
    assert |MapBits(t.inUse)| <= 272;
    assert |CodingBits(t)| <= 18 + 6 * 18002 + 6 * 10067;
    assert |MagicBits()| == 48;
  }

  lemma {:induction false} EverySymbolCounts(d: Decoder, syms: seq<nat>)
    requires d.list != [] && Weighed(d) && Decodable(syms, |d.list|)
    ensures Total(Decode(d, syms)) >= Total(d) + |syms|
    decreases |syms|
  {
    if syms != [] {
      StepGrows(d, syms[0]);
      EverySymbolCounts(DecodeStep(d, syms[0]), syms[1..]);
    }
  }

  /** A block has at most one symbol more than characters. */
  lemma SymbolCount(t: Tables, syms: seq<nat>)
    requires |t.inUse| == 256 && SymsDecode(syms)
    ensures |syms| <= |ColumnOf(t, syms)| + 1
  {
    hide Decode;
    EverySymbolCounts(Decoder(Iota(256), 0, 1, []), syms[..|syms| - 1]);
  }

  /** A block and the stream's header and trailer, and what is left of the block before it, have
      room behind the block's bytes. */
  lemma BlockHasRoom(level: nat, nblock: nat, nbits: nat, zbytes: nat)
    requires 1 <= level && nblock <= 100000 * level - 10 && nbits <= BlockBound(nblock + 1)
    requires 8 * zbytes <= nbits + 150
    ensures nblock + zbytes <= 4 * (100000 * level + BZ_N_OVERSHOOT)
  {
  }

  // ---------- a stream ----------

  /** A block has at most five characters for every four bytes it stands for. */
  lemma {:induction false} ExpandSize(b: seq<byte>, past: byte)
    requires Expand(b, past).ok
    ensures 4 * |b| <= 5 * |Expand(b, past).out|
    decreases |b|
  {
    if b == [] {
    } else if |b| == 1 || b[1] != b[0] {
      ExpandSize(b[1..], past);
    } else if |b| == 2 || b[2] != b[0] {
      ExpandSize(b[2..], past);
    } else if |b| == 3 || b[3] != b[0] {
      ExpandSize(b[3..], past);
    } else if |b| > 4 {
      ExpandSize(b[5..], past);
    }
  }

  /** The bits of a finished block, by the bytes it stands for. */
  lemma PackSize(f: Finished, level: nat)
    requires Packs(f, level)
    ensures f.data != [] && |BlockBits(f.blk)| <= 169040 + 25 * |f.data|
  {
    hide BlockBits, Coded, ColumnOf, Expand, Checksum;
    SendableParts(f.blk, level);
    BlockSize(f.blk);
    var column := ColumnOf(f.blk.tables, f.blk.syms);
    var orig := f.blk.origPtr;
    SymbolCount(f.blk.tables, f.blk.syms);
    ExpandSize(DecodedBlock(column, orig, |column|), Decoded(column, orig, |column|));
  }

  /** Room enough for the stream of n bytes. */
  function StreamRoom(n: nat): nat { 16 + 21134 * n }

  lemma {:induction false} BodySize(done: seq<Finished>, level: nat)
    requires AllPack(done, level)
    ensures |BodyBits(done, level)| <= 32 + 169065 * |DataOf(done)|
    decreases |done|
  {
    hide BlockBits, Packs, BitsOf;
    if done == [] {
    } else {
      var init, f := done[..|done| - 1], done[|done| - 1];
      BodySize(init, level);
      PackSize(f, level);
    }
  }

  lemma {:induction false} BodyGrows(done0: seq<Finished>, done: seq<Finished>, level: nat)
    requires AllPack(done, level) && done0 <= done
    ensures AllPack(done0, level) && |BodyBits(done0, level)| <= |BodyBits(done, level)|
    decreases |done|
  {
    hide BlockBits, Packs, BitsOf;
    if |done0| < |done| {
      BodyGrows(done0, done[..|done| - 1], level);
    } else {
      assert done0 == done;
    }
  }

  /** A stream that is complete is longer than anything before its trailer. */
  lemma StillOpen(out: seq<byte>, done0: seq<Finished>, done: seq<Finished>, level: nat, pad: nat)
    requires AllPack(done0, level) && 8 * |out| <= |BodyBits(done0, level)| && done0 <= done
    ensures !Complete(out, done, level, pad)
  {
    hide AllPack, BodyBits, TrailerBits, BitsOf, CombinedOf, BytesBits;
    if AllPack(done, level) {
      BodyGrows(done0, done, level);
      TrailerSize(CombinedOf(done));
    }
  }

  lemma CompleteSize(out: seq<byte>, done: seq<Finished>, level: nat, pad: nat)
    requires Complete(out, done, level, pad)
    ensures |out| <= StreamRoom(|DataOf(done)|)
  {
    hide AllPack, BodyBits, TrailerBits, BitsOf, DataOf, CombinedOf, BytesBits;
    BodySize(done, level);
    TrailerSize(CombinedOf(done));
  }

  lemma BodyRoom(done: seq<Finished>, level: nat)
    requires AllPack(done, level)
    ensures |BodyBits(done, level)| + 87 <= 8 * StreamRoom(|DataOf(done)|)
  {
    hide AllPack, BodyBits, DataOf;
    BodySize(done, level);
  }

  lemma MoreRoom(m: nat, n: nat)
    requires m <= n
    ensures StreamRoom(m) <= StreamRoom(n)
  {
  }

  lemma TrailerSize(crc: nat)
    ensures |TrailerBits(crc)| == 80
  {
    hide BitsOf;
  }
}
