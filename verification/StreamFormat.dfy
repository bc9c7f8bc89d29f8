/** A whole compressed stream, and what it stands for. */
module StreamFormat {
  import opened Words
  import opened Bits
  import opened BitStream
  import opened Transform
  import opened RunLength
  import opened BlockCrc
  import opened WordBits
  import opened ChecksumBits
  import opened HuffmanCodes
  import opened Parser
  import opened Printer

  /** A finished block: what is sent, and the bytes it stands for. */
  datatype Finished = Finished(blk: Block, data: seq<byte>)

  /** The column of a block, walked from its original position and expanded, is data. */
  ghost predicate Decodes(column: seq<byte>, orig: nat, data: seq<byte>) {
    orig < |column| &&
    Expand(DecodedBlock(column, orig, |column|), Decoded(column, orig, |column|)) == Expansion(data, true)
  }

  ghost predicate Packs(f: Finished, level: nat) {
    && Sendable(f.blk, level) && f.blk.crc == Checksum(f.data)
    && |f.blk.tables.inUse| == 256 && Decodes(ColumnOf(f.blk.tables, f.blk.syms), f.blk.origPtr, f.data)
  }

  ghost predicate AllPack(done: seq<Finished>, level: nat) {
    forall k :: 0 <= k < |done| ==> Packs(done[k], level)
  }

  /** The bytes of all blocks. */
  ghost function DataOf(done: seq<Finished>): seq<byte> {
    if done == [] then [] else DataOf(done[..|done| - 1]) + done[|done| - 1].data
  }

  ghost function CombinedOf(done: seq<Finished>): (c: nat)
    ensures c < Pow2(32)
  {
    if done == [] then 0 else CombinedStep(CombinedOf(done[..|done| - 1]), done[|done| - 1].data)
  }

  function CombinedStep(combined: nat, data: seq<byte>): (c: nat)
    requires combined < Pow2(32)
    ensures c < Pow2(32)
  {
    Combine(combined, Checksum(data))
  }

  ghost function ChecksumsOf(done: seq<Finished>): (cs: seq<nat>)
    ensures |cs| == |done| && WordsOf32(cs)
  {
    seq(|done|, k requires 0 <= k < |done| => Checksum(done[k].data))
  }

  lemma {:induction false} CombinedIs(done: seq<Finished>)
    ensures CombinedOf(done) == CombineAll(ChecksumsOf(done))
  {
    hide Combine, Checksum;
    if done != [] {
      var init := done[..|done| - 1];
      CombinedIs(init);
      assert ChecksumsOf(done)[..|done| - 1] == ChecksumsOf(init);
    }
  }

  /** Bit j of the checksum in the trailer: of the checksums of the n blocks, the k-th gives its
      bit j - (n - k), going round, and these are added. */
  lemma TrailerChecksum(done: seq<Finished>, j: nat)
    requires j < 32
    ensures Bit(CombinedOf(done), j) <==> OddBits(ChecksumsOf(done), j, |done|)
  {
    hide Bit, OddBits, CombineAll;
    CombinedIs(done);
    CombinedBits(ChecksumsOf(done), j);
  }

  /** The bits of all blocks. */
  ghost function BlocksBits(done: seq<Finished>, level: nat): seq<bool>
    requires AllPack(done, level)
  {
    if done == [] then [] else BlocksBits(done[..|done| - 1], level) + BlockBits(done[|done| - 1].blk)
  }

  lemma PackSnoc(done: seq<Finished>, f: Finished, level: nat)
    requires AllPack(done, level) && Packs(f, level)
    ensures AllPack(done + [f], level)
    ensures DataOf(done + [f]) == DataOf(done) + f.data
    ensures CombinedOf(done + [f]) == CombinedStep(CombinedOf(done), f.data)
    ensures Coded(f.blk.tables, f.blk.syms) && BlocksBits(done + [f], level) == BlocksBits(done, level) + BlockBits(f.blk)
  {
    assert (done + [f])[..|done + [f]| - 1] == done;
  }

  /** A block packed by the compressor stands for the bytes that were run-length coded into
      it. */
  lemma PackedDecodes(b: seq<byte>, p: seq<nat>, orig: nat, column: seq<byte>, runs: seq<Run>)
    requires |b| > 0 && Rot.SortsRotations(b, p) && orig < |p| == |b| && p[orig] == 0 && column == LastColumn(b, p)
    requires Separated(runs) && b == BlockOf(runs)
    ensures Decodes(column, orig, BytesOf(runs))
  {
    InverseTransform(b, p, orig);
    ExpandRuns(runs, Decoded(column, orig, |column|));
  }

  import Rot = Rotations

  /** Everything sent before the trailer. */
  ghost function BodyBits(done: seq<Finished>, level: nat): seq<bool>
    requires AllPack(done, level)
  {
    HeaderBits(level) + BlocksBits(done, level)
  }

  /** The bytes of a complete stream: header, blocks in order, trailer, zeros to the end of
      the last byte. */
  ghost predicate Complete(out: seq<byte>, done: seq<Finished>, level: nat, pad: nat) {
    && AllPack(done, level) && pad < 8
    && BytesBits(out) == BodyBits(done, level) + TrailerBits(CombinedOf(done)) + BitsOf(0, pad)
  }
}
