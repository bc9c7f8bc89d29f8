/** What a string of bits decompresses to: the parser's runs, with the blocks between them
    expanded and checked. */
module StreamDecoder {
  import opened Words
  import opened Bits
  import opened BitStream
  import opened Transform
  import opened RunLength
  import opened BlockCrc
  import opened Parser
  import opened Printer
  import opened StreamFormat

  /** The bytes written, and where decoding stands when the bits are used up or it has
      stopped; `bad` is set when a block breaks off or fails its checksum. */
  datatype Decoding = Decoding(out: seq<byte>, p: Parse, combined: nat, left: seq<bool>, bad: bool)

  /** The expansion of the block that the parser has delivered. */
  ghost function BlockExpansion(p: Parse): Expansion
    requires p.ctl.Output?
  {
    var column := p.ctl.column;
    if p.origPtr < |column| then Expand(DecodedBlock(column, p.origPtr, |column|), Decoded(column, p.origPtr, |column|))
    else Expansion([], false)
  }

  /** Whether the block is whole and its checksum is the one stored. */
  ghost predicate BlockGood(p: Parse)
    requires p.ctl.Output?
  {
    BlockExpansion(p).ok && Checksum(BlockExpansion(p).out) == p.storedBlockCRC
  }

  /** After a good block the parser looks for the next one. */
  function AfterBlock(p: Parse): (q: Parse)
    ensures Ok(q.ctl)
  {
    p.(ctl := BlkHdr(1))
  }

  lemma {:induction false} FeedTakes(p: Parse, bits: seq<bool>)
    requires Ok(p.ctl)
    ensures |Feed(p, bits).1| <= |bits|
    ensures Feed(p, bits).0 == p || |Feed(p, bits).1| < |bits|
    decreases |bits|
  {
    hide Step, Ok, Need;
    if !Stopped(p.ctl) && |bits| >= Need(p.ctl) {
      FeedTakes(Step(p, ValueOf(bits[..Need(p.ctl)])), bits[Need(p.ctl)..]);
    }
  }

  ghost function Decompressed(p: Parse, combined: nat, bits: seq<bool>): (r: Decoding)
    requires Ok(p.ctl) && combined < Pow2(32)
    decreases |bits|, if p.ctl.Output? then 1 else 0
  {
    var (q, rest) := Feed(p, bits);
    FeedTakes(p, bits);
    if !q.ctl.Output? then Decoding([], q, combined, rest, false)
    else if !BlockGood(q) then Decoding(BlockExpansion(q).out, q, combined, rest, true)
    else
      var data := BlockExpansion(q).out;
      var r := Decompressed(AfterBlock(q), CombinedStep(combined, data), rest);
      r.(out := data + r.out)
  }

  /** Decoding depends only on what the parser makes of the bits. */
  lemma DecompressedFeed(p: Parse, a: seq<bool>, q: Parse, b: seq<bool>, combined: nat)
    requires Ok(p.ctl) && Ok(q.ctl) && combined < Pow2(32) && Feed(p, a) == Feed(q, b)
    ensures Decompressed(p, combined, a) == Decompressed(q, combined, b)
  {
    hide Feed, BlockGood, BlockExpansion;
  }

  function Prepend(done: seq<byte>, d: Decoding): Decoding {
    d.(out := done + d.out)
  }

  /** Decoding input and then more from the start is the same as going on from p. */
  ghost predicate Continues(input: seq<bool>, done: seq<byte>, p: Parse, combined: nat, left: seq<bool>, more: seq<bool>) {
    && Ok(p.ctl) && combined < Pow2(32)
    && Decompressed(Start(), 0, input + more) == Prepend(done, Decompressed(p, combined, left + more))
  }

  /** Having read some input and written `done`, the decoder stands at p with the bits in
      `left`: whatever input follows, decoding all of it from the start is the same as going
      on from here. */
  ghost predicate Reached(input: seq<bool>, done: seq<byte>, p: Parse, combined: nat, left: seq<bool>) {
    forall more :: Continues(input, done, p, combined, left, more)
  }

  lemma StartOk()
    ensures Ok(Start().ctl) && 0 < Pow2(32)
  {
  }

  lemma ReachedOk(input: seq<bool>, done: seq<byte>, p: Parse, combined: nat, left: seq<bool>)
    requires Reached(input, done, p, combined, left)
    ensures Ok(p.ctl) && combined < Pow2(32)
  {
    hide Decompressed, Ok, Pow2;
    StartOk();
    assert Continues(input, done, p, combined, left, []);
  }

  lemma ReachedStart(input: seq<bool>)
    ensures Reached(input, [], Start(), 0, input)
  {
    hide Decompressed, Ok, Pow2;
    StartOk();
    forall more ensures Continues(input, [], Start(), 0, input, more) {
      var d := Decompressed(Start(), 0, input + more);
      assert [] + d.out == d.out;
    }
  }

  /** More input is known. */
  lemma ReachedMore(input: seq<bool>, done: seq<byte>, p: Parse, combined: nat, left: seq<bool>, extra: seq<bool>)
    requires Reached(input, done, p, combined, left)
    ensures Reached(input + extra, done, p, combined, left + extra)
  {
    hide Decompressed, Ok, Pow2;
    StartOk();
    forall more ensures Continues(input + extra, done, p, combined, left + extra, more) {
      assert Continues(input, done, p, combined, left, extra + more);
      assert (input + extra) + more == input + (extra + more) && (left + extra) + more == left + (extra + more);
    }
  }

  lemma ContinueStep(input: seq<bool>, done: seq<byte>, p: Parse, combined: nat, left: seq<bool>, v: nat, left': seq<bool>, more: seq<bool>)
    requires Continues(input, done, p, combined, left, more) && !Stopped(p.ctl)
    requires Ok(p.ctl) && v < Pow2(Need(p.ctl)) && left == BitsOf(v, Need(p.ctl)) + left'
    ensures Continues(input, done, Step(p, v), combined, left', more)
  {
    hide Decompressed, Ok, Need, Step, Feed, Pow2, BitsOf, Stopped;
    var n := Need(p.ctl);
    assert left + more == BitsOf(v, n) + (left' + more);
    FeedField(p, v, n, left' + more);
    DecompressedFeed(p, left + more, Step(p, v), left' + more, combined);
  }

  /** A field is read and a step taken. */
  lemma ReachedStep(input: seq<bool>, done: seq<byte>, p: Parse, combined: nat, left: seq<bool>, v: nat, left': seq<bool>)
    requires Reached(input, done, p, combined, left) && Ok(p.ctl) && !Stopped(p.ctl)
    requires v < Pow2(Need(p.ctl)) && left == BitsOf(v, Need(p.ctl)) + left'
    ensures Reached(input, done, Step(p, v), combined, left')
  {
    hide Continues, Ok, Need, Step, Pow2, BitsOf, Stopped;
    forall more ensures Continues(input, done, Step(p, v), combined, left', more) {
      ContinueStep(input, done, p, combined, left, v, left', more);
    }
  }

  lemma ContinueBlock(input: seq<bool>, done: seq<byte>, p: Parse, combined: nat, left: seq<bool>, data: seq<byte>, more: seq<bool>)
    requires Continues(input, done, p, combined, left, more) && combined < Pow2(32)
    requires p.ctl.Output? && BlockGood(p) && data == BlockExpansion(p).out
    ensures Continues(input, done + data, AfterBlock(p), CombinedStep(combined, data), left, more)
  {
    hide Decompressed, BlockGood, BlockExpansion, Pow2, CombinedStep;
    GoodBlock(p);
    DecodeGood(p, combined, left + more, data);
    var r := Decompressed(AfterBlock(p), CombinedStep(combined, data), left + more);
    assert done + (data + r.out) == (done + data) + r.out;
  }

  /** A block has been written out and was good. */
  lemma ReachedBlock(input: seq<bool>, done: seq<byte>, p: Parse, combined: nat, left: seq<bool>, data: seq<byte>)
    requires Reached(input, done, p, combined, left) && combined < Pow2(32)
    requires p.ctl.Output? && BlockGood(p) && data == BlockExpansion(p).out
    ensures Reached(input, done + data, AfterBlock(p), CombinedStep(combined, data), left)
  {
    hide Continues, BlockGood, BlockExpansion, Pow2, CombinedStep;
    forall more ensures Continues(input, done + data, AfterBlock(p), CombinedStep(combined, data), left, more) {
      ContinueBlock(input, done, p, combined, left, data, more);
    }
  }

  lemma GoodBlock(p: Parse)
    requires p.ctl.Output? && BlockGood(p)
    ensures var data := BlockExpansion(p).out; BlockExpansion(p) == Expansion(data, true) && Checksum(data) == p.storedBlockCRC
  {
  }

  /** Stopped, or waiting for more than there is: that is the outcome. */
  lemma ReachedEnd(input: seq<bool>, done: seq<byte>, p: Parse, combined: nat, left: seq<bool>)
    requires Reached(input, done, p, combined, left) && Ok(p.ctl) && !p.ctl.Output?
    requires Stopped(p.ctl) || |left| < Need(p.ctl)
    ensures Decompressed(Start(), 0, input) == Decoding(done, p, combined, left, false)
  {
    hide Ok, Need, Pow2;
    StartOk();
    assert input + [] == input && left + [] == left && done + [] == done;
    assert Continues(input, done, p, combined, left, []);
  }

  lemma ReachedBad(input: seq<bool>, done: seq<byte>, p: Parse, combined: nat, left: seq<bool>)
    requires Reached(input, done, p, combined, left) && p.ctl.Output? && !BlockGood(p)
    ensures Decompressed(Start(), 0, input).bad
  {
    hide BlockGood, Ok, Pow2;
    StartOk();
    assert input + [] == input && left + [] == left;
    assert Continues(input, done, p, combined, left, []);
  }

  /** In the middle of a block, what the block expands to is part of the outcome. */
  lemma ReachedPart(input: seq<bool>, done: seq<byte>, p: Parse, combined: nat, left: seq<bool>)
    requires Reached(input, done, p, combined, left) && p.ctl.Output?
    ensures Ok(Start().ctl) && 0 < Pow2(32) && done + BlockExpansion(p).out <= Decompressed(Start(), 0, input).out
  {
    hide BlockGood, BlockExpansion, Ok, Pow2;
    StartOk();
    assert input + [] == input && left + [] == left;
    assert Continues(input, done, p, combined, left, []);
    PartDecoded(p, combined, left);
    assert done + BlockExpansion(p).out <= done + Decompressed(p, combined, left).out;
  }

  lemma PartDecoded(p: Parse, combined: nat, left: seq<bool>)
    requires p.ctl.Output? && combined < Pow2(32)
    ensures BlockExpansion(p).out <= Decompressed(p, combined, left).out
  {
    hide BlockGood, BlockExpansion, Pow2;
  }

  /** A decoder that has stopped, or found a bad block, takes no notice of further input. */
  ghost predicate Settled(d: Decoding) {
    d.bad || Stopped(d.p.ctl)
  }

  /** Where the input is cut does not matter, for a whole stream either. */
  lemma {:induction false} DecompressedSplit(p: Parse, combined: nat, a: seq<bool>, b: seq<bool>)
    requires Ok(p.ctl) && combined < Pow2(32)
    ensures var d := Decompressed(p, combined, a);
      && Ok(d.p.ctl) && d.combined < Pow2(32)
      && Decompressed(p, combined, a + b) ==
           if Settled(d) then d.(left := d.left + b) else Prepend(d.out, Decompressed(d.p, d.combined, d.left + b))
    decreases |a|, if p.ctl.Output? then 1 else 0
  {
    hide Feed, BlockGood, BlockExpansion, Ok, Pow2, CombinedStep;
    FeedSplit(p, a, b);
    FeedTakes(p, a);
    var (q, rest) := Feed(p, a);
    if !q.ctl.Output? {
      SplitHere(p, combined, a, b, q, rest);
    } else {
      FeedStopped(q, rest + b);
      if BlockGood(q) {
        DecompressedSplit(AfterBlock(q), CombinedStep(combined, BlockExpansion(q).out), rest, b);
        var data, d := BlockExpansion(q).out, Decompressed(AfterBlock(q), CombinedStep(combined, BlockExpansion(q).out), rest);
        forall s: seq<byte> ensures data + (d.out + s) == (data + d.out) + s { }
      }
    }
  }

  lemma FeedStopped(p: Parse, bits: seq<bool>)
    requires Ok(p.ctl) && Stopped(p.ctl)
    ensures Feed(p, bits) == (p, bits)
  {
    hide Ok, Step, Need, ValueOf;
  }

  /** The input ends before the next block does. */
  lemma SplitHere(p: Parse, combined: nat, a: seq<bool>, b: seq<bool>, q: Parse, rest: seq<bool>)
    requires Ok(p.ctl) && combined < Pow2(32) && Ok(q.ctl) && !q.ctl.Output?
    requires Feed(p, a) == (q, rest) && Feed(p, a + b) == Feed(q, rest + b)
    ensures Decompressed(p, combined, a + b) ==
            if Stopped(q.ctl) then Decoding([], q, combined, rest + b, false) else Prepend([], Decompressed(q, combined, rest + b))
  {
    hide Feed, Ok, Pow2, Decompressed;
    DecompressedFeed(p, a + b, q, rest + b, combined);
    var d := Decompressed(q, combined, rest + b);
    assert [] + d.out == d.out;
    if Stopped(q.ctl) {
      FeedStopped(q, rest + b);
      DecompressedStopped(q, combined, rest + b);
    }
  }

  lemma DecompressedStopped(p: Parse, combined: nat, bits: seq<bool>)
    requires Ok(p.ctl) && Stopped(p.ctl) && !p.ctl.Output? && combined < Pow2(32)
    ensures Decompressed(p, combined, bits) == Decoding([], p, combined, bits, false)
  {
    hide Ok, Pow2, Feed, BlockGood, BlockExpansion, AfterBlock, CombinedStep;
    FeedStopped(p, bits);
  }

  // ---------- complete streams ----------

  lemma TakesDecode(p: Parse, bits: seq<bool>, q: Parse, rest: seq<bool>, combined: nat)
    requires Takes(p, bits, q) && combined < Pow2(32)
    ensures Ok(p.ctl) && Ok(q.ctl) && Decompressed(p, combined, bits + rest) == Decompressed(q, combined, rest)
  {
    hide Feed, Decompressed;
    DecompressedFeed(p, bits + rest, q, rest, combined);
  }

  /** One packed block. */
  lemma DecodePacked(p: Parse, combined: nat, f: Finished, rest: seq<bool>)
    requires p.ctl == BlkHdr(1) && combined < Pow2(32) && Packs(f, p.level)
    ensures Coded(f.blk.tables, f.blk.syms)
    ensures var q := p.(storedBlockCRC := f.blk.crc, origPtr := f.blk.origPtr);
            Decompressed(p, combined, BlockBits(f.blk) + rest) == Prepend(f.data, Decompressed(q, CombinedStep(combined, f.data), rest))
  {
    hide Sendable, Decompressed, BlockBits, ColumnOf, Checksum, Expand, DecodedBlock, Decoded, Takes;
    PackCoded(f, p.level);
    TakesBlock(p, f.blk);
    SendableParts(f.blk, p.level);
    var column := ColumnOf(f.blk.tables, f.blk.syms);
    var o := p.(ctl := Output(column), storedBlockCRC := f.blk.crc, origPtr := f.blk.origPtr);
    TakesDecode(p, BlockBits(f.blk), o, rest, combined);
    DecodeGood(o, combined, rest, f.data);
  }

  lemma PackCoded(f: Finished, level: nat)
    requires Packs(f, level)
    ensures Coded(f.blk.tables, f.blk.syms)
  {
  }

  lemma DecodeGood(p: Parse, combined: nat, rest: seq<bool>, data: seq<byte>)
    requires p.ctl.Output? && combined < Pow2(32) && BlockExpansion(p) == Expansion(data, true) && Checksum(data) == p.storedBlockCRC
    ensures Decompressed(p, combined, rest) == Prepend(data, Decompressed(AfterBlock(p), CombinedStep(combined, data), rest))
  {
    assert Feed(p, rest) == (p, rest);
  }

  /** All blocks of a stream, and then the rest. */
  lemma {:induction false} DecodeBlocks(p: Parse, done: seq<Finished>, rest: seq<bool>) returns (crc: nat, orig: nat)
    requires p.ctl == BlkHdr(1) && AllPack(done, p.level)
    ensures Decompressed(p, 0, BlocksBits(done, p.level) + rest) ==
            Prepend(DataOf(done), Decompressed(p.(storedBlockCRC := crc, origPtr := orig), CombinedOf(done), rest))
    decreases |done|
  {
    hide Decompressed, Packs, BlockBits, CombinedStep, Pow2;
    StartOk();
    if done == [] {
      crc, orig := p.storedBlockCRC, p.origPtr;
      assert BlocksBits(done, p.level) + rest == rest;
      var d := Decompressed(p, 0, rest);
      assert [] + d.out == d.out;
    } else {
      var init, f := done[..|done| - 1], done[|done| - 1];
      assert Packs(f, p.level);
      PackCoded(f, p.level);
      crc, orig := DecodeBlocks(p, init, BlockBits(f.blk) + rest);
      assert BlocksBits(done, p.level) + rest == BlocksBits(init, p.level) + (BlockBits(f.blk) + rest);
      DecodePacked(p.(storedBlockCRC := crc, origPtr := orig), CombinedOf(init), f, rest);
      crc, orig := f.blk.crc, f.blk.origPtr;
      var r := Decompressed(p.(storedBlockCRC := crc, origPtr := orig), CombinedOf(done), rest);
      assert DataOf(init) + (f.data + r.out) == DataOf(done) + r.out;
    }
  }

  /** A complete stream decompresses to exactly the bytes of its blocks, with a matching
      combined checksum, and to nothing more. */
  lemma CompleteDecodes(out: seq<byte>, done: seq<Finished>, level: nat, pad: nat)
    requires Complete(out, done, level, pad) && 1 <= level <= 9
    ensures var d := Decompressed(Start(), 0, BytesBits(out));
            d.out == DataOf(done) && d.p.ctl.Idle? && d.combined == d.p.storedCombinedCRC && !d.bad
  {
    hide Decompressed, BlocksBits, HeaderBits, TrailerBits, BytesBits, AllPack, BitsOf, CombinedOf, DataOf, Takes, Ok;
    var crc := CombinedOf(done);
    var tail := TrailerBits(crc) + BitsOf(0, pad);
    var p := Start().(ctl := BlkHdr(1), level := level);
    StartOk();
    assert BytesBits(out) == HeaderBits(level) + (BlocksBits(done, level) + tail);
    TakesHeader(level);
    TakesDecode(Start(), HeaderBits(level), p, BlocksBits(done, level) + tail, 0);
    var c, o := DecodeBlocks(p, done, tail);
    var q := p.(storedBlockCRC := c, origPtr := o);
    TakesTrailer(q, crc);
    TakesDecode(q, TrailerBits(crc), q.(ctl := Idle, storedCombinedCRC := crc), BitsOf(0, pad), crc);
    DecompressedStopped(q.(ctl := Idle, storedCombinedCRC := crc), crc, BitsOf(0, pad));
    assert DataOf(done) + [] == DataOf(done);
  }
}
