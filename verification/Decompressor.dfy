/** Decompression as a stream (bzlib.c, decompress.c): BZ2_bzDecompress over any sequence of
    calls, with the input and the room for output supplied in any pieces. */
module Decompressor {
  import opened Words
  import opened Bits
  import opened BitStream
  import opened Transform
  import opened HuffmanCodes
  import opened RunLength
  import opened BlockCrc
  import opened MtfCoding
  import opened Parser
  import MtfDecoder
  import ArrayDecoder
  import opened BlockDecoder
  import opened UnRle
  import opened StreamFormat
  import opened StreamDecoder

  datatype Status = BzOk | BzStreamEnd | BzSequenceError | BzError(error: Error) | BzRandomised | BzOverrun

  // ---------- blocks fit the arrays ----------

  ghost predicate Sized(p: Parse) {
    p.level <= 9 && (p.ctl.Output? ==> p.origPtr < |p.ctl.column| <= 100000 * p.level)
  }

  /** A block that is delivered is not longer than the stream's level allows, and origPtr
      lies inside it. */
  lemma SymbolSized(level: nat, origPtr: nat, t: Tables, groupNo: nat, groupPos: nat, d: Decoder, sym: nat)
    requires TablesOk(t) && |d.list| == 256 && groupNo < |t.selector| && sym < AlphaSize(t.inUse)
    ensures var c := OnSymbol(level, origPtr, t, groupNo, groupPos, d, sym);
            c.Output? ==> origPtr < |c.column| <= 100000 * level
  {
    hide AlphaSize, DecodeStep;
    RankAtMost(t.inUse);
  }

  lemma CodeSized(level: nat, origPtr: nat, t: Tables, groupNo: nat, groupPos: nat, d: Decoder, zn: nat, zvec: nat)
    requires TablesOk(t) && |d.list| == 256 && groupNo < |t.selector|
    ensures var c := OnCode(level, origPtr, t, groupNo, groupPos, d, zn, zvec);
            c.Output? ==> origPtr < |c.column| <= 100000 * level
  {
    hide OnSymbol, Limit, Base, Perm, AlphaSize;
    var lens := GroupLens(t, groupNo);
    if zn <= 20 && zvec <= Limit(lens, zn) && 0 <= zvec - Base(lens, zn) < BZ_MAX_ALPHA_SIZE {
      SymbolSized(level, origPtr, t, groupNo, groupPos, d, Perm(lens, zvec - Base(lens, zn), 0));
    }
  }

  lemma StepSized(p: Parse, v: nat)
    requires Ok(p.ctl) && !Stopped(p.ctl) && Sized(p)
    ensures Sized(Step(p, v))
  {
    hide OnCode, Rows, NextSelector, UndoSelectors, Limit, MinLen;
    match p.ctl
    case Mtf1(t, g, pos, d) => CodeSized(p.level, p.origPtr, t, g, pos, d, MinLen(GroupLens(t, g)), v);
    case Mtf2(t, g, pos, d, zn, zvec) => CodeSized(p.level, p.origPtr, t, g, pos, d, zn, 2 * zvec + v);
    case _ =>
  }

  // ---------- where decompression stands ----------

  ghost predicate At(input: seq<bool>, out: seq<byte>, p: Parse, combined: nat, left: seq<bool>) {
    Reached(input, out, p, combined, left) && Sized(p) && Ok(p.ctl) && combined < Pow2(32)
  }

  lemma AtStart()
    ensures At([], [], Start(), 0, [])
  {
    hide Reached, Ok, Pow2;
    StartOk();
    ReachedStart([]);
  }

  lemma AtParts(input: seq<bool>, out: seq<byte>, p: Parse, combined: nat, left: seq<bool>)
    requires At(input, out, p, combined, left)
    ensures Ok(p.ctl) && Sized(p) && combined < Pow2(32)
  {
  }

  lemma AtStep(input: seq<bool>, out: seq<byte>, p: Parse, combined: nat, left: seq<bool>, v: nat, left': seq<bool>)
    requires At(input, out, p, combined, left) && Ok(p.ctl) && !Stopped(p.ctl)
    requires v < Pow2(Need(p.ctl)) && left == BitsOf(v, Need(p.ctl)) + left'
    ensures At(input, out, Step(p, v), combined, left')
  {
    hide Reached, Ok, Need, Step, Pow2, BitsOf, Stopped, Sized;
    ReachedStep(input, out, p, combined, left, v, left');
    StepSized(p, v);
  }

  lemma AtMore(input: seq<bool>, out: seq<byte>, p: Parse, combined: nat, left: seq<bool>, extra: seq<bool>)
    requires At(input, out, p, combined, left)
    ensures At(input + extra, out, p, combined, left + extra)
  {
    hide Reached, Ok, Pow2, Sized;
    ReachedMore(input, out, p, combined, left, extra);
  }

  /** A whole block has been written and its checksum agrees. */
  lemma AtBlock(input: seq<bool>, out: seq<byte>, mark: nat, p: Parse, combined: nat, left: seq<bool>, b: seq<byte>, past: byte)
    requires mark <= |out| && p.ctl.Output? && Column(p.ctl.column, p.origPtr, b, past)
    requires At(input, out[..mark], p, combined, left) && combined < Pow2(32)
    requires Expand(b, past) == Expansion(out[mark..], true) && Checksum(out[mark..]) == p.storedBlockCRC
    ensures At(input, out, AfterBlock(p), Combine(combined, p.storedBlockCRC), left)
  {
    hide Reached, Pow2, Expand, DecodedBlock, Decoded, Checksum, Combine;
    var data := out[mark..];
    ReachedBlock(input, out[..mark], p, combined, left, data);
    assert out[..mark] + data == out;
    assert CombinedStep(combined, data) < Pow2(32);
  }

  /** What a call's result says about all of the input so far, decoded at once: whether it
      is a whole stream, a broken one, or the beginning of one; and how the output so far
      relates to what it decodes to. */
  ghost predicate Outcome(status: Status, input: seq<bool>, out: seq<byte>, room: nat) {
    StartOk();
    var d := Decompressed(Start(), 0, input);
    match status
    case BzOk =>
      && out <= d.out
      && if room > 0 then out == d.out && !d.bad && !Stopped(d.p.ctl) else out == d.out ==> d.bad || !Stopped(d.p.ctl)
    case BzStreamEnd => out == d.out && !d.bad && d.p.ctl.Idle? && d.combined == d.p.storedCombinedCRC
    case BzSequenceError => !d.bad && d.p.ctl.Idle?
    case BzRandomised => !d.bad && d.p.ctl.Randomised?
    case BzOverrun => !d.bad && d.p.ctl.Overrun?
    case BzError(DataErrorMagic) => !d.bad && d.p.ctl == Failed(DataErrorMagic)
    case BzError(DataError) => d.bad || d.p.ctl == Failed(DataError) || (d.p.ctl.Idle? && d.combined != d.p.storedCombinedCRC)
  }

  /** The parser has stopped, or wants more input than there is. */
  lemma StoppedOutcome(input: seq<bool>, out: seq<byte>, p: Parse, combined: nat, left: seq<bool>, room: nat)
    requires At(input, out, p, combined, left) && Ok(p.ctl) && !p.ctl.Output?
    requires Stopped(p.ctl) || |left| < Need(p.ctl)
    ensures match p.ctl
      case Idle => if combined == p.storedCombinedCRC then Outcome(BzStreamEnd, input, out, room) else Outcome(BzError(DataError), input, out, room)
      case Failed(e) => Outcome(BzError(e), input, out, room)
      case Randomised => Outcome(BzRandomised, input, out, room)
      case Overrun => Outcome(BzOverrun, input, out, room)
      case _ => Outcome(BzOk, input, out, room)
    ensures p.ctl.Idle? ==> Outcome(BzSequenceError, input, out, room)
  {
    hide Reached, Need, Ok, Decompressed, Pow2, Sized;
    StartOk();
    ReachedEnd(input, out, p, combined, left);
  }

  lemma BadOutcome(input: seq<bool>, done: seq<byte>, p: Parse, combined: nat, left: seq<bool>, b: seq<byte>, past: byte, out: seq<byte>, room: nat)
    requires At(input, done, p, combined, left) && p.ctl.Output? && Column(p.ctl.column, p.origPtr, b, past)
    requires Expand(b, past).ok ==> Checksum(Expand(b, past).out) != p.storedBlockCRC
    ensures Outcome(BzError(DataError), input, out, room)
  {
    hide Reached, Decompressed, Expand, DecodedBlock, Decoded, Checksum, Pow2, Sized;
    StartOk();
    ReachedBad(input, done, p, combined, left);
  }

  /** In the middle of a block. */
  lemma PartOutcome(input: seq<bool>, out: seq<byte>, mark: nat, p: Parse, combined: nat, left: seq<bool>, b: seq<byte>, past: byte)
    requires mark <= |out| && At(input, out[..mark], p, combined, left) && p.ctl.Output? && Column(p.ctl.column, p.origPtr, b, past)
    requires out[mark..] <= Expand(b, past).out && (!Expand(b, past).ok || |out[mark..]| < |Expand(b, past).out|)
    ensures Outcome(BzOk, input, out, 0)
  {
    hide Reached, Decompressed, Expand, DecodedBlock, Decoded, Checksum, Pow2, Sized;
    StartOk();
    ReachedPart(input, out[..mark], p, combined, left);
    if !Expand(b, past).ok { ReachedBad(input, out[..mark], p, combined, left); }
    assert out == out[..mark] + out[mark..];
  }

  lemma ChecksumIs(data: seq<byte>)
    ensures Checksum(data) == Finalise(CrcOf(BZ_CRC_INIT, data))
  {
  }

  /** What BZ2_decompress is at: a field of a header or trailer, the symbols of a block, or
      the output of a block. */
  datatype Phase = InFields | InSymbols | InOutput

  const MAX_BLOCK := 900000

  /** The state of a decompressor: what has been parsed, on values for the fields of headers
      and trailers, and in the arrays of `codes` for the symbols of a block. The ghost p is
      the parser's state that they stand for. */
  class DState {
    var h: Parse
    var phase: Phase
    const codes: CodeReader
    var calculatedCombinedCRC: nat
    const smallDecompress: bool
    const r: BitReader
    const o: BlockOutput
    ghost var p: Parse

    /** What stands for p. */
    ghost predicate Kept()
      reads this`h, this`phase, this`p, codes, codes.syms, codes.syms.seqToUnseq, codes.syms.tt, codes.syms.unzftab, codes.syms.mtfa, codes.syms.mtfbase
    {
      && codes.syms.Separate() && codes.syms.tt.Length == MAX_BLOCK
      && (smallDecompress ==> MtfDecoder.Halfwords(codes.syms.tt[..]))
      && h.(ctl := p.ctl) == p
      && match phase
         case InFields => h == p && ArrayDecoder.Before(p.ctl)
         case InSymbols => codes.Stands(p.ctl) && codes.syms.nblockMAX == 100000 * h.level
         case InOutput => p.ctl.Output?
    }

    /** The block's output goes on. */
    ghost predicate Writing()
      reads this, r, o, o.tt, o.ll16, o.ll4, o.cftab, codes, codes.syms, codes.syms.seqToUnseq, codes.syms.tt, codes.syms.unzftab, codes.syms.mtfa, codes.syms.mtfbase
    {
      && Kept() && phase.InOutput? && r.Valid() && p.ctl.Output? && o.l == p.ctl.column && o.orig == p.origPtr && o.mark <= |o.out|
      && At(BytesBits(r.next_in), o.out[..o.mark], p, calculatedCombinedCRC, r.Left())
      && if smallDecompress then o.SmallReady() else o.FastReady()
    }

    ghost predicate Reading()
      reads this, r, o, codes, codes.syms, codes.syms.seqToUnseq, codes.syms.tt, codes.syms.unzftab, codes.syms.mtfa, codes.syms.mtfbase
    {
      Kept() && !phase.InOutput? && r.Valid() && At(BytesBits(r.next_in), o.out, p, calculatedCombinedCRC, r.Left())
    }

    /** Between calls. */
    ghost predicate Valid()
      reads this, r, o, o.tt, o.ll16, o.ll4, o.cftab, codes, codes.syms, codes.syms.seqToUnseq, codes.syms.tt, codes.syms.unzftab, codes.syms.mtfa, codes.syms.mtfbase
    {
      if p.ctl.Output? then Writing() else Reading()
    }

    /** The objects that a call changes besides the state itself. */
    ghost function Parts(): (parts: set<object>)
      ensures r in parts && o in parts && codes in parts && codes.syms in parts && codes.syms.seqToUnseq in parts
      ensures codes.syms.tt in parts && codes.syms.unzftab in parts && codes.syms.mtfa in parts && codes.syms.mtfbase in parts
    {
      {r, o, codes, codes.syms, codes.syms.seqToUnseq, codes.syms.tt, codes.syms.unzftab, codes.syms.mtfa, codes.syms.mtfbase}
    }

    /** `BZ2_bzDecompressInit` */
    constructor (small: bool)
      ensures Valid() && smallDecompress == small && r.next_in == [] && o.out == [] && o.avail_out == 0 && !p.ctl.Idle?
      ensures fresh(Parts()) && fresh(o.tt) && fresh(o.ll16) && fresh(o.ll4) && fresh(o.cftab)
    {
      hide At, Unread, BytesBits;
      h, p, phase, calculatedCombinedCRC, smallDecompress := Start(), Start(), InFields, 0, small;
      codes := new CodeReader(MAX_BLOCK);
      r := new BitReader();
      o := new BlockOutput();
      new;
      NoBytes();
      AtStart();
    }

    /** The caller supplies more input. */
    method Supply(more: seq<byte>)
      requires Valid()
      modifies r`next_in
      ensures Valid() && r.next_in == old(r.next_in) + more
    {
      hide At, Unread, BytesBits, Column, FastAt, SmallAt, Progress;
      BytesConcat(r.next_in, more);
      AtMore(BytesBits(r.next_in), if p.ctl.Output? then o.out[..o.mark] else o.out, p, calculatedCombinedCRC, r.Left(), BytesBits(more));
      r.Supply(more);
    }

    /** The caller supplies room for n more bytes of output. */
    method Room(n: nat)
      requires Valid()
      modifies o`avail_out
      ensures Valid() && o.avail_out == old(o.avail_out) + n
    {
      hide At, Unread, BytesBits, Column, FastAt, SmallAt, Progress;
      o.avail_out := o.avail_out + n;
    }

    /** The value of a field is taken in. After the last length of the tables, the decoding
        tables are made. */
    method TakeField(v: nat)
      requires Kept() && phase.InFields? && Ok(p.ctl) && !Stopped(p.ctl) && Sized(Step(p, v))
      modifies this`h, this`phase, this`p
      modifies codes, codes.syms, codes.syms.seqToUnseq, codes.syms.unzftab, codes.syms.mtfa, codes.syms.mtfbase
      ensures p == Step(old(p), v) && Kept() && !phase.InOutput?
    {
      hide Step, Ok, Stopped, CodeReader.Ready, MtfDecoder.Halfwords;
      FieldStep(p, v);
      h := Step(h, v);
      p := h;
      if h.ctl.Mtf1? {
        codes.Begin(h.ctl.tables, h.level);
        phase := InSymbols;
      }
    }

    /** The next field, outside the symbols of a block. */
    method ReadField() returns (more: bool)
      requires Reading() && phase.InFields?
      modifies this`h, this`phase, this`p, r`bsBuff, r`bsLive, r`pos
      modifies codes, codes.syms, codes.syms.seqToUnseq, codes.syms.unzftab, codes.syms.mtfa, codes.syms.mtfbase
      ensures Reading() && !p.ctl.Output?
      ensures more ==> |r.Left()| < |old(r.Left())|
      ensures !more ==> r.Left() == old(r.Left()) && Ok(p.ctl) && (Stopped(p.ctl) || |r.Left()| < Need(p.ctl))
    {
      hide At, Unread, BytesBits, Need, Ok, Stopped, Step, BitsOf, Pow2, Kept, Sized;
      KeptIs();
      AtParts(BytesBits(r.next_in), o.out, p, calculatedCombinedCRC, r.Left());
      if Stopped(h.ctl) { return false; }
      ghost var before := r.Left();
      var ok, v := r.GetBits(Need(h.ctl));
      if !ok { return false; }
      AtStep(BytesBits(r.next_in), o.out, p, calculatedCombinedCRC, before, v, r.Left());
      AtParts(BytesBits(r.next_in), o.out, Step(p, v), calculatedCombinedCRC, r.Left());
      TakeField(v);
      KeptIs();
      more := true;
    }

    /** The symbols of a block have come to their end. */
    ghost predicate BlockRead()
      reads this`h, this`p, codes.syms, codes.syms.tt, codes.syms.unzftab
    {
      && p.ctl.Output? && h.(ctl := p.ctl) == p
      && codes.syms.Separate() && codes.syms.tt.Length == MAX_BLOCK
      && (smallDecompress ==> MtfDecoder.Halfwords(codes.syms.tt[..]))
      && codes.syms.nblock == |p.ctl.column| && MtfDecoder.Emitted(p.ctl.column, codes.syms.tt[..], codes.syms.unzftab[..])
    }

    /** The bits of a symbol, or of a part of one, are taken in. */
    method TakeBits(v: nat) returns (reply: MtfDecoder.Reply)
      requires Kept() && phase.InSymbols?
      modifies this`h, this`phase, this`p, codes, codes.syms, codes.syms.tt, codes.syms.unzftab, codes.syms.mtfa, codes.syms.mtfbase
      ensures Ok(old(p).ctl) && !Stopped(old(p).ctl) && p == Step(old(p), v)
      ensures if reply.BlockEnd? then BlockRead() else Kept() && !phase.InOutput?
    {
      hide Step, Ok, Stopped, CodeReader.Stands, MtfDecoder.Emitted, MtfDecoder.Halfwords;
      InSymbolsIs();
      SymbolStep(p, v);
      reply := codes.Advance(v, h.level, h.origPtr, p);
      p := Step(p, v);
      if reply.BadData? {
        h, phase := h.(ctl := Failed(DataError)), InFields;
      }
    }

    lemma InSymbolsIs()
      requires Kept() && phase.InSymbols?
      ensures Ok(p.ctl) && !Stopped(p.ctl) && ArrayDecoder.Reading(p.ctl)
    {
      hide CodeReader.Ready;
    }

    /** The next bits of the symbols of a block. After the last symbol, its output begins. */
    method ReadCode() returns (more: bool)
      requires Reading() && phase.InSymbols?
      modifies this`h, this`phase, this`p, r`bsBuff, r`bsLive, r`pos, o
      modifies codes, codes.syms, codes.syms.tt, codes.syms.unzftab, codes.syms.mtfa, codes.syms.mtfbase
      ensures Valid() && o.out == old(o.out) && o.avail_out == old(o.avail_out)
      ensures more ==> !p.ctl.Output? && |r.Left()| < |old(r.Left())|
      ensures !more ==> Ok(p.ctl) && if p.ctl.Output? then Stopped(p.ctl) && |r.Left()| < |old(r.Left())|
                                     else r.Left() == old(r.Left()) && !Stopped(p.ctl) && |r.Left()| < Need(p.ctl)
    {
      hide At, Unread, BytesBits, Need, Ok, Stopped, Step, BitsOf, Pow2, Kept, BlockRead, CodeReader.Stands;
      KeptIs();
      var n := codes.Need(p.ctl);
      ghost var before := r.Left();
      var ok, v := r.GetBits(n);
      if !ok {
        AtParts(BytesBits(r.next_in), o.out, p, calculatedCombinedCRC, r.Left());
        return false;
      }
      AtStep(BytesBits(r.next_in), o.out, p, calculatedCombinedCRC, before, v, r.Left());
      var reply := TakeBits(v);
      if reply.BlockEnd? {
        StartOutput();
        more := false;
      } else {
        more := true;
      }
      IsValid();
      ValidParts();
    }

    lemma KeptIs()
      requires Kept()
      ensures phase.InOutput? <==> p.ctl.Output?
      ensures phase.InSymbols? ==> codes.Stands(p.ctl) && !Stopped(p.ctl)
      ensures phase.InFields? ==> h == p
    {
      hide CodeReader.Ready;
    }

    /** `BZ2_decompress`: fields and symbols are read until the parser stops or the input is
        used up. When it has a block, the block's output begins. */
    method Decompress()
      requires Reading()
      modifies this`h, this`phase, this`p, r`bsBuff, r`bsLive, r`pos, o
      modifies codes, codes.syms, codes.syms.seqToUnseq, codes.syms.tt, codes.syms.unzftab, codes.syms.mtfa, codes.syms.mtfbase
      ensures Valid() && o.out == old(o.out) && o.avail_out == old(o.avail_out)
      ensures Ok(p.ctl) && (Stopped(p.ctl) || |r.Left()| < Need(p.ctl))
      ensures p.ctl.Output? ==> |r.Left()| < |old(r.Left())|
    {
      hide *;
      IsValid();
      ValidParts();
      ReadingIs();
      ghost var left0 := |r.Left()|;
      var more := true;
      while more
        invariant Valid() && o.out == old(o.out) && o.avail_out == old(o.avail_out)
        invariant r.Valid() && |r.Left()| <= left0 && (p.ctl.Output? ==> |r.Left()| < left0)
        invariant more ==> !p.ctl.Output?
        invariant !more ==> Ok(p.ctl) && (Stopped(p.ctl) || |r.Left()| < Need(p.ctl))
        decreases |r.Left()|, more
      {
        ValidParts();
        if phase.InSymbols? {
          more := ReadCode();
        } else {
          more := ReadField();
          IsValid();
        }
        ValidParts();
      }
    }

    /** The block in the array gets the representation of the output. */
    method Represent()
      requires BlockRead() && Sized(p)
      modifies this`phase, o, codes.syms.tt
      ensures Kept() && phase.InOutput? && o.l == p.ctl.column && o.orig == p.origPtr
      ensures if smallDecompress then o.SmallReady() else o.FastReady()
      ensures o.mark == |o.out| && o.out == old(o.out) && o.avail_out == old(o.avail_out)
    {
      hide Column, FastAt, SmallAt, Progress, Kept, MtfDecoder.Emitted, MtfDecoder.Halfwords, BlockOutput.FastReady, BlockOutput.SmallReady;
      phase := InOutput;
      if smallDecompress {
        o.StartSmall(codes.syms.tt, codes.syms.unzftab, p.ctl.column, codes.syms.nblock, h.origPtr, 100000 * h.level);
      } else {
        o.StartFast(codes.syms.tt, codes.syms.unzftab, p.ctl.column, codes.syms.nblock, h.origPtr, 100000 * h.level);
      }
      OutputKept();
    }

    /** A block has been read: its output begins. */
    method StartOutput()
      requires r.Valid() && At(BytesBits(r.next_in), o.out, p, calculatedCombinedCRC, r.Left())
      requires BlockRead()
      modifies this`phase, o, codes.syms.tt
      ensures Writing() && o.out == old(o.out) && o.avail_out == old(o.avail_out)
    {
      hide At, Unread, BytesBits, Kept, BlockRead, Sized, BlockOutput.FastReady, BlockOutput.SmallReady;
      AtParts(BytesBits(r.next_in), o.out, p, calculatedCombinedCRC, r.Left());
      OutputRead();
      Represent();
      assert o.out[..o.mark] == o.out;
    }

    lemma OutputRead()
      requires BlockRead()
      ensures p.ctl.Output?
    {
    }

    lemma OutputKept()
      requires phase.InOutput? && p.ctl.Output? && h.(ctl := p.ctl) == p && codes.syms.Separate() && codes.syms.tt.Length == MAX_BLOCK
      requires smallDecompress ==> MtfDecoder.Halfwords(codes.syms.tt[..])
      ensures Kept()
    {
      hide MtfDecoder.Halfwords;
    }

    /** The output of a block, as far as there is room. */
    method WriteOut() returns (corrupt: bool)
      requires Writing()
      modifies o`out, o`avail_out, o`calculatedBlockCRC, o`state_out_ch, o`state_out_len, o`nblock_used, o`k0, o`tPos
      ensures old(o.out) <= o.out && |o.out| + o.avail_out == old(|o.out| + o.avail_out)
      ensures corrupt ==> Outcome(BzError(DataError), BytesBits(r.next_in), o.out, o.avail_out)
      ensures !corrupt ==> Writing() && (o.avail_out == 0 || o.Finished())
    {
      hide At, Unread, BytesBits, Column, FastAt, SmallAt, Progress, Outcome, Expand, Expanding;
      ghost var input, left, done := BytesBits(r.next_in), r.Left(), o.out[..o.mark];
      o.EmittingParts();
      if smallDecompress {
        corrupt := o.UnRleSmall();
      } else {
        corrupt := o.UnRleFast();
      }
      if corrupt {
        BadOutcome(input, done, p, calculatedCombinedCRC, left, o.b, o.past, o.out, o.avail_out);
      } else {
        assert o.out[..o.mark] == done;
      }
    }

    /** The block is complete: its checksum is compared, and the next one may begin. */
    method FinishBlock() returns (good: bool)
      requires Writing() && o.Finished()
      modifies this`h, this`phase, this`p, this`calculatedCombinedCRC
      ensures good ==> Reading()
      ensures !good ==> Outcome(BzError(DataError), BytesBits(r.next_in), o.out, o.avail_out)
    {
      hide At, Unread, BytesBits, Column, FastAt, SmallAt, Progress, Outcome, Expand, Expanding, Checksum, CrcOf, Finalise, Combine;
      ghost var input, left, done := BytesBits(r.next_in), r.Left(), o.out[..o.mark];
      o.EmittingParts();
      o.FinishedWritesAll();
      ChecksumIs(o.out[o.mark..]);
      var blockCRC := Finalise(o.calculatedBlockCRC);
      if blockCRC != h.storedBlockCRC {
        BadOutcome(input, done, p, calculatedCombinedCRC, left, o.b, o.past, o.out, o.avail_out);
        return false;
      }
      AtParts(input, done, p, calculatedCombinedCRC, left);
      AtBlock(input, o.out, o.mark, p, calculatedCombinedCRC, left, o.b, o.past);
      calculatedCombinedCRC := Combine(calculatedCombinedCRC, blockCRC);
      h, phase, p := AfterBlock(h), InFields, AfterBlock(p);
      return true;
    }

    lemma NoRoomOutcome()
      requires Writing() && o.avail_out == 0 && !o.Finished()
      ensures Outcome(BzOk, BytesBits(r.next_in), o.out, o.avail_out)
    {
      hide At, Unread, BytesBits, Column, FastAt, SmallAt, Progress, Outcome, Expand, Expanding;
      o.EmittingParts();
      o.UnfinishedWritesMore();
      PartOutcome(BytesBits(r.next_in), o.out, o.mark, p, calculatedCombinedCRC, r.Left(), o.b, o.past);
    }

    lemma ValidParts()
      requires Valid()
      ensures r.Valid() && (if p.ctl.Output? then Writing() else Reading()) && Ok(p.ctl) && (phase.InOutput? <==> p.ctl.Output?)
      ensures !p.ctl.Output? ==> At(BytesBits(r.next_in), o.out, p, calculatedCombinedCRC, r.Left())
      ensures p.ctl.Idle? || p.ctl.Output? ==> Stopped(p.ctl)
      ensures h.storedCombinedCRC == p.storedCombinedCRC && (phase.InFields? ==> h == p)
      ensures phase.InSymbols? ==> !Stopped(p.ctl) && (p.ctl.Mtf1? || p.ctl.Mtf2?)
    {
      hide Unread, BytesBits, Column, FastAt, SmallAt, Progress, Reached, Sized, Pow2, CodeReader.Ready;
    }

    lemma ReadingIs()
      requires Reading()
      ensures !p.ctl.Output?
    {
      hide At;
    }

    lemma IsValid()
      requires Writing() || Reading()
      ensures Valid()
    {
      hide At, CodeReader.Ready;
    }

    /** `BZ2_bzDecompress` */
    method BzDecompress() returns (status: Status)
      requires Valid()
      modifies this`h, this`phase, this`p, this`calculatedCombinedCRC, r`bsBuff, r`bsLive, r`pos, o
      modifies codes, codes.syms, codes.syms.seqToUnseq, codes.syms.tt, codes.syms.unzftab, codes.syms.mtfa, codes.syms.mtfbase
      ensures old(o.out) <= o.out && |o.out| + o.avail_out == old(|o.out| + o.avail_out)
      ensures Outcome(status, BytesBits(r.next_in), o.out, o.avail_out)
      ensures !status.BzError? && !status.BzRandomised? && !status.BzOverrun? ==> Valid()
      ensures status.BzSequenceError? <==> old(p.ctl.Idle?)
      ensures status.BzOk? ==> !p.ctl.Idle?
    {
      hide *;
      ghost var total, o0 := |o.out| + o.avail_out, o.out;
      ValidParts();
      if phase.InFields? && h.ctl.Idle? {
        StoppedOutcome(BytesBits(r.next_in), o.out, p, calculatedCombinedCRC, r.Left(), o.avail_out);
        return BzSequenceError;
      }
      while true
        invariant Valid() && r.Valid() && o0 <= o.out && |o.out| + o.avail_out == total && !p.ctl.Idle?
        decreases |r.Left()|, if p.ctl.Output? then 1 else 0
      {
        ValidParts();
        if phase.InOutput? {
          var corrupt := WriteOut();
          if corrupt { return BzError(DataError); }
          if !o.Finished() {
            NoRoomOutcome();
            IsValid();
            return BzOk;
          }
          var good := FinishBlock();
          if !good { return BzError(DataError); }
        }
        Decompress();
        ValidParts();
        if !phase.InOutput? {
          StoppedOutcome(BytesBits(r.next_in), o.out, p, calculatedCombinedCRC, r.Left(), o.avail_out);
          if phase.InSymbols? { return BzOk; }
          return
            match h.ctl
            case Idle => if calculatedCombinedCRC == h.storedCombinedCRC then BzStreamEnd else BzError(DataError)
            case Failed(e) => BzError(e)
            case Randomised => BzRandomised
            case Overrun => BzOverrun
            case _ => BzOk;
        }
      }
    }
  }
}
