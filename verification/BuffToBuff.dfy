/** The one-call interface (bzlib.c): a whole buffer compressed into another, and back. */
module BuffToBuff {
  import opened Words
  import opened Bits
  import opened BitStream
  import opened Parser
  import opened StreamFormat
  import opened StreamDecoder
  import opened OutputSize
  import opened Printer
  import D = Decompressor
  import C = Compressor
  import opened BlockCutting
  import opened RoundTrip

  datatype Result = Ok(dest: seq<byte>) | ParamError | SequenceError | OutbuffFull | UnexpectedEof | Refused(status: D.Status)

  /** `BZ2_bzBuffToBuffCompress`: the only ways to fail are wrong parameters and a buffer that
      is too small. */
  method Compress(source: seq<byte>, destLen: nat, blockSize100k: int, workFactor: int) returns (r: Result)
    ensures r.ParamError? <==> blockSize100k < 1 || blockSize100k > 9 || workFactor < 0 || workFactor > 250
    ensures r.Ok? ==> |r.dest| <= destLen && Compressed(source, r.dest)
    ensures r.Ok? ==> DividedStream([Segment(source, source != [])], r.dest, blockSize100k)
    ensures r.SequenceError? <==> !r.ParamError? && destLen == 0 && source == []
    ensures r.Ok? || r.ParamError? || r.SequenceError? || r.OutbuffFull?
    ensures !r.ParamError? && destLen > StreamRoom(|source|) ==> r.Ok?
  {
    hide *;
    var s := C.BzCompressInit(blockSize100k, workFactor);
    if s == null { return ParamError; }
    var e: C.EState := s;
    e.Supply(source);
    e.Room(destLen);
    assert [] + source == source;
    NothingSince();
    assert e.div.segs + e.div.due == [];
    var status := e.BzCompress(C.Finish);
    C.AnswerIs(C.Running, C.Finish, false);
    C.AnswerIs(C.Running, C.Finish, true);
    if status == C.FinishOk { return OutbuffFull; }
    if status != C.StreamEnd { return SequenceError; }
    assert e.consumed + [] == e.consumed == source;
    CompressedBy(e.consumed, e.out, e.done, e.blockSize100k, e.pad);
    e.EndedDivision();
    e.BlocksMade();
    e.ValidLevel();
    CompleteLong(e.out, e.done, e.blockSize100k, e.pad);
    DividedBy(e.div.segs, e.out, e.done, e.blockSize100k, e.pad);
    assert e.div.segs == e.div.segs + e.div.due == [] + [Segment([] + source, source != [])];
    assert [] + [Segment([] + source, source != [])] == [Segment(source, source != [])];
    return Ok(e.out);
  }

  lemma CompleteLong(out: seq<byte>, done: seq<Finished>, level: nat, pad: nat)
    requires Complete(out, done, level, pad)
    ensures out != []
  {
    hide AllPack, TrailerBits, BodyBits, CombinedOf, BitsOf;
    TrailerSize(CombinedOf(done));
    assert |BytesBits(out)| == 8 * |out|;
  }

  /** `BZ2_bzBuffToBuffDecompress`: what it answers is what decoding the whole buffer at once
      says. */
  method Decompress(source: seq<byte>, destLen: nat, small: bool) returns (r: Result)
    ensures r.Ok? || r.OutbuffFull? || r.UnexpectedEof? || r.Refused?
    ensures r.Ok? ==> |r.dest| <= destLen && D.Outcome(D.BzStreamEnd, BytesBits(source), r.dest, destLen - |r.dest|)
    ensures r.UnexpectedEof? ==> exists out, room: nat :: room > 0 && D.Outcome(D.BzOk, BytesBits(source), out, room)
    ensures r.OutbuffFull? ==> exists out :: |out| == destLen && D.Outcome(D.BzOk, BytesBits(source), out, 0)
    ensures r.Refused? ==> !r.status.BzOk? && !r.status.BzStreamEnd? && !r.status.BzSequenceError? && exists out, room: nat :: D.Outcome(r.status, BytesBits(source), out, room)
  {
    hide *;
    var d := new D.DState(small);
    d.Supply(source);
    d.Room(destLen);
    assert [] + source == source;
    var status := d.BzDecompress();
    if status.BzOk? {
      if d.o.avail_out > 0 { return UnexpectedEof; }
      return OutbuffFull;
    }
    if !status.BzStreamEnd? { return Refused(status); }
    return Ok(d.o.out);
  }

  /** Back and forth: with room for them the data come back, and with less the answer is that
      the buffer is full. */
  method BackAndForth(source: seq<byte>, destLen: nat, blockSize100k: int, workFactor: int, room: nat, small: bool) returns (c: Result, r: Result)
    ensures c.Ok? ==> r == if room >= |source| then Ok(source) else OutbuffFull
    ensures 1 <= blockSize100k <= 9 && 0 <= workFactor <= 250 && destLen > StreamRoom(|source|) ==> c.Ok?
  {
    hide *;
    c := Compress(source, destLen, blockSize100k, workFactor);
    r := c;
    if c.Ok? {
      r := Decompress(c.dest, room, small);
      Answers(source, c.dest, room, r);
    }
  }

  /** What can be answered about the compressed form of some data. */
  lemma Answers(data: seq<byte>, z: seq<byte>, destLen: nat, r: Result)
    requires Compressed(data, z)
    requires r.Ok? || r.OutbuffFull? || r.UnexpectedEof? || r.Refused?
    requires r.Ok? ==> |r.dest| <= destLen && D.Outcome(D.BzStreamEnd, BytesBits(z), r.dest, destLen - |r.dest|)
    requires r.UnexpectedEof? ==> exists out, room: nat :: room > 0 && D.Outcome(D.BzOk, BytesBits(z), out, room)
    requires r.OutbuffFull? ==> exists out :: |out| == destLen && D.Outcome(D.BzOk, BytesBits(z), out, 0)
    requires r.Refused? ==> !r.status.BzOk? && !r.status.BzStreamEnd? && !r.status.BzSequenceError? && exists out, room: nat :: D.Outcome(r.status, BytesBits(z), out, room)
    ensures r == if destLen >= |data| then Ok(data) else OutbuffFull
  {
    hide *;
    assert z[..|z|] == z;
    match r
    case Ok(dest) => StreamOutcome(data, z, |z|, D.BzStreamEnd, dest, destLen - |dest|);
    case UnexpectedEof =>
      var out, room: nat :| room > 0 && D.Outcome(D.BzOk, BytesBits(z), out, room);
      StreamOutcome(data, z, |z|, D.BzOk, out, room);
    case OutbuffFull =>
      var out :| |out| == destLen && D.Outcome(D.BzOk, BytesBits(z), out, 0);
      StreamOutcome(data, z, |z|, D.BzOk, out, 0);
    case Refused(status) =>
      var out, room: nat :| D.Outcome(status, BytesBits(z), out, room);
      StreamOutcome(data, z, |z|, status, out, room);
  }
}
