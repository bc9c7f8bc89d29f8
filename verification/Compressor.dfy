/** The compressor's stream interface (bzlib.c): input is collected into blocks, blocks are
    written, and output is handed over, across any sequence of calls. */
module Compressor {
  import opened Words
  import opened Bits
  import opened BitStream
  import opened MtfCoding
  import opened RunLength
  import opened RunCollector
  import opened BlockCrc
  import opened HuffmanCodes
  import opened MtfEncoder
  import opened Printer
  import opened BlockWriter
  import opened StreamFormat
  import opened OutputSize
  import opened BlockCutting
  import BlockDivision
  import MainCompare
  import Ties

  datatype Mode = Idle | Running | Flushing | Finishing
  datatype Phase = Input | Output
  datatype Action = Run | Flush | Finish | Other
  datatype Status = RunOk | FlushOk | FinishOk | StreamEnd | SequenceError | ParamError

  /** The input taken in is what finished blocks, the current one and the pending run stand
      for. */
  ghost predicate Balanced(consumed: seq<byte>, done: seq<Finished>, runs: seq<RunLength.Run>, ch: nat, len: nat) {
    ch <= 256 && consumed == DataOf(done) + BytesOf(runs) + Pending(ch, len)
  }

  lemma BalanceRun(consumed: seq<byte>, done: seq<Finished>, runs: seq<RunLength.Run>, ch: nat, len: nat)
    requires Balanced(consumed, done, runs, ch, len) && ch < 256 && PendingOk(ch, len)
    requires BytesOf(runs + [RunLength.Run(ch, len)]) == BytesOf(runs) + Pending(ch, len)
    ensures Balanced(consumed, done, runs + [RunLength.Run(ch, len)], 256, 0)
  {
    hide BytesOf, DataOf;
    assert DataOf(done) + (BytesOf(runs) + Pending(ch, len)) + [] == consumed;
  }

  lemma BalanceByte(consumed: seq<byte>, done: seq<Finished>, runs: seq<RunLength.Run>, ch: nat, len: nat, x: byte, len': nat)
    requires Balanced(consumed, done, runs, ch, len) && PendingOk(ch, len)
    requires if ch == 256 then len' == 1 else ch == x && len' == len + 1
    ensures Balanced(consumed + [x], done, runs, x, len')
  {
    hide BytesOf, DataOf;
    assert Repeat<byte>(x, len') == (if ch == 256 then [] else Repeat<byte>(ch, len)) + [x];
  }

  /** A block as it is made of its data: of their maximal runs, coded, the rotations are sorted;
      the map has their characters and no others; the symbols code the last column, and the
      tables are those of the last of four passes. */
  ghost predicate MadeOf(f: Finished, level: nat, rs: seq<RunLength.Run>, p: seq<nat>) {
    && BlockDivision.Maximal(rs) && RunsFit(rs) && f.data == BytesOf(rs)
    && SentAs(BlockOf(rs), p, f.blk, level) && MapOf(BlockOf(rs), f.blk.tables.inUse)
  }

  ghost predicate Made(f: Finished, level: nat) {
    exists rs: seq<RunLength.Run>, p: seq<nat> :: MadeOf(f, level, rs, p)
  }

  ghost predicate AllMade(done: seq<Finished>, level: nat) {
    forall k :: 0 <= k < |done| ==> Made(done[k], level)
  }

  lemma SameMap(block: seq<byte>, m: seq<bool>, n: seq<bool>)
    requires MapOf(block, m) && MapOf(block, n)
    ensures m == n && UsedIn(block, m)
  {
  }

  lemma MadeParts(f: Finished, level: nat) returns (rs: seq<RunLength.Run>, p: seq<nat>)
    requires Made(f, level)
    ensures BlockDivision.Maximal(rs) && RunsFit(rs) && f.data == BytesOf(rs) && MapOf(BlockOf(rs), f.blk.tables.inUse)
    ensures UsedIn(BlockOf(rs), f.blk.tables.inUse) && |BlockOf(rs)| > 0 && f.blk.syms == BlockSymbols(BlockOf(rs), p, f.blk.tables.inUse)
    ensures Ties.OriginAt(BlockOf(rs), p, f.blk.origPtr)
  {
    hide BlockDivision.Maximal, BlockOf, BytesOf, MapOf, BlockSymbols, UsedIn;
    rs, p :| MadeOf(f, level, rs, p);
  }

  /** The data of a block determine its symbols and its map, and unless some turn of its run
      coding gives the same again also its origin. */
  lemma MadeAlike(f: Finished, level: nat, g: Finished, level': nat)
    requires Made(f, level) && Made(g, level') && f.data == g.data
    ensures f.blk.syms == g.blk.syms && f.blk.tables.inUse == g.blk.tables.inUse
    ensures exists rs: seq<RunLength.Run> :: BlockDivision.Maximal(rs) && RunsFit(rs) && BytesOf(rs) == f.data && |BlockOf(rs)| > 0
              && (!Ties.Tied(BlockOf(rs)) ==> f.blk.origPtr == g.blk.origPtr)
  {
    hide *;
    var rs, p := MadeParts(f, level);
    var rs', p' := MadeParts(g, level');
    BlockDivision.RunsUnique(rs, rs');
    SameMap(BlockOf(rs), f.blk.tables.inUse, g.blk.tables.inUse);
    Ties.SameBlock(BlockOf(rs), p, f.blk.origPtr, p', g.blk.origPtr, f.blk.tables.inUse);
  }

  /** The output handed over, what is still to come of this block, and the bits written so
      far: nothing before the first block, then the header and the blocks, and at the end a
      complete stream. */
  ghost predicate Stream(level: nat, done: seq<Finished>, combined: nat, prior: seq<byte>, zbits: seq<byte>, buff: nat, live: int,
                           pos: nat, out: seq<byte>, started: bool, ended: bool, pad: nat) {
    && 1 <= level <= 9 && AllPack(done, level) && AllMade(done, level) && combined == CombinedOf(done)
    && pos <= |zbits| && out == prior + zbits[..pos] && (!started ==> done == [] && !ended)
    && (ended ==> Complete(prior + zbits, done, level, pad))
    && (!ended ==> Buffered(buff, live) &&
                   BytesBits(prior) + BitStream.AllWritten(buff, live, zbits) == if started then BodyBits(done, level) else [])
  }

  lemma StreamGive(level: nat, done: seq<Finished>, combined: nat, prior: seq<byte>, zbits: seq<byte>, buff: nat, live: int,
                   pos: nat, out: seq<byte>, started: bool, ended: bool, pad: nat)
    requires Stream(level, done, combined, prior, zbits, buff, live, pos, out, started, ended, pad) && pos < |zbits|
    ensures Stream(level, done, combined, prior, zbits, buff, live, pos + 1, out + [zbits[pos]], started, ended, pad)
  {
    hide AllPack, AllMade, CombinedOf, Complete, Buffered, BodyBits, BytesBits;
    assert prior + zbits[..pos] + [zbits[pos]] == prior + zbits[..pos + 1];
  }

  lemma StreamShape(level: nat, done: seq<Finished>, combined: nat, prior: seq<byte>, zbits: seq<byte>, buff: nat, live: int,
                    pos: nat, out: seq<byte>, started: bool, ended: bool, pad: nat)
    requires Stream(level, done, combined, prior, zbits, buff, live, pos, out, started, ended, pad)
    ensures 1 <= level <= 9 && AllPack(done, level) && AllMade(done, level) && combined == CombinedOf(done) < Pow2(32) && pos <= |zbits|
    ensures !ended ==> Buffered(buff, live)
  {
    hide AllPack, AllMade, CombinedOf, Complete, Buffered, BodyBits, BytesBits;
  }

  /** The output of the last block has all been handed over; the next begins. */
  lemma StreamNext(level: nat, done: seq<Finished>, combined: nat, prior: seq<byte>, zbits: seq<byte>, buff: nat, live: int, out: seq<byte>, pad: nat)
    requires Stream(level, done, combined, prior, zbits, buff, live, |zbits|, out, true, false, pad)
    requires BytesBits(prior + zbits) + BitStream.AllWritten(buff, live, []) == BytesBits(prior) + BitStream.AllWritten(buff, live, zbits)
    ensures Stream(level, done, combined, out, [], buff, live, 0, out, true, false, pad)
  {
    hide AllPack, AllMade, CombinedOf, Complete, Buffered, BodyBits, BytesBits, BitStream.AllWritten;
    assert zbits[..|zbits|] == zbits;
  }

  /** `isempty_RL` */
  predicate EmptyRL(ch: nat, len: nat) {
    !(ch < 256 && len > 0)
  }

  /** The run that is pending after x, and those before it. */
  ghost predicate Grown(rs: seq<RunLength.Run>, pending: seq<RunLength.Run>, x: byte, rs': seq<RunLength.Run>, pending': seq<RunLength.Run>) {
    && rs' + pending' == BlockDivision.Grow(rs + pending, x) && |pending'| == 1
    && rs' == (if BlockDivision.Starts(rs + pending, x) then rs + pending else rs)
    && (BlockDivision.Starts(rs + pending, x) ==> pending' == [RunLength.Run(x, 1)])
  }

  lemma GrownBy(rs: seq<RunLength.Run>, ch: nat, len: nat, x: byte)
    requires PendingOk(ch, len) && (ch == 256 ==> rs == [])
    ensures ch < 256 && (x != ch || len == 255) ==> Grown(rs, PendingRun(ch, len), x, rs + [RunLength.Run(ch, len)], PendingRun(x, 1))
    ensures ch < 256 && x == ch && len < 255 ==> Grown(rs, PendingRun(ch, len), x, rs, PendingRun(x, len + 1))
    ensures ch == 256 ==> Grown(rs, PendingRun(ch, len), x, rs, PendingRun(x, 1))
  {
    if ch < 256 {
      var r := RunLength.Run(ch, len);
      assert (rs + [r])[..|rs + [r]| - 1] == rs;
    }
  }

  lemma CutGrown(c: Division, max: nat, datas: seq<seq<byte>>, consumed: seq<byte>, rs: seq<RunLength.Run>, pending: seq<RunLength.Run>, ahead: seq<byte>,
                 x: byte, rs': seq<RunLength.Run>, pending': seq<RunLength.Run>, ahead': seq<byte>)
    requires Cutting(c, max, datas, consumed, rs, pending, ahead) && RunsFit(rs) && |BlockOf(rs)| < max && (pending == [] ==> rs == [])
    requires Grown(rs, pending, x, rs', pending') && RunsFit(rs') && (c.due != [] ==> ahead == [x] + ahead')
    ensures Cutting(c, max, datas, consumed + [x], rs', pending', ahead')
  {
    hide Cutting, BlockOf, BlockDivision.Grow, BlockDivision.Starts;
    CutByte(c, max, datas, consumed, rs, pending, ahead, x, rs', pending', ahead');
  }

  lemma StartStream(level: nat, buff: nat, live: int)
    requires 1 <= level <= 9 && Buffered(buff, live) && BitStream.AllWritten(buff, live, []) == []
    ensures Stream(level, [], 0, [], [], buff, live, 0, [], false, false, 0)
  {
    hide Buffered, BitStream.AllWritten;
    NoBytes();
  }

  lemma StartFilling(inUse: seq<bool>)
    requires |inUse| == 256 && forall c :: 0 <= c < 256 ==> !inUse[c]
    ensures Collecting([], [], 256, 0, BZ_CRC_INIT, inUse) && Balanced([], [], [], 256, 0) && PendingOk(256, 0) && EmptyRL(256, 0)
  {
    CollectStart(inUse, 256, 0);
  }

  lemma NoData()
    ensures DataSeq([]) == []
  {
  }

  lemma NonePending(ch: nat, len: nat)
    requires EmptyRL(ch, len) && PendingOk(ch, len)
    ensures ch <= 256 && PendingRun(ch, len) == []
  {
  }

  lemma NoRuns(rs: seq<RunLength.Run>)
    requires RunsFit(rs)
    ensures BlockOf(rs) == [] <==> rs == []
  {
  }

  lemma DataGrown(done: seq<Finished>, done': seq<Finished>)
    requires |done'| == |done| + 1 && done <= done'
    ensures DataSeq(done') == DataSeq(done) + [done'[|done|].data]
  {
  }

  /** Where a call can lead. */
  predicate Leads(before: Mode, action: Action, after: Mode) {
    match before
    case Idle => after.Idle?
    case Running =>
      if action.Flush? then after.Running? || after.Flushing? else if action.Finish? then after.Finishing? || after.Idle? else after.Running?
    case Flushing => after.Flushing? || after.Running?
    case Finishing => after.Finishing? || after.Idle?
  }

  /** What a finished flush leaves: all input is in finished blocks, and of their bits fewer than
      32 have not been handed over. */
  ghost predicate Flushed(out: seq<byte>, consumed: seq<byte>, done: seq<Finished>, level: nat) {
    && DataOf(done) == consumed && AllPack(done, level)
    && exists tail :: |tail| < 32 && BytesBits(out) + tail == BodyBits(done, level)
  }

  /** Whether a call is refused before anything is done: in a state that does not allow the
      action, or with other input than a flush or a finish began with. */
  predicate Refuses(before: Mode, action: Action, matches: bool) {
    match before
    case Idle => true
    case Running => action.Other?
    case Flushing => !action.Flush? || !matches
    case Finishing => !action.Finish? || !matches
  }

  /** The answer to a call: moved says whether bytes were taken or given. */
  function AnswerTo(before: Mode, action: Action, matches: bool, moved: bool, after: Mode): Status {
    if Refuses(before, action, matches) then (if before.Running? then ParamError else SequenceError)
    else
      match action
      case Run | Other => if moved then RunOk else ParamError
      case Flush => if after.Flushing? then FlushOk else RunOk
      case Finish => if after.Idle? then StreamEnd else if moved then FinishOk else SequenceError
  }

  lemma LeadsWhere(before: Mode, action: Action, after: Mode)
    ensures Leads(before, action, after) <==>
            (before.Idle? ==> after.Idle?) && (before.Flushing? ==> after.Flushing? || after.Running?) && (before.Finishing? ==> after.Finishing? || after.Idle?)
            && (before.Running? && action.Flush? ==> after.Running? || after.Flushing?)
            && (before.Running? && action.Finish? ==> after.Finishing? || after.Idle?)
            && (before.Running? && !action.Flush? && !action.Finish? ==> after.Running?)
  {
  }

  lemma AnswerIs(before: Mode, action: Action, matches: bool)
    ensures Refuses(before, action, matches) <==>
            before.Idle? || (before.Running? && action.Other?) || (before.Flushing? && (!action.Flush? || !matches))
            || (before.Finishing? && (!action.Finish? || !matches))
    ensures forall moved: bool, after: Mode ::
              AnswerTo(before, action, matches, moved, after) == (
                if Refuses(before, action, matches) then (if before.Running? then ParamError else SequenceError)
                else if action.Flush? then (if after.Flushing? then FlushOk else RunOk)
                else if action.Finish? then (if after.Idle? then StreamEnd else if moved then FinishOk else SequenceError)
                else if moved then RunOk else ParamError)
  {
  }

  /** The data of each block. */
  ghost function DataSeq(done: seq<Finished>): (r: seq<seq<byte>>)
    ensures |r| == |done| && forall k :: 0 <= k < |done| ==> r[k] == done[k].data
  {
    seq(|done|, k requires 0 <= k < |done| => done[k].data)
  }

  /** The block under construction. */
  ghost predicate Filling(consumed: seq<byte>, done: seq<Finished>, runs: seq<RunLength.Run>, block: seq<byte>, ch: nat, len: nat, crc: nat, inUse: seq<bool>) {
    Collecting(runs, block, ch, len, crc, inUse) && Balanced(consumed, done, runs, ch, len)
  }

  class EState {
    // the caller's stream: input not yet read, room for output, output written
    var next_in: seq<byte>
    var avail_out: nat
    var out: seq<byte>
    // what the stream is doing
    var mode: Mode
    var state: Phase
    var avail_in_expect: nat
    // run-length coding of the input
    var state_in_ch: nat
    var state_in_len: nat
    // the current block
    var block: seq<byte>
    var inUse: seq<bool>
    var blockCRC: nat
    var combinedCRC: nat
    var blockNo: nat
    var state_out_pos: nat
    const nblockMAX: nat
    const blockSize100k: nat
    const workFactor: int
    const w: BitWriter
    // the runs in the current block, the blocks finished, the input taken in, the output of
    // earlier blocks; whether the trailer has been written
    ghost var runs: seq<RunLength.Run>
    ghost var done: seq<Finished>
    ghost var consumed: seq<byte>
    ghost var prior: seq<byte>
    ghost var ended: bool
    ghost var pad: nat
    // the flushes and the finish asked for, and the blocks cut since the last one
    ghost var div: Division

    /** Before a block is finished: its output has not begun. */
    ghost predicate Collected()
      reads this, w
    {
      && nblockMAX == 100000 * blockSize100k - 19
      && Stream(blockSize100k, done, combinedCRC, prior, w.zbits, w.bsBuff, w.bsLive, state_out_pos, out, blockNo > 1, ended, pad)
      && Filling(consumed, done, runs, block, state_in_ch, state_in_len, blockCRC, inUse)
      && state.Input? && !ended && w.zbits == [] && state_out_pos == 0 && blockNo >= 1
      && (mode.Running? || mode.Flushing? || mode.Finishing?)
    }

    /** The input that a flush or the finish under way still has to take in. */
    ghost function Ahead(): seq<byte>
      reads this`next_in, this`avail_in_expect
    {
      if avail_in_expect <= |next_in| then next_in[..avail_in_expect] else []
    }

    /** The finished blocks, these runs and the pending one divide the input greedily. */
    ghost predicate Dividing(rs: seq<RunLength.Run>)
      reads this`div, this`done, this`consumed, this`state_in_ch, this`state_in_len, this`next_in, this`avail_in_expect, this`mode
    {
      && state_in_ch <= 256 && Cutting(div, nblockMAX, DataSeq(done), consumed, rs, PendingRun(state_in_ch, state_in_len), Ahead())
      && (div.due != [] ==> (mode.Flushing? || mode.Finishing?) && avail_in_expect <= |next_in|)
      && (div.due == [] ==> mode.Running? || (avail_in_expect == 0 && EmptyRL(state_in_ch, state_in_len)))
    }

    lemma DividingIs(rs: seq<RunLength.Run>)
      requires Dividing(rs)
      ensures state_in_ch <= 256 && Cutting(div, nblockMAX, DataSeq(done), consumed, rs, PendingRun(state_in_ch, state_in_len), Ahead())
      ensures div.due != [] ==> (mode.Flushing? || mode.Finishing?) && avail_in_expect <= |next_in|
      ensures div.due == [] ==> mode.Running? || (avail_in_expect == 0 && EmptyRL(state_in_ch, state_in_len))
    {
    }

    lemma IsDividing(rs: seq<RunLength.Run>)
      requires state_in_ch <= 256 && Cutting(div, nblockMAX, DataSeq(done), consumed, rs, PendingRun(state_in_ch, state_in_len), Ahead())
      requires div.due != [] ==> (mode.Flushing? || mode.Finishing?) && avail_in_expect <= |next_in|
      requires div.due == [] ==> mode.Running? || (avail_in_expect == 0 && EmptyRL(state_in_ch, state_in_len))
      ensures Dividing(rs)
    {
    }

    /** While input is taken: a run is pending unless the block is empty. */
    ghost predicate Taking()
      reads this, w
    {
      Collected() && (EmptyRL(state_in_ch, state_in_len) ==> runs == []) && Dividing(runs)
    }

    /** While output is given: the block is finished and only a run is pending. Without one,
        either a flush is under way or the trailer has been written. */
    ghost predicate Giving()
      reads this, w
    {
      && nblockMAX == 100000 * blockSize100k - 19
      && Stream(blockSize100k, done, combinedCRC, prior, w.zbits, w.bsBuff, w.bsLive, state_out_pos, out, true, ended, pad)
      && state.Output? && blockNo >= 1 && |block| <= 100000 * blockSize100k - 10 && PendingOk(state_in_ch, state_in_len)
      && Balanced(consumed, done, [], state_in_ch, state_in_len)
      && (EmptyRL(state_in_ch, state_in_len) ==> ended || (mode.Flushing? && avail_in_expect == 0))
      && (ended ==> EmptyRL(state_in_ch, state_in_len) && avail_in_expect == 0 && (mode.Finishing? || mode.Idle?))
      && (mode.Idle? ==> ended && state_out_pos == |w.zbits|)
      && Dividing([]) && (EmptyRL(state_in_ch, state_in_len) ==> div.due == [])
    }

    lemma IsGiving()
      requires nblockMAX == 100000 * blockSize100k - 19
      requires Stream(blockSize100k, done, combinedCRC, prior, w.zbits, w.bsBuff, w.bsLive, state_out_pos, out, true, ended, pad)
      requires state.Output? && blockNo >= 1 && |block| <= 100000 * blockSize100k - 10 && PendingOk(state_in_ch, state_in_len)
      requires Balanced(consumed, done, [], state_in_ch, state_in_len)
      requires EmptyRL(state_in_ch, state_in_len) ==> ended || (mode.Flushing? && avail_in_expect == 0)
      requires ended ==> EmptyRL(state_in_ch, state_in_len) && avail_in_expect == 0 && (mode.Finishing? || mode.Idle?)
      requires mode.Idle? ==> ended && state_out_pos == |w.zbits|
      requires Dividing([]) && (EmptyRL(state_in_ch, state_in_len) ==> div.due == [])
      ensures Giving()
    {
      hide Stream, PendingOk, Balanced, EmptyRL, Dividing;
    }

    lemma IsGivingParts()
      requires Giving()
      ensures nblockMAX == 100000 * blockSize100k - 19
      ensures Stream(blockSize100k, done, combinedCRC, prior, w.zbits, w.bsBuff, w.bsLive, state_out_pos, out, true, ended, pad)
      ensures state.Output? && blockNo >= 1 && |block| <= 100000 * blockSize100k - 10 && PendingOk(state_in_ch, state_in_len)
      ensures Balanced(consumed, done, [], state_in_ch, state_in_len)
      ensures EmptyRL(state_in_ch, state_in_len) ==> ended || (mode.Flushing? && avail_in_expect == 0)
      ensures ended ==> EmptyRL(state_in_ch, state_in_len) && avail_in_expect == 0 && (mode.Finishing? || mode.Idle?)
      ensures mode.Idle? ==> ended && state_out_pos == |w.zbits|
      ensures Dividing([]) && (EmptyRL(state_in_ch, state_in_len) ==> div.due == [])
      ensures state_out_pos <= |w.zbits|
    {
      StreamShape(blockSize100k, done, combinedCRC, prior, w.zbits, w.bsBuff, w.bsLive, state_out_pos, out, true, ended, pad);
      hide Stream, PendingOk, Balanced, EmptyRL, Dividing;
    }

    lemma IsTaking()
      requires nblockMAX == 100000 * blockSize100k - 19
      requires Stream(blockSize100k, done, combinedCRC, prior, w.zbits, w.bsBuff, w.bsLive, state_out_pos, out, blockNo > 1, ended, pad)
      requires Collecting(runs, block, state_in_ch, state_in_len, blockCRC, inUse) && Balanced(consumed, done, runs, state_in_ch, state_in_len)
      requires EmptyRL(state_in_ch, state_in_len) ==> runs == []
      requires state.Input? && !ended && w.zbits == [] && state_out_pos == 0 && blockNo >= 1
      requires mode.Running? || mode.Flushing? || mode.Finishing?
      requires Dividing(runs)
      ensures Taking()
    {
      hide Stream, Collecting, Balanced, EmptyRL, Dividing;
    }

    lemma IsCollected()
      requires Collected()
      ensures nblockMAX == 100000 * blockSize100k - 19
      ensures Stream(blockSize100k, done, combinedCRC, prior, w.zbits, w.bsBuff, w.bsLive, state_out_pos, out, blockNo > 1, ended, pad)
      ensures Filling(consumed, done, runs, block, state_in_ch, state_in_len, blockCRC, inUse)
      ensures state.Input? && !ended && w.zbits == [] && state_out_pos == 0 && blockNo >= 1
      ensures mode.Running? || mode.Flushing? || mode.Finishing?
    {
      hide Stream, Filling;
    }

    lemma TakingParts()
      requires Taking()
      ensures Collected() && nblockMAX == 100000 * blockSize100k - 19 && 0 < nblockMAX && state.Input? && !ended && !mode.Idle?
      ensures EmptyRL(state_in_ch, state_in_len) ==> |block| < nblockMAX
      ensures Dividing(runs)
    {
      StreamShape(blockSize100k, done, combinedCRC, prior, w.zbits, w.bsBuff, w.bsLive, state_out_pos, out, blockNo > 1, ended, pad);
      FilledShape(consumed, done, runs, block, state_in_ch, state_in_len, blockCRC, inUse);
      hide Stream, Filling, Separated, Dividing;
    }

    lemma MakeCollected()
      requires nblockMAX == 100000 * blockSize100k - 19
      requires Stream(blockSize100k, done, combinedCRC, prior, w.zbits, w.bsBuff, w.bsLive, state_out_pos, out, blockNo > 1, ended, pad)
      requires Filling(consumed, done, runs, block, state_in_ch, state_in_len, blockCRC, inUse)
      requires state.Input? && !ended && w.zbits == [] && state_out_pos == 0 && blockNo >= 1
      requires mode.Running? || mode.Flushing? || mode.Finishing?
      ensures Collected()
    {
      hide Stream, Filling;
    }

    lemma IsHandling()
      requires if state.Input? then Taking() && |block| < nblockMAX else Giving()
      requires !mode.Idle? && (!mode.Running? ==> avail_in_expect == |next_in|)
      ensures Handling()
    {
      hide Taking, Giving;
    }

    lemma HandlingParts()
      requires Handling()
      ensures if state.Input? then Taking() && |block| < nblockMAX else Giving()
      ensures !mode.Idle? && (!mode.Running? ==> avail_in_expect == |next_in|)
    {
      hide Taking, Giving;
    }

    /** Between calls. */
    ghost predicate Valid()
      reads this, w
    {
      if state.Input? then Taking() && |block| < nblockMAX else Giving()
    }

    /** `BZ2_bzCompressInit` */
    constructor (level: nat, factor: int)
      requires 1 <= level <= 9
      ensures Valid() && mode == Running && state == Input && blockSize100k == level && div == Division([], [], []) && consumed == [] && out == [] && next_in == [] && done == [] && avail_out == 0
      ensures fresh(w)
    {
      next_in, avail_out, out := [], 0, [];
      mode, state, avail_in_expect := Running, Input, 0;
      state_in_ch, state_in_len := 256, 0;
      block, inUse, blockCRC, combinedCRC := [], seq(256, _ => false), BZ_CRC_INIT, 0;
      blockNo, state_out_pos := 1, 0;
      nblockMAX, blockSize100k, workFactor := 100000 * level - 19, level, factor;
      w := new BitWriter();
      runs, done, consumed, prior, ended, pad, div := [], [], [], [], false, 0, Division([], [], []);
      new;
      hide *;
      w.Parts();
      StartStream(level, w.bsBuff, w.bsLive);
      NonePending(256, 0);
      StartFilling(inUse);
      CutStart(nblockMAX);
      NoData();
      CutAhead(div, nblockMAX, [], [], [], [], [], Ahead());
      IsDividing([]);
      IsTaking();
      MakeValid();
    }

    /** The caller supplies more input. */
    method Supply(more: seq<byte>)
      requires Valid()
      modifies this`next_in
      ensures Valid() && next_in == old(next_in) + more
    {
      hide Stream, Filling, Balanced, Cutting;
      ghost var ahead := Ahead();
      next_in := next_in + more;
      if state.Input? { CutAhead(div, nblockMAX, DataSeq(done), consumed, runs, PendingRun(state_in_ch, state_in_len), ahead, Ahead()); }
      else { CutAhead(div, nblockMAX, DataSeq(done), consumed, [], PendingRun(state_in_ch, state_in_len), ahead, Ahead()); }
    }

    /** The caller supplies room for n more bytes of output. */
    method Room(n: nat)
      requires Valid()
      modifies this`avail_out
      ensures Valid() && avail_out == old(avail_out) + n
    {
      hide Stream, Filling, Balanced, Cutting;
      avail_out := avail_out + n;
    }

    // ---------- taking input ----------

    /** `add_pair_to_block` */
    method AddPairToBlock()
      requires Filling(consumed, done, runs, block, state_in_ch, state_in_len, blockCRC, inUse) && state_in_ch < 256
      modifies this`block, this`inUse, this`blockCRC, this`runs
      ensures Collecting(runs, block, 256, 0, blockCRC, inUse) && Balanced(consumed, done, runs, 256, 0)
      ensures runs == old(runs) + [RunLength.Run(state_in_ch, state_in_len)] && 1 <= state_in_len <= 255
      ensures old(block) <= block && |old(block)| < |block| <= |old(block)| + 5
    {
      hide Collecting, Balanced, Update, RunBytes;
      CollectShape(runs, block, state_in_ch, state_in_len, blockCRC, inUse);
      ghost var crc0 := blockCRC;
      var ch: byte := state_in_ch;
      var crc := blockCRC;
      assert CrcOf(crc0, Repeat<byte>(ch, 0)) == crc0;
      for i := 0 to state_in_len
        invariant crc == CrcOf(crc0, Repeat<byte>(ch, i))
        modifies {}
      {
        CrcSnoc(crc0, Repeat<byte>(ch, i), ch);
        assert Repeat<byte>(ch, i + 1) == Repeat<byte>(ch, i) + [ch];
        crc := Update(crc, ch);
      }
      var used := inUse[ch := true];
      var bytes: seq<byte> := [ch];
      if state_in_len == 2 { bytes := [ch, ch]; }
      else if state_in_len == 3 { bytes := [ch, ch, ch]; }
      else if state_in_len >= 4 {
        used := used[state_in_len - 4 := true];
        bytes := [ch, ch, ch, ch, state_in_len - 4];
      }
      RunBytesAre(ch, state_in_len, bytes);
      CollectRun(runs, block, state_in_ch, state_in_len, blockCRC, inUse, used);
      BalanceRun(consumed, done, runs, state_in_ch, state_in_len);
      blockCRC := crc;
      inUse := used;
      block := block + bytes;
      runs := runs + [RunLength.Run(state_in_ch, state_in_len)];
    }

    /** The same for a run of one byte, written out on the fast track. */
    method FastPair()
      requires Filling(consumed, done, runs, block, state_in_ch, state_in_len, blockCRC, inUse) && state_in_ch < 256 && state_in_len == 1
      modifies this`block, this`inUse, this`blockCRC, this`runs
      ensures Collecting(runs, block, 256, 0, blockCRC, inUse) && Balanced(consumed, done, runs, 256, 0)
      ensures runs == old(runs) + [RunLength.Run(state_in_ch, 1)] && |block| == |old(block)| + 1
    {
      hide Collecting, Balanced, Update, RunBytes;
      CollectShape(runs, block, state_in_ch, state_in_len, blockCRC, inUse);
      var ch: byte := state_in_ch;
      OneByte(ch);
      CrcSnoc(blockCRC, [], ch);
      assert [] + [ch] == [ch];
      CollectRun(runs, block, state_in_ch, 1, blockCRC, inUse, inUse[ch := true]);
      BalanceRun(consumed, done, runs, state_in_ch, 1);
      blockCRC := Update(blockCRC, ch);
      inUse := inUse[ch := true];
      block := block + [ch];
      runs := runs + [RunLength.Run(state_in_ch, 1)];
    }

    /** `flush_RL` */
    method FlushRL()
      requires Filling(consumed, done, runs, block, state_in_ch, state_in_len, blockCRC, inUse)
      modifies this`block, this`inUse, this`blockCRC, this`runs, this`state_in_ch, this`state_in_len
      ensures Filling(consumed, done, runs, block, state_in_ch, state_in_len, blockCRC, inUse) && EmptyRL(state_in_ch, state_in_len) && |old(block)| <= |block| <= |old(block)| + 5
      ensures old(state_in_ch) <= 256 && runs == old(runs) + PendingRun(old(state_in_ch), old(state_in_len)) && PendingRun(state_in_ch, state_in_len) == []
    {
      hide Collecting, Balanced;
      CollectShape(runs, block, state_in_ch, state_in_len, blockCRC, inUse);
      if state_in_ch < 256 { AddPairToBlock(); }
      state_in_ch, state_in_len := 256, 0;
    }

    /** `ADD_CHAR_TO_BLOCK` */
    method AddCharToBlock(zchh: byte)
      requires Filling(consumed, done, runs, block, state_in_ch, state_in_len, blockCRC, inUse) && (EmptyRL(state_in_ch, state_in_len) ==> runs == [])
      modifies this`block, this`inUse, this`blockCRC, this`runs, this`state_in_ch, this`state_in_len, this`consumed
      ensures Filling(consumed, done, runs, block, state_in_ch, state_in_len, blockCRC, inUse) && !EmptyRL(state_in_ch, state_in_len) && consumed == old(consumed) + [zchh]
      ensures |old(block)| <= |block| <= |old(block)| + 5
      ensures old(state_in_ch) <= 256 && state_in_ch <= 256
      ensures Grown(old(runs), PendingRun(old(state_in_ch), old(state_in_len)), zchh, runs, PendingRun(state_in_ch, state_in_len))
    {
      hide Collecting, Balanced;
      CollectShape(runs, block, state_in_ch, state_in_len, blockCRC, inUse);
      GrownBy(runs, state_in_ch, state_in_len, zchh);
      if zchh != state_in_ch && state_in_len == 1 {
        // the common case: a run of one
        FastPair();
        CollectNext(runs, block, blockCRC, inUse, RunLength.Run(state_in_ch, 1), zchh);
        BalanceByte(consumed, done, runs, 256, 0, zchh, 1);
        state_in_ch := zchh;
      } else if zchh != state_in_ch || state_in_len == 255 {
        if state_in_ch < 256 {
          AddPairToBlock();
          CollectNext(runs, block, blockCRC, inUse, RunLength.Run(state_in_ch, state_in_len), zchh);
        } else {
          FirstByte(runs, block, state_in_len, blockCRC, inUse, zchh);
        }
        BalanceByte(consumed, done, runs, 256, 0, zchh, 1);
        state_in_ch, state_in_len := zchh, 1;
      } else {
        CollectSame(runs, block, state_in_ch, state_in_len, blockCRC, inUse);
        BalanceByte(consumed, done, runs, state_in_ch, state_in_len, zchh, state_in_len + 1);
        state_in_len := state_in_len + 1;
      }
      consumed := consumed + [zchh];
    }

    /** The next output starts where the last one stopped. */
    method NextOutput()
      requires Stream(blockSize100k, done, combinedCRC, prior, w.zbits, w.bsBuff, w.bsLive, state_out_pos, out, true, false, pad)
      requires state_out_pos == |w.zbits|
      modifies this`state_out_pos, this`prior, w`zbits
      ensures Stream(blockSize100k, done, combinedCRC, prior, w.zbits, w.bsBuff, w.bsLive, 0, out, true, false, pad)
      ensures w.zbits == [] && state_out_pos == 0
    {
      hide *;
      w.Parts();
      StreamShape(blockSize100k, done, combinedCRC, prior, w.zbits, w.bsBuff, w.bsLive, state_out_pos, out, true, false, pad);
      ghost var z := w.zbits;
      w.NewOutput(prior);
      w.Parts();
      StreamNext(blockSize100k, done, combinedCRC, prior, z, w.bsBuff, w.bsLive, out, pad);
      prior := out;
      state_out_pos := 0;
    }

    /** `prepare_new_block`, once the output of the last one has been handed over. */
    method PrepareNewBlock()
      requires Giving() && !ended && state_out_pos == |w.zbits|
      modifies this`block, this`inUse, this`blockCRC, this`blockNo, this`state_out_pos, this`runs, this`prior, this`state, w`zbits
      ensures Taking() && block == [] && runs == [] && blockNo > 1
    {
      hide *;
      IsGivingParts();
      NextOutput();
      block := [];
      inUse := seq(256, _ => false);
      blockCRC := BZ_CRC_INIT;
      blockNo := blockNo + 1;
      state := Input;
      runs := [];
      CollectStart(inUse, state_in_ch, state_in_len);
      IsTaking();
    }

    /** `copy_input_until_stop` */
    method CopyInputUntilStop() returns (progress_in: bool)
      requires Taking() && |block| < nblockMAX + 5 && (!mode.Running? ==> avail_in_expect == |next_in|)
      modifies this`block, this`inUse, this`blockCRC, this`runs, this`state_in_ch, this`state_in_len, this`consumed, this`next_in, this`avail_in_expect
      ensures Taking() && |block| < nblockMAX + 5 && (!mode.Running? ==> avail_in_expect == |next_in|)
      ensures |block| >= nblockMAX || next_in == []
      ensures consumed + next_in == old(consumed + next_in) && old(consumed) <= consumed
      ensures progress_in == (|next_in| < |old(next_in)|) && (!progress_in ==> block == old(block))
    {
      hide *;
      progress_in := false;
      while true
        invariant Taking() && |block| < nblockMAX + 5 && (!mode.Running? ==> avail_in_expect == |next_in|)
        invariant consumed + next_in == old(consumed + next_in) && old(consumed) <= consumed
        invariant progress_in == (|next_in| < |old(next_in)|) && |next_in| <= |old(next_in)| && (!progress_in ==> block == old(block))
        decreases |next_in|
      {
        if |block| >= nblockMAX { break; }
        if next_in == [] { break; }
        if !mode.Running? && avail_in_expect == 0 { break; }
        progress_in := true;
        TakeByte();
      }
    }

    /** One byte is taken in. */
    method TakeByte()
      requires Taking() && next_in != [] && |block| < nblockMAX && (!mode.Running? ==> avail_in_expect == |next_in|)
      modifies this`block, this`inUse, this`blockCRC, this`runs, this`state_in_ch, this`state_in_len, this`consumed, this`next_in, this`avail_in_expect
      ensures Taking() && (!mode.Running? ==> avail_in_expect == |next_in|)
      ensures |block| <= |old(block)| + 5
      ensures next_in == old(next_in)[1..] && consumed == old(consumed) + [old(next_in)[0]]
    {
      hide *;
      TakingParts();
      IsCollected();
      DividingIs(runs);
      FilledShape(consumed, done, runs, block, state_in_ch, state_in_len, blockCRC, inUse);
      NothingPending();
      AheadIs();
      ghost var rs, pending, ahead := runs, PendingRun(state_in_ch, state_in_len), Ahead();
      ghost var x := next_in[0];
      AddCharToBlock(next_in[0]);
      next_in := next_in[1..];
      if !mode.Running? { avail_in_expect := avail_in_expect - 1; }
      ByteDivided(rs, pending, ahead, old(consumed), old(next_in), old(avail_in_expect));
      MakeCollected();
      MakeTaking();
    }

    lemma ByteDivided(rs: seq<RunLength.Run>, pending: seq<RunLength.Run>, ahead: seq<byte>, before: seq<byte>, input: seq<byte>, left: nat)
      requires Filling(consumed, done, runs, block, state_in_ch, state_in_len, blockCRC, inUse) && state_in_ch <= 256
      requires Cutting(div, nblockMAX, DataSeq(done), before, rs, pending, ahead) && RunsFit(rs) && |BlockOf(rs)| < nblockMAX && (pending == [] ==> rs == [])
      requires input != [] && consumed == before + [input[0]] && next_in == input[1..] && Grown(rs, pending, input[0], runs, PendingRun(state_in_ch, state_in_len))
      requires !mode.Running? ==> left == |input| && avail_in_expect == left - 1 && ahead == input[..left]
      requires div.due == [] ==> mode.Running?
      requires div.due != [] ==> mode.Flushing? || mode.Finishing?
      ensures Dividing(runs)
    {
      hide *;
      FilledShape(consumed, done, runs, block, state_in_ch, state_in_len, blockCRC, inUse);
      if !mode.Running? { AheadNext(ahead, input, left); }
      CutGrown(div, nblockMAX, DataSeq(done), before, rs, pending, ahead, input[0], runs, PendingRun(state_in_ch, state_in_len), Ahead());
      IsDividing(runs);
    }

    lemma NothingPending()
      requires Taking()
      ensures state_in_ch <= 256 && (PendingRun(state_in_ch, state_in_len) == [] ==> runs == [])
      ensures EmptyRL(state_in_ch, state_in_len) ==> runs == []
    {
      hide Stream, Collecting, Balanced, Dividing;
      CollectShape(runs, block, state_in_ch, state_in_len, blockCRC, inUse);
    }

    lemma MakeTaking()
      requires Collected() && (EmptyRL(state_in_ch, state_in_len) ==> runs == []) && Dividing(runs)
      ensures Taking()
    {
      hide Collected, Dividing;
    }

    lemma AheadIs()
      ensures Ahead() == if avail_in_expect <= |next_in| then next_in[..avail_in_expect] else []
    {
    }

    lemma AheadNext(ahead: seq<byte>, input: seq<byte>, left: nat)
      requires input != [] && next_in == input[1..] && left == |input| && avail_in_expect == left - 1
      requires ahead == input[..left]
      ensures ahead == [input[0]] + Ahead()
    {
    }

    /** One byte is handed over. */
    method GiveByte()
      requires Giving() && avail_out > 0 && state_out_pos < |w.zbits|
      modifies this`avail_out, this`out, this`state_out_pos
      ensures Giving() && out == old(out + [w.zbits[state_out_pos]])
      ensures avail_out == old(avail_out) - 1 && state_out_pos == old(state_out_pos) + 1
    {
      hide *;
      IsGivingParts();
      StreamGive(blockSize100k, done, combinedCRC, prior, w.zbits, w.bsBuff, w.bsLive, state_out_pos, out, true, ended, pad);
      out := out + [w.zbits[state_out_pos]];
      state_out_pos := state_out_pos + 1;
      avail_out := avail_out - 1;
      IsGiving();
    }

    lemma GivingPos()
      requires Giving()
      ensures state_out_pos <= |w.zbits|
    {
      StreamShape(blockSize100k, done, combinedCRC, prior, w.zbits, w.bsBuff, w.bsLive, state_out_pos, out, true, ended, pad);
    }

    /** `copy_output_until_stop` */
    method CopyOutputUntilStop() returns (progress_out: bool)
      requires Giving()
      modifies this`avail_out, this`out, this`state_out_pos
      ensures Giving() && (avail_out == 0 || state_out_pos == |w.zbits|)
      ensures old(out) <= out && |out| + avail_out == old(|out| + avail_out) && progress_out == (|out| > |old(out)|)
    {
      hide *;
      progress_out := false;
      GivingPos();
      while true
        invariant Giving() && state_out_pos <= |w.zbits|
        invariant old(out) <= out && |out| + avail_out == old(|out| + avail_out) && progress_out == (|out| > |old(out)|)
        decreases |w.zbits| - state_out_pos
      {
        if avail_out == 0 { break; }
        if state_out_pos >= |w.zbits| { break; }
        progress_out := true;
        GiveByte();
      }
    }

    /** The stream header, before the first block. */
    method StartOutput()
      requires Collected()
      modifies w
      ensures Stream(blockSize100k, done, combinedCRC, prior, w.zbits, w.bsBuff, w.bsLive, 0, out, true, false, pad)
    {
      hide Filling, Stream, Buffered, BitStream.AllWritten, HeaderBits;
      StreamShape(blockSize100k, done, combinedCRC, prior, w.zbits, w.bsBuff, w.bsLive, 0, out, blockNo > 1, false, pad);
      if blockNo == 1 {
        StreamEmpty(blockSize100k, done, combinedCRC, prior, w.bsBuff, w.bsLive, out, pad);
        w.InitWrite();
        PutHeader(w, blockSize100k);
        StreamHeader(blockSize100k, done, combinedCRC, prior, w.zbits, w.bsBuff, w.bsLive, out, pad);
      }
    }

    /** The block itself. */
    method FinishBlock()
      requires Filling(consumed, done, runs, block, state_in_ch, state_in_len, blockCRC, inUse)
      requires 0 < |block| <= 100000 * blockSize100k
      requires Stream(blockSize100k, done, combinedCRC, prior, w.zbits, w.bsBuff, w.bsLive, 0, out, true, false, pad)
      modifies this`blockCRC, this`combinedCRC, this`done, w
      ensures |done| == |old(done)| + 1 && |done[|old(done)|].blk.syms| <= |block| + 1 && done[|old(done)|].data == BytesOf(runs)
      ensures Balanced(consumed, done, [], state_in_ch, state_in_len) && old(done) <= done
      ensures Stream(blockSize100k, done, combinedCRC, prior, w.zbits, w.bsBuff, w.bsLive, 0, out, true, false, pad)
    {
      hide *;
      w.Parts();
      StreamShape(blockSize100k, done, combinedCRC, prior, w.zbits, w.bsBuff, w.bsLive, 0, out, true, false, pad);
      FilledShape(consumed, done, runs, block, state_in_ch, state_in_len, blockCRC, inUse);
      ghost var z, buff, live := w.zbits, w.bsBuff, w.bsLive;
      blockCRC := Finalise(blockCRC);
      ghost var combined := combinedCRC;
      combinedCRC := Combine(combinedCRC, blockCRC);
      ghost var f := WriteBlock(blockCRC, block, inUse, runs);
      w.Parts();
      StreamBlock(blockSize100k, done, combined, prior, z, buff, live, w.zbits, w.bsBuff, w.bsLive, out, pad, f);
      BalanceBlock(consumed, done, runs, state_in_ch, state_in_len, f, blockSize100k);
      done := done + [f];
      w.Parts();
    }

    /** The block is written, and what is written stands for the bytes of its runs. */
    method WriteBlock(crc: nat, b: seq<byte>, used: seq<bool>, ghost rs: seq<RunLength.Run>) returns (ghost f: Finished)
      requires w.Valid() && 1 <= blockSize100k <= 9 && 0 < |b| <= 100000 * blockSize100k && MapOf(b, used)
      requires BlockDivision.Maximal(rs) && RunsFit(rs) && b == BlockOf(rs) && crc == Finalise(CrcOf(BZ_CRC_INIT, BytesOf(rs)))
      modifies w
      ensures |f.blk.syms| <= |b| + 1 && f.data == BytesOf(rs) && f.blk.crc == crc && Packs(f, blockSize100k) && Coded(f.blk.tables, f.blk.syms)
      ensures Made(f, blockSize100k)
      ensures w.Valid() && w.Written() == old(w.Written()) + BlockBits(f.blk) && old(w.zbits) <= w.zbits
    {
      hide *;
      MapIsUsed(b, used);
      MaximalParts(rs);
      ghost var blk, p := PutBlock(w, b, used, crc, blockSize100k, workFactor);
      MakePack(b, p, blk, blockSize100k, rs);
      SentCoded(b, p, blk, blockSize100k);
      SentCount(b, p, blk, blockSize100k);
      f := Finished(blk, BytesOf(rs));
      MadeIs(f, blockSize100k, rs, p);
    }

    /** The trailer, after the last block. */
    method EndStream()
      requires Stream(blockSize100k, done, combinedCRC, prior, w.zbits, w.bsBuff, w.bsLive, 0, out, true, false, pad)
      modifies this`ended, this`pad, w
      ensures ended && Stream(blockSize100k, done, combinedCRC, prior, w.zbits, w.bsBuff, w.bsLive, 0, out, true, true, pad)
    {
      hide *;
      w.Parts();
      StreamShape(blockSize100k, done, combinedCRC, prior, w.zbits, w.bsBuff, w.bsLive, 0, out, true, false, pad);
      ghost var z, buff, live, pad0 := w.zbits, w.bsBuff, w.bsLive, pad;
      ghost var rest := PutTrailer(w, combinedCRC);
      StreamTrailer(blockSize100k, done, combinedCRC, prior, z, buff, live, w.zbits, out, pad0, rest, w.bsBuff, w.bsLive);
      pad := rest;
      ended := true;
    }

    /** The header if it is the first block, the block unless it is empty, and the trailer if it
        is the last. */
    method EmitBlock(last: bool)
      requires Collected() && |block| <= 100000 * blockSize100k - 10
      modifies this`blockCRC, this`combinedCRC, this`done, this`ended, this`pad, w
      ensures Stream(blockSize100k, done, combinedCRC, prior, w.zbits, w.bsBuff, w.bsLive, 0, out, true, ended, pad)
      ensures Balanced(consumed, done, [], state_in_ch, state_in_len) && old(done) <= done && ended == last
      ensures DataSeq(done) == if block == [] then DataSeq(old(done)) else DataSeq(old(done)) + [BytesOf(runs)]
      ensures |block| + |w.zbits| <= 4 * (100000 * blockSize100k + MainCompare.BZ_N_OVERSHOOT)
    {
      hide *;
      IsCollected();
      FilledShape(consumed, done, runs, block, state_in_ch, state_in_len, blockCRC, inUse);
      ghost var combined, buff, live, pad0 := combinedCRC, w.bsBuff, w.bsLive, pad;
      StartOutput();
      if |block| > 0 {
        FinishBlock();
        DataGrown(old(done), done);
      }
      if last { EndStream(); }
      StreamShape(blockSize100k, done, combinedCRC, prior, w.zbits, w.bsBuff, w.bsLive, 0, out, true, ended, pad);
      BlockOutputFits(blockSize100k, old(done), combined, prior, buff, live, out, blockNo > 1, pad0, done, combinedCRC, w.zbits, w.bsBuff, w.bsLive, ended, pad, |block|);
    }

    /** With the pending run in it, the block is the last of its segment. */
    ghost predicate Closing()
      reads this`div, this`done, this`consumed, this`runs
    {
      exists rs, pending :: Closed(rs, pending)
    }

    ghost predicate Closed(rs: seq<RunLength.Run>, pending: seq<RunLength.Run>)
      reads this`div, this`done, this`consumed, this`runs
    {
      runs == rs + pending && Cutting(div, nblockMAX, DataSeq(done), consumed, rs, pending, []) && (div.due == [] ==> runs == [])
    }

    lemma ClosingIs() returns (rs: seq<RunLength.Run>, pending: seq<RunLength.Run>)
      requires Closing()
      ensures runs == rs + pending && Cutting(div, nblockMAX, DataSeq(done), consumed, rs, pending, []) && (div.due == [] ==> runs == [])
    {
      rs, pending :| Closed(rs, pending);
    }

    /** The segment has ended. */
    ghost method MarkEnd(datas: seq<seq<byte>>, rs: seq<RunLength.Run>, pending: seq<RunLength.Run>)
      requires runs == rs + pending && Cutting(div, nblockMAX, datas, consumed, rs, pending, [])
      requires div.due == [] ==> runs == []
      requires DataSeq(done) == if runs == [] then datas else datas + [BytesOf(runs)]
      requires EmptyRL(state_in_ch, state_in_len) && PendingOk(state_in_ch, state_in_len) && avail_in_expect == 0
      modifies this`div
      ensures Dividing([]) && div.due == [] && div.segs == old(div.segs + div.due)
    {
      hide *;
      CutEnd(div, nblockMAX, datas, consumed, rs, pending, Ahead());
      div := Division(div.segs + div.due, [], []);
      NonePending(state_in_ch, state_in_len);
      IsDividing([]);
    }

    lemma PendingEmpty()
      requires !EmptyRL(state_in_ch, state_in_len) && Dividing(runs)
      ensures state_in_ch <= 256 && Cutting(div, nblockMAX, DataSeq(done), consumed, runs, PendingRun(state_in_ch, state_in_len), Ahead())
      ensures div.due != [] ==> (mode.Flushing? || mode.Finishing?) && avail_in_expect <= |next_in|
      ensures div.due == [] ==> mode.Running?
    {
      hide Cutting, PendingRun, Ahead;
    }

    /** A full block has been cut. */
    ghost method MarkCut(datas: seq<seq<byte>>)
      requires !EmptyRL(state_in_ch, state_in_len) && DataSeq(done) == datas + [BytesOf(runs)]
      requires state_in_ch <= 256 && Cutting(div, nblockMAX, datas, consumed, runs, PendingRun(state_in_ch, state_in_len), Ahead())
      requires RunsFit(runs) && |BlockOf(runs)| >= nblockMAX && (mode.Running? || avail_in_expect > 0)
      requires div.due != [] ==> (mode.Flushing? || mode.Finishing?) && avail_in_expect <= |next_in|
      requires div.due == [] ==> mode.Running?
      modifies this`div
      ensures Dividing([]) && div.segs == old(div.segs) && div.due == old(div.due)
    {
      hide *;
      AheadIs();
      CutFull(div, nblockMAX, datas, consumed, runs, PendingRun(state_in_ch, state_in_len), Ahead());
      div := div.(cuts := div.cuts + [runs]);
      IsDividing([]);
    }

    /** `BZ2_compressBlock`, and the change of state that follows it: the block, if there is
        one, is finished and written after what was written before; with the last one goes
        the trailer. */
    method CompressBlock(last: bool)
      requires Collected() && |block| <= 100000 * blockSize100k - 10
      requires last ==> EmptyRL(state_in_ch, state_in_len) && avail_in_expect == 0 && mode.Finishing?
      requires EmptyRL(state_in_ch, state_in_len) ==> (last || (mode.Flushing? && avail_in_expect == 0)) && Closing()
      requires !EmptyRL(state_in_ch, state_in_len) ==> Dividing(runs) && |block| >= nblockMAX && (mode.Running? || avail_in_expect > 0)
      modifies this`blockCRC, this`combinedCRC, this`state, this`done, this`ended, this`pad, this`div, w
      ensures Giving() && old(done) <= done && (ended <==> last)
      ensures div.segs + div.due == old(div.segs + div.due)
      ensures |block| + |w.zbits| <= 4 * (100000 * blockSize100k + MainCompare.BZ_N_OVERSHOOT)
    {
      hide *;
      IsCollected();
      FilledShape(consumed, done, runs, block, state_in_ch, state_in_len, blockCRC, inUse);
      NoRuns(runs);
      ghost var datas, rs, pending: seq<RunLength.Run> := DataSeq(done), [], [];
      if EmptyRL(state_in_ch, state_in_len) { rs, pending := ClosingIs(); } else { PendingEmpty(); }
      EmitBlock(last);
      state := Output;
      if EmptyRL(state_in_ch, state_in_len) { MarkEnd(datas, rs, pending); } else { MarkCut(datas); }
      IsGiving();
    }

    // ---------- calls ----------

    /** What holds whenever the loop of handle_compress looks at the state. */
    ghost predicate Handling()
      reads this, w
    {
      && (if state.Input? then Taking() && |block| < nblockMAX else Giving())
      && !mode.Idle? && (!mode.Running? ==> avail_in_expect == |next_in|)
    }

    /** The pending run of the last block of a flush or of the stream. */
    method EndInput()
      requires Taking() && |block| < nblockMAX + 5 && !mode.Running? && avail_in_expect == 0
      modifies this`block, this`inUse, this`blockCRC, this`runs, this`state_in_ch, this`state_in_len
      ensures Collected() && EmptyRL(state_in_ch, state_in_len) && Closing() && |block| <= |old(block)| + 5
    {
      hide *;
      TakingParts();
      IsCollected();
      DividingIs(runs);
      NothingPending();
      AheadIs();
      ghost var rs, ch, len := runs, state_in_ch, state_in_len;
      FilledShape(consumed, done, runs, block, ch, len, blockCRC, inUse);
      if EmptyRL(ch, len) { NonePending(ch, len); }
      FlushRL();
      MakeCollected();
      IsClosing(rs, PendingRun(ch, len));
    }

    lemma IsClosing(rs: seq<RunLength.Run>, pending: seq<RunLength.Run>)
      requires runs == rs + pending && Cutting(div, nblockMAX, DataSeq(done), consumed, rs, pending, []) && (div.due == [] ==> runs == [])
      ensures Closing()
    {
      assert Closed(rs, pending);
    }

    /** The end of the block has been reached while input is taken. */
    method FinishInput() returns (finished: bool, progress: bool)
      requires Taking() && |block| < nblockMAX && (!mode.Running? ==> avail_in_expect == |next_in|)
      modifies this, w
      ensures mode == old(mode) && Handling() && finished == state.Output? && (!finished ==> next_in == [])
      ensures finished ==> (|next_in| < old(|next_in|) || (next_in == [] && EmptyRL(state_in_ch, state_in_len) && !mode.Running?))
      ensures finished && mode.Finishing? && EmptyRL(state_in_ch, state_in_len) ==> ended
      ensures !finished ==> mode.Running?
      ensures old(done) <= done && old(consumed) <= consumed && consumed + next_in == old(consumed + next_in)
      ensures div.segs + div.due == old(div.segs + div.due)
      ensures out == old(out) && avail_out == old(avail_out) && progress == (|next_in| < old(|next_in|))
    {
      hide *;
      progress := CopyInputUntilStop();
      TakingParts();
      if !mode.Running? && avail_in_expect == 0 {
        EndInput();
        CompressBlock(mode.Finishing?);
        finished := true;
        IsGivingParts();
        IsHandling();
      } else if |block| >= nblockMAX {
        CompressBlock(false);
        finished := true;
        IsGivingParts();
        IsHandling();
      } else {
        finished := false;
        IsHandling();
      }
    }

    /** What is left to do, so that the loop ends. */
    ghost function Work(): nat
      reads this
    {
      2 * |next_in| + if state.Input? || !EmptyRL(state_in_ch, state_in_len) then 1 else 0
    }

    /** How handle_compress can stop: no room for output, no input, a flush or the stream
        complete. */
    ghost predicate Stopped()
      reads this, w
    {
      || (state.Output? && state_out_pos < |w.zbits| && avail_out == 0)
      || (state.Input? && mode.Running? && next_in == [])
      || (state.Input? && mode.Flushing? && avail_in_expect == 0 && EmptyRL(state_in_ch, state_in_len) && blockNo > 1 && div.due == [])
      || (state.Output? && ended && state_out_pos == |w.zbits|)
    }

    /** Output is handed over, and if that finishes the block a new one is prepared. */
    method FinishOutput() returns (stop: bool, progress: bool)
      requires Handling() && state.Output?
      modifies this`block, this`inUse, this`blockCRC, this`blockNo, this`state_out_pos, this`runs, this`prior, this`state, this`avail_out, this`out, w`zbits
      ensures Handling() && (stop ==> Stopped()) && (!stop ==> state.Input?)
      ensures !stop ==> next_in != [] || mode.Running? || !EmptyRL(state_in_ch, state_in_len)
      ensures old(out) <= out && |out| + avail_out == old(|out| + avail_out) && progress == (|out| > old(|out|))
    {
      hide *;
      HandlingParts();
      progress := CopyOutputUntilStop();
      IsGivingParts();
      IsHandling();
      if state_out_pos < |w.zbits| { IsStopped(); return true, progress; }
      if mode.Finishing? && avail_in_expect == 0 && EmptyRL(state_in_ch, state_in_len) { IsStopped(); return true, progress; }
      PrepareNewBlock();
      TakingParts();
      IsHandling();
      stop := mode.Flushing? && avail_in_expect == 0 && EmptyRL(state_in_ch, state_in_len);
      if stop { IsStopped(); }
    }

    /** `handle_compress` */
    method HandleCompress() returns (progress: bool)
      requires Handling()
      modifies this, w
      ensures Handling() && Stopped() && mode == old(mode)
      ensures div.segs + div.due == old(div.segs + div.due)
      ensures old(done) <= done && old(consumed) <= consumed && consumed + next_in == old(consumed + next_in)
      ensures old(out) <= out && |out| + avail_out == old(|out| + avail_out)
      ensures progress == (|next_in| < old(|next_in|) || |out| > old(|out|))
      ensures old(state.Input? && next_in != []) ==> progress
    {
      hide *;
      var progress_in, progress_out := false, false;
      while true
        invariant Handling() && mode == old(mode)
        invariant div.segs + div.due == old(div.segs + div.due)
        invariant old(done) <= done && old(consumed) <= consumed && consumed + next_in == old(consumed + next_in)
        invariant old(out) <= out && |out| + avail_out == old(|out| + avail_out)
        invariant progress_in == (|next_in| < old(|next_in|)) && |next_in| <= old(|next_in|)
        invariant progress_out == (|out| > old(|out|))
        invariant old(state.Input? && next_in != []) ==> progress_in || state.Input?
        decreases Work()
      {
        HandlingParts();
        WorkIs();
        ghost var work := Work();
        if state.Output? {
          var stop, p := FinishOutput();
          progress_out := progress_out || p;
          if stop { break; }
          HandlingParts();
        }
        ghost var left := |next_in|;
        ghost var empty := EmptyRL(state_in_ch, state_in_len);
        var finished, p := FinishInput();
        progress_in := progress_in || p;
        if !finished { IsStopped(); break; }
        WorkDone(left, work, empty);
      }
      progress := progress_in || progress_out;
    }

    lemma IsStopped()
      requires
        || (state.Output? && state_out_pos < |w.zbits| && avail_out == 0)
        || (state.Input? && mode.Running? && next_in == [])
        || (state.Input? && mode.Flushing? && avail_in_expect == 0 && EmptyRL(state_in_ch, state_in_len) && blockNo > 1 && div.due == [])
        || (state.Output? && ended && state_out_pos == |w.zbits|)
      ensures Stopped()
    {
    }

    lemma WorkIs()
      ensures Work() == 2 * |next_in| + if state.Input? || !EmptyRL(state_in_ch, state_in_len) then 1 else 0
    {
    }

    lemma WorkDone(left: nat, work: nat, empty: bool)
      requires state.Output? && work >= 2 * left + (if empty then 0 else 1)
      requires |next_in| < left || (next_in == [] && EmptyRL(state_in_ch, state_in_len) && work > 2 * left)
      ensures Work() < work
    {
    }

    lemma HandlingIsValid()
      requires Handling()
      ensures Valid()
    {
      hide Taking, Giving;
    }

    lemma ValidParts()
      requires Valid()
      ensures if state.Input? then Taking() && |block| < nblockMAX else Giving()
      ensures state.Input? ==> !mode.Idle?
      ensures mode.Idle? ==> ended && state_out_pos == |w.zbits|
    {
      hide Stream, Filling, Balanced, Cutting;
    }

    /** At any time: the output so far is the beginning of one stream, which the header, the
        finished blocks in order and, once it has ended, the trailer make up; and the block is
        never too long. */
    lemma OutputIsPrefix()
      requires Valid()
      ensures AllPack(done, blockSize100k) && AllMade(done, blockSize100k) && |block| <= 100000 * blockSize100k - 10
      ensures out == [] || (exists rest :: BytesBits(out) + rest == BodyBits(done, blockSize100k)) ||
              (exists whole :: out <= whole && Complete(whole, done, blockSize100k, pad))
    {
      StreamPrefix(blockSize100k, done, combinedCRC, prior, w.zbits, w.bsBuff, w.bsLive, state_out_pos, out, blockNo > 1 || state.Output?, ended, pad);
      hide Stream, Filling, Balanced, Cutting;
    }

    /** Every finished block is made of its data as the steps of compression say. */
    lemma BlocksMade()
      requires Valid()
      ensures AllMade(done, blockSize100k)
    {
      OutputIsPrefix();
    }

    /** The output is never longer than the input so far allows. */
    lemma OutputFits()
      requires Valid()
      ensures |out| <= StreamRoom(|consumed|)
    {
      hide AllPack, AllMade, BodyBits, BytesBits, Collecting, StreamRoom;
      StreamSizes(blockSize100k, done, combinedCRC, prior, w.zbits, w.bsBuff, w.bsLive, state_out_pos, out, blockNo > 1 || state.Output?, ended, pad);
      hide Stream;
      BodyRoom(done, blockSize100k);
      assert |DataOf(done)| <= |consumed|;
      MoreRoom(|DataOf(done)|, |consumed|);
    }

    /** Before a flush or a finish the stream is open. */
    lemma OpenWhileRunning()
      requires Valid() && mode.Running?
      ensures AllPack(done, blockSize100k) && 8 * |out| <= |BodyBits(done, blockSize100k)|
    {
      hide AllPack, AllMade, BodyBits, BytesBits, Filling, Balanced;
      StreamSizes(blockSize100k, done, combinedCRC, prior, w.zbits, w.bsBuff, w.bsLive, state_out_pos, out, blockNo > 1 || state.Output?, ended, pad);
      hide Stream;
    }

    lemma ValidDivision()
      requires Valid()
      ensures SegmentsData(div.segs) <= consumed && (mode.Running? || mode.Idle? ==> div.due == [])
    {
      hide *;
      ValidDividing();
      var rs := if state.Input? then runs else [];
      DividingIs(rs);
      CutShape(div, nblockMAX, DataSeq(done), consumed, rs, PendingRun(state_in_ch, state_in_len), Ahead());
    }

    /** At any time between calls: the blocks finished are those of the segments that flushes
        have ended, and of what has been taken in since those that are full, as taking the bytes
        one by one gives them. */
    lemma DivisionIs()
      requires Valid()
      ensures SegmentsData(div.segs) <= consumed && nblockMAX == 100000 * blockSize100k - 19 > 0
      ensures DataSeq(done) == Divisions(div.segs, nblockMAX) + DatasOf(BlockDivision.Greedily(Since(div, consumed), nblockMAX).full)
    {
      hide *;
      ValidDividing();
      ValidLevel();
      var rs := if state.Input? then runs else [];
      DividingIs(rs);
      CutShape(div, nblockMAX, DataSeq(done), consumed, rs, PendingRun(state_in_ch, state_in_len), Ahead());
    }

    /** When the stream has ended, all of it is segments. */
    lemma EndedDivision()
      requires Valid() && mode.Idle?
      ensures consumed == SegmentsData(div.segs) && DataSeq(done) == Divisions(div.segs, nblockMAX)
    {
      hide *;
      ValidParts();
      IsGivingParts();
      DividingIs([]);
      NonePending(state_in_ch, state_in_len);
      CutNothing(div, nblockMAX, DataSeq(done), consumed, Ahead());
    }

    lemma ValidLevel()
      requires Valid()
      ensures nblockMAX == 100000 * blockSize100k - 19 > 0
    {
      hide *;
      ValidParts();
      if state.Input? {
        TakingParts();
      } else {
        IsGivingParts();
        StreamShape(blockSize100k, done, combinedCRC, prior, w.zbits, w.bsBuff, w.bsLive, state_out_pos, out, true, ended, pad);
      }
    }

    /** The runs that count towards the division, and what is not full. */
    lemma ValidDividing()
      requires Valid()
      ensures var rs := if state.Input? then runs else []; Dividing(rs) && RunsFit(rs) && |BlockOf(rs)| < nblockMAX
    {
      hide Stream, Dividing, Balanced, Collecting;
      if state.Input? { FilledShape(consumed, done, runs, block, state_in_ch, state_in_len, blockCRC, inUse); } else { BlockDivision.EmptyBlock(); }
    }

    /** A flush or a finish begins: all input that is there now belongs to it. */
    method SwitchMode(m: Mode)
      requires Valid() && mode.Running? && (m.Flushing? || m.Finishing?)
      modifies this`mode, this`avail_in_expect, this`div
      ensures Handling() && mode == m
      ensures SegmentsData(old(div.segs)) <= consumed && div.segs == old(div.segs)
      ensures div.due == [Segment(Since(old(div), consumed) + next_in, next_in != [])]
    {
      hide *;
      ValidParts();
      ghost var rs := if state.Input? then runs else [];
      ValidDividing();
      DividingIs(rs);
      if state.Input? {
        TakingParts();
        IsCollected();
        NothingPending();
      } else {
        IsGivingParts();
      }
      CutShape(div, nblockMAX, DataSeq(done), consumed, rs, PendingRun(state_in_ch, state_in_len), Ahead());
      CutAsked(div, nblockMAX, DataSeq(done), consumed, rs, PendingRun(state_in_ch, state_in_len), Ahead(), next_in);
      div := div.(due := [Segment(Since(div, consumed) + next_in, next_in != [])]);
      avail_in_expect := |next_in|;
      mode := m;
      AheadIs();
      assert next_in[..|next_in|] == next_in;
      IsDividing(rs);
      if state.Input? {
        MakeCollected();
        MakeTaking();
      } else {
        IsGiving();
      }
      IsHandling();
    }

    /** A flush is complete. */
    lemma FlushDone()
      requires Handling() && Stopped() && mode.Flushing? && avail_in_expect == 0
      requires EmptyRL(state_in_ch, state_in_len) && state_out_pos >= |w.zbits|
      ensures Taking() && |block| < nblockMAX && next_in == [] && Flushed(out, consumed, done, blockSize100k)
      ensures div.due == []
    {
      FlushedStream(blockSize100k, done, combinedCRC, prior, w.bsBuff, w.bsLive, out, pad);
      FlushedData(consumed, done, block, state_in_ch, state_in_len, blockCRC, inUse);
      hide Stream, Filling;
    }

    /** A flush or a finish that is not complete has only stopped for lack of room. */
    lemma OnlyRoom()
      requires Handling() && Stopped() && (mode.Flushing? || mode.Finishing?)
      requires avail_in_expect > 0 || !EmptyRL(state_in_ch, state_in_len) || state_out_pos < |w.zbits|
      ensures avail_out == 0
    {
      hide Stream, Filling, Balanced, Cutting;
    }

    /** The stream is complete. */
    lemma FinishDone()
      requires Handling() && Stopped() && mode.Finishing? && avail_in_expect == 0
      requires EmptyRL(state_in_ch, state_in_len) && state_out_pos >= |w.zbits|
      ensures state.Output? && Giving() && ended && state_out_pos == |w.zbits| && next_in == [] && DataOf(done) == consumed
      ensures div.due == []
      ensures Complete(out, done, blockSize100k, pad)
    {
      EndedStream(blockSize100k, done, combinedCRC, prior, w.zbits, w.bsBuff, w.bsLive, out, pad);
      EndedData(consumed, done, state_in_ch, state_in_len);
      hide Stream, Filling, Balanced, Cutting;
    }

    lemma NoRoomOrDone()
      requires Handling() && Stopped() && mode.Finishing?
      ensures avail_out == 0 || Complete(out, done, blockSize100k, pad)
    {
      hide Stream, Filling, Balanced, Complete;
      if avail_in_expect > 0 || !EmptyRL(state_in_ch, state_in_len) || state_out_pos < |w.zbits| { OnlyRoom(); } else { FinishDone(); }
    }

    method LeaveMode(m: Mode)
      requires if state.Input? then Taking() && |block| < nblockMAX && m.Running? else Giving() && ended && state_out_pos == |w.zbits| && m.Idle?
      requires div.due == []
      modifies this`mode
      ensures Valid() && mode == m
    {
      hide *;
      if state.Input? {
        TakingParts();
        IsCollected();
        NothingPending();
        DividingIs(runs);
        mode := m;
        IsDividing(runs);
        MakeCollected();
        MakeTaking();
      } else {
        IsGivingParts();
        DividingIs([]);
        mode := m;
        IsDividing([]);
        IsGiving();
      }
      MakeValid();
    }

    lemma MakeValid()
      requires if state.Input? then Taking() && |block| < nblockMAX else Giving()
      ensures Valid()
    {
      hide Taking, Giving;
    }

    /** Some of the input that a flush or the finish covers has not been taken in, or some of the
        output has not been handed over. */
    ghost predicate Remaining()
      reads this, w
    {
      avail_in_expect > 0 || !EmptyRL(state_in_ch, state_in_len) || state_out_pos < |w.zbits|
    }

    lemma RemainingIs()
      ensures Remaining() <==> avail_in_expect > 0 || !EmptyRL(state_in_ch, state_in_len) || state_out_pos < |w.zbits|
    {
    }

    /** A flush goes on. */
    method ContinueFlush(action: Action) returns (status: Status)
      requires Valid() && mode.Flushing?
      modifies this, w
      ensures Valid() && (mode.Running? ==> div.due == []) && div.segs + div.due == old(div.segs + div.due)
      ensures old(done) <= done && old(consumed) <= consumed && consumed + next_in == old(consumed + next_in)
      ensures old(out) <= out && |out| + avail_out == old(|out| + avail_out)
      ensures if !action.Flush? || old(avail_in_expect != |next_in|)
              then status == SequenceError && mode.Flushing? && out == old(out) && consumed == old(consumed)
              else (status == FlushOk && mode.Flushing? && avail_out == 0 && Remaining()) || (status == RunOk && mode.Running?)
      ensures !action.Flush? || old(avail_in_expect != |next_in|) ==> next_in == old(next_in)
      ensures status == RunOk ==> next_in == [] && Flushed(out, consumed, done, blockSize100k)
      ensures action.Flush? && old(avail_in_expect == |next_in| && state.Input? && next_in != []) ==> consumed != old(consumed) || out != old(out)
    {
      hide *;
      if !action.Flush? { return SequenceError; }
      if avail_in_expect != |next_in| { return SequenceError; }
      ValidParts();
      IsHandling();
      var progress := HandleCompress();
      HandlingParts();
      HandlingIsValid();
      RemainingIs();
      if avail_in_expect > 0 || !EmptyRL(state_in_ch, state_in_len) || state_out_pos < |w.zbits| { OnlyRoom(); return FlushOk; }
      FlushDone();
      TakingParts();
      LeaveMode(Running);
      return RunOk;
    }

    /** The finish goes on. */
    method ContinueFinish(action: Action) returns (status: Status)
      requires Valid() && mode.Finishing?
      modifies this, w
      ensures Valid() && (mode.Idle? ==> div.due == []) && div.segs + div.due == old(div.segs + div.due)
      ensures old(done) <= done && old(consumed) <= consumed && consumed + next_in == old(consumed + next_in)
      ensures old(out) <= out && |out| + avail_out == old(|out| + avail_out)
      ensures !action.Finish? || old(avail_in_expect != |next_in|) ==> status == SequenceError && next_in == old(next_in)
      ensures status == FinishOk ==> consumed != old(consumed) || out != old(out)
      ensures status == SequenceError ==> mode.Finishing? && out == old(out) && consumed == old(consumed)
      ensures status == SequenceError && action.Finish? && old(avail_in_expect == |next_in|) ==> avail_out == 0 || Complete(out, done, blockSize100k, pad)
      ensures status == SequenceError || (status == FinishOk && mode.Finishing? && avail_out == 0 && Remaining()) || (status == StreamEnd && mode.Idle?)
      ensures status == StreamEnd ==> next_in == [] && DataOf(done) == consumed && Complete(out, done, blockSize100k, pad)
      ensures action.Finish? && old(avail_in_expect == |next_in| && state.Input? && next_in != []) ==> consumed != old(consumed) || out != old(out)
    {
      hide *;
      if !action.Finish? { return SequenceError; }
      if avail_in_expect != |next_in| { return SequenceError; }
      ValidParts();
      IsHandling();
      var progress := HandleCompress();
      HandlingParts();
      HandlingIsValid();
      if !progress {
        NoRoomOrDone();
        return SequenceError;
      }
      RemainingIs();
      if avail_in_expect > 0 || !EmptyRL(state_in_ch, state_in_len) || state_out_pos < |w.zbits| { OnlyRoom(); return FinishOk; }
      FinishDone();
      LeaveMode(Idle);
      return StreamEnd;
    }

    /** `BZ2_bzCompress`. Whatever the sequence of calls, the input taken in is accounted for
        and the output is a prefix of one stream: that is what Valid says, and every call
        keeps it. A finished stream is complete, and a finished flush leaves nothing behind
        but bits that do not fill a word. */
    method BzCompress(action: Action) returns (status: Status)
      requires Valid()
      modifies this, w
      ensures Valid()
      ensures old(done) <= done && old(consumed) <= consumed && consumed + next_in == old(consumed + next_in)
      ensures old(out) <= out && |out| + avail_out == old(|out| + avail_out)
      ensures old(mode).Idle? ==> status == SequenceError && mode.Idle?
      ensures status == StreamEnd <==> mode.Idle? && !old(mode).Idle?
      ensures status == StreamEnd ==> next_in == [] && DataOf(done) == consumed && Complete(out, done, blockSize100k, pad)
      ensures status == RunOk && action == Flush ==> next_in == [] && Flushed(out, consumed, done, blockSize100k)
      ensures action.Run? && old(mode).Running? ==> status == if consumed != old(consumed) || out != old(out) then RunOk else ParamError
      ensures action.Run? && old(mode).Running? ==> mode.Running?
      ensures status == FlushOk || status == FinishOk ==> avail_out == 0 && Remaining()
      ensures status == SequenceError ==> out == old(out) && consumed == old(consumed)
      ensures status == SequenceError && old(mode).Running? ==> avail_out == 0
      ensures action.Finish? && old(mode).Running? && old(|out| + avail_out) > StreamRoom(|old(consumed + next_in)|) ==> status == StreamEnd
      ensures action.Finish? && old(mode).Running? ==> status == FinishOk || status == StreamEnd || status == SequenceError
      ensures SegmentsData(old(div.segs)) <= old(consumed)
      ensures div.segs + div.due == old(div.segs + div.due) +
                if old(mode).Running? && (action.Flush? || action.Finish?)
                then [Segment(Since(old(div), old(consumed)) + old(next_in), old(next_in) != [])] else []
      ensures mode.Running? || mode.Idle? ==> div.due == []
      ensures Leads(old(mode), action, mode)
      ensures status == AnswerTo(old(mode), action, old(avail_in_expect == |next_in|), consumed != old(consumed) || out != old(out), mode)
      ensures Refuses(old(mode), action, old(avail_in_expect == |next_in|)) ==> mode == old(mode) && next_in == old(next_in) && out == old(out)
      ensures !Refuses(old(mode), action, old(avail_in_expect == |next_in|)) && old(state.Input? && next_in != []) ==> consumed != old(consumed) || out != old(out)
    {
      hide *;
      forall after: Mode { LeadsWhere(mode, action, after); }
      AnswerIs(mode, action, avail_in_expect == |next_in|);
      ValidParts();
      ValidDivision();
      if mode.Idle? { return SequenceError; }
      ghost var done0, out0 := done, out;
      if mode.Running? {
        OpenWhileRunning();
        if action.Run? {
          IsHandling();
          var progress := HandleCompress();
          HandlingIsValid();
          ValidDivision();
          return if progress then RunOk else ParamError;
        } else if action.Flush? {
          SwitchMode(Flushing);
        } else if action.Finish? {
          SwitchMode(Finishing);
        } else {
          return ParamError;
        }
        HandlingParts();
        HandlingIsValid();
      }
      if mode.Flushing? {
        status := ContinueFlush(action);
        return;
      }
      status := ContinueFinish(action);
      OutputFits();
      MoreRoom(|consumed|, |consumed + next_in|);
      if status == SequenceError && old(mode).Running? && avail_out != 0 { StillOpen(out, done0, done, blockSize100k, pad); }
    }
  }

  /** `BZ2_bzCompressInit`: null stands for the parameter error. */
  method BzCompressInit(blockSize100k: int, workFactor: int) returns (s: EState?)
    ensures s == null <==> blockSize100k < 1 || blockSize100k > 9 || workFactor < 0 || workFactor > 250
    ensures s != null ==> fresh(s) && fresh(s.w) && s.Valid() && s.mode == Running && s.state == Input && s.blockSize100k == blockSize100k
    ensures s != null ==> s.div == Division([], [], [])
    ensures s != null ==> s.consumed == [] && s.next_in == [] && s.out == [] && s.done == [] && s.avail_out == 0
  {
    if blockSize100k < 1 || blockSize100k > 9 || workFactor < 0 || workFactor > 250 { return null; }
    s := new EState(blockSize100k, if workFactor == 0 then 30 else workFactor);
  }

  /** How long everything is. */
  lemma StreamSizes(level: nat, done: seq<Finished>, combined: nat, prior: seq<byte>, zbits: seq<byte>, buff: nat, live: int,
                    pos: nat, out: seq<byte>, started: bool, ended: bool, pad: nat)
    requires Stream(level, done, combined, prior, zbits, buff, live, pos, out, started, ended, pad)
    ensures AllPack(done, level) && |out| == |prior| + pos <= |prior| + |zbits|
    ensures !ended ==> 0 <= live <= 31 && 8 * |prior| + 8 * |zbits| + live == if started then |BodyBits(done, level)| else 0
    ensures ended ==> pad < 8 && 8 * |prior| + 8 * |zbits| == |BodyBits(done, level)| + 80 + pad
    ensures !started ==> done == [] && !ended
  {
    hide AllPack, AllMade, BodyBits, TrailerBits, BitsOf, CombinedOf, BytesBits, Topped, TopBits;
    if ended {
      assert 8 * |prior + zbits| == |BytesBits(prior + zbits)|;
      TrailerSize(CombinedOf(done));
    } else {
      TopSize(buff, live);
    }
  }

  lemma TopSize(buff: nat, live: int)
    requires Buffered(buff, live)
    ensures |TopBits(buff, live)| == live
  {
    hide BitsOf, Shr;
  }

  /** The bytes of a block's output have room behind those of the block, whatever was left in
      the bit buffer. */
  lemma BlockOutputFits(level: nat, done0: seq<Finished>, combined0: nat, prior: seq<byte>, buff0: nat, live0: int, out: seq<byte>, started: bool, pad0: nat,
                        done: seq<Finished>, combined: nat, zbits: seq<byte>, buff: nat, live: int, ended: bool, pad: nat, nblock: nat)
    requires Stream(level, done0, combined0, prior, [], buff0, live0, 0, out, started, false, pad0)
    requires Stream(level, done, combined, prior, zbits, buff, live, 0, out, true, ended, pad)
    requires 1 <= level && nblock <= 100000 * level - 10
    requires done == done0 || (|done| == |done0| + 1 && done0 <= done && |done[|done0|].blk.syms| <= nblock + 1)
    ensures nblock + |zbits| <= 4 * (100000 * level + MainCompare.BZ_N_OVERSHOOT)
  {
    hide Stream, BlockBits, AllPack, AllMade, BitsOf, Coded;
    StreamSizes(level, done0, combined0, prior, [], buff0, live0, 0, out, started, false, pad0);
    StreamSizes(level, done, combined, prior, zbits, buff, live, 0, out, true, ended, pad);
    HeaderOnly(level);
    if done == done0 {
      BlockHasRoom(level, nblock, 0, |zbits|);
    } else {
      LastSize(done0, done, level);
      BlockHasRoom(level, nblock, |BodyBits(done, level)| - |BodyBits(done0, level)|, |zbits|);
    }
  }

  lemma HeaderOnly(level: nat)
    ensures AllPack([], level) && |BodyBits([], level)| == 32
  {
    hide BitsOf;
  }

  lemma LastSize(done0: seq<Finished>, done: seq<Finished>, level: nat)
    requires AllPack(done, level) && AllPack(done0, level) && |done| == |done0| + 1 && done0 <= done
    ensures 0 <= |BodyBits(done, level)| - |BodyBits(done0, level)| <= BlockBound(|done[|done0|].blk.syms|)
  {
    hide BlockBits, BitsOf, Coded, BlockBound, Decodes;
    assert done[..|done| - 1] == done0;
    var f := done[|done0|];
    assert Packs(f, level);
    BlockSize(f.blk);
  }

  lemma StreamPrefix(level: nat, done: seq<Finished>, combined: nat, prior: seq<byte>, zbits: seq<byte>, buff: nat, live: int,
                     pos: nat, out: seq<byte>, started: bool, ended: bool, pad: nat)
    ensures Stream(level, done, combined, prior, zbits, buff, live, pos, out, started, ended, pad) ==>
              AllPack(done, level) && AllMade(done, level) &&
              (out == [] || (exists rest :: BytesBits(out) + rest == BodyBits(done, level)) ||
               (exists whole :: out <= whole && Complete(whole, done, level, pad)))
  {
    hide AllPack, AllMade, BodyBits, Complete, TopBits, Topped, CombinedOf;
    if Stream(level, done, combined, prior, zbits, buff, live, pos, out, started, ended, pad) {
      if ended {
        assert out <= prior + zbits;
      } else if started {
        PrefixBits(prior, zbits, pos, TopBits(buff, live));
      } else {
        StreamNothing(prior, zbits, buff, live);
        assert out == [];
      }
    }
  }

  lemma PrefixBits(prior: seq<byte>, zbits: seq<byte>, pos: nat, top: seq<bool>)
    requires pos <= |zbits|
    ensures exists rest :: BytesBits(prior + zbits[..pos]) + rest == BytesBits(prior) + (BytesBits(zbits) + top)
  {
    hide BytesBits;
    BytesConcat(prior, zbits[..pos]);
    BytesConcat(zbits[..pos], zbits[pos..]);
    assert zbits == zbits[..pos] + zbits[pos..];
    var a, b, c := BytesBits(prior), BytesBits(zbits[..pos]), BytesBits(zbits[pos..]);
    assert (a + b) + (c + top) == a + ((b + c) + top);
  }

  lemma StreamNothing(prior: seq<byte>, zbits: seq<byte>, buff: nat, live: int)
    requires Buffered(buff, live) && BytesBits(prior) + BitStream.AllWritten(buff, live, zbits) == []
    ensures prior == [] && zbits == []
  {
    assert |BytesBits(prior)| == 8 * |prior| && |BytesBits(zbits)| == 8 * |zbits|;
  }

  lemma FlushedStream(level: nat, done: seq<Finished>, combined: nat, prior: seq<byte>, buff: nat, live: int, out: seq<byte>, pad: nat)
    requires Stream(level, done, combined, prior, [], buff, live, 0, out, true, false, pad)
    ensures AllPack(done, level) && exists tail :: |tail| < 32 && BytesBits(out) + tail == BodyBits(done, level)
  {
    NoBytes();
    var tail := TopBits(buff, live);
    hide AllPack, AllMade, BodyBits, BytesBits, TopBits, Topped;
    assert out == prior;
    assert [] + tail == tail;
    assert |tail| < 32 && BytesBits(out) + tail == BodyBits(done, level);
  }

  lemma FlushedData(consumed: seq<byte>, done: seq<Finished>, block: seq<byte>, ch: nat, len: nat, crc: nat, inUse: seq<bool>)
    requires EmptyRL(ch, len)
    ensures Filling(consumed, done, [], block, ch, len, crc, inUse) ==> DataOf(done) == consumed
  {
    hide DataOf;
    assert BytesOf([]) == [];
    assert DataOf(done) + [] + [] == DataOf(done);
  }

  lemma EndedStream(level: nat, done: seq<Finished>, combined: nat, prior: seq<byte>, zbits: seq<byte>, buff: nat, live: int, out: seq<byte>, pad: nat)
    requires Stream(level, done, combined, prior, zbits, buff, live, |zbits|, out, true, true, pad)
    ensures Complete(out, done, level, pad)
  {
    hide Complete, AllPack, AllMade, CombinedOf;
    assert zbits[..|zbits|] == zbits;
  }

  lemma EndedData(consumed: seq<byte>, done: seq<Finished>, ch: nat, len: nat)
    requires EmptyRL(ch, len)
    ensures PendingOk(ch, len) && Balanced(consumed, done, [], ch, len) ==> DataOf(done) == consumed
  {
    hide DataOf;
    assert BytesOf([]) == [];
    assert DataOf(done) + [] + [] == DataOf(done);
  }

  lemma FilledShape(consumed: seq<byte>, done: seq<Finished>, runs: seq<RunLength.Run>, block: seq<byte>, ch: nat, len: nat, crc: nat, inUse: seq<bool>)
    requires Filling(consumed, done, runs, block, ch, len, crc, inUse)
    ensures MapOf(block, inUse) && BlockDivision.Maximal(runs) && RunsFit(runs) && block == BlockOf(runs) && PendingOk(ch, len)
    ensures crc == CrcOf(BZ_CRC_INIT, BytesOf(runs)) < Pow2(32) && Balanced(consumed, done, runs, ch, len)
    ensures block == [] ==> Balanced(consumed, done, [], ch, len)
  {
    CollectShape(runs, block, ch, len, crc, inUse);
    Pow2Word();
    CrcBelow(BZ_CRC_INIT, BytesOf(runs));
  }

  lemma MadeIs(f: Finished, level: nat, rs: seq<RunLength.Run>, p: seq<nat>)
    requires BlockDivision.Maximal(rs) && RunsFit(rs) && f.data == BytesOf(rs)
    requires SentAs(BlockOf(rs), p, f.blk, level) && MapOf(BlockOf(rs), f.blk.tables.inUse)
    ensures Made(f, level)
  {
    hide SentAs, BlockDivision.Maximal, MapOf, BlockOf, BytesOf;
    assert MadeOf(f, level, rs, p);
  }

  lemma MakePack(b: seq<byte>, p: seq<nat>, blk: Block, level: nat, runs: seq<RunLength.Run>)
    requires SentAs(b, p, blk, level) && Separated(runs) && b == BlockOf(runs) && blk.crc == Finalise(CrcOf(BZ_CRC_INIT, BytesOf(runs)))
    ensures Packs(Finished(blk, BytesOf(runs)), level)
  {
    SentParts(b, p, blk, level);
    hide Sendable, Separated, BlockOf, BytesOf, Decodes, ColumnOf, Finalise, CrcOf;
    PackedDecodes(b, p, blk.origPtr, ColumnOf(blk.tables, blk.syms), runs);
  }

  lemma SentParts(b: seq<byte>, p: seq<nat>, blk: Block, level: nat)
    requires SentAs(b, p, blk, level)
    ensures |blk.tables.inUse| == 256 && SymsDecode(blk.syms) && |p| == |b|
  {
  }

  lemma BalanceBlock(consumed: seq<byte>, done: seq<Finished>, runs: seq<RunLength.Run>, ch: nat, len: nat, f: Finished, level: nat)
    requires Balanced(consumed, done, runs, ch, len) && f.data == BytesOf(runs) && AllPack(done, level) && Packs(f, level)
    ensures Balanced(consumed, done + [f], [], ch, len)
  {
    hide AllPack, AllMade, Packs, DataOf, Pending, BlockBits, BlocksBits;
    PackSnoc(done, f, level);
    assert BytesOf([]) == [];
    hide BytesOf;
    assert DataOf(done) + BytesOf(runs) + [] == DataOf(done) + f.data;
  }

  lemma StreamEmpty(level: nat, done: seq<Finished>, combined: nat, prior: seq<byte>, buff: nat, live: int, out: seq<byte>, pad: nat)
    requires Stream(level, done, combined, prior, [], buff, live, 0, out, false, false, pad)
    ensures prior == [] && done == [] && out == [] && combined == CombinedOf([])
  {
    assert |BytesBits(prior)| == 8 * |prior|;
  }

  lemma StreamHeader(level: nat, done: seq<Finished>, combined: nat, prior: seq<byte>, zbits: seq<byte>, buff: nat, live: int, out: seq<byte>, pad: nat)
    requires 1 <= level <= 9 && done == [] && prior == [] && out == [] && combined == CombinedOf([])
    requires Buffered(buff, live) && BitStream.AllWritten(buff, live, zbits) == BytesBits([]) + HeaderBits(level)
    ensures Stream(level, done, combined, prior, zbits, buff, live, 0, out, true, false, pad)
  {
    NoneMade(level);
    NoBlocks(level);
    hide Made, AllMade, Packs, AllPack, CombinedOf, BlocksBits, HeaderBits, BitStream.AllWritten, Buffered, BytesBits, DataOf, Complete, Pow2;
    NoBytes();
    assert prior + zbits[..0] == [];
    assert HeaderBits(level) + [] == HeaderBits(level) == [] + HeaderBits(level);
  }

  lemma NoneMade(level: nat)
    ensures AllPack([], level) && AllMade([], level)
  {
  }

  lemma NoBlocks(level: nat)
    ensures AllPack([], level) && BlocksBits([], level) == []
  {
  }

  lemma StreamBlock(level: nat, done: seq<Finished>, combined: nat, prior: seq<byte>, zbits: seq<byte>, buff: nat, live: int,
                    zbits': seq<byte>, buff': nat, live': int, out: seq<byte>, pad: nat, f: Finished)
    requires Stream(level, done, combined, prior, zbits, buff, live, 0, out, true, false, pad) && Packs(f, level) && Made(f, level)
    requires Coded(f.blk.tables, f.blk.syms) && zbits <= zbits'
    requires Buffered(buff, live) && Buffered(buff', live') && BitStream.AllWritten(buff', live', zbits') == BitStream.AllWritten(buff, live, zbits) + BlockBits(f.blk)
    ensures combined < Pow2(32)
    ensures Stream(level, done + [f], Combine(combined, f.blk.crc), prior, zbits', buff', live', 0, out, true, false, pad)
  {
    StreamShape(level, done, combined, prior, zbits, buff, live, 0, out, true, false, pad);
    PackCrc(f, level);
    PackSnoc(done, f, level);
    MadeSnoc(done, f, level);
    hide Made, Packs, AllPack, AllMade, BlockBits, BlocksBits, HeaderBits, BitStream.AllWritten, Buffered, BytesBits, Coded, CombinedOf, Complete;
    Associate(BytesBits(prior), BitStream.AllWritten(buff, live, zbits), BlockBits(f.blk));
    Associate(HeaderBits(level), BlocksBits(done, level), BlockBits(f.blk));
    assert prior + zbits'[..0] == prior + zbits[..0];
  }

  lemma MadeSnoc(done: seq<Finished>, f: Finished, level: nat)
    requires AllMade(done, level) && Made(f, level)
    ensures AllMade(done + [f], level)
  {
    hide Made;
  }

  lemma PackCrc(f: Finished, level: nat)
    requires Packs(f, level)
    ensures f.blk.crc == Checksum(f.data)
  {
  }

  lemma StreamTrailer(level: nat, done: seq<Finished>, combined: nat, prior: seq<byte>, zbits: seq<byte>, buff: nat, live: int,
                      zbits': seq<byte>, out: seq<byte>, pad: nat, pad': nat, buff': nat, live': int)
    requires Stream(level, done, combined, prior, zbits, buff, live, 0, out, true, false, pad)
    requires Buffered(buff, live) && pad' < 8 && zbits <= zbits'
    requires BytesBits(zbits') == BitStream.AllWritten(buff, live, zbits) + TrailerBits(combined) + BitsOf(0, pad')
    ensures Stream(level, done, combined, prior, zbits', buff', live', 0, out, true, true, pad')
  {
    BytesConcat(prior, zbits');
    hide AllPack, AllMade, TrailerBits, BodyBits, BitStream.AllWritten, Buffered, BytesBits, CombinedOf, BitsOf;
    assert BytesBits(prior) + (BitStream.AllWritten(buff, live, zbits) + TrailerBits(combined) + BitsOf(0, pad')) ==
           (BytesBits(prior) + BitStream.AllWritten(buff, live, zbits)) + TrailerBits(combined) + BitsOf(0, pad');
    assert prior + zbits'[..0] == prior + zbits[..0];
  }

  lemma FirstByte(runs: seq<RunLength.Run>, block: seq<byte>, len: nat, crc: nat, inUse: seq<bool>, ch: byte)
    requires Collecting(runs, block, 256, len, crc, inUse) && runs == []
    ensures len == 0 && Collecting(runs, block, ch, 1, crc, inUse)
  {
  }

  lemma RunBytesAre(ch: byte, len: nat, bytes: seq<byte>)
    requires 1 <= len <= 255
    requires bytes == if len == 1 then [ch] else if len == 2 then [ch, ch] else if len == 3 then [ch, ch, ch] else [ch, ch, ch, ch, (len - 4) as byte]
    ensures bytes == RunBytes(RunLength.Run(ch, len))
  {
  }
}
