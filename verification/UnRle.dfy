/** Writing a decoded block out (bzlib.c): the run-length decoders of the fast and the small
    representation, which stop wherever the output buffer ends and go on from there. */
module UnRle {
  import opened Words
  import opened Transform
  import opened Inverse
  import opened RunLength
  import opened BlockCrc
  import opened MtfDecoder

  /** Where the output of a block stands: what has been written of it, from `mark` on, and
      the checksum so far. */
  ghost predicate Progress(b: seq<byte>, past: byte, used: nat, ch: byte, len: nat, o: seq<byte>, mark: nat, crc: nat) {
    && mark <= |o|
    && Expanding(b, past, used, ch, len, o[mark..])
    && crc == CrcOf(BZ_CRC_INIT, o[mark..])
  }

  lemma ProgressWrite(b: seq<byte>, past: byte, used: nat, ch: byte, len: nat, o: seq<byte>, mark: nat, crc: nat)
    requires Progress(b, past, used, ch, len, o, mark, crc) && len > 0
    ensures Progress(b, past, used, ch, len - 1, o + [ch], mark, Update(crc, ch))
  {
    WriteOne(b, past, used, ch, len, o[mark..]);
    assert (o + [ch])[mark..] == o[mark..] + [ch];
    CrcSnoc(BZ_CRC_INIT, o[mark..], ch);
  }

  lemma ProgressTake(b: seq<byte>, past: byte, used: nat, ch: byte, o: seq<byte>, mark: nat, crc: nat)
    requires Progress(b, past, used, ch, 0, o, mark, crc) && used <= |b|
    ensures var i, c := used - 1, b[used - 1];
      && (used == |b| || b[i + 1] != c ==> Progress(b, past, used + 1, c, 1, o, mark, crc))
      && (used + 1 <= |b| && b[i + 1] == c && (used + 1 == |b| || b[i + 2] != c) ==> Progress(b, past, used + 2, c, 2, o, mark, crc))
      && (used + 2 <= |b| && b[i + 1] == b[i + 2] == c && (used + 2 == |b| || b[i + 3] != c) ==> Progress(b, past, used + 3, c, 3, o, mark, crc))
      && (used + 3 <= |b| && b[i + 1] == b[i + 2] == b[i + 3] == c ==>
           Progress(b, past, used + 5, c, 4 + Fetched(b, past, used + 3) as int, o, mark, crc))
  {
    TakeRun(b, past, used, ch, o[mark..]);
  }

  lemma ProgressUsed(b: seq<byte>, past: byte, used: nat, ch: byte, len: nat, o: seq<byte>, mark: nat, crc: nat)
    requires Progress(b, past, used, ch, len, o, mark, crc)
    ensures 1 <= used <= |b| + 2 && mark <= |o|
    ensures used > |b| + 1 ==> !Expand(b, past).ok
    ensures used == |b| + 1 && len == 0 ==> Expand(b, past) == Expansion(o[mark..], true)
  {
    if used > |b| + 1 { BrokenOff(b, past, used, ch, len, o[mark..]); }
    if used == |b| + 1 && len == 0 { AllWritten(b, past, ch, o[mark..]); }
  }

  lemma ProgressPrefix(b: seq<byte>, past: byte, used: nat, ch: byte, len: nat, o: seq<byte>, mark: nat, crc: nat)
    requires Progress(b, past, used, ch, len, o, mark, crc)
    ensures mark <= |o| && o[mark..] <= Expand(b, past).out
  {
    hide Expand;
  }

  // ---------- fetching the bytes of the block ----------

  /** The block that the last column l and the row orig stand for. */
  ghost predicate Column(l: seq<byte>, orig: nat, b: seq<byte>, past: byte) {
    orig < |l| && b == DecodedBlock(l, orig, |l|) && past == Decoded(l, orig, |l|)
  }

  /** `tt` is set up and k bytes have been fetched. */
  ghost predicate FastAt(l: seq<byte>, orig: nat, tt: seq<nat>, tPos: nat, k: nat, limit: nat) {
    orig < |l| <= limit && FastTable(l, tt) && tPos == Walk(l, orig, k + 1)
  }

  /** One fetch reads the byte, and the place of the next one, out of one entry. */
  lemma FastFetch(l: seq<byte>, orig: nat, b: seq<byte>, past: byte, tt: seq<nat>, tPos: nat, k: nat, limit: nat)
    requires Column(l, orig, b, past) && FastAt(l, orig, tt, tPos, k, limit)
    ensures tPos < limit && tPos < |tt| && And(tt[tPos], 0xff) < 256
    ensures k <= |b| ==> And(tt[tPos], 0xff) == Fetched(b, past, k)
    ensures FastAt(l, orig, tt, Shr(tt[tPos], 8), k + 1, limit)
  {
    hide And, Shr, FastTable, Walk;
    var j := Walk(l, orig, k + 1);
    WalkSteps(l, orig, k + 1);
    TableAt(l, tt, j);
    LowByte(tt[j]);
    UnpackLink(l[j], Origin(l, j));
  }

  lemma WalkSteps(l: seq<byte>, orig: nat, k: nat)
    requires orig < |l|
    ensures Walk(l, orig, k + 1) == Origin(l, Walk(l, orig, k))
  {
  }

  lemma TableAt(l: seq<byte>, tt: seq<nat>, j: nat)
    requires FastTable(l, tt) && j < |l|
    ensures |l| <= |tt| && tt[j] == l[j] + 256 * Origin(l, j)
  {
  }

  ghost predicate SmallAt(l: seq<byte>, orig: nat, ll16: seq<nat>, ll4: seq<nat>, cftab: seq<nat>, tPos: nat, k: nat, limit: nat) {
    && orig < |l| <= limit && SmallTable(l, orig, ll16, ll4) && tPos == Walk(l, orig, k)
    && |cftab| == 257 && forall c :: 0 <= c <= 256 ==> cftab[c] == CountLess(l, c)
  }

  lemma SmallFetch(l: seq<byte>, orig: nat, b: seq<byte>, past: byte, ll16: seq<nat>, ll4: seq<nat>, cftab: seq<nat>, tPos: nat, k: nat, limit: nat, c: nat)
    requires Column(l, orig, b, past) && SmallAt(l, orig, ll16, ll4, cftab, tPos, k, limit) && c < 256
    requires 0 < c ==> cftab[c] <= tPos
    requires c < 255 ==> tPos < cftab[c + 1]
    ensures tPos < limit && tPos < |ll16| && tPos / 2 < |ll4|
    ensures k <= |b| ==> c == Fetched(b, past, k)
    ensures SmallAt(l, orig, ll16, ll4, cftab, GetLL(ll16, ll4, tPos), k + 1, limit)
  {
    FirstColumn(l, tPos, c);
    assert Walk(l, orig, k + 1) == Origin(l, Walk(l, orig, k));
    GetLLValue(ll16, ll4, tPos);
    assert Entry(ll16, ll4, Walk(l, orig, k)) == Walk(l, orig, k + 1);
  }

  lemma SmallBounds(l: seq<byte>, orig: nat, ll16: seq<nat>, ll4: seq<nat>, cftab: seq<nat>, tPos: nat, k: nat, limit: nat)
    requires SmallAt(l, orig, ll16, ll4, cftab, tPos, k, limit)
    ensures |cftab| == 257 && tPos < limit
  {
  }

  /** The output side of the decoder's state. */
  class BlockOutput {
    // the block in its fast or small representation
    var tt: array<nat>
    var ll16: array<nat>
    var ll4: array<nat>
    var cftab: array<nat>
    var limit: nat
    var save_nblock: nat
    // how far it has been read and written
    var tPos: nat
    var k0: byte
    var nblock_used: nat
    var state_out_ch: byte
    var state_out_len: nat
    var calculatedBlockCRC: nat
    // the caller's buffer: room left, and everything written so far
    var avail_out: nat
    var out: seq<byte>
    // the last column, the block it stands for, and where its output starts
    ghost var l: seq<byte>
    ghost var orig: nat
    ghost var b: seq<byte>
    ghost var past: byte
    ghost var mark: nat

    constructor ()
      ensures avail_out == 0 && out == [] && fresh(tt) && fresh(ll16) && fresh(ll4) && fresh(cftab)
    {
      tt := new nat[0];
      ll16 := new nat[0];
      ll4 := new nat[0];
      cftab := new nat[0];
      avail_out := 0;
      out := [];
    }

    /** A new block, of which one byte has been fetched and nothing written. */
    method Begin(ghost column: seq<byte>, nblock: nat, origPtr: nat, size: nat, c: byte, pos: nat)
      requires origPtr < |column| == nblock <= size && c == Decoded(column, origPtr, 0)
      modifies this`save_nblock, this`limit, this`tPos, this`k0, this`nblock_used, this`state_out_ch, this`state_out_len, this`calculatedBlockCRC,
               this`l, this`orig, this`b, this`past, this`mark
      ensures Emitting() && l == column && orig == origPtr && mark == |out| && limit == size && tPos == pos
      ensures nblock_used == 1 && state_out_len == 0 && save_nblock == |column|
    {
      hide *;
      BeginProgress(column, origPtr, out);
      save_nblock, limit, tPos, k0, nblock_used := nblock, size, pos, c, 1;
      state_out_ch, state_out_len, calculatedBlockCRC := 0, 0, BZ_CRC_INIT;
      l, orig, mark := column, origPtr, |out|;
      b, past := DecodedBlock(column, origPtr, |column|), Decoded(column, origPtr, |column|);
      IsEmitting();
    }

    lemma IsEmitting()
      requires Column(l, orig, b, past) && save_nblock == |l| == |b|
      requires 1 <= nblock_used <= |b| ==> k0 == Fetched(b, past, nblock_used - 1)
      requires Progress(b, past, nblock_used, state_out_ch, state_out_len, out, mark, calculatedBlockCRC)
      ensures Emitting()
    {
    }

    /** Entering BZ_X_OUTPUT with the fast representation, from what the symbol loop has left:
        the T^(-1) vector is built and the first byte fetched. */
    method StartFast(t: array<nat>, unzftab: array<nat>, ghost column: seq<byte>, nblock: nat, origPtr: nat, size: nat)
      requires origPtr < |column| == nblock <= size && t != unzftab && Emitted(column, t[..], unzftab[..])
      modifies t, this`tt, this`save_nblock, this`limit, this`tPos, this`k0, this`nblock_used, this`state_out_ch, this`state_out_len, this`calculatedBlockCRC,
               this`l, this`orig, this`b, this`past, this`mark
      ensures FastReady() && l == column && orig == origPtr && mark == |out| && save_nblock == |column|
      ensures nblock_used == 1 && state_out_len == 0 && tt == t
    {
      hide FastTable, Walk, And, Shr, Emitting, Column, DecodedBlock, Decoded;
      var cf := new nat[257];
      BuildCftab(column, unzftab, cf);
      BuildInverseFast(t, cf, nblock, column);
      FirstFetch(column, origPtr, t[..], size);
      var pos := Shr(t[origPtr], 8);
      var c: byte := And(t[pos], 0xff);
      pos := Shr(t[pos], 8);
      tt := t;
      Begin(column, nblock, origPtr, size, c, pos);
    }

    /** T, and then its links reversed along the cycle through origPtr. */
    static method BuildSmall(lo: array<nat>, unzftab: array<nat>, ghost column: seq<byte>, nblock: nat, origPtr: nat) returns (hi: array<nat>, cf: array<nat>)
      requires origPtr < |column| == nblock && lo.Length < 0x10_0000 && lo != unzftab && Emitted(column, lo[..], unzftab[..]) && Halfwords(lo[..])
      modifies lo
      ensures fresh(hi) && fresh(cf) && SmallTable(column, origPtr, lo[..], hi[..]) && Halfwords(lo[..])
      ensures cf.Length == 257 && forall c :: 0 <= c <= 256 ==> cf[c] == CountLess(column, c)
    {
      hide SmallTable, Forward, CountLess, CountEq, SmallShape;
      hi := new nat[(1 + lo.Length) / 2](_ => 0);
      cf := new nat[257];
      StartsForward(column, lo[..], hi[..]);
      BuildCftab(column, unzftab, cf);
      var copy := CopyTable(cf);
      BuildForwardSmall(lo, hi, copy, nblock, column);
      ReversePointers(lo, hi, origPtr, column);
      SmallWords(column, origPtr, lo[..], hi[..]);
    }

    static method CopyTable(cf: array<nat>) returns (copy: array<nat>)
      ensures fresh(copy) && copy[..] == cf[..]
    {
      copy := new nat[cf.Length];
      for i := 0 to cf.Length
        invariant forall k :: 0 <= k < i ==> copy[k] == cf[k]
      {
        copy[i] := cf[i];
      }
    }

    /** Entering BZ_X_OUTPUT with the small representation, from what the symbol loop has left
        in the low halfwords. */
    method StartSmall(lo: array<nat>, unzftab: array<nat>, ghost column: seq<byte>, nblock: nat, origPtr: nat, size: nat)
      requires origPtr < |column| == nblock <= size && lo.Length < 0x10_0000 && lo != unzftab && Emitted(column, lo[..], unzftab[..]) && Halfwords(lo[..])
      modifies lo, this`ll16, this`ll4, this`cftab, this`save_nblock, this`limit, this`tPos, this`k0, this`nblock_used, this`state_out_ch, this`state_out_len, this`calculatedBlockCRC,
               this`l, this`orig, this`b, this`past, this`mark
      ensures SmallReady() && l == column && orig == origPtr && mark == |out| && save_nblock == |column|
      ensures nblock_used == 1 && state_out_len == 0 && ll16 == lo && fresh(ll4) && fresh(cftab) && Halfwords(lo[..])
    {
      hide SmallTable, Walk, GetLL, Emitting, Column, DecodedBlock, Decoded, Entry, SmallAt;
      var hi, cf := BuildSmall(lo, unzftab, column, nblock, origPtr);
      var c := IndexIntoF(origPtr, cf);
      FirstSmall(column, origPtr, lo[..], hi[..], cf[..], c, size);
      var pos := GetLL(lo[..], hi[..], origPtr);
      ll16, ll4, cftab := lo, hi, cf;
      Begin(column, nblock, origPtr, size, c, pos);
    }

    /** What both decoders keep. */
    ghost predicate Emitting()
      reads this
    {
      && Column(l, orig, b, past) && save_nblock == |l| == |b|
      && (1 <= nblock_used <= |b| ==> k0 == Fetched(b, past, nblock_used - 1))
      && Progress(b, past, nblock_used, state_out_ch, state_out_len, out, mark, calculatedBlockCRC)
    }

    ghost predicate FastReady()
      reads this, tt
    {
      Emitting() && FastAt(l, orig, tt[..], tPos, nblock_used, limit)
    }

    ghost predicate SmallReady()
      reads this, ll16, ll4, cftab
    {
      Emitting() && SmallAt(l, orig, ll16[..], ll4[..], cftab[..], tPos, nblock_used, limit)
    }

    /** All of the block has been written. */
    predicate Finished()
      reads this
    {
      nblock_used == save_nblock + 1 && state_out_len == 0
    }

    /** A finished block was whole, and what was written is its expansion. */
    lemma FinishedWritesAll()
      requires Emitting() && Finished()
      ensures mark <= |out| && Expand(b, past) == Expansion(out[mark..], true)
      ensures calculatedBlockCRC == CrcOf(BZ_CRC_INIT, out[mark..])
    {
      ProgressUsed(b, past, nblock_used, state_out_ch, state_out_len, out, mark, calculatedBlockCRC);
    }

    /** A block that is not finished has more to write, or breaks off. */
    lemma UnfinishedWritesMore()
      requires Emitting() && !Finished()
      ensures mark <= |out| && (!Expand(b, past).ok || |out[mark..]| < |Expand(b, past).out|)
    {
      hide Expand, Expanding, Column;
      MoreToWrite(b, past, nblock_used, state_out_ch, state_out_len, out[mark..]);
    }

    /** What has been written of the block is the beginning of its expansion. */
    lemma EmittingParts()
      requires Emitting()
      ensures Column(l, orig, b, past) && mark <= |out| && out[mark..] <= Expand(b, past).out
    {
      hide Column, Expand, Expanding;
      ProgressPrefix(b, past, nblock_used, state_out_ch, state_out_len, out, mark, calculatedBlockCRC);
    }

    /** `BZ_GET_FAST_C`. The range check it makes first never fires. */
    method GetFast(tPos0: nat, ghost k: nat) returns (c: byte, tPos1: nat)
      requires Column(l, orig, b, past) && FastAt(l, orig, tt[..], tPos0, k, limit)
      ensures k <= |b| ==> c == Fetched(b, past, k)
      ensures FastAt(l, orig, tt[..], tPos1, k + 1, limit)
    {
      FastFetch(l, orig, b, past, tt[..], tPos0, k, limit);
      assert tPos0 < limit;
      tPos1 := tt[tPos0];
      c := And(tPos1, 0xff);
      tPos1 := Shr(tPos1, 8);
    }

    /** The copies of the current run, as far as there is room; with `toOne` the one copy
        that the jump to `s_state_out_len_eq_one` stands for. */
    method WriteCopies(used: nat, ch: byte, len0: nat, toOne: bool, o0: seq<byte>, crc0: nat, avail0: nat)
      returns (full: bool, len: nat, o: seq<byte>, crc: nat, avail: nat)
      requires Progress(b, past, used, ch, if toOne then 1 else len0, o0, mark, crc0)
      ensures Progress(b, past, used, ch, if full then len else 0, o, mark, crc)
      ensures o0 <= o && |o| + avail == |o0| + avail0 && (full ==> avail == 0)
    {
      hide Progress, Update;
      len, o, crc, avail := len0, o0, crc0, avail0;
      if !toOne && len > 0 {
        while true
          invariant len > 0 && Progress(b, past, used, ch, len, o, mark, crc)
          invariant o0 <= o && |o| + avail == |o0| + avail0
          decreases len
        {
          if avail == 0 { return true, len, o, crc, avail; }
          if len == 1 { break; }
          ProgressWrite(b, past, used, ch, len, o, mark, crc);
          o := o + [ch];
          crc := Update(crc, ch);
          len := len - 1;
          avail := avail - 1;
        }
      }
      if toOne || len > 0 {
        if avail == 0 { return true, 1, o, crc, avail; }
        ProgressWrite(b, past, used, ch, 1, o, mark, crc);
        o := o + [ch];
        crc := Update(crc, ch);
        avail := avail - 1;
      }
      full := false;
    }

    /** A new run: its byte is c0; up to three more are compared with it. */
    method TakeFast(used0: nat, ghost ch0: byte, c00: byte, pos0: nat, len0: nat, ghost o: seq<byte>, ghost crc: nat)
      returns (used: nat, ch: byte, len: nat, c0: byte, pos: nat, toOne: bool)
      requires Column(l, orig, b, past) && FastAt(l, orig, tt[..], pos0, used0, limit)
      requires Progress(b, past, used0, ch0, 0, o, mark, crc)
      requires |b| == save_nblock && 1 <= used0 <= |b| && c00 == Fetched(b, past, used0 - 1)
      ensures FastAt(l, orig, tt[..], pos, used, limit) && used0 < used
      ensures Progress(b, past, used, ch, if toOne then 1 else len, o, mark, crc)
      ensures 1 <= used <= |b| ==> c0 == Fetched(b, past, used - 1)
    {
      hide Progress, Column, FastAt, Fetched, Update, Expand, Expanding, And, Shr;
      ProgressTake(b, past, used0, ch0, o, mark, crc);
      FetchedIs(b, past, used0);
      var n := save_nblock + 1;
      var k1: byte;
      c0, ch, len, used, toOne := c00, c00, len0, used0, false;
      k1, pos := GetFast(pos0, used);
      used := used + 1;
      if k1 != c0 {
        c0, toOne := k1, true;
        return;
      }
      if used == n {
        toOne := true;
        return;
      }
      len := 2;
      k1, pos := GetFast(pos, used);
      used := used + 1;
      if used == n { return; }
      if k1 != c0 {
        c0 := k1;
        return;
      }
      len := 3;
      k1, pos := GetFast(pos, used);
      used := used + 1;
      if used == n { return; }
      if k1 != c0 {
        c0 := k1;
        return;
      }
      k1, pos := GetFast(pos, used);
      used := used + 1;
      len := k1 as int + 4;
      c0, pos := GetFast(pos, used);
      used := used + 1;
    }

    /** Local copies go back into the state. */
    method Save(crc: nat, ch: byte, len: nat, used: nat, c0: byte, pos: nat, o: seq<byte>, avail: nat)
      requires |b| == |l| == save_nblock && Column(l, orig, b, past) && FastAt(l, orig, tt[..], pos, used, limit)
      requires Progress(b, past, used, ch, len, o, mark, crc) && (1 <= used <= |b| ==> c0 == Fetched(b, past, used - 1))
      modifies this`out, this`avail_out, this`calculatedBlockCRC, this`state_out_ch, this`state_out_len, this`nblock_used, this`k0, this`tPos
      ensures FastReady() && out == o && avail_out == avail && state_out_len == len && nblock_used == used
    {
      hide Progress, Column, FastAt, Fetched;
      ghost var t := tt[..];
      calculatedBlockCRC, state_out_ch, state_out_len, nblock_used, k0, tPos := crc, ch, len, used, c0, pos;
      out, avail_out := o, avail;
      assert tt[..] == t;
    }

    /** `unRLE_obuf_to_output_FAST` for a block that is not randomised: true only if the
        block breaks off inside a run. */
    method UnRleFast() returns (corrupt: bool)
      requires FastReady()
      modifies this`out, this`avail_out, this`calculatedBlockCRC, this`state_out_ch, this`state_out_len, this`nblock_used, this`k0, this`tPos
      ensures corrupt ==> !Expand(b, past).ok
      ensures !corrupt ==> FastReady() && (avail_out == 0 || Finished())
      ensures old(out) <= out && |out| + avail_out == old(|out| + avail_out)
    {
      hide Progress, Column, FastAt, Fetched, Update, Expand, Expanding, And, Shr;
      var crc, ch, len, used, c0, pos := calculatedBlockCRC, state_out_ch, state_out_len, nblock_used, k0, tPos;
      var o, avail := out, avail_out;
      ghost var o0, total := out, |out| + avail_out;
      var n := save_nblock + 1;
      var toOne := false;
      ProgressUsed(b, past, used, ch, len, o, mark, crc);
      while true
        invariant out == o0 && |out| + avail_out == total
        invariant |b| == save_nblock && Column(l, orig, b, past) && FastAt(l, orig, tt[..], pos, used, limit)
        invariant Progress(b, past, used, ch, if toOne then 1 else len, o, mark, crc)
        invariant 1 <= used <= |b| + 2 && (used <= |b| ==> c0 == Fetched(b, past, used - 1))
        invariant o0 <= o && |o| + avail == total
        decreases |b| + 2 - used
      {
        var full;
        full, len, o, crc, avail := WriteCopies(used, ch, len, toOne, o, crc, avail);
        if full { break; }
        ProgressUsed(b, past, used, ch, 0, o, mark, crc);
        if used > n { return true; }
        if used == n {
          len := 0;
          break;
        }
        used, ch, len, c0, pos, toOne := TakeFast(used, ch, c0, pos, len, o, crc);
        ProgressUsed(b, past, used, ch, if toOne then 1 else len, o, mark, crc);
      }
      Save(crc, ch, len, used, c0, pos, o, avail);
      return false;
    }

    /** `BZ_GET_SMALL`. */
    method GetSmall(tPos0: nat, ghost k: nat) returns (c: byte, tPos1: nat)
      requires Column(l, orig, b, past) && SmallAt(l, orig, ll16[..], ll4[..], cftab[..], tPos0, k, limit)
      ensures k <= |b| ==> c == Fetched(b, past, k)
      ensures SmallAt(l, orig, ll16[..], ll4[..], cftab[..], tPos1, k + 1, limit)
    {
      SmallBounds(l, orig, ll16[..], ll4[..], cftab[..], tPos0, k, limit);
      assert tPos0 < limit;
      var nb := IndexIntoF(tPos0, cftab);
      SmallFetch(l, orig, b, past, ll16[..], ll4[..], cftab[..], tPos0, k, limit, nb);
      c := nb;
      tPos1 := GetLL(ll16[..], ll4[..], tPos0);
    }

    /** A new run, in the order in which the small decoder looks at it. */
    method TakeSmall(used0: nat, ghost ch0: byte, c00: byte, pos0: nat, ghost o: seq<byte>, ghost crc: nat)
      returns (used: nat, ch: byte, len: nat, c0: byte, pos: nat)
      requires Column(l, orig, b, past) && SmallAt(l, orig, ll16[..], ll4[..], cftab[..], pos0, used0, limit)
      requires Progress(b, past, used0, ch0, 0, o, mark, crc)
      requires |b| == save_nblock && 1 <= used0 <= |b| && c00 == Fetched(b, past, used0 - 1)
      ensures SmallAt(l, orig, ll16[..], ll4[..], cftab[..], pos, used, limit) && used0 < used
      ensures Progress(b, past, used, ch, len, o, mark, crc)
      ensures 1 <= used <= |b| ==> c0 == Fetched(b, past, used - 1)
    {
      hide Progress, Column, SmallAt, Fetched, Update, Expand, Expanding, GetLL, Entry;
      ProgressTake(b, past, used0, ch0, o, mark, crc);
      FetchedIs(b, past, used0);
      var n := save_nblock + 1;
      var k1: byte;
      c0, ch, len, used := c00, c00, 1, used0;
      k1, pos := GetSmall(pos0, used);
      used := used + 1;
      if used == n { return; }
      if k1 != c0 {
        c0 := k1;
        return;
      }
      len := 2;
      k1, pos := GetSmall(pos, used);
      used := used + 1;
      if used == n { return; }
      if k1 != c0 {
        c0 := k1;
        return;
      }
      len := 3;
      k1, pos := GetSmall(pos, used);
      used := used + 1;
      if used == n { return; }
      if k1 != c0 {
        c0 := k1;
        return;
      }
      k1, pos := GetSmall(pos, used);
      used := used + 1;
      len := k1 as int + 4;
      c0, pos := GetSmall(pos, used);
      used := used + 1;
    }

    /** A run taken on goes into the state. */
    method StoreRun(used: nat, ch: byte, len: nat, c0: byte, pos: nat)
      requires |b| == |l| == save_nblock && Column(l, orig, b, past)
      requires SmallAt(l, orig, ll16[..], ll4[..], cftab[..], pos, used, limit)
      requires Progress(b, past, used, ch, len, out, mark, calculatedBlockCRC)
      requires 1 <= used <= |b| ==> c0 == Fetched(b, past, used - 1)
      modifies this`state_out_ch, this`state_out_len, this`nblock_used, this`k0, this`tPos
      ensures SmallReady() && nblock_used == used
    {
      hide Progress, Column, SmallAt, Fetched;
      ghost var w, h, t := ll16[..], ll4[..], cftab[..];
      state_out_ch, state_out_len, nblock_used, k0, tPos := ch, len, used, c0, pos;
      assert ll16[..] == w && ll4[..] == h && cftab[..] == t;
    }

    /** One copy goes to the output. */
    method PutCopy()
      requires SmallReady() && state_out_len > 0 && avail_out > 0
      modifies this`out, this`avail_out, this`calculatedBlockCRC, this`state_out_len
      ensures SmallReady() && out == old(out) + [state_out_ch] && avail_out == old(avail_out) - 1
      ensures state_out_len == old(state_out_len) - 1
    {
      hide Progress, Column, SmallAt, Fetched, Update;
      ghost var w, h, t := ll16[..], ll4[..], cftab[..];
      ProgressWrite(b, past, nblock_used, state_out_ch, state_out_len, out, mark, calculatedBlockCRC);
      out := out + [state_out_ch];
      calculatedBlockCRC := Update(calculatedBlockCRC, state_out_ch);
      state_out_len := state_out_len - 1;
      avail_out := avail_out - 1;
      assert ll16[..] == w && ll4[..] == h && cftab[..] == t;
    }

    lemma UsedBounds()
      requires Emitting()
      ensures 1 <= nblock_used <= save_nblock + 2
      ensures nblock_used > save_nblock + 1 ==> !Expand(b, past).ok
    {
      ProgressUsed(b, past, nblock_used, state_out_ch, state_out_len, out, mark, calculatedBlockCRC);
    }

    /** `unRLE_obuf_to_output_SMALL`: the same promises. */
    method UnRleSmall() returns (corrupt: bool)
      requires SmallReady()
      modifies this`out, this`avail_out, this`calculatedBlockCRC, this`state_out_ch, this`state_out_len, this`nblock_used, this`k0, this`tPos
      ensures corrupt ==> !Expand(b, past).ok
      ensures !corrupt ==> SmallReady() && (avail_out == 0 || Finished())
      ensures old(out) <= out && |out| + avail_out == old(|out| + avail_out)
    {
      hide Progress, Column, SmallAt, Fetched, Expand;
      ghost var o0, total := out, |out| + avail_out;
      while true
        invariant SmallReady() && o0 <= out && |out| + avail_out == total
        decreases save_nblock + 2 - nblock_used
      {
        ghost var used := nblock_used;
        while true
          invariant SmallReady() && o0 <= out && |out| + avail_out == total && nblock_used == used
          decreases state_out_len
        {
          if avail_out == 0 { return false; }
          if state_out_len == 0 { break; }
          PutCopy();
        }
        UsedBounds();
        if nblock_used == save_nblock + 1 { return false; }
        if nblock_used > save_nblock + 1 { return true; }
        var u, ch, len, c0, pos := TakeSmall(nblock_used, state_out_ch, k0, tPos, out, calculatedBlockCRC);
        StoreRun(u, ch, len, c0, pos);
        UsedBounds();
      }
    }
  }

  lemma BeginProgress(column: seq<byte>, origPtr: nat, o: seq<byte>)
    requires origPtr < |column|
    ensures var b, past := DecodedBlock(column, origPtr, |column|), Decoded(column, origPtr, |column|);
            && Progress(b, past, 1, 0, 0, o, |o|, BZ_CRC_INIT) && Column(column, origPtr, b, past)
            && |b| == |column| && Fetched(b, past, 0) == Decoded(column, origPtr, 0)
  {
    hide Expanding, Decoded, CrcOf;
    ExpandingStart(DecodedBlock(column, origPtr, |column|), Decoded(column, origPtr, |column|), 0);
    assert o[|o|..] == [];
    NoCrc();
  }

  lemma StartsForward(l: seq<byte>, ll16: seq<nat>, ll4: seq<nat>)
    requires |l| <= |ll16| && (|l| + 1) / 2 <= |ll4| && (forall k :: 0 <= k < |l| ==> ll16[k] == l[k])
    requires Halfwords(ll16) && forall k :: 0 <= k < |ll4| ==> ll4[k] == 0
    ensures Forward(l, 0, ll16, ll4)
  {
  }

  lemma SmallWords(l: seq<byte>, orig: nat, ll16: seq<nat>, ll4: seq<nat>)
    requires orig < |l| && SmallTable(l, orig, ll16, ll4)
    ensures Halfwords(ll16)
  {
  }

  lemma NoCrc()
    ensures CrcOf(BZ_CRC_INIT, []) == BZ_CRC_INIT
  {
  }

  /** tPos starts one link from origPtr; the first fetch reads the first byte of the block. */
  lemma FirstFetch(column: seq<byte>, origPtr: nat, tt: seq<nat>, size: nat)
    requires origPtr < |column| <= size && FastTable(column, tt)
    ensures |column| <= |tt| && Shr(tt[origPtr], 8) < |tt|
    ensures var pos := Shr(tt[origPtr], 8);
            And(tt[pos], 0xff) < 256 && And(tt[pos], 0xff) == Decoded(column, origPtr, 0) && FastAt(column, origPtr, tt, Shr(tt[pos], 8), 1, size)
  {
    hide And, Shr, FastTable;
    TableAt(column, tt, origPtr);
    UnpackLink(column[origPtr], Origin(column, origPtr));
    WalkSteps(column, origPtr, 0);
    assert Walk(column, origPtr, 0) == origPtr;
    hide Walk;
    var b, past := DecodedBlock(column, origPtr, |column|), Decoded(column, origPtr, |column|);
    FastFetch(column, origPtr, b, past, tt, Origin(column, origPtr), 0, size);
  }

  lemma FirstSmall(column: seq<byte>, origPtr: nat, ll16: seq<nat>, ll4: seq<nat>, cftab: seq<nat>, c: nat, size: nat)
    requires origPtr < |column| <= size && SmallTable(column, origPtr, ll16, ll4) && c < 256
    requires |cftab| == 257 && forall k :: 0 <= k <= 256 ==> cftab[k] == CountLess(column, k)
    requires 0 < c ==> cftab[c] <= origPtr
    requires c < 255 ==> origPtr < cftab[c + 1]
    ensures origPtr < |ll16| && origPtr / 2 < |ll4| && c == Decoded(column, origPtr, 0)
    ensures SmallAt(column, origPtr, ll16, ll4, cftab, GetLL(ll16, ll4, origPtr), 1, size)
  {
    hide SmallTable, GetLL, Entry;
    assert Walk(column, origPtr, 0) == origPtr;
    var b, past := DecodedBlock(column, origPtr, |column|), Decoded(column, origPtr, |column|);
    SmallFetch(column, origPtr, b, past, ll16, ll4, cftab, origPtr, 0, size, c);
  }

  lemma FetchedIs(b: seq<byte>, past: byte, used: nat)
    requires 1 <= used <= |b|
    ensures Fetched(b, past, used - 1) == b[used - 1]
    ensures used < |b| ==> Fetched(b, past, used) == b[used]
    ensures used + 1 < |b| ==> Fetched(b, past, used + 1) == b[used + 1]
    ensures used + 2 < |b| ==> Fetched(b, past, used + 2) == b[used + 2]
  {
  }
}
