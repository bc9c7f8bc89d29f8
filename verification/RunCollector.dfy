/** The encoder side of the run-length layer on values: what the pending run and the block
    have to do with the bytes taken in. */
module RunCollector {
  import opened Words
  import opened MtfEncoder
  import opened MtfCoding
  import opened RunLength
  import opened BlockCrc
  import BlockDivision

  /** No byte is pending when state_in_ch is 256. */
  ghost predicate PendingOk(ch: nat, len: nat) {
    ch <= 256 && (if ch < 256 then 1 <= len <= 255 else len == 0)
  }

  ghost function Pending(ch: nat, len: nat): seq<byte>
    requires ch <= 256
  {
    if ch < 256 then Repeat<byte>(ch, len) else []
  }

  /** Only a run of 255 is followed by more of the same. */
  ghost predicate MayFollow(runs: seq<Run>, ch: nat) {
    runs != [] ==> ch == runs[|runs| - 1].ch ==> runs[|runs| - 1].len == 255
  }

  /** The map has the characters of the block and no others. */
  ghost predicate MapOf(block: seq<byte>, inUse: seq<bool>) {
    |inUse| == 256 && forall c :: 0 <= c < 256 ==> (inUse[c] <==> c in block)
  }

  lemma MapIsUsed(block: seq<byte>, inUse: seq<bool>)
    requires MapOf(block, inUse)
    ensures UsedIn(block, inUse) && |inUse| == 256
  {
  }

  /** The map with the characters that a run puts into the block. */
  function MarkRun(inUse: seq<bool>, r: Run): (m: seq<bool>)
    requires |inUse| == 256 && r.len <= 255
    ensures |m| == 256
  {
    if r.len >= 4 then inUse[r.ch := true][r.len - 4 := true] else inUse[r.ch := true]
  }

  /** The block under construction holds the runs, and with it go its checksum and the map of
      its characters. */
  ghost predicate Collecting(runs: seq<Run>, block: seq<byte>, ch: nat, len: nat, crc: nat, inUse: seq<bool>) {
    && BlockDivision.Maximal(runs) && block == BlockOf(runs) && crc == CrcOf(BZ_CRC_INIT, BytesOf(runs))
    && MapOf(block, inUse) && PendingOk(ch, len) && (ch < 256 ==> MayFollow(runs, ch))
  }

  lemma CollectStart(inUse: seq<bool>, ch: nat, len: nat)
    requires PendingOk(ch, len) && |inUse| == 256 && forall c :: 0 <= c < 256 ==> !inUse[c]
    ensures Collecting([], [], ch, len, BZ_CRC_INIT, inUse)
  {
  }

  /** The pending run goes into the block. */
  lemma CollectRun(runs: seq<Run>, block: seq<byte>, ch: nat, len: nat, crc: nat, inUse: seq<bool>, inUse': seq<bool>)
    requires Collecting(runs, block, ch, len, crc, inUse) && ch < 256
    requires |inUse| == 256 && len <= 255 && inUse' == MarkRun(inUse, Run(ch, len))
    ensures PendingOk(ch, len) && 1 <= len <= 255
    ensures Collecting(runs + [Run(ch, len)], block + RunBytes(Run(ch, len)), 256, 0, CrcOf(crc, Repeat<byte>(ch, len)), inUse')
    ensures BytesOf(runs + [Run(ch, len)]) == BytesOf(runs) + Pending(ch, len)
  {
    hide BlockOf, BytesOf, CrcOf, BlockDivision.Maximal, MapOf, MarkRun, RunBytes;
    var r := Run(ch, len);
    MaximalParts(runs);
    BlockSnoc(runs, r);
    MaximalSnoc(runs, r);
    CrcConcat(BZ_CRC_INIT, BytesOf(runs), Repeat<byte>(ch, len));
    MapRun(block, inUse, r);
  }

  /** Maximal runs are in particular those that expansion takes apart again. */
  lemma MaximalParts(runs: seq<Run>)
    requires BlockDivision.Maximal(runs)
    ensures RunsFit(runs) && Separated(runs)
  {
  }

  lemma MaximalSnoc(runs: seq<Run>, r: Run)
    requires BlockDivision.Maximal(runs) && 1 <= r.len <= 255 && MayFollow(runs, r.ch)
    ensures BlockDivision.Maximal(runs + [r])
  {
  }

  lemma MapRun(block: seq<byte>, inUse: seq<bool>, r: Run)
    requires MapOf(block, inUse) && 1 <= r.len <= 255
    ensures MapOf(block + RunBytes(r), MarkRun(inUse, r))
  {
    var bytes, m := RunBytes(r), MarkRun(inUse, r);
    assert bytes[0] == r.ch && (r.len >= 4 ==> bytes[4] == r.len - 4);
    forall c | 0 <= c < 256 ensures m[c] <==> c in block + bytes {
      assert c in block + bytes <==> c in block || c in bytes;
      assert c in bytes <==> c == r.ch || (r.len >= 4 && c == r.len - 4);
    }
  }

  /** A new byte may be taken on after a run of another byte, or after a full one. */
  lemma CollectNext(runs: seq<Run>, block: seq<byte>, crc: nat, inUse: seq<bool>, r: Run, ch: nat)
    requires Collecting(runs, block, 256, 0, crc, inUse) && ch < 256
    requires runs != [] ==> runs[|runs| - 1] == r && (ch != r.ch || r.len == 255)
    ensures Collecting(runs, block, ch, 1, crc, inUse)
  {
  }

  lemma CollectSame(runs: seq<Run>, block: seq<byte>, ch: nat, len: nat, crc: nat, inUse: seq<bool>)
    requires Collecting(runs, block, ch, len, crc, inUse) && ch < 256 && len < 255
    ensures Collecting(runs, block, ch, len + 1, crc, inUse)
    ensures Pending(ch, len + 1) == Pending(ch, len) + [ch]
  {
  }

  lemma CollectShape(runs: seq<Run>, block: seq<byte>, ch: nat, len: nat, crc: nat, inUse: seq<bool>)
    requires Collecting(runs, block, ch, len, crc, inUse)
    ensures |inUse| == 256 && PendingOk(ch, len) && RunsFit(runs) && Separated(runs) && MapOf(block, inUse)
    ensures BlockDivision.Maximal(runs) && (ch < 256 ==> MayFollow(runs, ch))
  {
    MaximalParts(runs);
  }

  lemma OneByte(ch: nat)
    requires ch < 256
    ensures Pending(ch, 1) == [ch] && Pending(256, 0) == [] && RunBytes(Run(ch, 1)) == [ch]
    ensures Repeat<byte>(ch, 1) == [ch]
  {
  }
}
