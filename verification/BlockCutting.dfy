/** Where the compressor stands in dividing its input, over any sequence of calls: the flushes
    asked for, and the blocks cut since the last of them. */
module BlockCutting {
  import opened Words
  import opened MtfCoding
  import opened RunLength
  import opened BlockDivision

  /** What has been taken in between two flushes, and whether its last byte came only with the
      call that ended it. */
  datatype Segment = Segment(data: seq<byte>, late: bool)

  /** The segments that have been ended; the one that a flush or finish under way will end; and
      the blocks cut since, because they were full. */
  datatype Division = Division(segs: seq<Segment>, due: seq<Segment>, cuts: seq<seq<Run>>)

  ghost function SegmentsData(segs: seq<Segment>): seq<byte> {
    if segs == [] then [] else SegmentsData(segs[..|segs| - 1]) + segs[|segs| - 1].data
  }

  ghost function DatasOf(bs: seq<seq<Run>>): (r: seq<seq<byte>>)
    ensures |r| == |bs| && forall k :: 0 <= k < |bs| ==> r[k] == BytesOf(bs[k])
  {
    seq(|bs|, k requires 0 <= k < |bs| => BytesOf(bs[k]))
  }

  /** The data of the blocks that the segments are divided into. */
  ghost function Divisions(segs: seq<Segment>, max: nat): seq<seq<byte>> {
    if segs == [] then []
    else Divisions(segs[..|segs| - 1], max) + DatasOf(Blocks(segs[|segs| - 1].data, segs[|segs| - 1].late, max))
  }

  lemma SegmentsSnoc(segs: seq<Segment>, g: Segment, max: nat)
    ensures SegmentsData(segs + [g]) == SegmentsData(segs) + g.data
    ensures Divisions(segs + [g], max) == Divisions(segs, max) + DatasOf(Blocks(g.data, g.late, max))
  {
    assert (segs + [g])[..|segs + [g]| - 1] == segs;
  }

  lemma SegmentAdded(segs: seq<Segment>, g: Segment)
    ensures SegmentsData(segs + [g]) == SegmentsData(segs) + g.data
  {
    assert (segs + [g])[..|segs + [g]| - 1] == segs;
  }

  lemma OneSegmentData(g: Segment)
    ensures SegmentsData([g]) == g.data
  {
    assert [g][..0] == [];
  }

  lemma NothingSince()
    ensures SegmentsData([]) == [] && Since(Division([], [], []), []) == []
  {
  }

  lemma DatasSnoc(bs: seq<seq<Run>>, b: seq<Run>)
    ensures DatasOf(bs + [b]) == DatasOf(bs) + [BytesOf(b)]
  {
  }

  /** A pending run. */
  function PendingRun(ch: nat, len: nat): seq<Run>
    requires ch <= 256
  {
    if ch < 256 then [Run(ch, len)] else []
  }

  /** The block under construction, and the pending run: full, it is as good as cut. */
  ghost function Settled(cuts: seq<seq<Run>>, rs: seq<Run>, pending: seq<Run>, max: nat): Filled
    requires RunsFit(rs)
  {
    if |BlockOf(rs)| >= max then Filled(cuts + [rs], pending) else Filled(cuts, rs + pending)
  }

  /** What has been taken in since the last segment ended. */
  ghost function Since(c: Division, consumed: seq<byte>): seq<byte>
    requires SegmentsData(c.segs) <= consumed
  {
    consumed[|SegmentsData(c.segs)|..]
  }

  /** The blocks finished so far, of which datas are the data, are those of the segments and
      those cut since; the block under construction is the greedy one. Of a segment under way,
      what is still ahead is the input that belongs to it. */
  ghost predicate Cutting(c: Division, max: nat, datas: seq<seq<byte>>, consumed: seq<byte>, rs: seq<Run>, pending: seq<Run>, ahead: seq<byte>) {
    && max > 0 && SegmentsData(c.segs) <= consumed && datas == Divisions(c.segs, max) + DatasOf(c.cuts)
    && RunsFit(rs) && Greedily(Since(c, consumed), max) == Settled(c.cuts, rs, pending, max)
    && |c.due| <= 1
    && (c.due != [] ==> Awaited(c.due[0], max, Since(c, consumed), c.cuts, rs, pending, ahead))
  }

  ghost predicate Awaited(g: Segment, max: nat, s: seq<byte>, cuts: seq<seq<Run>>, rs: seq<Run>, pending: seq<Run>, ahead: seq<byte>)
    requires RunsFit(rs)
  {
    && g.data == s + ahead
    && (!g.late ==> ahead == [] && |BlockOf(rs)| < max)
    && (g.late && ahead == [] ==> s != [] && Blocks(s, true, max) == cuts + [rs + pending])
  }

  lemma CutStart(max: nat)
    requires max > 0
    ensures Cutting(Division([], [], []), max, [], [], [], [], [])
  {
    assert BlockOf([]) == [];
  }

  /** One byte is taken in. */
  lemma CutByte(c: Division, max: nat, datas: seq<seq<byte>>, consumed: seq<byte>, rs: seq<Run>, pending: seq<Run>, ahead: seq<byte>,
                x: byte, rs': seq<Run>, pending': seq<Run>, ahead': seq<byte>)
    requires Cutting(c, max, datas, consumed, rs, pending, ahead) && |BlockOf(rs)| < max && (pending == [] ==> rs == [])
    requires rs' + pending' == Grow(rs + pending, x) && |pending'| == 1 && RunsFit(rs')
    requires rs' == if Starts(rs + pending, x) then rs + pending else rs
    requires Starts(rs + pending, x) ==> pending' == [Run(x, 1)]
    requires c.due != [] ==> ahead == [x] + ahead'
    ensures Cutting(c, max, datas, consumed + [x], rs', pending', ahead')
  {
    hide BlockOf, DatasOf, Divisions, Blocks, Greedily, Take, Grow, Starts, Awaited, SegmentsData;
    var s := Since(c, consumed);
    assert Since(c, consumed + [x]) == s + [x];
    GreedilyNext(s, x, max);
    TakeSettled(c.cuts, rs, pending, x, rs', pending', max);
    if c.due != [] {
      AwaitedByte(c.due[0], max, s, c.cuts, rs, pending, x, rs', pending', ahead');
    }
  }

  lemma AwaitedByte(g: Segment, max: nat, s: seq<byte>, cuts: seq<seq<Run>>, rs: seq<Run>, pending: seq<Run>,
                    x: byte, rs': seq<Run>, pending': seq<Run>, ahead: seq<byte>)
    requires RunsFit(rs) && Awaited(g, max, s, cuts, rs, pending, [x] + ahead) && Greedily(s, max) == Filled(cuts, rs + pending)
    requires rs' + pending' == Grow(rs + pending, x) && RunsFit(rs')
    ensures Awaited(g, max, s + [x], cuts, rs', pending', ahead)
  {
    hide BlockOf;
    LateByte(cuts, s, x, max, rs + pending, rs' + pending');
    assert s + ([x] + ahead) == (s + [x]) + ahead;
  }

  lemma TakeSettled(cuts: seq<seq<Run>>, rs: seq<Run>, pending: seq<Run>, x: byte, rs': seq<Run>, pending': seq<Run>, max: nat)
    requires RunsFit(rs + pending) && RunsFit(rs') && RunsFit(rs) && |BlockOf(rs)| < max && (pending == [] ==> rs == [])
    requires rs' + pending' == Grow(rs + pending, x)
    requires rs' == if Starts(rs + pending, x) then rs + pending else rs
    requires Starts(rs + pending, x) ==> pending' == [Run(x, 1)]
    ensures Settled(cuts, rs', pending', max) == Take(Filled(cuts, rs + pending), x, max)
  {
    hide BlockOf;
    EmptyBlock();
    if rs + pending == [] {
      assert rs' == [];
    }
  }

  lemma LateByte(cuts: seq<seq<Run>>, s: seq<byte>, x: byte, max: nat, rest: seq<Run>, rest': seq<Run>)
    requires Greedily(s, max) == Filled(cuts, rest) && rest' == Grow(rest, x)
    ensures Blocks(s + [x], true, max) == cuts + [rest']
  {
    assert (s + [x])[..|s + [x]| - 1] == s;
  }

  /** A full block is cut. */
  lemma CutFull(c: Division, max: nat, datas: seq<seq<byte>>, consumed: seq<byte>, rs: seq<Run>, pending: seq<Run>, ahead: seq<byte>)
    requires Cutting(c, max, datas, consumed, rs, pending, ahead) && |BlockOf(rs)| >= max
    requires c.due != [] ==> ahead != []
    ensures Cutting(c.(cuts := c.cuts + [rs]), max, datas + [BytesOf(rs)], consumed, [], pending, ahead)
  {
    hide BytesOf, DatasOf, Divisions, Blocks;
    DatasSnoc(c.cuts, rs);
    assert Divisions(c.segs, max) + (DatasOf(c.cuts) + [BytesOf(rs)]) == datas + [BytesOf(rs)];
    EmptyBlock();
    assert [] + pending == pending;
  }

  /** A flush or the finish ends the segment: with the pending run the last block, if there is
      one, is complete. */
  lemma CutEnd(c: Division, max: nat, datas: seq<seq<byte>>, consumed: seq<byte>, rs: seq<Run>, pending: seq<Run>, ahead: seq<byte>)
    requires Cutting(c, max, datas, consumed, rs, pending, []) && (c.due == [] ==> rs + pending == [])
    ensures var all := rs + pending;
            Cutting(Division(c.segs + c.due, [], []), max, if all == [] then datas else datas + [BytesOf(all)], consumed, [], [], ahead)
  {
    hide BytesOf, DatasOf, Divisions, BlockOf, Blocks, Awaited, Settled, Greedily, SegmentsData;
    var s, all := Since(c, consumed), rs + pending;
    GreedilyIs(s, max);
    SettledRest(c.cuts, rs, pending, s, max);
    NothingCut(max);
    NoDatas();
    var next := Division(c.segs + c.due, [], []);
    if c.due == [] {
      assert next.segs == c.segs;
    } else {
      var g := c.due[0];
      assert c.due == [g];
      SegmentsSnoc(c.segs, g, max);
      EndBlocks(g, max, s, c.cuts, rs, pending);
      DatasSnoc(c.cuts, all);
      assert consumed == SegmentsData(c.segs) + s;
    }
    assert Since(next, consumed) == [];
  }

  lemma NothingCut(max: nat)
    requires max > 0
    ensures Greedily([], max) == Settled([], [], [], max)
  {
    EmptyBlock();
  }

  lemma EndBlocks(g: Segment, max: nat, s: seq<byte>, cuts: seq<seq<Run>>, rs: seq<Run>, pending: seq<Run>)
    requires RunsFit(rs) && Awaited(g, max, s, cuts, rs, pending, []) && Greedily(s, max) == Settled(cuts, rs, pending, max)
    ensures g.data == s && Blocks(s, g.late, max) == if s == [] then [] else cuts + [rs + pending]
  {
    hide BlockOf;
    assert s + [] == s;
  }

  lemma NoDatas()
    ensures DatasOf([]) == []
  {
  }

  /** With nothing pending there is nothing at all, and otherwise something. */
  lemma SettledRest(cuts: seq<seq<Run>>, rs: seq<Run>, pending: seq<Run>, s: seq<byte>, max: nat)
    requires RunsFit(rs) && max > 0 && Greedily(s, max) == Settled(cuts, rs, pending, max) && IsGreedy(Greedily(s, max), s, max)
    ensures rs + pending == [] <==> s == []
    ensures s == [] ==> cuts == []
  {
    hide BlockOf;
    EmptyBlock();
    var f := Greedily(s, max);
    if rs + pending == [] {
      assert f == Filled(cuts, []) && f.full == [];
      assert Flat([]) + [] == [] && BytesOf([]) == [];
    }
  }

  /** With nothing in the block and nothing pending, all that was taken in is in segments. */
  lemma CutNothing(c: Division, max: nat, datas: seq<seq<byte>>, consumed: seq<byte>, ahead: seq<byte>)
    requires Cutting(c, max, datas, consumed, [], [], ahead)
    ensures SegmentsData(c.segs) == consumed && Since(c, consumed) == [] && Greedily([], max).full == [] && DatasOf([]) == []
    ensures datas == Divisions(c.segs, max)
  {
    hide BlockOf, Divisions, SegmentsData;
    EmptyBlock();
    GreedilyIs(Since(c, consumed), max);
    SettledRest(c.cuts, [], [], Since(c, consumed), max);
    NoDatas();
  }

  /** A flush or the finish is asked for: all input that is there belongs to the segment. */
  lemma CutAsked(c: Division, max: nat, datas: seq<seq<byte>>, consumed: seq<byte>, rs: seq<Run>, pending: seq<Run>, ahead0: seq<byte>, ahead: seq<byte>)
    requires Cutting(c, max, datas, consumed, rs, pending, ahead0) && c.due == [] && |BlockOf(rs)| < max
    ensures Cutting(c.(due := [Segment(Since(c, consumed) + ahead, ahead != [])]), max, datas, consumed, rs, pending, ahead)
  {
  }

  lemma CutAhead(c: Division, max: nat, datas: seq<seq<byte>>, consumed: seq<byte>, rs: seq<Run>, pending: seq<Run>, ahead: seq<byte>, ahead': seq<byte>)
    requires Cutting(c, max, datas, consumed, rs, pending, ahead) && (c.due != [] ==> ahead == ahead')
    ensures Cutting(c, max, datas, consumed, rs, pending, ahead')
  {
  }

  lemma CutShape(c: Division, max: nat, datas: seq<seq<byte>>, consumed: seq<byte>, rs: seq<Run>, pending: seq<Run>, ahead: seq<byte>)
    requires Cutting(c, max, datas, consumed, rs, pending, ahead)
    ensures |c.due| <= 1 && RunsFit(rs) && SegmentsData(c.segs) <= consumed
    ensures datas == Divisions(c.segs, max) + DatasOf(c.cuts)
    ensures |BlockOf(rs)| < max ==> c.cuts == Greedily(Since(c, consumed), max).full
  {
    hide BlockOf;
  }
}
