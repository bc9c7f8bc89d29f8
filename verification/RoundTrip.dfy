/** Compressing and decompressing: whatever the sequence of calls on either side, what comes
    out is what went in. */
module RoundTrip {
  import opened Words
  import opened Bits
  import opened BitStream
  import opened Parser
  import opened StreamFormat
  import opened StreamDecoder
  import opened Decompressor
  import opened OutputSize
  import opened BlockCutting
  import opened RunLength
  import BlockDivision
  import C = Compressor

  /** z is a complete stream whose blocks hold the data. */
  ghost predicate Compressed(data: seq<byte>, z: seq<byte>) {
    exists done, level, pad :: 1 <= level <= 9 && Complete(z, done, level, pad) && DataOf(done) == data
  }

  /** Decompressing a whole stream. */
  lemma WholeStream(data: seq<byte>, z: seq<byte>)
    requires Compressed(data, z)
    ensures Ok(Start().ctl) && 0 < Pow2(32)
    ensures var d := Decompressed(Start(), 0, BytesBits(z));
            d.out == data && !d.bad && d.p.ctl.Idle? && d.combined == d.p.storedCombinedCRC
  {
    hide Complete, Decompressed, DataOf, Ok, Pow2;
    StartOk();
    var done, level, pad :| 1 <= level <= 9 && Complete(z, done, level, pad) && DataOf(done) == data;
    CompleteDecodes(z, done, level, pad);
  }

  /** The beginning of a stream is never taken for a broken one, gives only the beginning of
      the data, and gives all of it once the end of the stream has been recognised. */
  lemma PartialStream(data: seq<byte>, z: seq<byte>, n: nat)
    requires Compressed(data, z) && n <= |z|
    ensures Ok(Start().ctl) && 0 < Pow2(32)
    ensures var d := Decompressed(Start(), 0, BytesBits(z[..n]));
            && d.out <= data && !d.bad
            && (Stopped(d.p.ctl) ==> d.out == data && d.p.ctl.Idle? && d.combined == d.p.storedCombinedCRC)
  {
    hide Compressed, Decompressed, Ok, Pow2, BytesBits;
    WholeStream(data, z);
    assert z == z[..n] + z[n..];
    BytesConcat(z[..n], z[n..]);
    DecompressedSplit(Start(), 0, BytesBits(z[..n]), BytesBits(z[n..]));
  }

  /** What a decompressor that has been given the first n bytes of a stream can answer. */
  lemma StreamOutcome(data: seq<byte>, z: seq<byte>, n: nat, status: Status, out: seq<byte>, room: nat)
    requires Compressed(data, z) && n <= |z| && Outcome(status, BytesBits(z[..n]), out, room)
    ensures status.BzOk? || status.BzStreamEnd? || status.BzSequenceError?
    ensures status.BzOk? ==> out <= data
    ensures status.BzStreamEnd? ==> out == data
    ensures status.BzOk? && n == |z| ==> room == 0 && |out| < |data|
  {
    hide Compressed, Decompressed, Ok, Pow2, BytesBits;
    PartialStream(data, z, n);
    if n == |z| {
      WholeStream(data, z);
      assert z[..n] == z;
    }
  }

  /** The answer depends on nothing but the input: not on how it was cut up, on the sizes of
      the output buffers, or on whether the fast or the small representation was used. */
  lemma SameOutcome(input: seq<bool>, s1: Status, out1: seq<byte>, room1: nat, s2: Status, out2: seq<byte>, room2: nat)
    requires Outcome(s1, input, out1, room1) && Outcome(s2, input, out2, room2)
    requires room1 > 0 && room2 > 0 && !s1.BzSequenceError? && !s2.BzSequenceError?
    ensures s1 == s2
    ensures s1.BzOk? || s1.BzStreamEnd? ==> out1 == out2
  {
    hide Decompressed, Ok, Pow2;
    StartOk();
  }

  // ---------- driving both sides ----------

  /** What a program may do with a compressor. */
  datatype Act = Give(data: seq<byte>) | MakeRoom(n: nat) | Call(action: C.Action)

  function DataIn(act: Act): seq<byte> {
    if act.Give? then act.data else []
  }

  ghost function Given(acts: seq<Act>): seq<byte> {
    if acts == [] then [] else Given(acts[..|acts| - 1]) + DataIn(acts[|acts| - 1])
  }

  /** How much room a program makes. */
  function RoomMade(acts: seq<Act>): nat {
    if acts == [] then 0 else RoomMade(acts[..|acts| - 1]) + RoomIn(acts[|acts| - 1])
  }

  function RoomIn(act: Act): nat {
    if act.MakeRoom? then act.n else 0
  }

  /** Until now the compressor has only been called to take input. */
  ghost predicate OnlyRuns(acts: seq<Act>) {
    forall i :: 0 <= i < |acts| && acts[i].Call? ==> acts[i].action.Run?
  }

  /** The first call that is not for taking input is to finish, with room enough. */
  ghost predicate FinishAt(acts: seq<Act>, j: nat)
    requires j < |acts|
  {
    acts[j] == Call(C.Finish) && OnlyRuns(acts[..j]) && RoomMade(acts[..j]) > StreamRoom(|Given(acts[..j])|)
  }

  ghost predicate Finishes(acts: seq<Act>) {
    exists j :: 0 <= j < |acts| && FinishAt(acts, j)
  }

  lemma ActsSnoc(acts: seq<Act>, k: nat)
    requires k < |acts|
    ensures Given(acts[..k + 1]) == Given(acts[..k]) + DataIn(acts[k]) && RoomMade(acts[..k + 1]) == RoomMade(acts[..k]) + RoomIn(acts[k])
    ensures OnlyRuns(acts[..k + 1]) <==> OnlyRuns(acts[..k]) && (acts[k].Call? ==> acts[k].action.Run?)
    ensures Finishes(acts[..k + 1]) ==> Finishes(acts[..k]) || FinishAt(acts, k)
  {
    var q := acts[..k + 1];
    assert q[..k] == acts[..k];
    assert OnlyRuns(q) ==> OnlyRuns(acts[..k]) by {
      assert forall i :: 0 <= i < k ==> acts[..k][i] == q[i];
    }
    if OnlyRuns(acts[..k]) && (acts[k].Call? ==> acts[k].action.Run?) {
      forall i | 0 <= i < |q| && q[i].Call? ensures q[i].action.Run? {
        if i < k { assert acts[..k][i] == q[i]; }
      }
    }
    if OnlyRuns(q) { assert q[k] == acts[k]; }
    if Finishes(q) {
      var j :| 0 <= j < |q| && FinishAt(q, j);
      assert q[..j] == acts[..j] && (j < k ==> acts[..k][..j] == acts[..j]);
      if j < k { assert FinishAt(acts[..k], j); }
    }
  }

  lemma CompressedBy(data: seq<byte>, z: seq<byte>, done: seq<Finished>, level: nat, pad: nat)
    requires 1 <= level <= 9 && Complete(z, done, level, pad) && DataOf(done) == data
    ensures Compressed(data, z)
  {
    hide Complete, DataOf;
  }

  // ---------- how the data are divided into blocks ----------

  /** z is a complete stream of this level, whose blocks are those of the segments, each made
      of its data by run coding, sorting, coding and four passes over the tables. */
  ghost predicate DividedStream(segs: seq<Segment>, z: seq<byte>, level: int) {
    1 <= level <= 9 && exists done, pad :: DividedAs(segs, z, level, done, pad)
  }

  ghost predicate DividedAs(segs: seq<Segment>, z: seq<byte>, level: nat, done: seq<Finished>, pad: nat)
    requires 1 <= level <= 9
  {
    C.AllMade(done, level) && Complete(z, done, level, pad) && DataOf(done) == SegmentsData(segs) && C.DataSeq(done) == Divisions(segs, 100000 * level - 19)
  }

  /** The calls that end a segment: flushes, and the finish. */
  predicate Ends(act: Act) { act == Call(C.Flush) || act == Call(C.Finish) }

  /** The segments end at these calls of the program, each with all that had been given by then;
      a finish is the last. */
  ghost predicate EndedAt(acts: seq<Act>, segs: seq<Segment>, at: seq<nat>) {
    && |at| == |segs| && (forall i :: 0 <= i < |segs| ==> segs[i].late ==> segs[i].data != [])
    && (forall i :: 0 <= i < |at| ==> at[i] < |acts| && Ends(acts[at[i]]) && SegmentsData(segs[..i + 1]) == Given(acts[..at[i]]))
    && forall i :: 0 <= i < |at| - 1 ==> at[i] < at[i + 1] && acts[at[i]] == Call(C.Flush)
  }

  /** Which mode the compressor is in after these calls. */
  ghost predicate InMode(acts: seq<Act>, segs: seq<Segment>, at: seq<nat>, mode: C.Mode) {
    && EndedAt(acts, segs, at)
    && (mode.Running? || mode.Flushing? ==> forall i :: 0 <= i < |at| ==> acts[at[i]] == Call(C.Flush))
    && (mode.Finishing? || mode.Idle? ==> segs != [])
  }

  /** A program that never flushes. */
  ghost predicate NoFlush(acts: seq<Act>) { forall i :: 0 <= i < |acts| ==> acts[i] != Call(C.Flush) }

  lemma EndedSame(acts: seq<Act>, k: nat, segs: seq<Segment>, at: seq<nat>, before: C.Mode, after: C.Mode)
    requires k < |acts| && InMode(acts[..k], segs, at, before) && after == before
    ensures InMode(acts[..k + 1], segs, at, after)
  {
    hide Given, SegmentsData;
    forall i | 0 <= i < |at|
      ensures at[i] < k + 1 && acts[..k + 1][at[i]] == acts[..k][at[i]] && acts[..k + 1][..at[i]] == acts[..k][..at[i]] {
    }
  }

  /** A call that does not end a segment. */
  lemma EndedOn(acts: seq<Act>, k: nat, segs: seq<Segment>, at: seq<nat>, before: C.Mode, after: C.Mode)
    requires k < |acts| && InMode(acts[..k], segs, at, before)
    requires acts[k].Call? && C.Leads(before, acts[k].action, after) && (before.Running? ==> !Ends(acts[k]))
    ensures InMode(acts[..k + 1], segs, at, after)
  {
    hide Given, SegmentsData;
    EndedSame(acts, k, segs, at, before, before);
  }

  /** A call that ends one. */
  lemma EndedHere(acts: seq<Act>, k: nat, segs: seq<Segment>, at: seq<nat>, g: Segment, after: C.Mode)
    requires k < |acts| && InMode(acts[..k], segs, at, C.Running) && Ends(acts[k]) && C.Leads(C.Running, acts[k].action, after)
    requires SegmentsData(segs + [g]) == Given(acts[..k]) && (g.late ==> g.data != [])
    ensures InMode(acts[..k + 1], segs + [g], at + [k], after)
  {
    hide Given, SegmentsData;
    EndedSame(acts, k, segs, at, C.Running, C.Running);
    var all, places, now := segs + [g], at + [k], acts[..k + 1];
    forall i | 0 <= i < |places| ensures places[i] < |now| && Ends(now[places[i]]) && SegmentsData(all[..i + 1]) == Given(now[..places[i]]) {
      if i < |at| {
        assert all[..i + 1] == segs[..i + 1];
      } else {
        assert all[..i + 1] == all && now[..k] == acts[..k];
      }
    }
  }

  /** Only a program that flushes has more than one segment. */
  lemma ManySegments(acts: seq<Act>, segs: seq<Segment>, at: seq<nat>)
    requires EndedAt(acts, segs, at) && |segs| > 1
    ensures !NoFlush(acts)
  {
    assert acts[at[0]] == Call(C.Flush);
  }

  /** Of two programs that never flush, given the same data at the same level, the blocks hold
      the same data if the last byte came with the finish in both, or in neither, or does not
      find a full block. */
  lemma SameDivision(s: seq<byte>, late: bool, late': bool, max: nat)
    requires late || late' ==> s != []
    requires late != late' ==>
      var f, x := BlockDivision.Greedily(s[..|s| - 1], max), s[|s| - 1];
      f.rest == [] || !BlockDivision.Starts(f.rest, x) || |BlockOf(f.rest)| < max
    ensures Divisions([Segment(s, late)], max) == Divisions([Segment(s, late')], max)
  {
    hide BlockDivision.Greedily, BlockOf, BlockDivision.Blocks;
    if late != late' { BlockDivision.LateMatters(s, max); }
    SegmentsSnoc([], Segment(s, late), max);
    SegmentsSnoc([], Segment(s, late'), max);
    assert [] + [Segment(s, late)] == [Segment(s, late)] && [] + [Segment(s, late')] == [Segment(s, late')];
  }

  method Perform(e: C.EState, act: Act) returns (ended: bool)
    requires e.Valid() && 1 <= e.blockSize100k <= 9
    modifies e, e.w
    ensures e.Valid()
    ensures e.consumed + e.next_in == old(e.consumed + e.next_in) + DataIn(act)
    ensures ended ==> Compressed(e.consumed + e.next_in, e.out)
    ensures !ended ==> |e.out| + e.avail_out == old(|e.out| + e.avail_out) + RoomIn(act)
    ensures SegmentsData(old(e.div.segs)) <= old(e.consumed)
    ensures e.div.segs + e.div.due == old(e.div.segs + e.div.due) +
              if old(e.mode).Running? && Ends(act) then [Segment(Since(old(e.div), old(e.consumed)) + old(e.next_in), old(e.next_in) != [])] else []
    ensures old(e.mode).Running? ==> old(e.div).due == []
    ensures if act.Call? then C.Leads(old(e.mode), act.action, e.mode) else e.mode == old(e.mode)
    ensures ended ==> e.mode.Idle? && DividedStream(e.div.segs, e.out, e.blockSize100k) && e.consumed + e.next_in == SegmentsData(e.div.segs) && e.div.due == []
    ensures old(e.mode).Running? && (act.Call? ==> act.action.Run?) ==> e.mode.Running?
    ensures old(e.mode).Running? && act == Call(C.Finish) && old(|e.out| + e.avail_out) > StreamRoom(|old(e.consumed + e.next_in)|) ==> ended
  {
    hide *;
    ended := false;
    ghost var given := e.consumed + e.next_in;
    ActData(act);
    EndsIs(act);
    e.ValidDivision();
    assert given + [] == given;
    match act
    case Give(data) =>
      ghost var taken, ahead := e.consumed, e.next_in;
      e.Supply(data);
      assert (taken + ahead) + data == taken + (ahead + data);
    case MakeRoom(n) => e.Room(n);
    case Call(action) =>
      var status := e.BzCompress(action);
      if status == C.StreamEnd {
        CompressedBy(e.consumed, e.out, e.done, e.blockSize100k, e.pad);
        e.EndedDivision();
        e.BlocksMade();
        e.ValidLevel();
        DividedBy(e.div.segs, e.out, e.done, e.blockSize100k, e.pad);
        assert e.consumed + [] == e.consumed;
        ended := true;
      }
  }

  lemma EndsIs(act: Act)
    ensures Ends(act) <==> act == Call(C.Flush) || act == Call(C.Finish)
  {
  }

  lemma DividedBy(segs: seq<Segment>, z: seq<byte>, done: seq<Finished>, level: nat, pad: nat)
    requires 1 <= level <= 9 && C.AllMade(done, level) && Complete(z, done, level, pad) && DataOf(done) == SegmentsData(segs)
    requires C.DataSeq(done) == Divisions(segs, 100000 * level - 19)
    ensures DividedStream(segs, z, level)
  {
    assert DividedAs(segs, z, level, done, pad);
  }

  lemma ActData(act: Act)
    ensures DataIn(act) == (if act.Give? then act.data else []) && RoomIn(act) == if act.MakeRoom? then act.n else 0
  {
  }

  /** A compressor driven by any program, up to the end of the stream: the output is then the
      compressed form of all the input it was given. And a program whose first call other than
      for taking input is to finish, with room enough, does reach the end. */
  method CompressAll(level: int, factor: int, acts: seq<Act>) returns (ended: bool, k: nat, z: seq<byte>)
    ensures k <= |acts| && (ended ==> Compressed(Given(acts[..k]), z))
    ensures 1 <= level <= 9 && 0 <= factor <= 250 && Finishes(acts) ==> ended
    ensures ended ==> exists segs, at ::
              EndedAt(acts[..k], segs, at) && DividedStream(segs, z, level) && SegmentsData(segs) == Given(acts[..k])
    ensures ended && NoFlush(acts[..k]) ==> exists late ::
              (late ==> Given(acts[..k]) != []) && DividedStream([Segment(Given(acts[..k]), late)], z, level)
  {
    hide *;
    ended, k, z := false, 0, [];
    var s := C.BzCompressInit(level, factor);
    if s == null { return; }
    var e: C.EState := s;
    NothingGiven(acts);
    ghost var at: seq<nat> := [];
    NoneEnded(acts);
    assert e.div.segs + e.div.due == [];
    while k < |acts| && !ended
      invariant k <= |acts| && e.Valid() && fresh(e) && fresh(e.w) && e.blockSize100k == level && 1 <= level <= 9
      invariant e.consumed + e.next_in == Given(acts[..k])
      invariant InMode(acts[..k], e.div.segs + e.div.due, at, e.mode)
      invariant ended ==> e.mode.Idle? && DividedStream(e.div.segs, e.out, level) && e.consumed + e.next_in == SegmentsData(e.div.segs) && e.div.due == []
      invariant ended ==> Compressed(e.consumed + e.next_in, e.out)
      invariant !ended ==> |e.out| + e.avail_out == RoomMade(acts[..k]) && !Finishes(acts[..k]) && (OnlyRuns(acts[..k]) ==> e.mode.Running?)
      decreases |acts| - k
    {
      ActsSnoc(acts, k);
      FinishAtIs(acts, k);
      EndsIs(acts[k]);
      e.ValidDivision();
      ghost var segs, mode, input := e.div.segs + e.div.due, e.mode, e.consumed + e.next_in;
      ghost var g := Segment(Since(e.div, e.consumed) + e.next_in, e.next_in != []);
      NextSegment(e.div, e.consumed, e.next_in);
      assert mode.Running? ==> segs == e.div.segs;
      ended := Perform(e, acts[k]);
      if acts[k].Give? || acts[k].MakeRoom? {
        EndedSame(acts, k, segs, at, mode, e.mode);
        assert segs + [] == segs;
      } else if mode.Running? && Ends(acts[k]) {
        EndedHere(acts, k, segs, at, g, e.mode);
        at := at + [k];
      } else {
        EndedOn(acts, k, segs, at, mode, e.mode);
        assert segs + [] == segs;
      }
      k := k + 1;
    }
    z := e.out;
    assert acts[..|acts|] == acts;
    if ended {
      assert e.div.segs + [] == e.div.segs;
      DivisionFound(acts[..k], e.div.segs, at, z, level);
    }
  }

  lemma NextSegment(div: Division, consumed: seq<byte>, input: seq<byte>)
    requires SegmentsData(div.segs) <= consumed
    ensures SegmentsData(div.segs + [Segment(Since(div, consumed) + input, input != [])]) == consumed + input
  {
    hide SegmentsData;
    SegmentAdded(div.segs, Segment(Since(div, consumed) + input, input != []));
    assert consumed == SegmentsData(div.segs) + Since(div, consumed);
  }

  lemma NoneEnded(acts: seq<Act>)
    ensures InMode(acts[..0], [], [], C.Running)
  {
  }

  lemma DivisionFound(acts: seq<Act>, segs: seq<Segment>, at: seq<nat>, z: seq<byte>, level: nat)
    requires InMode(acts, segs, at, C.Idle) && DividedStream(segs, z, level) && SegmentsData(segs) == Given(acts)
    ensures exists segs, at :: EndedAt(acts, segs, at) && DividedStream(segs, z, level) && SegmentsData(segs) == Given(acts)
    ensures NoFlush(acts) ==> exists late :: (late ==> Given(acts) != []) && DividedStream([Segment(Given(acts), late)], z, level)
  {
    hide DividedStream, Given, NoFlush;
    if NoFlush(acts) {
      if |segs| > 1 { ManySegments(acts, segs, at); }
      var g := segs[0];
      assert segs == [g];
      OneSegmentData(g);
      assert g == Segment(Given(acts), g.late);
    }
  }

  lemma NothingGiven(acts: seq<Act>)
    ensures Given(acts[..0]) == [] && RoomMade(acts[..0]) == 0 && !Finishes(acts[..0])
  {
  }

  lemma FinishAtIs(acts: seq<Act>, j: nat)
    requires j < |acts|
    ensures FinishAt(acts, j) <==> acts[j] == Call(C.Finish) && OnlyRuns(acts[..j]) && RoomMade(acts[..j]) > StreamRoom(|Given(acts[..j])|)
  {
  }

  /** What a program may do with a decompressor: hand over the next bytes of the stream, make
      room for output, call it. */
  datatype Pull = Bytes(n: nat) | Space(n: nat) | Pull

  /** How many bytes of the stream a program offers, and how much room it makes. */
  function Offered(pulls: seq<Pull>): nat {
    if pulls == [] then 0
    else Offered(pulls[..|pulls| - 1]) + if pulls[|pulls| - 1].Bytes? then pulls[|pulls| - 1].n else 0
  }

  function Made(pulls: seq<Pull>): nat {
    if pulls == [] then 0
    else Made(pulls[..|pulls| - 1]) + if pulls[|pulls| - 1].Space? then pulls[|pulls| - 1].n else 0
  }

  /** Some call comes after all of the stream has been offered and room made for the data. */
  predicate Suffices(pulls: seq<Pull>, zlen: nat, dlen: nat) {
    exists j :: 0 <= j < |pulls| && CallAfter(pulls, j, zlen, dlen)
  }

  predicate CallAfter(pulls: seq<Pull>, j: nat, zlen: nat, dlen: nat)
    requires j < |pulls|
  {
    pulls[j].Pull? && Offered(pulls[..j]) >= zlen && Made(pulls[..j]) >= dlen
  }

  lemma PullsSnoc(pulls: seq<Pull>, k: nat, zlen: nat, dlen: nat)
    requires k < |pulls|
    ensures Offered(pulls[..k + 1]) == Offered(pulls[..k]) + if pulls[k].Bytes? then pulls[k].n else 0
    ensures Made(pulls[..k + 1]) == Made(pulls[..k]) + if pulls[k].Space? then pulls[k].n else 0
    ensures Suffices(pulls[..k + 1], zlen, dlen) ==> Suffices(pulls[..k], zlen, dlen) || CallAfter(pulls, k, zlen, dlen)
  {
    var q := pulls[..k + 1];
    assert q[..k] == pulls[..k];
    if Suffices(q, zlen, dlen) {
      var j :| 0 <= j < |q| && CallAfter(q, j, zlen, dlen);
      assert q[..j] == pulls[..j] && (j < k ==> pulls[..k][..j] == pulls[..j]);
      if j < k { assert CallAfter(pulls[..k], j, zlen, dlen); }
    }
  }

  lemma NoPulls(pulls: seq<Pull>, zlen: nat, dlen: nat)
    ensures Offered(pulls[..0]) == 0 && Made(pulls[..0]) == 0 && !Suffices(pulls[..0], zlen, dlen)
  {
  }

  lemma CallAfterIs(pulls: seq<Pull>, j: nat, zlen: nat, dlen: nat)
    requires j < |pulls|
    ensures CallAfter(pulls, j, zlen, dlen) <==> pulls[j].Pull? && Offered(pulls[..j]) >= zlen && Made(pulls[..j]) >= dlen
  {
  }

  /** With t bytes of z handed over. */
  method PerformPull(d: DState, z: seq<byte>, t: nat, pull: Pull, ghost data: seq<byte>) returns (status: Status, taken: nat)
    requires d.Valid() && Compressed(data, z) && t <= |z| && d.r.next_in == z[..t] && d.o.out <= data && !d.p.ctl.Idle?
    modifies d, d.Parts()
    ensures t <= taken <= |z| && d.r.next_in == z[..taken] && d.o.out <= data && (status.BzOk? || status.BzStreamEnd?)
    ensures status.BzOk? ==> d.Valid() && !d.p.ctl.Idle?
    ensures status.BzStreamEnd? ==> d.o.out == data
    ensures status.BzOk? && pull.Pull? && taken == |z| ==> d.o.avail_out == 0 && |d.o.out| < |data|
    ensures taken == if pull.Bytes? then (if pull.n <= |z| - t then t + pull.n else |z|) else t
    ensures |d.o.out| + d.o.avail_out == old(|d.o.out| + d.o.avail_out) + if pull.Space? then pull.n else 0
  {
    hide *;
    status, taken := BzOk, t;
    match pull
    case Bytes(n) =>
      taken := if n <= |z| - t then t + n else |z|;
      assert z[..t] + z[t..taken] == z[..taken];
      d.Supply(z[t..taken]);
    case Space(n) => d.Room(n);
    case Pull =>
      status := d.BzDecompress();
      StreamOutcome(data, z, t, status, d.o.out, d.o.avail_out);
  }

  /** A decompressor driven by any program over a compressed stream: it reports no error, its
      output is always the beginning of the data, and all of it when it reports the end; and
      given the whole stream and room for the data, the end is what it reports. */
  method DecompressAll(small: bool, z: seq<byte>, pulls: seq<Pull>, ghost data: seq<byte>)
    returns (status: Status, out: seq<byte>, k: nat, taken: nat, room: nat)
    requires Compressed(data, z)
    ensures k <= |pulls| && taken <= |z| && (status.BzOk? || status.BzStreamEnd?)
    ensures out <= data && (status.BzStreamEnd? ==> out == data)
    ensures status.BzOk? ==> k == |pulls|
    ensures status.BzOk? && taken == |z| && k > 0 && pulls[k - 1].Pull? ==> room == 0 && |out| < |data|
    ensures Suffices(pulls, |z|, |data|) ==> status.BzStreamEnd?
  {
    hide *;
    var d := new DState(small);
    k, taken, status := 0, 0, BzOk;
    assert z[..0] == [];
    NoPulls(pulls, |z|, |data|);
    while k < |pulls| && status.BzOk?
      invariant k <= |pulls| && taken <= |z| && fresh(d) && fresh(d.Parts()) && (status.BzOk? || status.BzStreamEnd?)
      invariant d.r.next_in == z[..taken] && d.o.out <= data && (status.BzStreamEnd? ==> d.o.out == data)
      invariant status.BzOk? ==> d.Valid() && !d.p.ctl.Idle?
      invariant status.BzOk? && taken == |z| && k > 0 && pulls[k - 1].Pull? ==> d.o.avail_out == 0 && |d.o.out| < |data|
      invariant taken == (if Offered(pulls[..k]) <= |z| then Offered(pulls[..k]) else |z|) && |d.o.out| + d.o.avail_out == Made(pulls[..k])
      invariant status.BzOk? ==> !Suffices(pulls[..k], |z|, |data|)
      decreases |pulls| - k
    {
      PullsSnoc(pulls, k, |z|, |data|);
      CallAfterIs(pulls, k, |z|, |data|);
      status, taken := PerformPull(d, z, taken, pulls[k], data);
      k := k + 1;
    }
    out, room := d.o.out, d.o.avail_out;
    assert pulls[..|pulls|] == pulls;
  }

  /** The whole way: any program on the compressing side that reaches the end of the stream,
      any program on the decompressing side; with a call after all of the stream and room
      for the data, they have come back. */
  method RoundTrip(level: int, factor: int, acts: seq<Act>, small: bool, pulls: seq<Pull>)
    returns (ended: bool, k: nat, z: seq<byte>, status: Status, out: seq<byte>)
    ensures k <= |acts|
    ensures ended ==> (status.BzOk? || status.BzStreamEnd?) && out <= Given(acts[..k])
    ensures ended && status.BzStreamEnd? ==> out == Given(acts[..k])
    ensures 1 <= level <= 9 && 0 <= factor <= 250 && Finishes(acts) ==> ended
    ensures ended && Suffices(pulls, |z|, |Given(acts[..k])|) ==> status.BzStreamEnd?
  {
    hide Compressed, Given, Suffices;
    ended, k, z := CompressAll(level, factor, acts);
    if !ended { return ended, k, z, BzOk, []; }
    var j, taken, room;
    status, out, j, taken, room := DecompressAll(small, z, pulls, Given(acts[..k]));
  }
}
