/** The arrays that BZ2_decompress (decompress.c) fills from the fields of a block, by the
    sizes that bzlib_private.h gives them; and which input keeps every index inside them. The
    count of selectors is the one field that the source does not check against its arrays. */
module ArrayBounds {
  import opened Words
  import opened Bits
  import opened BitStream
  import opened HuffmanCodes
  import opened MtfCoding
  import opened MtfEncoder
  import opened Parser
  import opened Printer
  import opened StreamFormat
  import opened StreamDecoder
  import D = Decompressor

  // ---------- one step ----------

  /** Every index of the step that reads v in this state. */
  ghost predicate Indexes(c: Ctl, v: nat) {
    match c
    case Mapping1(used16) => |used16| < 16  // inUse16[i]
    case Mapping2(_, inUse) => |inUse| < 256  // inUse[i * 16 + j]
    case Selector3(_, nGroups, nSelectors, mtf, j) =>
      v == 0 ==>
        && |mtf| < BZ_MAX_SELECTORS  // selectorMtf[i]
        && (|mtf| + 1 == nSelectors ==> nSelectors <= BZ_MAX_SELECTORS)  // selector[i]
        && j < BZ_N_GROUPS && forall k :: 0 <= k < |mtf| ==> mtf[k] < BZ_N_GROUPS  // pos[v]
    case Coding1(_, _, _, lens) => |lens| < BZ_N_GROUPS
    case Coding2(_, _, _, lens, cur, _) => |lens| < BZ_N_GROUPS && |cur| < BZ_MAX_ALPHA_SIZE  // len[t][i]
    case Coding3(_, _, _, lens, cur, _) => |lens| < BZ_N_GROUPS && |cur| < BZ_MAX_ALPHA_SIZE
    case Mtf1(t, groupNo, _, _) => GroupIndexes(t, groupNo)
    case Mtf2(t, groupNo, _, _, _, _) => GroupIndexes(t, groupNo)
    case _ => true
  }

  /** selector[groupNo], and the rows of limit, base and perm */
  ghost predicate GroupIndexes(t: Tables, groupNo: nat) {
    && groupNo < |t.selector| <= BZ_MAX_SELECTORS && t.selector[groupNo] < |t.lens| <= BZ_N_GROUPS
    && |t.lens[t.selector[groupNo]]| <= BZ_MAX_ALPHA_SIZE
  }

  lemma CodeRuns(level: nat, origPtr: nat, t: Tables, groupNo: nat, groupPos: nat, d: Decoder, zn: nat, zvec: nat)
    requires TablesOk(t) && |d.list| == 256 && groupNo < |t.selector|
    ensures var c := OnCode(level, origPtr, t, groupNo, groupPos, d, zn, zvec); Later(c) || Ended(c)
  {
    hide AlphaSize, DecodeStep, Limit, Base, Perm, Unseq;
  }

  /** Where a block stands once its count of selectors has been read. */
  predicate Later(c: Ctl) {
    c.Selector3? || c.Coding1? || c.Coding2? || c.Coding3? || c.Mtf1? || c.Mtf2?
  }

  predicate Ended(c: Ctl) { c.Output? || c == Failed(DataError) }

  /** Of all indices only the one into `selectorMtf` can be too large: every step whose
      indices are not all inside their arrays is one that writes a selector too many. */
  lemma StepIndexes(p: Parse, v: nat)
    requires Ok(p.ctl) && !Stopped(p.ctl)
    ensures Indexes(p.ctl, v) <==> !Step(p, v).ctl.Overrun?
  {
    hide OnCode, UndoSelectors, Limit, MinLen;
    match p.ctl
    case Mtf1(t, g, pos, d) =>
      CodeRuns(p.level, p.origPtr, t, g, pos, d, MinLen(GroupLens(t, g)), v);
      RankAtMost(t.inUse);
    case Mtf2(t, g, pos, d, zn, zvec) =>
      CodeRuns(p.level, p.origPtr, t, g, pos, d, zn, 2 * zvec + v);
      RankAtMost(t.inUse);
    case Coding2(inUse, _, _, _, _, _) => RankAtMost(inUse);
    case Coding3(inUse, _, _, _, _, _) => RankAtMost(inUse);
    case _ =>
  }

  // ---------- one block ----------

  /** The count of selectors that this state goes by. */
  function Count(c: Ctl): nat {
    match c
    case Selector3(_, _, nSelectors, _, _) => nSelectors
    case _ => 0
  }

  predicate Fits(c: Ctl) { !c.Overrun? && Count(c) <= BZ_MAX_SELECTORS }

  lemma StepLater(p: Parse, v: nat)
    requires Ok(p.ctl) && !Stopped(p.ctl) && Later(p.ctl)
    ensures var c := Step(p, v).ctl;
            && (Later(c) || Ended(c) || (c.Overrun? && Count(p.ctl) > BZ_MAX_SELECTORS))
            && (Count(c) == 0 || Count(c) == Count(p.ctl))
  {
    hide OnCode, UndoSelectors, Limit, MinLen;
    match p.ctl
    case Mtf1(t, g, pos, d) =>
      CodeRuns(p.level, p.origPtr, t, g, pos, d, MinLen(GroupLens(t, g)), v);
      CodeCounts(p.level, p.origPtr, t, g, pos, d, MinLen(GroupLens(t, g)), v);
    case Mtf2(t, g, pos, d, zn, zvec) =>
      CodeRuns(p.level, p.origPtr, t, g, pos, d, zn, 2 * zvec + v);
      CodeCounts(p.level, p.origPtr, t, g, pos, d, zn, 2 * zvec + v);
    case _ =>
  }

  lemma CodeCounts(level: nat, origPtr: nat, t: Tables, groupNo: nat, groupPos: nat, d: Decoder, zn: nat, zvec: nat)
    requires TablesOk(t) && |d.list| == 256 && groupNo < |t.selector|
    ensures Count(OnCode(level, origPtr, t, groupNo, groupPos, d, zn, zvec)) == 0
  {
    hide AlphaSize, DecodeStep, Limit, Base, Perm, Unseq;
  }

  lemma {:induction false} FeedFits(p: Parse, bits: seq<bool>)
    requires Ok(p.ctl) && (Later(p.ctl) || Ended(p.ctl)) && Fits(p.ctl)
    ensures !Feed(p, bits).0.ctl.Overrun?
    decreases |bits|
  {
    hide Step, Ok, Need;
    if !Stopped(p.ctl) && |bits| >= Need(p.ctl) {
      var v := ValueOf(bits[..Need(p.ctl)]);
      StepLater(p, v);
      FeedFits(Step(p, v), bits[Need(p.ctl)..]);
    }
  }

  function Zeros(n: nat): (s: seq<bool>)
    ensures |s| == n
  {
    seq(n, _ => false)
  }

  function Firsts(n: nat): (s: seq<nat>)
    ensures |s| == n && forall k :: 0 <= k < n ==> s[k] == 0
  {
    seq(n, _ => 0)
  }

  lemma {:induction false} ZeroSelectors(n: nat)
    ensures SelectorBits(Firsts(n)) == Zeros(n)
  {
    if n > 0 {
      ZeroSelectors(n - 1);
      assert Firsts(n)[1..] == Firsts(n - 1);
      assert Zeros(n) == [false] + Zeros(n - 1);
    }
  }

  /** As many selectors as there is room for, and one more. */
  lemma OneTooMany(p: Parse, inUse: seq<bool>, nGroups: nat, n: nat, rest: seq<bool>)
    requires |inUse| == 256 && 2 <= nGroups <= BZ_N_GROUPS && n > BZ_MAX_SELECTORS && p.ctl == NextSelector(inUse, nGroups, n, [])
    ensures Ok(p.ctl) && Feed(p, Zeros(BZ_MAX_SELECTORS + 1) + rest) == (p.(ctl := Overrun), rest)
  {
    hide Feed, NextSelector, Step, Need, Zeros;
    var mtf := Firsts(BZ_MAX_SELECTORS);
    ZeroSelectors(BZ_MAX_SELECTORS);
    assert Zeros(BZ_MAX_SELECTORS + 1) + rest == SelectorBits(mtf) + ([false] + rest) by { OneMore(BZ_MAX_SELECTORS, rest); }
    assert [] + mtf == mtf;
    FeedSelectors(p, inUse, nGroups, n, [], mtf, [false] + rest);
    MoreSelectors(inUse, nGroups, n, mtf);
    var q := p.(ctl := Selector3(inUse, nGroups, n, mtf, 0));
    WriteTooMany(q, rest);
  }

  lemma OneMore(n: nat, rest: seq<bool>)
    ensures Zeros(n + 1) + rest == Zeros(n) + ([false] + rest)
  {
  }

  lemma WriteTooMany(q: Parse, rest: seq<bool>)
    requires q.ctl.Selector3? && Ok(q.ctl) && |q.ctl.mtf| == BZ_MAX_SELECTORS
    ensures Feed(q, [false] + rest) == (q.(ctl := Overrun), rest)
  {
    hide Feed;
    FeedBit(q, false, rest);
    FeedStopped(q.(ctl := Overrun), rest);
  }

  /** However the input goes on after the count of selectors, the block is read inside the
      arrays if and only if the count is at most their length. */
  lemma CountDecides(p: Parse, inUse: seq<bool>, nGroups: nat, n: nat)
    requires |inUse| == 256 && 2 <= nGroups <= BZ_N_GROUPS && n > 0 && p.ctl == NextSelector(inUse, nGroups, n, [])
    ensures Ok(p.ctl) && (n <= BZ_MAX_SELECTORS <==> forall more :: !Feed(p, more).0.ctl.Overrun?)
  {
    hide Feed, Zeros, Ok;
    MoreSelectors(inUse, nGroups, n, []);
    if n <= BZ_MAX_SELECTORS {
      forall more ensures !Feed(p, more).0.ctl.Overrun? { FeedFits(p, more); }
    } else {
      OneTooMany(p, inUse, nGroups, n, []);
      assert Feed(p, Zeros(BZ_MAX_SELECTORS + 1) + []).0.ctl.Overrun?;
    }
  }

  // ---------- an input that does not fit ----------

  function OneUsed(): (inUse: seq<bool>)
    ensures |inUse| == 256
  {
    seq(256, c => c == 0)
  }

  /** A legal beginning of a stream and of its first block, up to the count of selectors. */
  function Announcing(n: nat): seq<bool> {
    HeaderBits(9) + (MagicBits() + (BitsOf(0, 32) + (BitsOf(0, 1) + (BitsOf(0, 24) + (MapBits(OneUsed()) + (BitsOf(2, 3) + BitsOf(n, 15)))))))
  }

  lemma TakesAnnouncing(n: nat)
    requires 1 <= n < 0x8000
    ensures Takes(Start(), Announcing(n), Start().(ctl := NextSelector(OneUsed(), 2, n, []), level := 9))
  {
    hide HeaderBits, MagicBits, BitsOf, MapBits, Takes, NextSelector, Step, Ok, Need, OneUsed, Rank, Pow2;
    Zero32();
    OneInUse(256);
    var inUse := OneUsed();
    var p0 := Start().(ctl := BlkHdr(1), level := 9);
    var p1, p2, p3, p4 := p0.(ctl := BCrc(1)), p0.(ctl := RandBit), p0.(ctl := OrigPtr(1)), p0.(ctl := Mapping1([]));
    var p5, p6, p7 := p0.(ctl := Selector1(inUse)), p0.(ctl := Selector2(inUse, 2)), p0.(ctl := NextSelector(inUse, 2, n, []));
    TakesHeader(9);
    TakesMagic(p0);
    TakesBlockCrc(p1, 0);
    TakesRandBit(p2);
    TakesOrigPtr(p3, 0);
    TakesMap(p4, inUse);
    TakesGroups(p5, inUse, 2);
    TakesCount(p6, inUse, 2, n);
    var b6 := BitsOf(2, 3) + BitsOf(n, 15);
    var b5 := MapBits(inUse) + b6;
    var b4 := BitsOf(0, 24) + b5;
    var b3 := BitsOf(0, 1) + b4;
    var b2 := BitsOf(0, 32) + b3;
    TakesThen(p5, BitsOf(2, 3), p6, BitsOf(n, 15), p7);
    TakesThen(p4, MapBits(inUse), p5, b6, p7);
    TakesThen(p3, BitsOf(0, 24), p4, b5, p7);
    TakesThen(p2, BitsOf(0, 1), p3, b4, p7);
    TakesThen(p1, BitsOf(0, 32), p2, b3, p7);
    TakesThen(p0, MagicBits(), p1, b2, p7);
    TakesThen(Start(), HeaderBits(9), p0, MagicBits() + b2, p7);
  }

  lemma Zero32()
    ensures 0 < Pow2(32) && 0 < Pow2(24)
  {
  }

  /** An input that does not fit: one selector too many is announced, and all of them follow. */
  lemma ExcessOverruns()
    ensures Ok(Start().ctl) && Feed(Start(), Announcing(BZ_MAX_SELECTORS + 1) + Zeros(BZ_MAX_SELECTORS + 1)).0.ctl.Overrun?
  {
    hide Announcing, Feed, Zeros, NextSelector, OneUsed;
    var n := BZ_MAX_SELECTORS + 1;
    StartOk();
    TakesAnnouncing(n);
    OneTooMany(Start().(ctl := NextSelector(OneUsed(), 2, n, []), level := 9), OneUsed(), 2, n, []);
    assert Zeros(n) + [] == Zeros(n);
  }

  lemma {:induction false} OneInUse(n: nat)
    requires 0 < n <= 256
    ensures |OneUsed()| == 256 && Rank(OneUsed(), n) > 0
  {
    if n > 1 { OneInUse(n - 1); }
  }

  // ---------- whole runs ----------

  /** The counts of selectors met in decompressing this input from p on, block after block. */
  ghost function Announced(p: Parse, bits: seq<bool>): seq<nat>
    requires Ok(p.ctl)
    decreases |bits|, if p.ctl.Output? then 1 else 0
  {
    if p.ctl.Output? then
      if BlockGood(p) then Announced(AfterBlock(p), bits) else []
    else if Stopped(p.ctl) || |bits| < Need(p.ctl) then []
    else
      var n := Need(p.ctl);
      var v := ValueOf(bits[..n]);
      (if p.ctl.Selector2? then [v] else []) + Announced(Step(p, v), bits[n..])
  }

  /** Where decompressing this input from p on ends. */
  ghost function End(p: Parse, bits: seq<bool>): (q: Parse)
    requires Ok(p.ctl)
    decreases |bits|, if p.ctl.Output? then 1 else 0
  {
    if p.ctl.Output? then
      if BlockGood(p) then End(AfterBlock(p), bits) else p
    else if Stopped(p.ctl) || |bits| < Need(p.ctl) then p
    else End(Step(p, ValueOf(bits[..Need(p.ctl)])), bits[Need(p.ctl)..])
  }

  lemma {:induction false} EndIs(p: Parse, combined: nat, bits: seq<bool>)
    requires Ok(p.ctl) && combined < Pow2(32)
    ensures Decompressed(p, combined, bits).p == End(p, bits)
    decreases |bits|, if p.ctl.Output? then 1 else 0
  {
    hide Step, Need, Ok, Pow2, BlockExpansion, Feed;
    if p.ctl.Output? {
      FeedStopped(p, bits);
      if BlockGood(p) {
        EndIs(AfterBlock(p), CombinedStep(combined, BlockExpansion(p).out), bits);
      }
    } else if Stopped(p.ctl) || |bits| < Need(p.ctl) {
      FeedNothing(p, bits);
    } else {
      var n := Need(p.ctl);
      var q := Step(p, ValueOf(bits[..n]));
      FeedNext(p, bits);
      DecompressedFeed(p, bits, q, bits[n..], combined);
      EndIs(q, combined, bits[n..]);
    }
  }

  lemma FeedNothing(p: Parse, bits: seq<bool>)
    requires Ok(p.ctl) && (Stopped(p.ctl) || |bits| < Need(p.ctl))
    ensures Feed(p, bits) == (p, bits)
  {
    hide Step, Need;
  }

  lemma FeedNext(p: Parse, bits: seq<bool>)
    requires Ok(p.ctl) && !Stopped(p.ctl) && |bits| >= Need(p.ctl)
    ensures Feed(p, bits) == Feed(Step(p, ValueOf(bits[..Need(p.ctl)])), bits[Need(p.ctl)..])
  {
    hide Step, Need;
  }

  /** What follows does not change what was met before. */
  lemma {:induction false} AnnouncedPrefix(p: Parse, a: seq<bool>, b: seq<bool>)
    requires Ok(p.ctl)
    ensures Announced(p, a) <= Announced(p, a + b)
    decreases |a|, if p.ctl.Output? then 1 else 0
  {
    hide Step, Need, Ok, BlockGood;
    if p.ctl.Output? {
      if BlockGood(p) { AnnouncedPrefix(AfterBlock(p), a, b); }
    } else if !Stopped(p.ctl) && |a| >= Need(p.ctl) {
      var n := Need(p.ctl);
      assert (a + b)[..n] == a[..n] && (a + b)[n..] == a[n..] + b;
      AnnouncedPrefix(Step(p, ValueOf(a[..n])), a[n..], b);
    }
  }

  ghost predicate AllFit(counts: seq<nat>) { forall i :: 0 <= i < |counts| ==> counts[i] <= BZ_MAX_SELECTORS }

  lemma StepCount(p: Parse, v: nat)
    requires Ok(p.ctl) && !Stopped(p.ctl) && Fits(p.ctl) && (p.ctl.Selector2? ==> v <= BZ_MAX_SELECTORS)
    ensures Fits(Step(p, v).ctl)
  {
    if Later(p.ctl) {
      hide Step;
      StepLater(p, v);
    }
  }

  /** While every count met fits, all of the run stays inside the arrays. */
  lemma {:induction false} RunFits(p: Parse, bits: seq<bool>)
    requires Ok(p.ctl) && Fits(p.ctl) && AllFit(Announced(p, bits))
    ensures !End(p, bits).ctl.Overrun?
    decreases |bits|, if p.ctl.Output? then 1 else 0
  {
    hide Step, Need, Ok, BlockGood;
    if p.ctl.Output? {
      if BlockGood(p) { RunFits(AfterBlock(p), bits); }
    } else if !Stopped(p.ctl) && |bits| >= Need(p.ctl) {
      var n := Need(p.ctl);
      var v := ValueOf(bits[..n]);
      var q := Step(p, v);
      var rest := Announced(q, bits[n..]);
      if p.ctl.Selector2? {
        assert Announced(p, bits) == [v] + rest && ([v] + rest)[0] == v && rest == ([v] + rest)[1..];
      } else {
        assert Announced(p, bits) == rest;
      }
      StepCount(p, v);
      RunFits(q, bits[n..]);
    }
  }

  /** Inside a block nothing is announced. */
  lemma {:induction false} QuietBlock(p: Parse, bits: seq<bool>)
    requires Ok(p.ctl) && (Later(p.ctl) || p.ctl.Overrun?) && Feed(p, bits).0.ctl.Overrun?
    ensures Announced(p, bits) == [] && End(p, bits).ctl.Overrun?
    decreases |bits|
  {
    hide Step, Need, Ok, BlockGood;
    if Stopped(p.ctl) || |bits| < Need(p.ctl) {
      FeedNothing(p, bits);
    } else {
      var v := ValueOf(bits[..Need(p.ctl)]);
      FeedNext(p, bits);
      StepLater(p, v);
      var q := Step(p, v);
      if Ended(q.ctl) {
        assert false;
      } else {
        QuietBlock(q, bits[Need(p.ctl)..]);
      }
    }
  }

  /** After a count that does not fit, the input can go on without announcing anything more
      and have a selector written beyond its array. */
  lemma Exceeds(p: Parse, v: nat)
    requires p.ctl.Selector2? && Ok(p.ctl) && v > BZ_MAX_SELECTORS
    ensures Ok(Step(p, v).ctl) && Later(Step(p, v).ctl) && Announced(Step(p, v), Zeros(BZ_MAX_SELECTORS + 1)) == [] && End(Step(p, v), Zeros(BZ_MAX_SELECTORS + 1)).ctl.Overrun?
  {
    hide Feed, Zeros, Announced, End;
    var inUse, nGroups := p.ctl.inUse, p.ctl.nGroups;
    var z := Zeros(BZ_MAX_SELECTORS + 1);
    MoreSelectors(inUse, nGroups, v, []);
    OneTooMany(Step(p, v), inUse, nGroups, v, []);
    assert z + [] == z;
    QuietBlock(Step(p, v), z);
  }

  /** One field of a run. */
  lemma RunNext(p: Parse, bits: seq<bool>)
    requires Ok(p.ctl) && !Stopped(p.ctl) && |bits| >= Need(p.ctl)
    ensures var n := Need(p.ctl); var v := ValueOf(bits[..n]);
            && Announced(p, bits) == (if p.ctl.Selector2? then [v] else []) + Announced(Step(p, v), bits[n..])
            && End(p, bits) == End(Step(p, v), bits[n..])
  {
    hide Step, Need, Ok;
  }

  /** The same field at the start of another input. */
  lemma RunSame(p: Parse, bits: seq<bool>, tail: seq<bool>)
    requires Ok(p.ctl) && !Stopped(p.ctl) && |bits| == Need(p.ctl)
    ensures var v := ValueOf(bits);
            && Announced(p, bits + tail) == (if p.ctl.Selector2? then [v] else []) + Announced(Step(p, v), tail)
            && End(p, bits + tail) == End(Step(p, v), tail)
  {
    hide Step, Need, Ok, Announced, End;
    RunNext(p, bits + tail);
    assert (bits + tail)[..|bits|] == bits && (bits + tail)[|bits|..] == tail;
  }

  lemma RunEnds(p: Parse, bits: seq<bool>)
    requires Ok(p.ctl) && !p.ctl.Output? && (Stopped(p.ctl) || |bits| < Need(p.ctl))
    ensures Announced(p, bits) == []
  {
    hide Step, Need, Ok;
  }

  lemma {:induction false} RunExceeds(p: Parse, bits: seq<bool>) returns (k: nat, more: seq<bool>)
    requires Ok(p.ctl) && !AllFit(Announced(p, bits))
    ensures k <= |bits| && Announced(p, bits[..k] + more) == Announced(p, bits[..k]) && End(p, bits[..k] + more).ctl.Overrun?
    decreases |bits|, if p.ctl.Output? then 2 else 1
  {
    hide Step, Need, Ok, BlockGood, Zeros;
    if p.ctl.Output? {
      k, more := RunExceeds(AfterBlock(p), bits);
    } else {
      hide Announced, End;
      if Stopped(p.ctl) || |bits| < Need(p.ctl) {
        RunEnds(p, bits);
        assert false;
      }
      k, more := FieldExceeds(p, bits);
    }
  }

  lemma {:induction false} FieldExceeds(p: Parse, bits: seq<bool>) returns (k: nat, more: seq<bool>)
    requires Ok(p.ctl) && !Stopped(p.ctl) && |bits| >= Need(p.ctl) && !AllFit(Announced(p, bits))
    ensures k <= |bits| && Announced(p, bits[..k] + more) == Announced(p, bits[..k]) && End(p, bits[..k] + more).ctl.Overrun?
    decreases |bits|, 0
  {
    hide Step, Need, Ok, Zeros, Announced, End;
    var n := Need(p.ctl);
    var field, rest := bits[..n], bits[n..];
    var v := ValueOf(field);
    var q := Step(p, v);
    RunNext(p, bits);
    if p.ctl.Selector2? && v > BZ_MAX_SELECTORS {
      k, more := n, Zeros(BZ_MAX_SELECTORS + 1);
      Exceeds(p, v);
      AnnouncedNothing(q);
      RunSame(p, field, more);
      RunSame(p, field, []);
      assert field + [] == field;
    } else {
      FitsRest(if p.ctl.Selector2? then [v] else [], Announced(q, rest));
      var m;
      m, more := RunExceeds(q, rest);
      k := n + m;
      RunSame(p, field, rest[..m] + more);
      RunSame(p, field, rest[..m]);
      assert bits[..k] == field + rest[..m] && bits[..k] + more == field + (rest[..m] + more);
    }
  }

  lemma FitsRest(a: seq<nat>, b: seq<nat>)
    requires AllFit(a)
    ensures AllFit(b) ==> AllFit(a + b)
  {
  }

  lemma AnnouncedNothing(p: Parse)
    requires Ok(p.ctl) && Later(p.ctl)
    ensures Announced(p, []) == []
  {
    hide Step, Ok;
  }

  /** Decompressing an input stays inside the arrays, however it goes on from any point until
      the next count of selectors, if and only if every count it announces is at most the
      length of the arrays. */
  lemma RunsStayInside(bits: seq<bool>)
    ensures Ok(Start().ctl) && 0 < Pow2(32)
    ensures AllFit(Announced(Start(), bits)) <==>
            forall k: nat, more :: k <= |bits| && Announced(Start(), bits[..k] + more) == Announced(Start(), bits[..k])
                                   ==> !Decompressed(Start(), 0, bits[..k] + more).p.ctl.Overrun?
  {
    hide Decompressed, Announced, End, Pow2;
    StartOk();
    var p := Start();
    if AllFit(Announced(p, bits)) {
      forall k: nat, more | k <= |bits| && Announced(p, bits[..k] + more) == Announced(p, bits[..k])
        ensures !Decompressed(p, 0, bits[..k] + more).p.ctl.Overrun?
      {
        assert bits[..k] + bits[k..] == bits;
        AnnouncedPrefix(p, bits[..k], bits[k..]);
        RunFits(p, bits[..k] + more);
        EndIs(p, 0, bits[..k] + more);
      }
    } else {
      var k, more := RunExceeds(p, bits);
      EndIs(p, 0, bits[..k] + more);
    }
  }

  /** A decompressor that is fed only counts that fit never leaves its arrays: the status that
      stands for it does not occur. */
  lemma NoOverrunStatus(z: seq<byte>, out: seq<byte>, room: nat)
    requires Ok(Start().ctl) && AllFit(Announced(Start(), BytesBits(z)))
    ensures !D.Outcome(D.BzOverrun, BytesBits(z), out, room)
  {
    hide Decompressed, Announced, End, Pow2, BytesBits;
    StartOk();
    RunFits(Start(), BytesBits(z));
    EndIs(Start(), 0, BytesBits(z));
  }
}
