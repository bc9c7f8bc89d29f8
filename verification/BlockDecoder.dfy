/** The symbols of a block as BZ2_decompress (decompress.c) reads them: the arrays of the
    Huffman tables, GET_MTF_VAL and the symbol loop over the sliding lists, in step with the
    parser. */
module BlockDecoder {
  import opened Words
  import opened Bits
  import opened Transform
  import opened HuffmanCodes
  import opened MtfCoding
  import opened MtfEncoder
  import opened MtfArena
  import opened MtfDecoder
  import opened Parser
  import opened ArrayDecoder

  /** The shortest and the longest length of a table. */
  method LengthRange(lens: seq<byte>) returns (minLen: nat, maxLen: nat)
    ensures minLen == MinLen(lens) && maxLen == MaxLen(lens)
  {
    minLen, maxLen := 32, 0;
    for i := 0 to |lens|
      invariant minLen == MinLen(lens[..i]) && maxLen == MaxLen(lens[..i])
    {
      assert lens[..i + 1][..i] == lens[..i];
      if lens[i] > maxLen { maxLen := lens[i]; }
      if lens[i] < minLen { minLen := lens[i]; }
    }
    assert lens[..|lens|] == lens;
  }

  /** limit, base and perm of one table. */
  method MakeTable(lens: seq<byte>) returns (limit: seq<int>, base: seq<int>, perm: seq<int>, minLen: nat)
    requires Lengths(lens)
    ensures minLen == MinLen(lens) && DecodeTables(lens, limit, base, perm, MinLen(lens), MaxLen(lens))
  {
    hide DecodeTables, MinLen, MaxLen;
    var maxLen;
    minLen, maxLen := LengthRange(lens);
    LenRange(lens);
    var length := new byte[|lens|](i requires 0 <= i < |lens| => lens[i]);
    var l, b, p := new int[BZ_MAX_CODE_LEN], new int[BZ_MAX_CODE_LEN], new int[BZ_MAX_ALPHA_SIZE];
    assert length[..|lens|] == lens;
    CreateDecodeTables(l, b, p, length, minLen, maxLen, |lens|);
    limit, base, perm := l[..], b[..], p[..];
  }

  /** The tables of a block as the arrays have them. */
  ghost predicate Tabled(t: Tables, limit: seq<seq<int>>, base: seq<seq<int>>, perm: seq<seq<int>>, minLens: seq<nat>, n: nat) {
    && n == |limit| == |base| == |perm| == |minLens| <= |t.lens|
    && forall k :: 0 <= k < n ==> minLens[k] == MinLen(t.lens[k]) &&
                                  DecodeTables(t.lens[k], limit[k], base[k], perm[k], MinLen(t.lens[k]), MaxLen(t.lens[k]))
  }

  lemma TableOf(t: Tables, limit: seq<seq<int>>, base: seq<seq<int>>, perm: seq<seq<int>>, minLens: seq<nat>, k: nat)
    requires Tabled(t, limit, base, perm, minLens, |t.lens|) && k < |t.lens|
    ensures |limit| == |base| == |perm| == |minLens| == |t.lens|
    ensures minLens[k] == MinLen(t.lens[k]) && DecodeTables(t.lens[k], limit[k], base[k], perm[k], MinLen(t.lens[k]), MaxLen(t.lens[k]))
    ensures |limit[k]| > LONGEST && |base[k]| > LONGEST && |perm[k]| >= BZ_MAX_ALPHA_SIZE
  {
    hide DecodeTables;
    TablesSized(t.lens[k], limit[k], base[k], perm[k]);
  }

  lemma GroupIn(t: Tables, groupNo: nat)
    requires TablesOk(t) && groupNo < |t.selector|
    ensures t.selector[groupNo] < |t.lens| && GroupLens(t, groupNo) == t.lens[t.selector[groupNo]]
  {
  }

  lemma MapSized(t: Tables)
    requires TablesOk(t)
    ensures |t.inUse| == 256
  {
  }

  lemma BlockColumn(t: Tables, chars: seq<byte>, column: seq<nat>)
    requires |t.inUse| == 256 && MapsBack(t.inUse, chars, 256) && Within(column, Rank(t.inUse, 256))
    ensures (forall i :: 0 <= i < |column| ==> column[i] < 256) && Unseq(t.inUse, column) == Mapped(column, chars)
  {
    forall i | 0 <= i < |column| ensures column[i] < 256 && UsedChar(t.inUse, column[i], 0) == chars[column[i]] {
      UsedCharIs(t.inUse, chars, column[i], 0);
    }
  }

  /** A symbol, or part of one, changes nothing but where the parser is. */
  lemma SymbolStep(p: Parse, v: nat)
    requires Ok(p.ctl) && Reading(p.ctl)
    ensures !Stopped(p.ctl) && Step(p, v) == p.(ctl := Step(p, v).ctl)
  {
    hide OnCode;
  }

  /** A field outside the symbols leads to another, or to the first code of a block. */
  lemma FieldStep(p: Parse, v: nat)
    requires Ok(p.ctl) && !Stopped(p.ctl) && Before(p.ctl)
    ensures var c := Step(p, v).ctl;
            if c.Mtf1? then
              TablesOk(c.tables) && c.tables.selector != [] && |c.tables.inUse| == 256 && Rank(c.tables.inUse, 256) > 0
              && c == Mtf1(c.tables, 0, BZ_G_SIZE - 1, Decoder(Iota(256), 0, 1, []))
            else Before(c)
  {
    hide Step, Rank;
    StepBefore(p, v);
    assert Ok(Step(p, v).ctl);
  }

  /** The decoder of a block's symbols: what the source keeps of it between two fields. */
  class CodeReader {
    const syms: SymbolDecoder
    var selector: seq<nat>
    var limit: seq<seq<int>>
    var base: seq<seq<int>>
    var perm: seq<seq<int>>
    var minLens: seq<nat>
    var groupNo: int
    var groupPos: nat
    // whether a code has been begun, and the zn bits of it that have been read
    var midCode: bool
    var zn: nat
    var zvec: nat

    constructor (size: nat)
      ensures fresh(syms) && syms.Separate() && syms.tt.Length == size && Halfwords(syms.tt[..])
      ensures fresh(syms.seqToUnseq) && fresh(syms.tt) && fresh(syms.unzftab) && fresh(syms.mtfa) && fresh(syms.mtfbase)
    {
      syms := new SymbolDecoder(size);
      selector, limit, base, perm, minLens := [], [], [], [], [];
    }

    /** The symbols so far have led to the decoder d, with the tables t. */
    ghost predicate Ready(t: Tables, d: Decoder)
      reads this`selector, this`limit, this`base, this`perm, this`minLens
      reads syms, syms.seqToUnseq, syms.tt, syms.unzftab, syms.mtfa, syms.mtfbase
    {
      && TablesOk(t) && selector == t.selector && Tabled(t, limit, base, perm, minLens, |t.lens|)
      && syms.Separate() && syms.Holds(d) && syms.eob == Eob(t)
      && MapsBack(t.inUse, syms.seqToUnseq[..], 256) && OnlyUsed(d, Rank(t.inUse, 256))
    }

    /** The arrays and counters stand for the parser's state c. */
    ghost predicate Stands(c: Ctl)
      reads this, syms, syms.seqToUnseq, syms.tt, syms.unzftab, syms.mtfa, syms.mtfbase
    {
      && Reading(c) && Ok(c) && Ready(TablesOf(c), DecoderOf(c)) && groupNo == c.groupNo && groupPos == c.groupPos
      && midCode == c.Mtf2? && (midCode ==> zn == c.zn && zvec == c.zvec)
    }

    method MakeTables(t: Tables)
      requires TablesOk(t)
      modifies this`limit, this`base, this`perm, this`minLens
      ensures Tabled(t, limit, base, perm, minLens, |t.lens|)
    {
      hide DecodeTables;
      limit, base, perm, minLens := [], [], [], [];
      for k := 0 to |t.lens|
        invariant Tabled(t, limit, base, perm, minLens, k)
      {
        var l, b, p, m := MakeTable(t.lens[k]);
        limit, base, perm, minLens := limit + [l], base + [b], perm + [p], minLens + [m];
      }
    }

    /** All lengths have been read: the tables are made, and the first group begins. */
    method Begin(t: Tables, level: nat)
      requires TablesOk(t) && t.selector != [] && Rank(t.inUse, 256) > 0 && syms.Separate() && 100000 * level <= syms.tt.Length
      modifies this, syms, syms.seqToUnseq, syms.unzftab, syms.mtfa, syms.mtfbase
      ensures Stands(Mtf1(t, 0, BZ_G_SIZE - 1, Decoder(Iota(256), 0, 1, []))) && syms.nblockMAX == 100000 * level
    {
      hide Tabled, DecodeTables, OnlyUsed, MapsBack, Rank, Lengths, SymbolDecoder.Holds, SymbolDecoder.Separate, TablesOk;
      MapSized(t);
      MakeTables(t);
      selector := t.selector;
      var inUse := new bool[256](i requires 0 <= i < 256 => t.inUse[i]);
      assert inUse[..] == t.inUse;
      syms.Begin(inUse, 100000 * level);
      OnlyUsedStart(Rank(t.inUse, 256));
      groupNo, groupPos := -1, 0;
      var ok := NextGroup(t, Decoder(Iota(256), 0, 1, []));
    }

    /** GET_MTF_VAL up to the first bits of a code. */
    method NextGroup(ghost t: Tables, ghost d: Decoder) returns (ok: bool)
      requires Ready(t, d) && |d.list| == 256 && -1 <= groupNo && (groupPos > 0 ==> 0 <= groupNo < |t.selector|)
      modifies this`groupNo, this`groupPos, this`midCode
      ensures TablesOk(t)
      ensures var c := NextCode(t, old(groupNo), old(groupPos), d);
              if ok then Stands(c) && c.Mtf1? else c == Failed(DataError)
    {
      hide Tabled, DecodeTables, OnlyUsed, MapsBack, Rank, Lengths, SymbolDecoder.Holds, SymbolDecoder.Separate;
      if groupPos == 0 {
        groupNo := groupNo + 1;
        if groupNo >= |selector| { return false; }
        groupPos := BZ_G_SIZE;
      }
      groupPos := groupPos - 1;
      midCode := false;
      ok := true;
    }

    /** What a symbol, or part of one, comes to. */
    ghost predicate Reached(reply: Reply, c: Ctl)
      reads this, syms, syms.seqToUnseq, syms.tt, syms.unzftab, syms.mtfa, syms.mtfbase
    {
      match reply
      case GoOn => Stands(c)
      case BlockEnd => c.Output? && syms.nblock == |c.column| && Emitted(c.column, syms.tt[..], syms.unzftab[..])
      case BadData => c == Failed(DataError)
    }

    /** A complete symbol: one turn of the symbol loop, and at its end the next code begins. */
    method TakeSymbol(sym: nat, level: nat, origPtr: nat, ghost t: Tables, ghost d: Decoder) returns (reply: Reply)
      requires Ready(t, d) && 0 <= groupNo < |t.selector| && sym < AlphaSize(t.inUse) && syms.nblockMAX == 100000 * level
      modifies this`groupNo, this`groupPos, this`midCode
      modifies syms`nblock, syms`inRun, syms`es, syms`N, syms`list, syms`s, syms.tt, syms.unzftab, syms.mtfa, syms.mtfbase
      ensures TablesOk(t) && |d.list| == 256
      ensures Reached(reply, OnSymbol(level, origPtr, t, old(groupNo), old(groupPos), d, sym))
      ensures Halfwords(old(syms.tt[..])) ==> Halfwords(syms.tt[..])
    {
      ghost var m, chars, verdict := Rank(t.inUse, 256), syms.seqToUnseq[..], OnSym(d, sym, syms.eob, syms.nblockMAX);
      SymbolUsed(d, sym, m, syms.nblockMAX);
      reply := syms.TakeSymbol(sym, d);
      assert syms.seqToUnseq[..] == chars;
      match reply {
        case GoOn =>
          var more := NextGroup(t, verdict.d);
          return if more then GoOn else BadData;
        case BlockEnd =>
          BlockColumn(t, chars, verdict.column);
          return if origPtr >= syms.nblock then BadData else BlockEnd;
        case BadData =>
      }
    }

    lemma ReadyParts(t: Tables, d: Decoder)
      requires Ready(t, d)
      ensures TablesOk(t) && selector == t.selector && Tabled(t, limit, base, perm, minLens, |t.lens|) && |d.list| == 256
    {
    }

    /** How many bits come next: the shortest length of the group's table, and then single bits. */
    method Need(ghost c: Ctl) returns (n: nat)
      requires Stands(c)
      ensures Ok(c) && !Stopped(c) && n == Parser.Need(c)
    {
      if midCode { return 1; }
      TableOf(c.tables, limit, base, perm, minLens, selector[groupNo]);
      n := minLens[selector[groupNo]];
    }

    /** The test of GET_MTF_VAL on the zn bits in zvec: no code is that long, they are a code,
        or one more bit is needed. */
    method TryCode(level: nat, origPtr: nat, ghost t: Tables, ghost d: Decoder) returns (reply: Reply)
      requires Ready(t, d) && 0 <= groupNo < |selector| && syms.nblockMAX == 100000 * level
      modifies this`groupNo, this`groupPos, this`midCode, this`zn
      modifies syms`nblock, syms`inRun, syms`es, syms`N, syms`list, syms`s, syms.tt, syms.unzftab, syms.mtfa, syms.mtfbase
      ensures TablesOk(t) && |d.list| == 256 && selector == t.selector
      ensures Reached(reply, OnCode(level, origPtr, t, old(groupNo), old(groupPos), d, old(zn), zvec))
      ensures Halfwords(old(syms.tt[..])) ==> Halfwords(syms.tt[..])
    {
      hide Ready, OnSymbol, OnCode, DecodeTables, Tabled, TablesOk, MinLen, MaxLen, GroupLens, AlphaSize, Rank, Lengths, Halfwords, Limit, Base;
      ReadyParts(t, d);
      GroupIn(t, groupNo);
      var gSel := selector[groupNo];
      TableOf(t, limit, base, perm, minLens, gSel);
      CodeByArrays(level, origPtr, t, groupNo, groupPos, d, zn, zvec, limit[gSel], base[gSel], perm[gSel]);
      if zn > LONGEST { return BadData; }
      if zvec <= limit[gSel][zn] {
        var place := zvec - base[gSel][zn];
        if place < 0 || place >= BZ_MAX_ALPHA_SIZE { return BadData; }
        reply := TakeSymbol(perm[gSel][place], level, origPtr, t, d);
      } else {
        zn, midCode := zn + 1, true;
        reply := GoOn;
      }
    }

    lemma StepReads(p: Parse, v: nat)
      requires Stands(p.ctl)
      ensures Reading(p.ctl)
      ensures var t, d := TablesOf(p.ctl), DecoderOf(p.ctl);
              && Ready(t, d) && TablesOk(t) && |d.list| == 256 && selector == t.selector && 0 <= groupNo < |selector|
              && Ok(p.ctl) && !Stopped(p.ctl) && selector[groupNo] < |minLens|
              && Step(p, v).ctl == OnCode(p.level, p.origPtr, t, groupNo, groupPos, d,
                                          if midCode then zn else minLens[selector[groupNo]], if midCode then 2 * zvec + v else v)
    {
      hide OnCode, DecodeTables, Tabled, OnlyUsed, MapsBack, Rank, MinLen, MaxLen, Lengths, SymbolDecoder.Holds;
      TableOf(p.ctl.tables, limit, base, perm, minLens, selector[groupNo]);
    }

    /** GET_MTF_VAL from the bits just read to the next it needs: the parser's step. */
    method Advance(v: nat, level: nat, origPtr: nat, ghost p: Parse) returns (reply: Reply)
      requires Stands(p.ctl) && level == p.level && origPtr == p.origPtr && syms.nblockMAX == 100000 * level
      modifies this`groupNo, this`groupPos, this`midCode, this`zn, this`zvec
      modifies syms`nblock, syms`inRun, syms`es, syms`N, syms`list, syms`s, syms.tt, syms.unzftab, syms.mtfa, syms.mtfbase
      ensures Ok(p.ctl) && !Stopped(p.ctl) && Reached(reply, Step(p, v).ctl)
      ensures Halfwords(old(syms.tt[..])) ==> Halfwords(syms.tt[..])
    {
      hide Ready, OnCode, Ok, Stopped, Step, TablesOk, Halfwords, TablesOf, DecoderOf, Stands;
      StepReads(p, v);
      if midCode {
        zvec := 2 * zvec + v;
      } else {
        zn, zvec := minLens[selector[groupNo]], v;
      }
      reply := TryCode(level, origPtr, TablesOf(p.ctl), DecoderOf(p.ctl));
    }
  }
}
