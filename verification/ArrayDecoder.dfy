/** The parser's steps on the symbols of a block (decompress.c): the tables of huffman.c hold
    what the parser computes from the lengths, and every block that the parser delivers comes
    from the symbols it has read. */
module ArrayDecoder {
  import opened Words
  import opened Bits
  import opened Transform
  import opened HuffmanCodes
  import opened MtfCoding
  import opened MtfEncoder
  import opened MtfDecoder
  import opened Parser

  // ---------- the decoding tables ----------

  lemma PermIs(lens: seq<byte>, k: nat, i: nat, j: nat)
    requires i <= j < |lens| && Slot(lens, j) == k
    ensures Perm(lens, k, i) == j
    decreases j - i
  {
    if i < j {
      if Slot(lens, i) == k {
        OriginSlot(lens, i);
        OriginSlot(lens, j);
      }
      PermIs(lens, k, i + 1, j);
    }
  }

  /** Filled for a table's shortest and longest length, limit, base and perm hold what the
      parser computes, at every length and every place of a symbol. */
  lemma TablesHold(lens: seq<byte>, limit: seq<int>, base: seq<int>, perm: seq<int>)
    requires DecodeTables(lens, limit, base, perm, MinLen(lens), MaxLen(lens))
    ensures forall n: nat :: n <= LONGEST ==> limit[n] == Limit(lens, n) && base[n] == Base(lens, n)
    ensures forall k: nat :: k < |lens| ==> perm[k] == Perm(lens, k, 0)
  {
    hide Slot, First, Perm;
    forall k: nat | k < |lens| ensures perm[k] == Perm(lens, k, 0) {
      var i := Origin(lens, k);
      PermIs(lens, k, 0, i);
      assert perm[Slot(lens, i)] == i;
    }
  }

  /** The places that are read are places of symbols. */
  lemma PlaceInRange(lens: seq<byte>, n: nat, zvec: nat)
    requires Lengths(lens) && n <= LONGEST && zvec <= Limit(lens, n) && 0 <= zvec - Base(lens, n)
    ensures zvec - Base(lens, n) < |lens|
  {
    hide First;
    LenRange(lens);
    CountNext(lens, n);
    CountLessMonotone(lens, n + 1, n + 1);
    if n > MaxLen(lens) {
      CountLessAll(lens);
    }
  }

  /** The loop of GET_MTF_VAL over the arrays is the parser's step, with every index in range. */
  lemma CodeByArrays(level: nat, origPtr: nat, t: Tables, groupNo: nat, groupPos: nat, d: Decoder, zn: nat, zvec: nat,
                     limit: seq<int>, base: seq<int>, perm: seq<int>)
    requires TablesOk(t) && |d.list| == 256 && groupNo < |t.selector|
    requires var lens := GroupLens(t, groupNo); DecodeTables(lens, limit, base, perm, MinLen(lens), MaxLen(lens))
    ensures zn <= LONGEST && zvec <= limit[zn] && 0 <= zvec - base[zn] < BZ_MAX_ALPHA_SIZE ==> 0 <= perm[zvec - base[zn]] < AlphaSize(t.inUse)
    ensures OnCode(level, origPtr, t, groupNo, groupPos, d, zn, zvec) ==
            if zn > LONGEST then Failed(DataError)
            else if zvec <= limit[zn] then
              if zvec - base[zn] < 0 || zvec - base[zn] >= BZ_MAX_ALPHA_SIZE then Failed(DataError)
              else OnSymbol(level, origPtr, t, groupNo, groupPos, d, perm[zvec - base[zn]])
            else Mtf2(t, groupNo, groupPos, d, zn + 1, zvec)
  {
    hide OnSymbol, Limit, Base, Perm, DecodeTables;
    var lens := GroupLens(t, groupNo);
    TablesSized(lens, limit, base, perm);
    TablesHold(lens, limit, base, perm);
    if zn <= LONGEST && zvec <= Limit(lens, zn) && 0 <= zvec - Base(lens, zn) {
      PlaceInRange(lens, zn, zvec);
    }
  }

  lemma TablesSized(lens: seq<byte>, limit: seq<int>, base: seq<int>, perm: seq<int>)
    requires DecodeTables(lens, limit, base, perm, MinLen(lens), MaxLen(lens))
    ensures |limit| > LONGEST && |base| > LONGEST && |perm| >= BZ_MAX_ALPHA_SIZE >= |lens|
  {
  }

  // ---------- the symbols of a block ----------

  /** The end-of-block symbol. */
  function Eob(t: Tables): nat
    requires |t.inUse| == 256
  {
    Rank(t.inUse, 256) + 1
  }

  /** Symbols of the block's alphabet, the last of them and no other the end of the block. */
  ghost predicate Received(syms: seq<nat>, eob: nat) {
    SymsOk(syms, eob) && forall k :: 0 <= k < |syms| ==> syms[k] <= eob
  }

  /** These symbols, and no others, take the decoder d to the block c. */
  ghost predicate Delivers(syms: seq<nat>, t: Tables, d: Decoder, level: nat, origPtr: nat, c: Ctl) {
    && |t.inUse| == 256 && |d.list| == 256 && Received(syms, Eob(t)) && Allowed(syms, Eob(t), 256)
    && var v := Judge(d, syms, Eob(t), 100000 * level);
       v.Done? && origPtr < |v.column| && c == Output(Unseq(t.inUse, v.column))
  }

  /** What a state that is reading symbols goes by. */
  predicate Reading(c: Ctl) { c.Mtf1? || c.Mtf2? }

  function TablesOf(c: Ctl): Tables
    requires Reading(c)
  {
    c.tables
  }

  function DecoderOf(c: Ctl): Decoder
    requires Reading(c)
  {
    c.d
  }

  /** A step of the parser that reads a symbol, or part of one. */
  lemma SymbolRead(level: nat, origPtr: nat, t: Tables, groupNo: nat, groupPos: nat, d: Decoder, zn: nat, zvec: nat) returns (sym: nat)
    requires TablesOk(t) && |d.list| == 256 && groupNo < |t.selector|
    ensures sym < AlphaSize(t.inUse)
    ensures var c := OnCode(level, origPtr, t, groupNo, groupPos, d, zn, zvec);
            || c.Failed?
            || (c.Mtf2? && c.tables == t && c.d == d)
            || (Reading(c) && TablesOf(c) == t && OnSym(d, sym, Eob(t), 100000 * level) == More(DecoderOf(c)))
            || (var v := OnSym(d, sym, Eob(t), 100000 * level);
                v.Done? && origPtr < |v.column| && c == Output(Unseq(t.inUse, v.column)))
  {
    hide Limit, Base, DecodeStep, Unseq;
    var lens := GroupLens(t, groupNo);
    RankAtMost(t.inUse);
    sym := 0;
    if zn <= LONGEST && zvec <= Limit(lens, zn) && 0 <= zvec - Base(lens, zn) {
      sym := Perm(lens, zvec - Base(lens, zn), 0);
    }
  }

  lemma LastSymbol(t: Tables, d: Decoder, level: nat, origPtr: nat, sym: nat, c: Ctl)
    requires |t.inUse| == 256 && |d.list| == 256 && Rank(t.inUse, 256) > 0 && sym < AlphaSize(t.inUse)
    requires var v := OnSym(d, sym, Eob(t), 100000 * level);
             v.Done? && origPtr < |v.column| && c == Output(Unseq(t.inUse, v.column))
    ensures Delivers([sym], t, d, level, origPtr, c)
  {
    RankAtMost(t.inUse);
    hide Unseq;
  }

  lemma OneSymbol(t: Tables, d: Decoder, d': Decoder, level: nat, origPtr: nat, sym: nat, syms: seq<nat>, c: Ctl)
    requires |t.inUse| == 256 && |d.list| == 256 && Rank(t.inUse, 256) > 0 && sym < AlphaSize(t.inUse)
    requires OnSym(d, sym, Eob(t), 100000 * level) == More(d') && Delivers(syms, t, d', level, origPtr, c)
    ensures Delivers([sym] + syms, t, d, level, origPtr, c)
  {
    hide Unseq, DecodeStep;
    RankAtMost(t.inUse);
    var all := [sym] + syms;
    assert all[1..] == syms;
    assert forall k :: 0 < k < |all| ==> all[k] == syms[k - 1];
  }

  /** Every block that the parser delivers is delivered by the symbols it has read, on the plain
      list; whatever the tables. */
  lemma {:induction false} BlockFromSymbols(p: Parse, bits: seq<bool>) returns (syms: seq<nat>)
    requires Ok(p.ctl) && Reading(p.ctl) && Rank(TablesOf(p.ctl).inUse, 256) > 0 && Feed(p, bits).0.ctl.Output?
    ensures Delivers(syms, TablesOf(p.ctl), DecoderOf(p.ctl), p.level, p.origPtr, Feed(p, bits).0.ctl)
    ensures Feed(p, bits).0.level == p.level && Feed(p, bits).0.origPtr == p.origPtr
    decreases |bits|
  {
    hide Delivers, OnCode, OnSym, Unseq, AlphaSize, Need;
    var n := Need(p.ctl);
    var v := ValueOf(bits[..n]);
    var t, d := TablesOf(p.ctl), DecoderOf(p.ctl);
    var g, pos := p.ctl.groupNo, p.ctl.groupPos;
    var zn := if p.ctl.Mtf1? then MinLen(GroupLens(t, g)) else p.ctl.zn;
    var zvec := if p.ctl.Mtf1? then v else 2 * p.ctl.zvec + v;
    var sym := SymbolRead(p.level, p.origPtr, t, g, pos, d, zn, zvec);
    var q := p.(ctl := OnCode(p.level, p.origPtr, t, g, pos, d, zn, zvec));
    assert q == Step(p, v);
    hide Step;
    if q.ctl.Output? {
      LastSymbol(t, d, p.level, p.origPtr, sym, q.ctl);
      syms := [sym];
    } else {
      var rest := BlockFromSymbols(q, bits[n..]);
      if q.ctl.Mtf2? && q.ctl.tables == t && q.ctl.d == d {
        syms := rest;
      } else {
        OneSymbol(t, d, DecoderOf(q.ctl), p.level, p.origPtr, sym, rest, Feed(p, bits).0.ctl);
        syms := [sym] + rest;
      }
    }
  }

  /** Before the symbols: some character is in use once the map has been read. */
  predicate Before(c: Ctl) {
    match c
    case Selector1(inUse) => |inUse| == 256 && Rank(inUse, 256) > 0
    case Selector2(inUse, _) => |inUse| == 256 && Rank(inUse, 256) > 0
    case Selector3(inUse, _, _, _, _) => |inUse| == 256 && Rank(inUse, 256) > 0
    case Coding1(inUse, _, _, _) => |inUse| == 256 && Rank(inUse, 256) > 0
    case Coding2(inUse, _, _, _, _, _) => |inUse| == 256 && Rank(inUse, 256) > 0
    case Coding3(inUse, _, _, _, _, _) => |inUse| == 256 && Rank(inUse, 256) > 0
    case Mtf1(_, _, _, _) => false
    case Mtf2(_, _, _, _, _, _) => false
    case Output(_) => false
    case _ => true
  }

  lemma {:induction false} RowsUsed(used16: seq<bool>, inUse: seq<bool>)
    requires |used16| == 16 && |inUse| <= 256
    ensures Before(Rows(used16, inUse))
    decreases 256 - |inUse|
  {
    hide Rank;
    if |inUse| < 256 && |inUse| % 16 == 0 && !used16[|inUse| / 16] {
      RowsUsed(used16, inUse + seq(16, _ => false));
    }
  }

  lemma StepBefore(p: Parse, v: nat)
    requires Ok(p.ctl) && !Stopped(p.ctl) && Before(p.ctl)
    ensures var c := Step(p, v).ctl;
            Before(c) || (c.Mtf1? && Rank(c.tables.inUse, 256) > 0 && c == Mtf1(c.tables, 0, BZ_G_SIZE - 1, Decoder(Iota(256), 0, 1, [])))
  {
    hide Rank, UndoSelectors, Rows;
    match p.ctl
    case Mapping1(used16) => if |used16| == 15 { RowsUsed(used16 + [v == 1], []); }
    case Mapping2(used16, inUse) => RowsUsed(used16, inUse + [v == 1]);
    case _ =>
  }

  /** From the start of a block: whatever block is delivered is what some symbols, read with
      the block's tables, deliver on the plain list. */
  lemma {:induction false} BlockDelivered(p: Parse, bits: seq<bool>) returns (t: Tables, syms: seq<nat>)
    requires Ok(p.ctl) && Before(p.ctl) && Feed(p, bits).0.ctl.Output?
    ensures var q := Feed(p, bits).0; Delivers(syms, t, Decoder(Iota(256), 0, 1, []), q.level, q.origPtr, q.ctl)
    decreases |bits|
  {
    hide Delivers, Need, Step, Rank;
    var n := Need(p.ctl);
    var v := ValueOf(bits[..n]);
    var q := Step(p, v);
    StepBefore(p, v);
    if Reading(q.ctl) {
      t := TablesOf(q.ctl);
      syms := BlockFromSymbols(q, bits[n..]);
    } else {
      t, syms := BlockDelivered(q, bits[n..]);
    }
  }

  // ---------- what is written ----------

  /** The first m characters of the list are those below m. */
  ghost predicate Within(s: seq<nat>, m: nat) { forall k :: 0 <= k < |s| ==> s[k] < m }

  lemma MoveWithin(list: seq<nat>, j: nat, m: nat)
    requires j < m <= |list| && Within(list[..m], m)
    ensures list[j] < m && Within(MoveToFront(list, j)[..m], m)
  {
    assert list[..m][j] == list[j];
    var moved := MoveToFront(list, j);
    forall k | 0 <= k < m ensures moved[k] < m {
      assert moved[k] == if k == 0 then list[j] else if k <= j then list[..m][k - 1] else list[..m][k];
    }
  }

  /** The m characters in use come first in the list, and no others have been written. */
  ghost predicate OnlyUsed(d: Decoder, m: nat) {
    0 < m <= 256 == |d.list| && Within(d.list[..m], m) && Within(d.out, m)
  }

  lemma OnlyUsedStart(m: nat)
    requires 0 < m <= 256
    ensures OnlyUsed(Decoder(Iota(256), 0, 1, []), m)
  {
  }

  /** Only characters in use are written. */
  lemma SymbolUsed(d: Decoder, sym: nat, m: nat, max: nat)
    requires OnlyUsed(d, m) && sym <= m + 1
    ensures var v := OnSym(d, sym, m + 1, max);
            (v.More? ==> OnlyUsed(v.d, m)) && (v.Done? ==> Within(v.column, m))
  {
    assert d.list[..m][0] == d.list[0];
    if 2 <= sym <= m { MoveWithin(d.list, sym - 1, m); }
  }

  lemma {:induction false} UsedCharIs(inUse: seq<bool>, m: seq<byte>, k: nat, c: nat)
    requires MapsBack(inUse, m, 256) && k < Rank(inUse, 256) && c <= 256 && Rank(inUse, c) <= k
    ensures UsedChar(inUse, k, c) == m[k]
    decreases 256 - c
  {
    if c < 256 && !(inUse[c] && Rank(inUse, c) == k) {
      UsedCharIs(inUse, m, k, c + 1);
    }
  }
}
