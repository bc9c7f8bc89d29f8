/** What BZ2_compressBlock (compress.c) writes: the stream header, a block, the trailer. */
module BlockWriter {
  import opened Words
  import opened Bits
  import opened BitStream
  import opened Permutations
  import opened Rotations
  import opened Transform
  import opened HuffmanCodes
  import opened MtfCoding
  import opened MtfEncoder
  import opened MtfRoundTrip
  import opened MtfSender
  import opened Parser
  import opened Printer
  import OutputSize
  import Sorting = BlockSort
  import Refinement = TableRefinement

  method PutHeader(w: BitWriter, level: nat)
    requires w.Valid() && 1 <= level <= 9
    modifies w
    ensures w.Valid() && w.Written() == old(w.Written()) + HeaderBits(level) && old(w.zbits) <= w.zbits
  {
    hide Buffered, AllWritten, BitsOf;
    w.PutUChar(0x42);
    w.PutUChar(0x5a);
    w.PutUChar(0x68);
    w.PutUChar(0x30 + level);
    Nest4(old(w.Written()), BitsOf(0x42, 8), BitsOf(0x5a, 8), BitsOf(0x68, 8), BitsOf(0x30 + level, 8));
  }

  lemma Nest4(x: seq<bool>, a: seq<bool>, b: seq<bool>, c: seq<bool>, d: seq<bool>)
    ensures x + a + b + c + d == x + (a + (b + (c + d)))
  {
  }

  lemma Nest6(x: seq<bool>, a: seq<bool>, b: seq<bool>, c: seq<bool>, d: seq<bool>, e: seq<bool>, f: seq<bool>)
    ensures x + a + b + c + d + e + f == x + (a + (b + (c + (d + (e + f)))))
  {
  }

  method PutMagic(w: BitWriter)
    requires w.Valid()
    modifies w
    ensures w.Valid() && w.Written() == old(w.Written()) + MagicBits() && old(w.zbits) <= w.zbits
  {
    hide Buffered, AllWritten, BitsOf;
    w.PutUChar(0x31);
    w.PutUChar(0x41);
    w.PutUChar(0x59);
    w.PutUChar(0x26);
    w.PutUChar(0x53);
    w.PutUChar(0x59);
    Nest6(old(w.Written()), BitsOf(0x31, 8), BitsOf(0x41, 8), BitsOf(0x59, 8), BitsOf(0x26, 8), BitsOf(0x53, 8), BitsOf(0x59, 8));
  }

  /** The trailer, and zeros to the end of the last byte. */
  method PutTrailer(w: BitWriter, crc: nat) returns (ghost pad: nat)
    requires w.Valid() && crc < Pow2(32)
    modifies w
    ensures pad < 8 && BytesBits(w.zbits) == old(w.Written()) + TrailerBits(crc) + BitsOf(0, pad) && old(w.zbits) <= w.zbits
    ensures w.bsLive <= 0
  {
    hide Buffered, AllWritten, BitsOf, Pow2;
    ghost var w0 := w.Written();
    w.PutUChar(0x17);
    w.PutUChar(0x72);
    w.PutUChar(0x45);
    w.PutUChar(0x38);
    w.PutUChar(0x50);
    w.PutUChar(0x90);
    ghost var w6 := w.Written();
    w.PutUInt32(crc);
    Nest6(w0, BitsOf(0x17, 8), BitsOf(0x72, 8), BitsOf(0x45, 8), BitsOf(0x38, 8), BitsOf(0x50, 8), BitsOf(0x90, 8));
    Nest7(w0, BitsOf(0x17, 8), BitsOf(0x72, 8), BitsOf(0x45, 8), BitsOf(0x38, 8), BitsOf(0x50, 8), BitsOf(0x90, 8), BitsOf(crc, 32));
    assert w.Written() == w0 + TrailerBits(crc);
    pad := w.FinishWrite();
  }

  lemma Nest7(x: seq<bool>, a: seq<bool>, b: seq<bool>, c: seq<bool>, d: seq<bool>, e: seq<bool>, f: seq<bool>, g: seq<bool>)
    ensures (x + (a + (b + (c + (d + (e + f)))))) + g == x + (a + (b + (c + (d + (e + (f + g))))))
  {
  }

  // ---------- the symbols of a block ----------

  function Halves(p: seq<nat>): (m: seq<nat>)
    ensures |m| == 2 * |p|
  {
    if p == [] then [] else Halves(p[..|p| - 1]) + [p[|p| - 1] % 0x1_0000, p[|p| - 1] / 0x1_0000]
  }

  lemma {:induction false} HalvesIntact(p: seq<nat>)
    ensures Intact(Halves(p), p, 0)
  {
    if p != [] {
      var init := p[..|p| - 1];
      HalvesIntact(init);
      forall k | 0 <= k < |p| ensures PtrAt(Halves(p), k) == p[k] {
        if k < |p| - 1 { assert PtrAt(Halves(init), k) == init[k]; }
      }
    }
  }

  /** generateMTFValues on the sorted rotations of a block: the symbols and how often each occurs. */
  method MakeSymbols(block: seq<byte>, p: seq<nat>, inUse: seq<bool>) returns (syms: seq<nat>, freq: seq<nat>)
    requires 0 < |block| == |p| && IsPerm(p, |block|) && UsedIn(block, inUse)
    ensures syms == BlockSymbols(block, p, inUse)
    ensures |inUse| == 256 && freq == Refinement.FreqOf(AlphaSize(inUse), syms)
  {
    hide IsPerm, UsedIn, Intact, MapsBack, BlockSymbols, Occurs, Tallied, Rank;
    HalvesIntact(p);
    UsedShape(block, inUse);
    var h := Halves(p);
    var n := |h|;
    var mem := new nat[n](i requires 0 <= i < n => h[i]);
    assert mem[..] == h;
    var m := |block|;
    var blockArray := new byte[m](i requires 0 <= i < m => block[i]);
    assert blockArray[..] == block;
    var inUseArray, unseqToSeq := new bool[256](i requires 0 <= i < 256 => inUse[i]), new nat[256];
    assert inUseArray[..] == inUse;
    var mtfFreq := new nat[BZ_MAX_ALPHA_SIZE];
    RankAtMost(inUse);
    var nInUse := MakeMapsE(inUseArray, unseqToSeq);
    var nMTF := GenerateMtfValues(mem, mtfFreq, blockArray, unseqToSeq, nInUse, m, p, inUse);
    syms, freq := mem[..nMTF], mtfFreq[..nInUse + 2];
    FreqIs(mtfFreq[..], syms, nInUse + 2);
  }

  lemma FreqIs(freq: seq<nat>, syms: seq<nat>, n: nat)
    requires Tallied(freq, syms, n)
    ensures n <= |freq| && freq[..n] == Refinement.FreqOf(n, syms)
  {
  }

  /** The end-of-block symbol occurs, and no symbol is outside the alphabet. */
  lemma EndOccurs(block: seq<byte>, p: seq<nat>, inUse: seq<bool>)
    requires 0 < |block| == |p| && UsedIn(block, inUse)
    ensures |inUse| == 256 && Occurs(BlockSymbols(block, p, inUse), AlphaSize(inUse) - 1) > 0
  {
  }

  lemma UsedShape(block: seq<byte>, inUse: seq<bool>)
    requires UsedIn(block, inUse)
    ensures |inUse| == 256
  {
  }

  // ---------- a block ----------

  lemma {:induction false} ColumnTables(t: Tables, u: Tables, syms: seq<nat>)
    requires |t.inUse| == 256 && t.inUse == u.inUse && SymsDecode(syms)
    ensures ColumnOf(t, syms) == ColumnOf(u, syms)
  {
  }

  /** The block b, with its rotations sorted by p, is sent as blk. */
  ghost predicate SentAs(b: seq<byte>, p: seq<nat>, blk: Block, level: nat) {
    && 0 < |b| && SortsRotations(b, p) && Sendable(blk, level)
    && blk.origPtr < |p| && p[blk.origPtr] == 0
    && |blk.tables.inUse| == 256 && ColumnOf(blk.tables, blk.syms) == LastColumn(b, p)
    && UsedIn(b, blk.tables.inUse) && blk.syms == BlockSymbols(b, p, blk.tables.inUse)
    && Refinement.Refined(AlphaSize(blk.tables.inUse), blk.syms, blk.tables.selector, blk.tables.lens)
  }

  lemma BlockSendable(b: seq<byte>, p: seq<nat>, inUse: seq<bool>, t: Tables, crc: nat, origPtr: nat, level: nat)
    requires 1 <= level <= 9 && 0 < |b| <= 100000 * level && crc < Pow2(32) && SortsRotations(b, p) && UsedIn(b, inUse)
    requires origPtr < |p| && p[origPtr] == 0 && t.inUse == inUse
    requires Refinement.Refined(AlphaSize(inUse), BlockSymbols(b, p, inUse), t.selector, t.lens)
    requires var syms := BlockSymbols(b, p, inUse); Coded(t, syms) && |t.lens| == GroupCount(|syms|) && 1 <= |t.selector| < 0x8000
    ensures SentAs(b, p, Block(crc, origPtr, t, BlockSymbols(b, p, inUse)), level)
  {
    var syms := BlockSymbols(b, p, inUse);
    BlockSymbolsFit(b, p, inUse);
    SymbolsRoundTrip(b, p, inUse);
    hide Refinement.Refined, BlockSymbols, Coded, BlockSyms, UsedIn, Rank, Finished, Column, LastColumn, SortedBy, Decode, Unseq, Pow2;
    ColumnTables(t, Tables(inUse, [], []), syms);
    FinishedLength(SymsDecoder(syms));
    ColumnLength(b, p, inUse);
    UsedShape(b, inUse);
  }

  lemma FinishedLength(d: Decoder)
    requires d.list != []
    ensures |Finished(d)| == Total(d)
  {
  }

  lemma ColumnLength(b: seq<byte>, p: seq<nat>, inUse: seq<bool>)
    requires |b| > 0 && UsedIn(b, inUse) && SortsRotations(b, p)
    ensures |Column(b, p, inUse)| == |b| == |p|
  {
  }

  /** A block: sorted, coded and written. */
  method PutBlock(w: BitWriter, block: seq<byte>, inUse: seq<bool>, crc: nat, level: nat, workFactor: int)
    returns (ghost blk: Block, ghost p: seq<nat>)
    requires w.Valid() && 1 <= level <= 9 && 0 < |block| <= 100000 * level && crc < Pow2(32) && UsedIn(block, inUse)
    modifies w
    ensures SentAs(block, p, blk, level) && blk.crc == crc && blk.tables.inUse == inUse
    ensures w.Valid() && w.Written() == old(w.Written()) + BlockBits(blk) && old(w.zbits) <= w.zbits
  {
    hide Refinement.Refined, Refinement.FreqOf, Occurs, Buffered, AllWritten, BitsOf, SentAs, UsedIn, SortsRotations, Pow2, MagicBits, DataBits, Choice, BlockSymbols, Coded;
    var ptr, origPtr := Sorting.BlockSort(block, workFactor);
    p := ptr;
    SortedIsPerm(block, ptr);
    UsedShape(block, inUse);
    PutMagic(w);
    w.PutUInt32(crc);
    OriginFits(origPtr, level);
    w.BsW(1, 0);
    w.BsW(24, origPtr);
    var syms, mtfFreq := MakeSymbols(block, ptr, inUse);
    SymbolsFit(block, ptr, inUse);
    EndOccurs(block, ptr, inUse);
    RankAtMost(inUse);
    var selector, lens := Refinement.RefineTables(mtfFreq, syms, AlphaSize(inUse));
    ChoiceShape(|syms|, AlphaSize(inUse), selector, lens);
    ghost var t := SendMtfValues(w, inUse, syms, selector, lens);
    blk := Block(crc, origPtr, t, syms);
    BlockSendable(block, ptr, inUse, t, crc, origPtr, level);
    Nest5(old(w.Written()), MagicBits(), BitsOf(crc, 32), BitsOf(0, 1), BitsOf(origPtr, 24), DataBits(t, syms));
    SentCoded(block, ptr, blk, level);
  }

  lemma ChoiceShape(nMTF: nat, alphaSize: nat, selector: seq<nat>, lens: seq<seq<byte>>)
    requires Choice(nMTF, alphaSize, selector, lens)
    ensures |lens| == GroupCount(nMTF)
  {
  }

  lemma SentCoded(b: seq<byte>, p: seq<nat>, blk: Block, level: nat)
    requires SentAs(b, p, blk, level)
    ensures Coded(blk.tables, blk.syms)
  {
  }

  lemma SentCount(b: seq<byte>, p: seq<nat>, blk: Block, level: nat)
    requires SentAs(b, p, blk, level)
    ensures |blk.syms| <= |b| + 1
  {
    hide Coded, BlockSyms;
    OutputSize.SymbolCount(blk.tables, blk.syms);
  }

  lemma SortedIsPerm(b: seq<byte>, p: seq<nat>)
    requires |b| > 0 && SortsRotations(b, p)
    ensures IsPerm(p, |b|) && |p| == |b|
  {
  }

  lemma SymbolsFit(b: seq<byte>, p: seq<nat>, inUse: seq<bool>)
    requires 0 < |b| == |p| <= 900000 && UsedIn(b, inUse)
    ensures var syms := BlockSymbols(b, p, inUse);
            |inUse| == 256 && 0 < |syms| <= 900001 && forall k :: 0 <= k < |syms| ==> syms[k] < AlphaSize(inUse)
  {
    BlockSymbolsFit(b, p, inUse);
  }

  lemma OriginFits(origPtr: nat, level: nat)
    requires level <= 9 && origPtr < 100000 * level
    ensures origPtr < Pow2(24) && 0 < Pow2(1)
  {
    OrigPtrFits(origPtr, level);
  }

  lemma Nest5(x: seq<bool>, a: seq<bool>, b: seq<bool>, c: seq<bool>, d: seq<bool>, e: seq<bool>)
    ensures x + a + b + c + d + e == x + (a + (b + (c + (d + e))))
  {
  }
}
