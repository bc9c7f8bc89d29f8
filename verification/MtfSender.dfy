/** What sendMTFValues (compress.c) writes: from any choice of a table for each group of fifty
    symbols, the codes and the bits of the block. */
module MtfSender {
  import opened Words
  import opened Bits
  import opened BitStream
  import opened HuffmanCodes
  import Lengths = HuffmanLengths
  import Trees = HuffmanTrees
  import opened MtfCoding
  import opened MtfEncoder
  import opened Parser
  import opened Printer

  /** How many coding tables: by the number of symbols. */
  function GroupCount(nMTF: nat): (n: nat)
    ensures 2 <= n <= BZ_N_GROUPS
  {
    if nMTF < 200 then 2 else if nMTF < 600 then 3 else if nMTF < 1200 then 4 else if nMTF < 2400 then 5 else 6
  }

  function Sum(freq: seq<nat>): nat {
    if freq == [] then 0 else Sum(freq[..|freq| - 1]) + freq[|freq| - 1]
  }

  /** Code lengths that can be sent. */
  ghost predicate CodeLengths(lens: seq<byte>, alphaSize: nat) {
    && |lens| == alphaSize && HuffmanCodes.Lengths(lens) && Kraft(lens) && forall i :: 0 <= i < alphaSize ==> lens[i] <= 17
  }

  /** What the passes that improve the tables must leave: a table for every group. */
  ghost predicate Choice(nMTF: nat, alphaSize: nat, selector: seq<nat>, lens: seq<seq<byte>>) {
    && |lens| == GroupCount(nMTF)
    && nMTF <= BZ_G_SIZE * |selector| < nMTF + BZ_G_SIZE
    && (forall k :: 0 <= k < |selector| ==> selector[k] < |lens|)
    && forall t :: 0 <= t < |lens| ==> CodeLengths(lens[t], alphaSize)
  }

  lemma {:induction false} TotalOfWeights(freq: seq<nat>, n: nat)
    requires n <= |freq|
    ensures Trees.Total(Lengths.Weights(freq), n) <= Sum(freq[..n]) + n
  {
    if n > 0 {
      TotalOfWeights(freq, n - 1);
      assert freq[..n][..n - 1] == freq[..n - 1];
    }
  }

  // ---------- lengths and codes ----------

  method TableLengths(freq: seq<nat>, alphaSize: nat) returns (lens: seq<byte>)
    requires 2 <= alphaSize == |freq| <= BZ_MAX_ALPHA_SIZE && Sum(freq) <= 900001
    ensures CodeLengths(lens, alphaSize)
    ensures exists k: nat :: Lengths.HalvedAsNeeded(Lengths.Weights(freq), k, lens, 17)
  {
    hide Lengths.HalvedAsNeeded, Lengths.Weights, Trees.Total, Trees.Fib, Sum, Share, Pow2;
    var len, rfreq := new byte[alphaSize], new nat[alphaSize](i requires 0 <= i < alphaSize => freq[i]);
    assert rfreq[..] == freq;
    TotalOfWeights(freq, alphaSize);
    assert freq[..alphaSize] == freq;
    Lengths.MakeCodeLengths(len, rfreq, alphaSize, 17);
    assert len[..alphaSize] == len[..];
    lens := len[..];
  }

  /** `BZ2_hbAssignCodes` for one table; its assertions 3004 and 3005 hold. */
  method TableCodes(lens: seq<byte>) returns (codes: seq<int>)
    requires HuffmanCodes.Lengths(lens) && forall i :: 0 <= i < |lens| ==> lens[i] <= 17
    ensures |codes| == |lens| && forall i :: 0 <= i < |lens| ==> codes[i] == Code(lens, i)
  {
    hide Code;
    var minLen, maxLen := 32, 0;
    for i := 0 to |lens|
      invariant 1 <= minLen <= 32 && 0 <= maxLen <= 17 && (i > 0 ==> minLen <= maxLen)
      invariant forall k :: 0 <= k < i ==> minLen <= lens[k] <= maxLen
    {
      if lens[i] > maxLen { maxLen := lens[i]; }
      if lens[i] < minLen { minLen := lens[i]; }
    }
    assert maxLen <= 17 && minLen >= 1;  // AssertH 3004, 3005
    var n := |lens|;
    var length, code := new byte[n](i requires 0 <= i < n => lens[i]), new int[n];
    assert length[..] == lens && length[..n] == lens;
    AssignCodes(code, length, minLen, maxLen, n);
    codes := code[..];
  }

  // ---------- the selectors ----------

  /** The place of a table in the list, and the table moved to the front. */
  method FindSelector(pos: array<nat>, x: nat) returns (j: nat)
    requires x in pos[..]
    modifies pos
    ensures j < pos.Length && j == IndexOf(old(pos[..]), x) && pos[..] == MoveToFront(old(pos[..]), j)
  {
    ghost var y0 := pos[..];
    ghost var at :| 0 <= at < |y0| && y0[at] == x;
    j := 0;
    var tmp := pos[j];
    while x != tmp
      invariant j < |y0| && tmp == y0[j] && |pos[..]| == |y0|
      invariant j == 0 ==> pos[..] == y0
      invariant j > 0 ==> Shifted(y0, pos[..], j)
      invariant forall k :: 0 <= k < j ==> y0[k] != x
      decreases |y0| - j
    {
      j := j + 1;
      var tmp2 := tmp;
      tmp := pos[j];
      pos[j] := tmp2;
    }
    FirstIndex(y0, x, j);
    ghost var y := pos[..];
    if j > 0 { ShiftedMoves(y0, y, j, x); } else { assert MoveToFront(y0, 0) == y0; }
    pos[0] := tmp;
    assert pos[..] == y[0 := x];
  }

  method CodeSelectorList(selector: seq<nat>, nGroups: nat) returns (mtf: seq<nat>)
    requires forall k :: 0 <= k < |selector| ==> selector[k] < nGroups
    ensures forall k :: 0 <= k < |selector| ==> selector[k] in Iota(nGroups)
    ensures mtf == CodeSelectors(selector, Iota(nGroups))
  {
    var pos := new nat[nGroups](i => i);
    assert pos[..] == Iota(nGroups);
    forall k | 0 <= k < |selector| ensures selector[k] in Iota(nGroups) {
      assert Iota(nGroups)[selector[k]] == selector[k];
    }
    hide CodeSelectors, MoveToFront, IndexOf;
    mtf := [];
    ghost var all := CodeSelectors(selector, Iota(nGroups));
    assert selector[0..] == selector;
    for i := 0 to |selector|
      invariant forall k :: i <= k < |selector| ==> selector[k] in pos[..]
      invariant mtf + CodeSelectors(selector[i..], pos[..]) == all
    {
      NextSelectorCode(selector, i, pos[..]);
      var j := FindSelector(pos, selector[i]);
      mtf := mtf + [j];
    }
    NoSelectorCode(selector, pos[..]);
    assert mtf + [] == mtf;
  }

  lemma NextSelectorCode(selector: seq<nat>, i: nat, list: seq<nat>)
    requires i < |selector| && forall k :: i <= k < |selector| ==> selector[k] in list
    ensures var j := IndexOf(list, selector[i]);
            && (forall k :: i + 1 <= k < |selector| ==> selector[k] in MoveToFront(list, j))
            && CodeSelectors(selector[i..], list) == [j] + CodeSelectors(selector[i + 1..], MoveToFront(list, j))
  {
    SameMembers(list, IndexOf(list, selector[i]));
    assert selector[i..][1..] == selector[i + 1..] && selector[i..][0] == selector[i];
  }

  lemma NoSelectorCode(selector: seq<nat>, list: seq<nat>)
    ensures CodeSelectors(selector[|selector|..], list) == []
  {
  }

  // ---------- writing ----------

  /** One bit. */
  method PutBit(w: BitWriter, b: bool)
    requires w.Valid()
    modifies w
    ensures w.Valid() && w.Written() == old(w.Written()) + [b] && old(w.zbits) <= w.zbits
  {
    hide Buffered, AllWritten;
    OneBit(b);
    w.BsW(1, if b then 1 else 0);
  }

  /** Which rows of sixteen characters are sent at all. */
  method FindUsedRows(inUse: seq<bool>) returns (inUse16: seq<bool>)
    requires |inUse| == 256
    ensures inUse16 == UsedRows(inUse)
  {
    inUse16 := [];
    for i := 0 to 16
      invariant |inUse16| == i
      invariant forall k :: 0 <= k < i ==> inUse16[k] == RowUsed(inUse, k)
    {
      var any := false;
      for j := 0 to 16
        invariant any == (true in inUse[16 * i..16 * i + j])
      {
        assert inUse[16 * i..16 * i + j + 1] == inUse[16 * i..16 * i + j] + [inUse[16 * i + j]];
        if inUse[i * 16 + j] { any := true; }
      }
      inUse16 := inUse16 + [any];
    }
  }

  /** A row of bits, one at a time. */
  method PutBits(w: BitWriter, bits: seq<bool>)
    requires w.Valid()
    modifies w
    ensures w.Valid() && w.Written() == old(w.Written()) + bits && old(w.zbits) <= w.zbits
  {
    hide Buffered, AllWritten;
    ghost var w0, z0 := w.Written(), w.zbits;
    for j := 0 to |bits|
      invariant w.Valid() && z0 <= w.zbits && w.Written() == w0 + bits[..j]
    {
      assert bits[..j + 1] == bits[..j] + [bits[j]];
      PutBit(w, bits[j]);
    }
    assert bits[..|bits|] == bits;
  }

  method PutMap(w: BitWriter, inUse: seq<bool>)
    requires w.Valid() && |inUse| == 256
    modifies w
    ensures w.Valid() && w.Written() == old(w.Written()) + MapBits(inUse) && old(w.zbits) <= w.zbits
  {
    hide Buffered, AllWritten;
    hide RowUsed, RowBits;
    ghost var all, z0 := w.Written() + MapBits(inUse), w.zbits;
    var inUse16 := FindUsedRows(inUse);
    PutBits(w, inUse16);
    Associate(old(w.Written()), inUse16, RowBits(inUse, 0));
    for i := 0 to 16
      invariant w.Valid() && z0 <= w.zbits && w.Written() + RowBits(inUse, i) == all
    {
      RowsLeft(inUse, i, w.Written());
      if inUse16[i] { PutBits(w, inUse[i * 16..i * 16 + 16]); }
    }
    RowsLeft(inUse, 16, w.Written());
  }

  lemma RowsLeft(inUse: seq<bool>, i: nat, w: seq<bool>)
    requires |inUse| == 256 && i <= 16
    ensures i == 16 ==> w + RowBits(inUse, i) == w
    ensures i < 16 && RowUsed(inUse, i) ==> w + RowBits(inUse, i) == (w + inUse[i * 16..i * 16 + 16]) + RowBits(inUse, i + 1)
    ensures i < 16 && !RowUsed(inUse, i) ==> w + RowBits(inUse, i) == w + RowBits(inUse, i + 1)
  {
    RowBitsAt(inUse, i);
    hide RowBits, RowUsed;
    if i < 16 { Associate(w, inUse[i * 16..i * 16 + 16], RowBits(inUse, i + 1)); }
  }

  lemma RowBitsAt(inUse: seq<bool>, i: nat)
    requires |inUse| == 256 && i <= 16
    ensures RowBits(inUse, i) ==
            if i == 16 then [] else if RowUsed(inUse, i) then inUse[i * 16..i * 16 + 16] + RowBits(inUse, i + 1) else RowBits(inUse, i + 1)
  {
    hide RowUsed;
    if i < 16 { assert [] + RowBits(inUse, i + 1) == RowBits(inUse, i + 1); }
  }

  method PutSelectors(w: BitWriter, mtf: seq<nat>)
    requires w.Valid()
    modifies w
    ensures w.Valid() && w.Written() == old(w.Written()) + SelectorBits(mtf) && old(w.zbits) <= w.zbits
  {
    hide Buffered, AllWritten;
    hide SelectorBits, Unary;
    ghost var all, z0 := w.Written() + SelectorBits(mtf), w.zbits;
    assert mtf[0..] == mtf;
    for i := 0 to |mtf|
      invariant w.Valid() && z0 <= w.zbits && w.Written() + SelectorBits(mtf[i..]) == all
    {
      NextUnary(mtf, i);
      ghost var rest := SelectorBits(mtf[i + 1..]);
      for j := 0 to mtf[i]
        invariant w.Valid() && z0 <= w.zbits && w.Written() + (Unary(mtf[i] - j) + rest) == all
      {
        UnaryNext(mtf[i] - j);
        assert Unary(mtf[i] - j) + rest == [true] + (Unary(mtf[i] - (j + 1)) + rest);
        PutBit(w, true);
      }
      UnaryNext(0);
      PutBit(w, false);
    }
    NoSelectors(mtf);
    assert w.Written() + [] == w.Written();
  }

  lemma NextUnary(mtf: seq<nat>, i: nat)
    requires i < |mtf|
    ensures SelectorBits(mtf[i..]) == Unary(mtf[i] - 0) + SelectorBits(mtf[i + 1..])
  {
    assert mtf[i..][1..] == mtf[i + 1..];
  }

  lemma UnaryNext(k: nat)
    ensures Unary(k) == if k == 0 then [false] else [true] + Unary(k - 1)
  {
  }

  lemma NoSelectors(mtf: seq<nat>)
    ensures SelectorBits(mtf[|mtf|..]) == []
  {
  }

  /** The steps from one length to the next. */
  method PutLen(w: BitWriter, curr0: nat, len: nat)
    requires w.Valid()
    modifies w
    ensures w.Valid() && w.Written() == old(w.Written()) + LenBits(curr0, len) && old(w.zbits) <= w.zbits
  {
    hide Buffered, AllWritten, BitsOf;
    hide LenBits;
    ghost var all, z0 := w.Written() + LenBits(curr0, len), w.zbits;
    TwoBits();
    var curr := curr0;
    while curr < len
      invariant curr <= len || curr == curr0
      invariant w.Valid() && z0 <= w.zbits && w.Written() + LenBits(curr, len) == all
    {
      LenNext(curr, len);
      w.BsW(2, 2);
      curr := curr + 1;
    }
    while curr > len
      invariant curr >= len
      invariant w.Valid() && z0 <= w.zbits && w.Written() + LenBits(curr, len) == all
    {
      LenNext(curr, len);
      w.BsW(2, 3);
      curr := curr - 1;
    }
    LenNext(curr, len);
    PutBit(w, false);
  }

  lemma TwoBits()
    ensures BitsOf(2, 2) == [true, false] && BitsOf(3, 2) == [true, true] && Pow2(2) == 4
  {
    assert BitsOf(1, 1) == BitsOf(0, 0) + [true];
    assert BitsOf(2, 2) == BitsOf(1, 1) + [false] && BitsOf(3, 2) == BitsOf(1, 1) + [true];
  }

  lemma LenNext(curr: nat, len: nat)
    ensures LenBits(curr, len) ==
            if curr < len then [true, false] + LenBits(curr + 1, len) else if curr > len then [true, true] + LenBits(curr - 1, len) else [false]
  {
  }

  method PutTable(w: BitWriter, lens: seq<byte>)
    requires w.Valid() && HuffmanCodes.Lengths(lens)
    modifies w
    ensures w.Valid() && w.Written() == old(w.Written()) + TableBits(lens) && old(w.zbits) <= w.zbits
  {
    hide Buffered, AllWritten;
    hide LensBits, LenBits, BitsOf;
    ghost var all, z0 := w.Written() + TableBits(lens), w.zbits;
    var curr := lens[0];
    assert Pow2(5) == 32;
    w.BsW(5, curr);
    for i := 0 to |lens|
      invariant w.Valid() && z0 <= w.zbits && w.Written() + LensBits(curr, lens, i) == all
    {
      LensNext(curr, lens, i);
      PutLen(w, curr, lens[i]);
      curr := lens[i];
    }
    LensNext(curr, lens, |lens|);
    assert w.Written() + [] == w.Written();
  }

  lemma LensNext(curr: nat, lens: seq<byte>, i: nat)
    requires i <= |lens|
    ensures LensBits(curr, lens, i) == if i == |lens| then [] else LenBits(curr, lens[i]) + LensBits(lens[i], lens, i + 1)
  {
  }

  method PutTables(w: BitWriter, lens: seq<seq<byte>>)
    requires w.Valid() && forall k :: 0 <= k < |lens| ==> HuffmanCodes.Lengths(lens[k]) && lens[k] != []
    modifies w
    ensures w.Valid() && w.Written() == old(w.Written()) + TablesBits(lens, 0) && old(w.zbits) <= w.zbits
  {
    hide Buffered, AllWritten;
    hide TableBits;
    ghost var all, z0 := w.Written() + TablesBits(lens, 0), w.zbits;
    for t := 0 to |lens|
      invariant w.Valid() && z0 <= w.zbits && w.Written() + TablesBits(lens, t) == all
    {
      PutTable(w, lens[t]);
    }
    assert w.Written() + [] == w.Written();
  }

  /** The codes of the symbols, group by group; assertions 3006 and 3007 hold. */
  method PutCodes(w: BitWriter, t: Tables, codes: seq<seq<int>>, mtfv: seq<nat>)
    requires w.Valid() && Coded(t, mtfv) && BZ_G_SIZE * |t.selector| < |mtfv| + BZ_G_SIZE
    requires |codes| == |t.lens| && forall k :: 0 <= k < |codes| ==>
               |codes[k]| == |t.lens[k]| && forall i :: 0 <= i < |codes[k]| ==> codes[k][i] == Code(t.lens[k], i)
    modifies w
    ensures w.Valid() && w.Written() == old(w.Written()) + CodesBits(t, mtfv, 0) && old(w.zbits) <= w.zbits
  {
    hide Buffered, AllWritten;
    hide CodesBits, CodeBits, Coded, Code;
    ghost var all, z0 := w.Written() + CodesBits(t, mtfv, 0), w.zbits;
    var selCtr: nat, gs: nat := 0, 0;
    while gs < |mtfv|
      invariant w.Valid() && z0 <= w.zbits && gs <= |mtfv|
      invariant gs < |mtfv| ==> gs == BZ_G_SIZE * selCtr
      invariant gs == |mtfv| ==> BZ_G_SIZE * selCtr < |mtfv| + BZ_G_SIZE && |mtfv| <= BZ_G_SIZE * selCtr
      invariant w.Written() + CodesBits(t, mtfv, gs) == all
    {
      var ge := gs + BZ_G_SIZE - 1;
      if ge >= |mtfv| { ge := |mtfv| - 1; }
      CodedGroup(t, mtfv, selCtr, gs);
      assert t.selector[selCtr] < |t.lens|;  // AssertH 3006
      var lens, code := t.lens[t.selector[selCtr]], codes[t.selector[selCtr]];
      for i := gs to ge + 1
        invariant w.Valid() && z0 <= w.zbits && w.Written() + CodesBits(t, mtfv, i) == all
      {
        CodeNext(t, mtfv, selCtr, i);
        w.BsW(lens[mtfv[i]], code[mtfv[i]]);
      }
      gs := ge + 1;
      selCtr := selCtr + 1;
    }
    CodedCount(t, mtfv);
    assert selCtr == |t.selector|;  // AssertH 3007
    CodesDone(t, mtfv);
    assert w.Written() + [] == w.Written();
  }

  lemma CodedCount(t: Tables, syms: seq<nat>)
    requires Coded(t, syms)
    ensures |syms| <= BZ_G_SIZE * |t.selector|
  {
  }

  lemma CodedGroup(t: Tables, syms: seq<nat>, sel: nat, gs: nat)
    requires Coded(t, syms) && gs == BZ_G_SIZE * sel < |syms|
    ensures sel < |t.selector| && t.selector[sel] < |t.lens|
  {
  }

  lemma CodeNext(t: Tables, syms: seq<nat>, sel: nat, i: nat)
    requires Coded(t, syms) && BZ_G_SIZE * sel <= i < BZ_G_SIZE * sel + BZ_G_SIZE && i < |syms|
    requires sel < |t.selector| && t.selector[sel] < |t.lens|
    ensures var lens := t.lens[t.selector[sel]];
            syms[i] < |lens| && 1 <= lens[syms[i]] <= 20 && Code(lens, syms[i]) < Pow2(lens[syms[i]]) &&
            CodesBits(t, syms, i) == BitsOf(Code(lens, syms[i]), lens[syms[i]]) + CodesBits(t, syms, i + 1)
  {
    GroupOf(t, syms, i);
    DivModUnique(i, BZ_G_SIZE, sel, i - BZ_G_SIZE * sel);
    CodeFits(GroupLens(t, sel), syms[i]);
  }

  lemma CodesDone(t: Tables, syms: seq<nat>)
    requires Coded(t, syms)
    ensures CodesBits(t, syms, |syms|) == []
  {
  }

  // ---------- all of it ----------

  /** The part of `sendMTFValues` that writes: for any choice of tables, the bits the parser
      reads back. */
  method SendMtfValues(w: BitWriter, inUse: seq<bool>, mtfv: seq<nat>, selector: seq<nat>, lens: seq<seq<byte>>) returns (ghost t: Tables)
    requires w.Valid() && |inUse| == 256 && 0 < |mtfv| <= 900001
    requires forall k :: 0 <= k < |mtfv| ==> mtfv[k] < AlphaSize(inUse)
    requires Choice(|mtfv|, AlphaSize(inUse), selector, lens)
    modifies w
    ensures t == Tables(inUse, selector, lens) && Coded(t, mtfv)
    ensures 1 <= |selector| <= BZ_MAX_SELECTORS
    ensures w.Valid() && w.Written() == old(w.Written()) + DataBits(t, mtfv) && old(w.zbits) <= w.zbits
  {
    hide Buffered, AllWritten;
    hide Kraft, Code, MapBits, SelectorBits, TablesBits, CodesBits, BitsOf, SelectorMtf, HuffmanCodes.Lengths;
    RankAtMost(inUse);
    Pow2Small();
    var nGroups := GroupCount(|mtfv|);
    var codes := MakeCodes(lens, AlphaSize(inUse));
    assert nGroups < 8 && |selector| < 32768 && |selector| <= BZ_MAX_SELECTORS;  // AssertH 3002, 3003
    var tables := Tables(inUse, selector, lens);
    t := tables;
    MadeTables(t, mtfv);
    var mtf := CodeSelectorList(selector, nGroups);
    PutMap(w, inUse);
    w.BsW(3, nGroups);
    w.BsW(15, |selector|);
    PutSelectors(w, mtf);
    PutTables(w, lens);
    hide Coded;
    PutCodes(w, tables, codes, mtfv);
    SelectorMtfIs(t, mtf);
    Associates(old(w.Written()), MapBits(inUse), BitsOf(nGroups, 3), BitsOf(|selector|, 15), SelectorBits(mtf), TablesBits(lens, 0), CodesBits(t, mtfv, 0));
  }

  method MakeCodes(lens: seq<seq<byte>>, alphaSize: nat) returns (codes: seq<seq<int>>)
    requires forall j :: 0 <= j < |lens| ==> |lens[j]| == alphaSize && CodeLengths(lens[j], alphaSize)
    ensures |codes| == |lens|
    ensures forall j :: 0 <= j < |codes| ==> |codes[j]| == alphaSize && forall i :: 0 <= i < alphaSize ==> codes[j][i] == Code(lens[j], i)
  {
    hide HuffmanCodes.Lengths, Kraft, Code;
    codes := [];
    for k := 0 to |lens|
      invariant |codes| == k
      invariant forall j :: 0 <= j < k ==> |codes[j]| == alphaSize && forall i :: 0 <= i < alphaSize ==> codes[j][i] == Code(lens[j], i)
    {
      var code := TableCodes(lens[k]);
      codes := codes + [code];
    }
  }

  lemma MadeTables(t: Tables, syms: seq<nat>)
    requires |t.inUse| == 256 && |t.lens| <= BZ_N_GROUPS && |syms| <= BZ_G_SIZE * |t.selector| && |t.selector| <= BZ_MAX_SELECTORS
    requires forall j :: 0 <= j < |t.lens| ==> |t.lens[j]| == AlphaSize(t.inUse) && HuffmanCodes.Lengths(t.lens[j]) && Kraft(t.lens[j])
    requires forall k :: 0 <= k < |t.selector| ==> t.selector[k] < |t.lens|
    requires forall k :: 0 <= k < |syms| ==> syms[k] < AlphaSize(t.inUse)
    ensures Coded(t, syms) && TablesOk(t) && forall k :: 0 <= k < |t.lens| ==> t.lens[k] != []
  {
  }

  lemma SelectorMtfIs(t: Tables, mtf: seq<nat>)
    requires TablesOk(t) && (forall k :: 0 <= k < |t.selector| ==> t.selector[k] in Iota(|t.lens|)) && mtf == CodeSelectors(t.selector, Iota(|t.lens|))
    ensures mtf == SelectorMtf(t)
  {
  }

  lemma Associates(x: seq<bool>, a: seq<bool>, b: seq<bool>, c: seq<bool>, d: seq<bool>, e: seq<bool>, f: seq<bool>)
    ensures x + a + b + c + d + e + f == x + (a + ((b + (c + (d + e))) + f))
  {
  }
}
