/** The bits of a compressed block (compress.c), and that the parser reads them back. */
module Printer {
  import opened Words
  import opened Bits
  import opened BitStream
  import opened ExclusiveOr
  import opened Transform
  import opened HuffmanCodes
  import opened MtfCoding
  import opened MtfEncoder
  import opened Parser

  /** Everything a block is sent as. */
  datatype Block = Block(crc: nat, origPtr: nat, tables: Tables, syms: seq<nat>)

  // ---------- single bits and bytes ----------

  lemma OneBit(b: bool)
    ensures BitsOf(Digit(b), 1) == [b] && Digit(b) < Pow2(1) == 2
  {
    assert BitsOf(Digit(b) / 2, 0) == [];
  }

  lemma FeedBit(p: Parse, b: bool, rest: seq<bool>)
    requires Ok(p.ctl) && !Stopped(p.ctl) && Need(p.ctl) == 1
    ensures Feed(p, [b] + rest) == Feed(Step(p, Digit(b)), rest)
  {
    hide Step, Ok, Need;
    OneBit(b);
    FeedField(p, Digit(b), 1, rest);
  }

  lemma FeedByte(p: Parse, v: nat, rest: seq<bool>)
    requires Ok(p.ctl) && !Stopped(p.ctl) && Need(p.ctl) == 8 && v < 256
    ensures Feed(p, BitsOf(v, 8) + rest) == Feed(Step(p, v), rest)
  {
    hide Step, Ok, Need;
    Pow2Values();
    FeedField(p, v, 8, rest);
  }

  // ---------- the map of characters in use ----------

  function RowUsed(inUse: seq<bool>, i: nat): bool
    requires |inUse| == 256 && i < 16
  {
    true in inUse[16 * i..16 * i + 16]
  }

  function UsedRows(inUse: seq<bool>): (u: seq<bool>)
    requires |inUse| == 256
    ensures |u| == 16 && forall i :: 0 <= i < 16 ==> u[i] == RowUsed(inUse, i)
  {
    seq(16, i requires 0 <= i < 16 => RowUsed(inUse, i))
  }

  /** The bits of the rows from i on. */
  function RowBits(inUse: seq<bool>, i: nat): seq<bool>
    requires |inUse| == 256 && i <= 16
    decreases 16 - i
  {
    if i == 16 then []
    else (if RowUsed(inUse, i) then inUse[16 * i..16 * i + 16] else []) + RowBits(inUse, i + 1)
  }

  function MapBits(inUse: seq<bool>): seq<bool>
    requires |inUse| == 256
  {
    UsedRows(inUse) + RowBits(inUse, 0)
  }

  lemma {:induction false} FeedUsedRows(p: Parse, used: seq<bool>, k: nat, rest: seq<bool>)
    requires |used| == 16 && k < 16 && p.ctl == Mapping1(used[..k])
    ensures Feed(p, used[k..] + rest) == Feed(p.(ctl := Rows(used, [])), rest)
    decreases 16 - k
  {
    hide Feed;
    assert used[k..] + rest == [used[k]] + (used[k + 1..] + rest);
    FeedBit(p, used[k], used[k + 1..] + rest);
    assert used[..k] + [used[k]] == used[..k + 1];
    if k + 1 < 16 {
      FeedUsedRows(p.(ctl := Mapping1(used[..k + 1])), used, k + 1, rest);
    } else {
      assert used[..16] == used && used[16..] + rest == rest;
    }
  }

  lemma StepRow(p: Parse, used: seq<bool>, inUse: seq<bool>, b: bool)
    requires |used| == 16 && |inUse| < 256 && p.ctl == Mapping2(used, inUse)
    ensures Ok(p.ctl) && !Stopped(p.ctl) && Need(p.ctl) == 1
    ensures Step(p, Digit(b)) == p.(ctl := Rows(used, inUse + [b]))
  {
    hide Rows;
  }

  lemma MidRow(used: seq<bool>, inUse: seq<bool>)
    requires |used| == 16 && |inUse| < 256 && |inUse| % 16 != 0
    ensures Rows(used, inUse) == Mapping2(used, inUse)
  {
  }

  /** The rest of a row that is sent. */
  lemma {:induction false} FeedRow(p: Parse, used: seq<bool>, inUse: seq<bool>, i: nat, j: nat, rest: seq<bool>)
    requires |used| == 16 && |inUse| == 256 && i < 16 && j < 16 && p.ctl == Mapping2(used, inUse[..16 * i + j])
    ensures Feed(p, inUse[16 * i + j..16 * i + 16] + rest) == Feed(p.(ctl := Rows(used, inUse[..16 * i + 16])), rest)
    decreases 16 - j
  {
    hide Feed, Step, Ok, Need, Rows;
    var at := 16 * i + j;
    StepRow(p, used, inUse[..at], inUse[at]);
    assert inUse[at..16 * i + 16] + rest == [inUse[at]] + (inUse[at + 1..16 * i + 16] + rest);
    FeedBit(p, inUse[at], inUse[at + 1..16 * i + 16] + rest);
    assert inUse[..at] + [inUse[at]] == inUse[..at + 1];
    if j + 1 < 16 {
      MidRow(used, inUse[..at + 1]);
      FeedRow(p.(ctl := Mapping2(used, inUse[..at + 1])), used, inUse, i, j + 1, rest);
    } else {
      assert inUse[at + 1..16 * i + 16] + rest == rest;
    }
  }

  lemma RowStart(inUse: seq<bool>, i: nat)
    requires |inUse| == 256 && i < 16
    ensures RowUsed(inUse, i) ==> Rows(UsedRows(inUse), inUse[..16 * i]) == Mapping2(UsedRows(inUse), inUse[..16 * i])
    ensures !RowUsed(inUse, i) ==> Rows(UsedRows(inUse), inUse[..16 * i]) == Rows(UsedRows(inUse), inUse[..16 * i + 16])
  {
    var row := inUse[16 * i..16 * i + 16];
    if !RowUsed(inUse, i) {
      forall j | 0 <= j < 16 ensures row[j] == false { assert row[j] in row; }
      assert row == seq(16, _ => false);
      assert inUse[..16 * i + 16] == inUse[..16 * i] + row;
    }
  }

  lemma RowsEnd(inUse: seq<bool>)
    requires |inUse| == 256 && Rank(inUse, 256) > 0
    ensures Rows(UsedRows(inUse), inUse) == Selector1(inUse)
  {
  }

  lemma {:induction false} FeedRows(p: Parse, inUse: seq<bool>, i: nat, rest: seq<bool>)
    requires |inUse| == 256 && i <= 16 && p.ctl == Rows(UsedRows(inUse), inUse[..16 * i])
    ensures Feed(p, RowBits(inUse, i) + rest) == Feed(p.(ctl := Rows(UsedRows(inUse), inUse)), rest)
    decreases 16 - i
  {
    hide Feed, Rows, UsedRows, RowUsed, RowBits, Ok;
    var used := UsedRows(inUse);
    RowBitsNext(inUse, i, rest);
    if i == 16 {
      assert inUse[..256] == inUse;
    } else {
      var more := RowBits(inUse, i + 1) + rest;
      var q := p.(ctl := Rows(used, inUse[..16 * i + 16]));
      assert 16 * i + 16 == 16 * (i + 1);
      RowStart(inUse, i);
      if RowUsed(inUse, i) {
        FeedRow(p, used, inUse, i, 0, more);
      }
      FeedRows(q, inUse, i + 1, rest);
    }
  }

  lemma RowBitsNext(inUse: seq<bool>, i: nat, rest: seq<bool>)
    requires |inUse| == 256 && i <= 16
    ensures i == 16 ==> RowBits(inUse, i) + rest == rest
    ensures i < 16 && RowUsed(inUse, i) ==> RowBits(inUse, i) + rest == inUse[16 * i + 0..16 * i + 16] + (RowBits(inUse, i + 1) + rest)
    ensures i < 16 && !RowUsed(inUse, i) ==> RowBits(inUse, i) + rest == RowBits(inUse, i + 1) + rest
  {
    hide RowUsed;
    if i < 16 && !RowUsed(inUse, i) { assert [] + RowBits(inUse, i + 1) == RowBits(inUse, i + 1); }
  }

  lemma FeedMap(p: Parse, inUse: seq<bool>, rest: seq<bool>)
    requires |inUse| == 256 && p.ctl == Mapping1([]) && Rank(inUse, 256) > 0
    ensures Feed(p, MapBits(inUse) + rest) == Feed(p.(ctl := Selector1(inUse)), rest)
  {
    hide Feed, Rows, RowBits, UsedRows, Rank;
    var used := UsedRows(inUse);
    assert MapBits(inUse) + rest == used[0..] + (RowBits(inUse, 0) + rest);
    assert used[..0] == [] && inUse[..0] == [];
    FeedUsedRows(p, used, 0, RowBits(inUse, 0) + rest);
    FeedRows(p.(ctl := Rows(used, [])), inUse, 0, rest);
    RowsEnd(inUse);
  }

  // ---------- the selectors ----------

  /** The move-to-front coding of the selectors. */
  function CodeSelectors(selector: seq<nat>, list: seq<nat>): (mtf: seq<nat>)
    requires forall k :: 0 <= k < |selector| ==> selector[k] in list
    ensures |mtf| == |selector| && forall k :: 0 <= k < |mtf| ==> mtf[k] < |list|
    decreases |selector|
  {
    if selector == [] then []
    else
      var j := IndexOf(list, selector[0]);
      SameMembers(list, j);
      [j] + CodeSelectors(selector[1..], MoveToFront(list, j))
  }

  lemma {:induction false} SelectorsRoundTrip(selector: seq<nat>, list: seq<nat>)
    requires forall k :: 0 <= k < |selector| ==> selector[k] in list
    ensures UndoSelectors(CodeSelectors(selector, list), list) == selector
    decreases |selector|
  {
    if selector != [] {
      var j := IndexOf(list, selector[0]);
      SameMembers(list, j);
      SelectorsRoundTrip(selector[1..], MoveToFront(list, j));
      assert CodeSelectors(selector, list)[1..] == CodeSelectors(selector[1..], MoveToFront(list, j));
    }
  }

  function Unary(j: nat): seq<bool> {
    if j == 0 then [false] else [true] + Unary(j - 1)
  }

  function SelectorBits(mtf: seq<nat>): seq<bool> {
    if mtf == [] then [] else Unary(mtf[0]) + SelectorBits(mtf[1..])
  }

  lemma {:induction false} FeedUnary(p: Parse, inUse: seq<bool>, nGroups: nat, nSelectors: nat, mtf: seq<nat>, j: nat, m: nat, rest: seq<bool>)
    requires p.ctl == Selector3(inUse, nGroups, nSelectors, mtf, j) && Ok(p.ctl) && j <= m < nGroups && |mtf| < BZ_MAX_SELECTORS
    ensures Feed(p, Unary(m - j) + rest) == Feed(p.(ctl := NextSelector(inUse, nGroups, nSelectors, mtf + [m])), rest)
    decreases m - j
  {
    hide Feed, NextSelector;
    if j == m {
      FeedBit(p, false, rest);
    } else {
      assert Unary(m - j) + rest == [true] + (Unary(m - (j + 1)) + rest);
      FeedBit(p, true, Unary(m - (j + 1)) + rest);
      FeedUnary(p.(ctl := Selector3(inUse, nGroups, nSelectors, mtf, j + 1)), inUse, nGroups, nSelectors, mtf, j + 1, m, rest);
    }
  }

  lemma MoreSelectors(inUse: seq<bool>, nGroups: nat, n: nat, done: seq<nat>)
    requires |inUse| == 256 && 2 <= nGroups <= BZ_N_GROUPS && |done| < n && |done| <= BZ_MAX_SELECTORS
    requires forall k :: 0 <= k < |done| ==> done[k] < nGroups
    ensures NextSelector(inUse, nGroups, n, done) == Selector3(inUse, nGroups, n, done, 0)
    ensures Ok(Selector3(inUse, nGroups, n, done, 0))
  {
  }

  lemma {:induction false} FeedSelectors(p: Parse, inUse: seq<bool>, nGroups: nat, n: nat, done: seq<nat>, mtf: seq<nat>, rest: seq<bool>)
    requires |inUse| == 256 && 2 <= nGroups <= BZ_N_GROUPS
    requires (forall k :: 0 <= k < |done| ==> done[k] < nGroups) && forall k :: 0 <= k < |mtf| ==> mtf[k] < nGroups
    requires |done| + |mtf| <= n && |done| + |mtf| <= BZ_MAX_SELECTORS && p.ctl == NextSelector(inUse, nGroups, n, done)
    ensures forall k :: 0 <= k < |done + mtf| ==> (done + mtf)[k] < nGroups
    ensures Feed(p, SelectorBits(mtf) + rest) == Feed(p.(ctl := NextSelector(inUse, nGroups, n, done + mtf)), rest)
    decreases |mtf|
  {
    hide Feed, NextSelector, Ok, Unary;
    if mtf == [] {
      assert done + mtf == done && SelectorBits(mtf) + rest == rest;
    } else {
      MoreSelectors(inUse, nGroups, n, done);
      assert SelectorBits(mtf) + rest == Unary(mtf[0] - 0) + (SelectorBits(mtf[1..]) + rest);
      FeedUnary(p, inUse, nGroups, n, done, 0, mtf[0], SelectorBits(mtf[1..]) + rest);
      var done' := done + [mtf[0]];
      assert done + mtf == done' + mtf[1..];
      assert forall k :: 0 <= k < |done'| ==> done'[k] < nGroups;
      FeedSelectors(p.(ctl := NextSelector(inUse, nGroups, n, done')), inUse, nGroups, n, done', mtf[1..], rest);
    }
  }

  // ---------- the coding tables ----------

  /** Two bits for each step from one length to the next, and one to stop. */
  function LenBits(curr: nat, len: nat): seq<bool>
    decreases if curr < len then len - curr else curr - len
  {
    if curr < len then [true, false] + LenBits(curr + 1, len)
    else if curr > len then [true, true] + LenBits(curr - 1, len)
    else [false]
  }

  /** The lengths from i on. */
  function LensBits(curr: nat, lens: seq<byte>, i: nat): seq<bool>
    requires i <= |lens|
    decreases |lens| - i
  {
    if i == |lens| then [] else LenBits(curr, lens[i]) + LensBits(lens[i], lens, i + 1)
  }

  function TableBits(lens: seq<byte>): seq<bool>
    requires lens != []
  {
    BitsOf(lens[0], 5) + LensBits(lens[0], lens, 0)
  }

  function TablesBits(lens: seq<seq<byte>>, t: nat): seq<bool>
    requires t <= |lens| && forall k :: 0 <= k < |lens| ==> lens[k] != []
    decreases |lens| - t
  {
    if t == |lens| then [] else TableBits(lens[t]) + TablesBits(lens, t + 1)
  }

  lemma StepCoding2(p: Parse, inUse: seq<bool>, nGroups: nat, selector: seq<nat>, lens: seq<seq<byte>>, cur: seq<byte>, curr: nat, b: bool)
    requires p.ctl == Coding2(inUse, nGroups, selector, lens, cur, curr) && Ok(p.ctl)
    ensures !Stopped(p.ctl) && Need(p.ctl) == 1 && CodingOk(inUse, nGroups, selector, lens) && CurOk(inUse, cur, curr)
    ensures Step(p, Digit(b)) ==
            p.(ctl := if b then Coding3(inUse, nGroups, selector, lens, cur, curr) else NextLen(inUse, nGroups, selector, lens, cur, curr))
  {
    hide NextLen;
  }

  lemma StepCoding3(p: Parse, inUse: seq<bool>, nGroups: nat, selector: seq<nat>, lens: seq<seq<byte>>, cur: seq<byte>, curr: nat, b: bool, next: nat)
    requires CodingOk(inUse, nGroups, selector, lens) && CurOk(inUse, cur, curr)
    requires p.ctl == Coding3(inUse, nGroups, selector, lens, cur, curr) && 1 <= next <= LONGEST && next == if b then curr - 1 else curr + 1
    ensures Ok(p.ctl) && !Stopped(p.ctl) && Need(p.ctl) == 1
    ensures Step(p, Digit(b)) == p.(ctl := Coding2(inUse, nGroups, selector, lens, cur, next)) && Ok(Coding2(inUse, nGroups, selector, lens, cur, next))
    ensures CurOk(inUse, cur, next)
  {
  }

  lemma {:induction false} FeedLen(p: Parse, inUse: seq<bool>, nGroups: nat, selector: seq<nat>, lens: seq<seq<byte>>, cur: seq<byte>, curr: nat, len: byte, rest: seq<bool>)
    requires CodingOk(inUse, nGroups, selector, lens) && CurOk(inUse, cur, curr) && CurOk(inUse, cur, len)
    requires p.ctl == Coding2(inUse, nGroups, selector, lens, cur, curr) && Ok(p.ctl)
    ensures Feed(p, LenBits(curr, len) + rest) == Feed(p.(ctl := NextLen(inUse, nGroups, selector, lens, cur, len)), rest)
    decreases if curr < len then len - curr else curr - len
  {
    hide Feed, NextLen, Step, Ok, Need, CodingOk;
    if curr == len {
      StepCoding2(p, inUse, nGroups, selector, lens, cur, curr, false);
      FeedBit(p, false, rest);
    } else {
      var next := if curr < len then curr + 1 else curr - 1;
      var last := curr > len;
      var more := LenBits(next, len) + rest;
      assert LenBits(curr, len) + rest == [true] + ([last] + more);
      StepCoding2(p, inUse, nGroups, selector, lens, cur, curr, true);
      FeedBit(p, true, [last] + more);
      var q := p.(ctl := Coding3(inUse, nGroups, selector, lens, cur, curr));
      StepCoding3(q, inUse, nGroups, selector, lens, cur, curr, last, next);
      FeedBit(q, last, more);
      FeedLen(p.(ctl := Coding2(inUse, nGroups, selector, lens, cur, next)), inUse, nGroups, selector, lens, cur, next, len, rest);
    }
  }

  lemma {:induction false} FeedLens(p: Parse, inUse: seq<bool>, nGroups: nat, selector: seq<nat>, lens: seq<seq<byte>>, table: seq<byte>, i: nat, curr: nat, rest: seq<bool>)
    requires CodingOk(inUse, nGroups, selector, lens) && Lengths(table) && |table| == AlphaSize(inUse) && i < |table| && 1 <= curr <= LONGEST
    requires p.ctl == Coding2(inUse, nGroups, selector, lens, table[..i], curr)
    ensures Feed(p, LensBits(curr, table, i) + rest) ==
            Feed(p.(ctl := NextLen(inUse, nGroups, selector, lens, table[..|table| - 1], table[|table| - 1])), rest)
    decreases |table| - i
  {
    hide Feed, NextCode;
    var more := LensBits(table[i], table, i + 1) + rest;
    assert LensBits(curr, table, i) + rest == LenBits(curr, table[i]) + more;
    FeedLen(p, inUse, nGroups, selector, lens, table[..i], curr, table[i], more);
    if i + 1 < |table| {
      assert table[..i] + [table[i]] == table[..i + 1];
      assert NextLen(inUse, nGroups, selector, lens, table[..i], table[i]) == Coding2(inUse, nGroups, selector, lens, table[..i + 1], table[i]);
      FeedLens(p.(ctl := Coding2(inUse, nGroups, selector, lens, table[..i + 1], table[i])), inUse, nGroups, selector, lens, table, i + 1, table[i], rest);
    } else {
      assert more == rest;
    }
  }

  lemma StepCoding1(p: Parse, inUse: seq<bool>, nGroups: nat, selector: seq<nat>, lens: seq<seq<byte>>, v: nat)
    requires p.ctl == Coding1(inUse, nGroups, selector, lens) && Ok(p.ctl) && 1 <= v <= 20
    ensures !Stopped(p.ctl) && Need(p.ctl) == 5 && v < Pow2(5)
    ensures Step(p, v) == p.(ctl := Coding2(inUse, nGroups, selector, lens, [], v))
    ensures CurOk(inUse, [], v)
  {
    assert Pow2(5) == 32;
  }

  /** A table is complete. */
  lemma NextTable(t: Tables, k: nat)
    requires TablesOk(t) && k < |t.lens|
    ensures |t.lens[k]| > 0 && CodingOk(t.inUse, |t.lens|, t.selector, t.lens[..k])
    ensures var table := t.lens[k]; var n := |table| - 1;
            && CurOk(t.inUse, table[..n], table[n])
            && NextLen(t.inUse, |t.lens|, t.selector, t.lens[..k], table[..n], table[n]) ==
               if k + 1 < |t.lens| then Coding1(t.inUse, |t.lens|, t.selector, t.lens[..k + 1])
               else NextCode(t, -1, 0, Decoder(Iota(256), 0, 1, []))
  {
    hide NextCode;
    var table := t.lens[k];
    assert table[..|table| - 1] + [table[|table| - 1]] == table;
    assert t.lens[..k] + [table] == t.lens[..k + 1];
    if k + 1 == |t.lens| {
      assert t.lens[..k + 1] == t.lens && t == Tables(t.inUse, t.selector, t.lens);
    }
  }

  /** All tables from number t on. */
  lemma {:induction false} FeedTables(p: Parse, t: Tables, k: nat, rest: seq<bool>)
    requires TablesOk(t) && k < |t.lens|
    requires p.ctl == Coding1(t.inUse, |t.lens|, t.selector, t.lens[..k])
    ensures Feed(p, TablesBits(t.lens, k) + rest) == Feed(p.(ctl := NextCode(t, -1, 0, Decoder(Iota(256), 0, 1, []))), rest)
    decreases |t.lens| - k
  {
    hide Feed, NextCode, NextLen, Step, Need, LensBits, BitsOf;
    var table, n := t.lens[k], |t.lens|;
    var more := TablesBits(t.lens, k + 1) + rest;
    NextTable(t, k);
    assert TablesBits(t.lens, k) + rest == BitsOf(table[0], 5) + (LensBits(table[0], table, 0) + more);
    StepCoding1(p, t.inUse, n, t.selector, t.lens[..k], table[0]);
    FeedField(p, table[0], 5, LensBits(table[0], table, 0) + more);
    assert table[..0] == [];
    var q := p.(ctl := Coding2(t.inUse, n, t.selector, t.lens[..k], [], table[0]));
    FeedLens(q, t.inUse, n, t.selector, t.lens[..k], table, 0, table[0], more);
    if k + 1 < n {
      FeedTables(p.(ctl := Coding1(t.inUse, n, t.selector, t.lens[..k + 1])), t, k + 1, rest);
    } else {
      assert more == rest;
    }
  }

  // ---------- the symbols ----------

  lemma PermFinds(lens: seq<byte>, i: nat, k: nat)
    requires k <= i < |lens|
    ensures Perm(lens, Slot(lens, i), k) == i
    decreases i - k
  {
    if k < i {
      if Slot(lens, k) == Slot(lens, i) {
        OriginSlot(lens, k);
        OriginSlot(lens, i);
      }
      PermFinds(lens, i, k + 1);
    }
  }

  /** The table entries an assigned code meets: too big for every shorter length, and for its
      own length the place of its symbol. */
  lemma CodeMeets(lens: seq<byte>, i: nat, n: nat)
    requires Lengths(lens) && Kraft(lens) && i < |lens| && n <= lens[i]
    requires MinLen(lens) <= n
    ensures n < lens[i] ==> ValueOf(CodeBits(lens, i)[..n]) > Limit(lens, n)
    ensures n == lens[i] ==> ValueOf(CodeBits(lens, i)[..n]) <= Limit(lens, n)
    ensures n == lens[i] ==> 0 <= ValueOf(CodeBits(lens, i)[..n]) - Base(lens, n) < BZ_MAX_ALPHA_SIZE
    ensures n == lens[i] ==> Perm(lens, ValueOf(CodeBits(lens, i)[..n]) - Base(lens, n), 0) == i
  {
    hide Kraft, CodeBits, Code, Slot, ValueOf, Perm, First;
    LenRange(lens);
    CodeFits(lens, i);
    assert CodeBits(lens, i)[..lens[i]] == CodeBits(lens, i);
    CodePrefix(lens, i, CodeBits(lens, i), n);
    if n == lens[i] {
      PlaceOfCode(lens, i);
      PermFinds(lens, i, 0);
    }
  }

  /** What the decoding loop does with the first n bits of a code. */
  lemma OnCodeIs(p: Parse, t: Tables, g: nat, pos: nat, d: Decoder, i: nat, n: nat)
    requires TablesOk(t) && g < |t.selector| && |d.list| == 256
    requires var lens := GroupLens(t, g); Kraft(lens) && i < |lens| && MinLen(lens) <= n <= lens[i]
    ensures var c, z := OnCode(p.level, p.origPtr, t, g, pos, d, n, ValueOf(CodeBits(GroupLens(t, g), i)[..n])), ValueOf(CodeBits(GroupLens(t, g), i)[..n]);
            && (n < GroupLens(t, g)[i] ==> c == Mtf2(t, g, pos, d, n + 1, z) && Ok(c))
            && (n == GroupLens(t, g)[i] ==> c == OnSymbol(p.level, p.origPtr, t, g, pos, d, i))
  {
    hide Kraft, CodeBits, ValueOf, Limit, Base, Perm, OnSymbol;
    CodeMeets(GroupLens(t, g), i, n);
    LenRange(GroupLens(t, g));
  }

  lemma StepMore(p: Parse, t: Tables, g: nat, pos: nat, d: Decoder, zn: nat, zvec: nat, b: bool)
    requires p.ctl == Mtf2(t, g, pos, d, zn, zvec) && Ok(p.ctl)
    ensures !Stopped(p.ctl) && Need(p.ctl) == 1
    ensures Step(p, Digit(b)) == p.(ctl := OnCode(p.level, p.origPtr, t, g, pos, d, zn, 2 * zvec + Digit(b)))
  {
    hide OnCode;
  }

  /** The bits of a code from the first n on. */
  lemma {:induction false} FeedCodeFrom(p: Parse, t: Tables, g: nat, pos: nat, d: Decoder, i: nat, n: nat, rest: seq<bool>)
    requires TablesOk(t) && g < |t.selector| && |d.list| == 256
    requires var lens := GroupLens(t, g); Kraft(lens) && i < |lens| && MinLen(lens) <= n <= lens[i]
    requires p.ctl == OnCode(p.level, p.origPtr, t, g, pos, d, n, ValueOf(CodeBits(GroupLens(t, g), i)[..n]))
    ensures Feed(p, CodeBits(GroupLens(t, g), i)[n..] + rest) ==
            Feed(p.(ctl := OnSymbol(p.level, p.origPtr, t, g, pos, d, i)), rest)
    decreases GroupLens(t, g)[i] - n
  {
    hide Feed, Kraft, CodeBits, ValueOf, OnSymbol, OnCode, Step, Ok, Need, TablesOk, MinLen;
    var lens := GroupLens(t, g);
    var bits := CodeBits(lens, i);
    OnCodeIs(p, t, g, pos, d, i, n);
    if n == lens[i] {
      assert bits[n..] + rest == rest;
    } else {
      assert bits[n..] + rest == [bits[n]] + (bits[n + 1..] + rest);
      StepMore(p, t, g, pos, d, n + 1, ValueOf(bits[..n]), bits[n]);
      FeedBit(p, bits[n], bits[n + 1..] + rest);
      ValueNext(bits, n);
      FeedCodeFrom(p.(ctl := OnCode(p.level, p.origPtr, t, g, pos, d, n + 1, ValueOf(bits[..n + 1]))), t, g, pos, d, i, n + 1, rest);
    }
  }

  /** One symbol, read from its code. */
  lemma FeedCode(p: Parse, t: Tables, g: nat, pos: nat, d: Decoder, i: nat, rest: seq<bool>)
    requires TablesOk(t) && g < |t.selector| && |d.list| == 256 && p.ctl == Mtf1(t, g, pos, d)
    requires Kraft(GroupLens(t, g)) && i < |GroupLens(t, g)|
    ensures Feed(p, CodeBits(GroupLens(t, g), i) + rest) ==
            Feed(p.(ctl := OnSymbol(p.level, p.origPtr, t, g, pos, d, i)), rest)
  {
    hide Feed, Kraft, CodeBits, ValueOf, OnSymbol, OnCode;
    var lens := GroupLens(t, g);
    var bits, n := CodeBits(lens, i), MinLen(lens);
    LenRange(lens);
    assert bits + rest == bits[..n] + (bits[n..] + rest);
    BitsOfValue(bits[..n]);
    ValueRange(bits[..n]);
    FeedField(p, ValueOf(bits[..n]), n, bits[n..] + rest);
    FeedCodeFrom(p.(ctl := OnCode(p.level, p.origPtr, t, g, pos, d, n, ValueOf(bits[..n]))), t, g, pos, d, i, n, rest);
  }

  /** Symbol k is coded by the table of its group of fifty. */
  ghost predicate Coded(t: Tables, syms: seq<nat>) {
    && TablesOk(t) && |syms| <= BZ_G_SIZE * |t.selector|
    && (forall k :: 0 <= k < |syms| ==> syms[k] < AlphaSize(t.inUse))
    && forall k :: 0 <= k < |t.lens| ==> Kraft(t.lens[k])
  }

  lemma GroupOf(t: Tables, syms: seq<nat>, k: nat)
    requires Coded(t, syms) && k < |syms|
    ensures k / BZ_G_SIZE < |t.selector|
    ensures var lens := GroupLens(t, k / BZ_G_SIZE);
            Kraft(lens) && Lengths(lens) && |lens| == AlphaSize(t.inUse) && syms[k] < |lens|
  {
  }

  ghost function CodesBits(t: Tables, syms: seq<nat>, k: nat): seq<bool>
    requires Coded(t, syms) && k <= |syms|
    decreases |syms| - k
  {
    if k == |syms| then []
    else
      GroupOf(t, syms, k);
      CodeBits(GroupLens(t, k / BZ_G_SIZE), syms[k]) + CodesBits(t, syms, k + 1)
  }

  /** What has been decoded, counting the pending run. */
  function Total(d: Decoder): nat { |d.out| + d.es }

  /** Every symbol adds at least one character, and a run is at least as long as the weight
      of its next digit allows. */
  ghost predicate Weighed(d: Decoder) { 1 <= d.n <= d.es + 1 }

  lemma StepGrows(d: Decoder, sym: nat)
    requires d.list != [] && Weighed(d) && (sym == BZ_RUNA || sym == BZ_RUNB || sym - 1 < |d.list|)
    ensures Weighed(DecodeStep(d, sym)) && Total(DecodeStep(d, sym)) > Total(d) && |DecodeStep(d, sym).list| == |d.list|
  {
  }

  lemma {:induction false} DecodeGrows(d: Decoder, syms: seq<nat>)
    requires d.list != [] && Weighed(d) && Decodable(syms, |d.list|)
    ensures Total(Decode(d, syms)) >= Total(d)
    decreases |syms|
  {
    if syms != [] {
      StepGrows(d, syms[0]);
      DecodeGrows(DecodeStep(d, syms[0]), syms[1..]);
    }
  }

  /** Waiting for symbol k: every fifty symbols a new group begins. */
  function WaitFor(t: Tables, k: nat, d: Decoder): Ctl {
    Mtf1(t, k / BZ_G_SIZE, BZ_G_SIZE - 1 - k % BZ_G_SIZE, d)
  }

  function OnSymbolAt(level: nat, origPtr: nat, t: Tables, k: nat, d: Decoder, sym: nat): Ctl
    requires TablesOk(t) && |d.list| == 256 && k < BZ_G_SIZE * |t.selector| && sym < AlphaSize(t.inUse)
  {
    OnSymbol(level, origPtr, t, k / BZ_G_SIZE, BZ_G_SIZE - 1 - k % BZ_G_SIZE, d, sym)
  }

  lemma NextGroup(t: Tables, k: nat, d: Decoder)
    requires TablesOk(t) && |d.list| == 256 && k + 1 < BZ_G_SIZE * |t.selector|
    ensures NextCode(t, k / BZ_G_SIZE, BZ_G_SIZE - 1 - k % BZ_G_SIZE, d) == WaitFor(t, k + 1, d)
  {
    var q, r := k / BZ_G_SIZE, k % BZ_G_SIZE;
    if r == BZ_G_SIZE - 1 {
      DivModUnique(k + 1, BZ_G_SIZE, q + 1, 0);
    } else {
      DivModUnique(k + 1, BZ_G_SIZE, q, r + 1);
    }
  }

  /** Symbol k is read. */
  lemma FeedSymbol(p: Parse, t: Tables, syms: seq<nat>, k: nat, d: Decoder, rest: seq<bool>)
    requires Coded(t, syms) && k < |syms| && |d.list| == 256 && p.ctl == WaitFor(t, k, d)
    ensures Ok(p.ctl)
    ensures Feed(p, CodesBits(t, syms, k) + rest) ==
            Feed(p.(ctl := OnSymbolAt(p.level, p.origPtr, t, k, d, syms[k])), CodesBits(t, syms, k + 1) + rest)
  {
    hide Feed, OnSymbol, CodeBits;
    GroupOf(t, syms, k);
    var more := CodesBits(t, syms, k + 1) + rest;
    assert CodesBits(t, syms, k) + rest == CodeBits(GroupLens(t, k / BZ_G_SIZE), syms[k]) + more;
    FeedCode(p, t, k / BZ_G_SIZE, BZ_G_SIZE - 1 - k % BZ_G_SIZE, d, syms[k], more);
  }

  /** Before the end-of-block symbol: nothing the decoder checks goes wrong. */
  lemma StepAccepted(level: nat, origPtr: nat, t: Tables, k: nat, d: Decoder, sym: nat)
    requires TablesOk(t) && |d.list| == 256 && k + 1 < BZ_G_SIZE * |t.selector| && Weighed(d) && level <= 9
    requires sym <= Rank(t.inUse, 256) && Total(DecodeStep(d, sym)) <= 100000 * level
    ensures OnSymbolAt(level, origPtr, t, k, d, sym) == WaitFor(t, k + 1, DecodeStep(d, sym))
  {
    hide NextCode, WaitFor, DecodeStep;
    StepGrows(d, sym);
    NextGroup(t, k, DecodeStep(d, sym));
  }

  /** The symbols of a block: run digits and characters, then the end-of-block symbol. */
  ghost predicate BlockSyms(inUse: seq<bool>, syms: seq<nat>)
    requires |inUse| == 256
  {
    && syms != [] && syms[|syms| - 1] == Rank(inUse, 256) + 1
    && forall k :: 0 <= k < |syms| - 1 ==> syms[k] <= Rank(inUse, 256)
  }

  lemma WaitOk(t: Tables, syms: seq<nat>, k: nat, d: Decoder)
    requires Coded(t, syms) && k < |syms| && |d.list| == 256
    ensures Ok(WaitFor(t, k, d))
  {
    GroupOf(t, syms, k);
  }

  /** The symbols from k on, up to and without the last. */
  lemma {:induction false} FeedSymbols(p: Parse, t: Tables, syms: seq<nat>, k: nat, d: Decoder, rest: seq<bool>)
    requires Coded(t, syms) && BlockSyms(t.inUse, syms) && k < |syms| && Rank(t.inUse, 256) > 0
    requires |d.list| == 256 && Weighed(d) && p.level <= 9 && p.ctl == WaitFor(t, k, d) && Ok(p.ctl)
    requires Decodable(syms[k..|syms| - 1], 256)
    requires var e := Decode(d, syms[k..|syms| - 1]); p.origPtr < Total(e) <= 100000 * p.level
    ensures Feed(p, CodesBits(t, syms, k) + rest) ==
            Feed(p.(ctl := Output(Unseq(t.inUse, Finished(Decode(d, syms[k..|syms| - 1]))))), rest)
    decreases |syms| - k
  {
    hide Feed, OnSymbolAt, WaitFor, Unseq, DecodeStep, Total, Weighed, Finished, Ok, Rank, TablesOk, Kraft;
    FeedSymbol(p, t, syms, k, d, rest);
    var tail := syms[k..|syms| - 1];
    if k == |syms| - 1 {
      assert tail == [] && CodesBits(t, syms, |syms|) + rest == rest;
      EndOfBlock(p.level, p.origPtr, t, k, d);
    } else {
      hide CodesBits;
      assert tail[1..] == syms[k + 1..|syms| - 1] && tail[0] == syms[k];
      var d' := DecodeStep(d, syms[k]);
      StepGrows(d, syms[k]);
      DecodeGrows(d', tail[1..]);
      StepAccepted(p.level, p.origPtr, t, k, d, syms[k]);
      WaitOk(t, syms, k + 1, d');
      FeedSymbols(p.(ctl := WaitFor(t, k + 1, d')), t, syms, k + 1, d', rest);
    }
  }

  lemma EndOfBlock(level: nat, origPtr: nat, t: Tables, k: nat, d: Decoder)
    requires TablesOk(t) && |d.list| == 256 && k < BZ_G_SIZE * |t.selector| && Rank(t.inUse, 256) > 0
    requires origPtr < Total(d) <= 100000 * level
    ensures OnSymbolAt(level, origPtr, t, k, d, Rank(t.inUse, 256) + 1) == Output(Unseq(t.inUse, Finished(d)))
  {
  }

  // ---------- a whole block ----------

  function MagicBits(): seq<bool> {
    BitsOf(0x31, 8) + (BitsOf(0x41, 8) + (BitsOf(0x59, 8) + (BitsOf(0x26, 8) + (BitsOf(0x53, 8) + BitsOf(0x59, 8)))))
  }

  /** The symbols before the last can be decoded. */
  ghost predicate SymsDecode(syms: seq<nat>) {
    syms != [] && Decodable(syms[..|syms| - 1], 256)
  }

  /** The decoder after all symbols but the last. */
  ghost function SymsDecoder(syms: seq<nat>): (d: Decoder)
    requires SymsDecode(syms)
    ensures |d.list| == 256
  {
    Decode(Decoder(Iota(256), 0, 1, []), syms[..|syms| - 1])
  }

  /** Sending a block is possible, and so is reading it back. */
  ghost predicate Sendable(b: Block, level: nat) {
    && b.crc < Pow2(32) && 1 <= level <= 9
    && Coded(b.tables, b.syms) && BlockSyms(b.tables.inUse, b.syms)
    && Rank(b.tables.inUse, 256) > 0 && 2 <= |b.tables.lens| <= BZ_N_GROUPS
    && 1 <= |b.tables.selector| < 0x8000
    && SymsDecode(b.syms) && b.origPtr < Total(SymsDecoder(b.syms)) <= 100000 * level
  }

  lemma SelectorsListed(t: Tables)
    requires TablesOk(t)
    ensures forall k :: 0 <= k < |t.selector| ==> t.selector[k] in Iota(|t.lens|)
  {
    forall k | 0 <= k < |t.selector| ensures t.selector[k] in Iota(|t.lens|) {
      assert Iota(|t.lens|)[t.selector[k]] == t.selector[k];
    }
  }

  function SelectorMtf(t: Tables): (mtf: seq<nat>)
    requires TablesOk(t)
    ensures |mtf| == |t.selector| && forall k :: 0 <= k < |mtf| ==> mtf[k] < |t.lens|
  {
    SelectorsListed(t);
    CodeSelectors(t.selector, Iota(|t.lens|))
  }

  // ---------- reading what was written, piece by piece ----------

  /** Fed with these bits, and whatever follows, the machine goes from p to q. */
  ghost predicate Takes(p: Parse, bits: seq<bool>, q: Parse) {
    Ok(p.ctl) && Ok(q.ctl) && forall rest :: Feed(p, bits + rest) == Feed(q, rest)
  }

  lemma TakesThen(p: Parse, a: seq<bool>, q: Parse, b: seq<bool>, r: Parse)
    requires Takes(p, a, q) && Takes(q, b, r)
    ensures Takes(p, a + b, r)
  {
    hide Feed, Ok;
    forall rest ensures Feed(p, (a + b) + rest) == Feed(r, rest) {
      assert (a + b) + rest == a + (b + rest);
    }
  }

  lemma TakesByte(p: Parse, v: nat, q: Parse)
    requires Ok(p.ctl) && !Stopped(p.ctl) && Need(p.ctl) == 8 && v < 256 && q == Step(p, v)
    ensures Takes(p, BitsOf(v, 8), q)
  {
    hide Feed, Step, Need;
    forall rest ensures Feed(p, BitsOf(v, 8) + rest) == Feed(q, rest) {
      FeedByte(p, v, rest);
    }
  }

  lemma TakesMagicByte(p: Parse, k: nat)
    requires p.ctl == BlkHdr(k) && 1 <= k < 6
    ensures Takes(p, BitsOf(BlkByte(k), 8), p.(ctl := BlkHdr(k + 1)))
  {
    TakesByte(p, BlkByte(k), p.(ctl := BlkHdr(k + 1)));
  }

  lemma TakesLastMagic(p: Parse)
    requires p.ctl == BlkHdr(6)
    ensures Takes(p, BitsOf(0x59, 8), p.(ctl := BCrc(1), storedBlockCRC := 0))
  {
    TakesByte(p, 0x59, p.(ctl := BCrc(1), storedBlockCRC := 0));
  }

  lemma TakesMagic(p: Parse)
    requires p.ctl == BlkHdr(1)
    ensures Takes(p, MagicBits(), p.(ctl := BCrc(1), storedBlockCRC := 0))
  {
    hide Takes, BitsOf, Step, Ok, Need;
    var q := p.(ctl := BCrc(1), storedBlockCRC := 0);
    var p2, p3, p4, p5, p6 := p.(ctl := BlkHdr(2)), p.(ctl := BlkHdr(3)), p.(ctl := BlkHdr(4)), p.(ctl := BlkHdr(5)), p.(ctl := BlkHdr(6));
    TakesLastMagic(p6);
    TakesMagicByte(p, 1);
    TakesMagicByte(p2, 2);
    TakesMagicByte(p3, 3);
    TakesMagicByte(p4, 4);
    TakesMagicByte(p5, 5);
    TakesThen(p5, BitsOf(0x53, 8), p6, BitsOf(0x59, 8), q);
    TakesThen(p4, BitsOf(0x26, 8), p5, BitsOf(0x53, 8) + BitsOf(0x59, 8), q);
    TakesThen(p3, BitsOf(0x59, 8), p4, BitsOf(0x26, 8) + (BitsOf(0x53, 8) + BitsOf(0x59, 8)), q);
    TakesThen(p2, BitsOf(0x41, 8), p3, BitsOf(0x59, 8) + (BitsOf(0x26, 8) + (BitsOf(0x53, 8) + BitsOf(0x59, 8))), q);
    TakesThen(p, BitsOf(0x31, 8), p2, BitsOf(0x41, 8) + (BitsOf(0x59, 8) + (BitsOf(0x26, 8) + (BitsOf(0x53, 8) + BitsOf(0x59, 8)))), q);
  }

  /** A number's bytes, highest first. */
  lemma ThreeBytes(v: nat)
    requires v < Pow2(24)
    ensures var a, b, c := v / 0x1_0000, v / 0x100 % 0x100, v % 0x100;
            a < 256 && v == 0x100 * (0x100 * a + b) + c && BitsOf(v, 24) == BitsOf(a, 8) + (BitsOf(b, 8) + BitsOf(c, 8))
  {
    hide BitsOf, Pow2;
    var x := v / 0x100;
    ByteSplit(v, 16);
    ByteSplit(x, 8);
    Pow2Values();
    Pow2Add(8, 16);
    DivModUnique(v, 0x1_0000, x / 0x100, 0x100 * (x % 0x100) + v % 0x100);
  }

  lemma ByteSplit(v: nat, m: nat)
    ensures BitsOf(v, m + 8) == BitsOf(v / 0x100, m) + BitsOf(v % 0x100, 8)
  {
    Pow2Values();
    BitsSplit(v, m, 8);
  }

  lemma FourthByte(v: nat)
    requires v < Pow2(32)
    ensures var a, w := v / 0x100_0000, v % 0x100_0000;
            a < 256 && w < Pow2(24) && BitsOf(v, 32) == BitsOf(a, 8) + BitsOf(w, 24)
  {
    Pow2Values();
    Pow2Add(8, 24);
    Pow2Add(8, 16);
    BitsSplit(v, 8, 24);
  }

  lemma TakesPtrByte(p: Parse, k: nat, v: nat)
    requires p.ctl == OrigPtr(k) && v < 256 && (k >= 3 ==> 0x100 * p.origPtr + v <= 10 + 100000 * p.level)
    ensures Takes(p, BitsOf(v, 8), p.(ctl := if k < 3 then OrigPtr(k + 1) else Mapping1([]), origPtr := 0x100 * p.origPtr + v))
  {
    TakesByte(p, v, p.(ctl := if k < 3 then OrigPtr(k + 1) else Mapping1([]), origPtr := 0x100 * p.origPtr + v));
  }

  lemma TakesOrigPtr(p: Parse, v: nat)
    requires p.ctl == OrigPtr(1) && p.origPtr == 0 && v < Pow2(24) && v <= 10 + 100000 * p.level
    ensures Takes(p, BitsOf(v, 24), p.(ctl := Mapping1([]), origPtr := v))
  {
    hide BitsOf, Takes, Pow2, Step, Ok, Need;
    ThreeBytes(v);
    var a, b, c := v / 0x1_0000, v / 0x100 % 0x100, v % 0x100;
    var p2, p3, q := p.(ctl := OrigPtr(2), origPtr := a), p.(ctl := OrigPtr(3), origPtr := 0x100 * a + b), p.(ctl := Mapping1([]), origPtr := v);
    TakesPtrByte(p, 1, a);
    TakesPtrByte(p2, 2, b);
    TakesPtrByte(p3, 3, c);
    TakesThen(p2, BitsOf(b, 8), p3, BitsOf(c, 8), q);
    TakesThen(p, BitsOf(a, 8), p2, BitsOf(b, 8) + BitsOf(c, 8), q);
  }

  lemma TakesCrcByte(p: Parse, k: nat, v: nat)
    requires p.ctl == BCrc(k) && v < 256
    ensures Takes(p, BitsOf(v, 8), p.(ctl := if k < 4 then BCrc(k + 1) else RandBit, storedBlockCRC := 0x100 * p.storedBlockCRC + v))
  {
    TakesByte(p, v, p.(ctl := if k < 4 then BCrc(k + 1) else RandBit, storedBlockCRC := 0x100 * p.storedBlockCRC + v));
  }

  lemma TakesBlockCrc(p: Parse, v: nat)
    requires p.ctl == BCrc(1) && p.storedBlockCRC == 0 && v < Pow2(32)
    ensures Takes(p, BitsOf(v, 32), p.(ctl := RandBit, storedBlockCRC := v))
  {
    hide BitsOf, Takes, Pow2, Step, Ok, Need;
    FourthByte(v);
    var a, w := v / 0x100_0000, v % 0x100_0000;
    ThreeBytes(w);
    var b, c, d := w / 0x1_0000, w / 0x100 % 0x100, w % 0x100;
    var ab := 0x100 * a + b;
    var abc := 0x100 * ab + c;
    assert v == 0x100 * abc + d;
    var p2, p3, p4, q := p.(ctl := BCrc(2), storedBlockCRC := a), p.(ctl := BCrc(3), storedBlockCRC := ab),
                         p.(ctl := BCrc(4), storedBlockCRC := abc), p.(ctl := RandBit, storedBlockCRC := v);
    TakesCrcByte(p, 1, a);
    TakesCrcByte(p2, 2, b);
    TakesCrcByte(p3, 3, c);
    TakesCrcByte(p4, 4, d);
    TakesThen(p3, BitsOf(c, 8), p4, BitsOf(d, 8), q);
    TakesThen(p2, BitsOf(b, 8), p3, BitsOf(c, 8) + BitsOf(d, 8), q);
    TakesThen(p, BitsOf(a, 8), p2, BitsOf(b, 8) + (BitsOf(c, 8) + BitsOf(d, 8)), q);
  }

  lemma TakesEndCrcByte(p: Parse, k: nat, v: nat)
    requires p.ctl == CCrc(k) && v < 256
    ensures Takes(p, BitsOf(v, 8), p.(ctl := if k < 4 then CCrc(k + 1) else Idle, storedCombinedCRC := 0x100 * p.storedCombinedCRC + v))
  {
    TakesByte(p, v, p.(ctl := if k < 4 then CCrc(k + 1) else Idle, storedCombinedCRC := 0x100 * p.storedCombinedCRC + v));
  }

  lemma TakesCombinedCrc(p: Parse, v: nat)
    requires p.ctl == CCrc(1) && p.storedCombinedCRC == 0 && v < Pow2(32)
    ensures Takes(p, BitsOf(v, 32), p.(ctl := Idle, storedCombinedCRC := v))
  {
    hide BitsOf, Takes, Pow2, Step, Ok, Need;
    FourthByte(v);
    var a, w := v / 0x100_0000, v % 0x100_0000;
    ThreeBytes(w);
    var b, c, d := w / 0x1_0000, w / 0x100 % 0x100, w % 0x100;
    var ab := 0x100 * a + b;
    var abc := 0x100 * ab + c;
    assert v == 0x100 * abc + d;
    var p2, p3, p4, q := p.(ctl := CCrc(2), storedCombinedCRC := a), p.(ctl := CCrc(3), storedCombinedCRC := ab),
                         p.(ctl := CCrc(4), storedCombinedCRC := abc), p.(ctl := Idle, storedCombinedCRC := v);
    TakesEndCrcByte(p, 1, a);
    TakesEndCrcByte(p2, 2, b);
    TakesEndCrcByte(p3, 3, c);
    TakesEndCrcByte(p4, 4, d);
    TakesThen(p3, BitsOf(c, 8), p4, BitsOf(d, 8), q);
    TakesThen(p2, BitsOf(b, 8), p3, BitsOf(c, 8) + BitsOf(d, 8), q);
    TakesThen(p, BitsOf(a, 8), p2, BitsOf(b, 8) + (BitsOf(c, 8) + BitsOf(d, 8)), q);
  }

  lemma TakesRandBit(p: Parse)
    requires p.ctl == RandBit
    ensures Takes(p, BitsOf(0, 1), p.(ctl := OrigPtr(1), origPtr := 0))
  {
    var q := p.(ctl := OrigPtr(1), origPtr := 0);
    assert Pow2(1) == 2 && q == Step(p, 0);
    hide Feed, Step;
    forall rest ensures Feed(p, BitsOf(0, 1) + rest) == Feed(q, rest) {
      FeedField(p, 0, 1, rest);
    }
  }

  lemma TakesMap(p: Parse, inUse: seq<bool>)
    requires |inUse| == 256 && p.ctl == Mapping1([]) && Rank(inUse, 256) > 0
    ensures Takes(p, MapBits(inUse), p.(ctl := Selector1(inUse)))
  {
    hide Feed, MapBits, Rank;
    forall rest ensures Feed(p, MapBits(inUse) + rest) == Feed(p.(ctl := Selector1(inUse)), rest) {
      FeedMap(p, inUse, rest);
    }
  }

  lemma Pow2Small()
    ensures Pow2(3) == 8 && Pow2(15) == 0x8000
  {
    Pow2Values();
    assert Pow2(16) == 2 * Pow2(15);
  }

  lemma SelectorsDone(t: Tables)
    requires TablesOk(t) && 2 <= |t.lens| <= BZ_N_GROUPS
    ensures NextSelector(t.inUse, |t.lens|, |t.selector|, SelectorMtf(t)) == Coding1(t.inUse, |t.lens|, t.selector, t.lens[..0])
  {
    SelectorsListed(t);
    SelectorsRoundTrip(t.selector, Iota(|t.lens|));
  }

  /** Selectors and tables. */
  ghost function CodingBits(t: Tables): seq<bool>
    requires TablesOk(t)
  {
    BitsOf(|t.lens|, 3) + (BitsOf(|t.selector|, 15) + (SelectorBits(SelectorMtf(t)) + TablesBits(t.lens, 0)))
  }

  lemma TakesField(p: Parse, v: nat, n: nat, q: Parse)
    requires Ok(p.ctl) && !Stopped(p.ctl) && Need(p.ctl) == n && v < Pow2(n) && q == Step(p, v)
    ensures Takes(p, BitsOf(v, n), q)
  {
    hide Feed, Step, Need, BitsOf;
    forall rest ensures Feed(p, BitsOf(v, n) + rest) == Feed(q, rest) {
      FeedField(p, v, n, rest);
    }
  }

  lemma TakesGroups(p: Parse, inUse: seq<bool>, n: nat)
    requires |inUse| == 256 && 2 <= n <= BZ_N_GROUPS && p.ctl == Selector1(inUse)
    ensures Takes(p, BitsOf(n, 3), p.(ctl := Selector2(inUse, n)))
  {
    hide BitsOf;
    Pow2Small();
    TakesField(p, n, 3, p.(ctl := Selector2(inUse, n)));
  }

  lemma TakesCount(p: Parse, inUse: seq<bool>, n: nat, count: nat)
    requires |inUse| == 256 && 2 <= n <= BZ_N_GROUPS && p.ctl == Selector2(inUse, n) && 1 <= count < 0x8000
    ensures Takes(p, BitsOf(count, 15), p.(ctl := NextSelector(inUse, n, count, [])))
  {
    hide BitsOf, NextSelector;
    Pow2Small();
    TakesField(p, count, 15, p.(ctl := NextSelector(inUse, n, count, [])));
  }

  lemma TakesSelectors(p: Parse, t: Tables)
    requires TablesOk(t) && 2 <= |t.lens| <= BZ_N_GROUPS && p.ctl == NextSelector(t.inUse, |t.lens|, |t.selector|, [])
    ensures Takes(p, SelectorBits(SelectorMtf(t)), p.(ctl := Coding1(t.inUse, |t.lens|, t.selector, [])))
  {
    var n, mtf := |t.lens|, SelectorMtf(t);
    SelectorsDone(t);
    assert [] + mtf == mtf && t.lens[..0] == [] && |mtf| <= BZ_MAX_SELECTORS;
    var q := p.(ctl := Coding1(t.inUse, n, t.selector, []));
    hide Feed, SelectorBits, NextSelector, SelectorMtf, TablesOk;
    forall rest ensures Feed(p, SelectorBits(mtf) + rest) == Feed(q, rest) {
      FeedSelectors(p, t.inUse, n, |mtf|, [], mtf, rest);
    }
  }

  lemma TakesTables(p: Parse, t: Tables)
    requires TablesOk(t) && t.selector != [] && t.lens != [] && p.ctl == Coding1(t.inUse, |t.lens|, t.selector, [])
    ensures forall k :: 0 <= k < |t.lens| ==> t.lens[k] != []
    ensures Takes(p, TablesBits(t.lens, 0), p.(ctl := WaitFor(t, 0, Decoder(Iota(256), 0, 1, []))))
  {
    var d := Decoder(Iota(256), 0, 1, []);
    FirstSymbol(t, d);
    TablesWait(t, d);
    var q := p.(ctl := WaitFor(t, 0, d));
    assert t.lens[..0] == [];
    hide Feed, TablesBits, NextCode, WaitFor;
    forall rest ensures Feed(p, TablesBits(t.lens, 0) + rest) == Feed(q, rest) {
      FeedTables(p, t, 0, rest);
    }
  }

  lemma TakesCoding(p: Parse, t: Tables)
    requires TablesOk(t) && 2 <= |t.lens| <= BZ_N_GROUPS && 1 <= |t.selector| < 0x8000 && p.ctl == Selector1(t.inUse)
    ensures Takes(p, CodingBits(t), p.(ctl := WaitFor(t, 0, Decoder(Iota(256), 0, 1, []))))
  {
    hide Takes, BitsOf, SelectorBits, TablesBits, NextSelector, SelectorMtf, WaitFor, Ok;
    var d, n := Decoder(Iota(256), 0, 1, []), |t.lens|;
    TablesWait(t, d);
    var p1, p2, p3 := p.(ctl := Selector2(t.inUse, n)), p.(ctl := NextSelector(t.inUse, n, |t.selector|, [])), p.(ctl := Coding1(t.inUse, n, t.selector, []));
    var q := p.(ctl := WaitFor(t, 0, d));
    TakesGroups(p, t.inUse, n);
    TakesCount(p1, t.inUse, n, |t.selector|);
    TakesSelectors(p2, t);
    TakesTables(p3, t);
    TakesThen(p2, SelectorBits(SelectorMtf(t)), p3, TablesBits(t.lens, 0), q);
    TakesThen(p1, BitsOf(|t.selector|, 15), p2, SelectorBits(SelectorMtf(t)) + TablesBits(t.lens, 0), q);
    TakesThen(p, BitsOf(n, 3), p1, BitsOf(|t.selector|, 15) + (SelectorBits(SelectorMtf(t)) + TablesBits(t.lens, 0)), q);
  }

  lemma TablesWait(t: Tables, d: Decoder)
    requires TablesOk(t) && t.selector != [] && |d.list| == 256
    ensures Ok(WaitFor(t, 0, d)) && |t.inUse| == 256 && forall k :: 0 <= k < |t.lens| ==> t.lens[k] != []
  {
  }

  /** The part of the block that sendMTFValues writes. */
  ghost function DataBits(t: Tables, syms: seq<nat>): seq<bool>
    requires Coded(t, syms)
  {
    MapBits(t.inUse) + (CodingBits(t) + CodesBits(t, syms, 0))
  }

  ghost function BlockBits(b: Block): seq<bool>
    requires Coded(b.tables, b.syms)
  {
    MagicBits() + (BitsOf(b.crc, 32) + (BitsOf(0, 1) + (BitsOf(b.origPtr, 24) + DataBits(b.tables, b.syms))))
  }

  /** The characters that the symbols of a block stand for. */
  ghost function ColumnOf(t: Tables, syms: seq<nat>): seq<byte>
    requires |t.inUse| == 256 && SymsDecode(syms)
  {
    Unseq(t.inUse, Finished(SymsDecoder(syms)))
  }

  lemma TakesSymbols(p: Parse, t: Tables, syms: seq<nat>)
    requires Coded(t, syms) && BlockSyms(t.inUse, syms) && Rank(t.inUse, 256) > 0 && SymsDecode(syms) && p.level <= 9
    requires p.ctl == WaitFor(t, 0, Decoder(Iota(256), 0, 1, [])) && p.origPtr < Total(SymsDecoder(syms)) <= 100000 * p.level
    ensures Takes(p, CodesBits(t, syms, 0), p.(ctl := Output(ColumnOf(t, syms))))
  {
    var d := Decoder(Iota(256), 0, 1, []);
    var q := p.(ctl := Output(ColumnOf(t, syms)));
    assert syms[0..|syms| - 1] == syms[..|syms| - 1];
    WaitOk(t, syms, 0, d);
    assert Ok(q.ctl);
    hide Feed, CodesBits, Coded, WaitFor, Total, Decode, Ok;
    forall rest ensures Feed(p, CodesBits(t, syms, 0) + rest) == Feed(q, rest) {
      FeedSymbols(p, t, syms, 0, d, rest);
    }
  }

  lemma TakesData(p: Parse, t: Tables, syms: seq<nat>)
    requires Coded(t, syms) && BlockSyms(t.inUse, syms) && Rank(t.inUse, 256) > 0 && SymsDecode(syms) && p.level <= 9
    requires 2 <= |t.lens| <= BZ_N_GROUPS && 1 <= |t.selector| < 0x8000
    requires p.ctl == Mapping1([]) && p.origPtr < Total(SymsDecoder(syms)) <= 100000 * p.level
    ensures Takes(p, DataBits(t, syms), p.(ctl := Output(ColumnOf(t, syms))))
  {
    var d := Decoder(Iota(256), 0, 1, []);
    var p1, p2, q := p.(ctl := Selector1(t.inUse)), p.(ctl := WaitFor(t, 0, d)), p.(ctl := Output(ColumnOf(t, syms)));
    hide Takes, MapBits, CodingBits, CodesBits, ColumnOf, Rank, Total, SymsDecoder, SymsDecode, WaitFor;
    TakesMap(p, t.inUse);
    TakesCoding(p1, t);
    TakesSymbols(p2, t, syms);
    TakesThen(p1, CodingBits(t), p2, CodesBits(t, syms, 0), q);
    TakesThen(p, MapBits(t.inUse), p1, CodingBits(t) + CodesBits(t, syms, 0), q);
  }

  /** The parser reads back exactly what was sent: the characters the symbols stand for, and
      with them the checksum and the original position. */
  lemma TakesBlock(p: Parse, b: Block)
    requires p.ctl == BlkHdr(1) && Sendable(b, p.level)
    ensures Takes(p, BlockBits(b), p.(ctl := Output(ColumnOf(b.tables, b.syms)), storedBlockCRC := b.crc, origPtr := b.origPtr))
  {
    SendableParts(b, p.level);
    hide Takes, MagicBits, BitsOf, DataBits, ColumnOf, Coded, BlockSyms, Rank, Total, SymsDecoder, Pow2, Step, Ok, Need, SymsDecode;
    var q := p.(ctl := Output(ColumnOf(b.tables, b.syms)), storedBlockCRC := b.crc, origPtr := b.origPtr);
    var p1 := p.(ctl := BCrc(1), storedBlockCRC := 0);
    var p2 := p1.(ctl := RandBit, storedBlockCRC := b.crc);
    var p3 := p2.(ctl := OrigPtr(1), origPtr := 0);
    var p4 := p3.(ctl := Mapping1([]), origPtr := b.origPtr);
    TakesMagic(p);
    TakesBlockCrc(p1, b.crc);
    TakesRandBit(p2);
    OrigPtrFits(b.origPtr, p.level);
    TakesOrigPtr(p3, b.origPtr);
    TakesData(p4, b.tables, b.syms);
    var data := DataBits(b.tables, b.syms);
    TakesThen(p3, BitsOf(b.origPtr, 24), p4, data, q);
    TakesThen(p2, BitsOf(0, 1), p3, BitsOf(b.origPtr, 24) + data, q);
    TakesThen(p1, BitsOf(b.crc, 32), p2, BitsOf(0, 1) + (BitsOf(b.origPtr, 24) + data), q);
    TakesThen(p, MagicBits(), p1, BitsOf(b.crc, 32) + (BitsOf(0, 1) + (BitsOf(b.origPtr, 24) + data)), q);
  }

  lemma SendableParts(b: Block, level: nat)
    requires Sendable(b, level)
    ensures |b.tables.inUse| == 256 && SymsDecode(b.syms)
  {
  }

  lemma OrigPtrFits(v: nat, level: nat)
    requires level <= 9 && v < 100000 * level
    ensures v < Pow2(24)
  {
    Pow2Values();
    Pow2Add(8, 16);
  }

  lemma FirstSymbol(t: Tables, d: Decoder)
    requires TablesOk(t) && |d.list| == 256 && t.selector != []
    ensures NextCode(t, -1, 0, d) == WaitFor(t, 0, d)
  {
  }

  // ---------- stream header and trailer ----------

  function HeaderBits(level: nat): seq<bool> {
    BitsOf(0x42, 8) + (BitsOf(0x5a, 8) + (BitsOf(0x68, 8) + BitsOf(0x30 + level, 8)))
  }

  function TrailerBits(crc: nat): seq<bool> {
    BitsOf(0x17, 8) + (BitsOf(0x72, 8) + (BitsOf(0x45, 8) + (BitsOf(0x38, 8) + (BitsOf(0x50, 8) + (BitsOf(0x90, 8) + BitsOf(crc, 32))))))
  }

  lemma TakesStartByte(p: Parse, k: nat, v: nat, q: Parse)
    requires p.ctl == Magic(k) && k < 4 && v == (if k == 0 then 0x42 else if k == 1 then 0x5a else if k == 2 then 0x68 else 0x30 + q.level)
    requires k == 3 ==> 1 <= q.level <= 9
    requires q == if k < 3 then p.(ctl := Magic(k + 1)) else p.(ctl := BlkHdr(1), level := q.level)
    ensures Takes(p, BitsOf(v, 8), q)
  {
    hide BitsOf;
    TakesByte(p, v, q);
  }

  lemma TakesHeader(level: nat)
    requires 1 <= level <= 9
    ensures Takes(Start(), HeaderBits(level), Start().(ctl := BlkHdr(1), level := level))
  {
    hide BitsOf, Takes, Step, Ok, Need;
    var p := Start();
    var p2, p3, p4, q := p.(ctl := Magic(1)), p.(ctl := Magic(2)), p.(ctl := Magic(3)), p.(ctl := BlkHdr(1), level := level);
    TakesStartByte(p, 0, 0x42, p2);
    TakesStartByte(p2, 1, 0x5a, p3);
    TakesStartByte(p3, 2, 0x68, p4);
    TakesStartByte(p4, 3, 0x30 + level, q);
    TakesThen(p3, BitsOf(0x68, 8), p4, BitsOf(0x30 + level, 8), q);
    TakesThen(p2, BitsOf(0x5a, 8), p3, BitsOf(0x68, 8) + BitsOf(0x30 + level, 8), q);
    TakesThen(p, BitsOf(0x42, 8), p2, BitsOf(0x5a, 8) + (BitsOf(0x68, 8) + BitsOf(0x30 + level, 8)), q);
  }

  lemma TakesEndByte(p: Parse, k: nat)
    requires p.ctl == EndHdr(k) && 2 <= k < 6
    ensures Takes(p, BitsOf(EndByte(k), 8), p.(ctl := EndHdr(k + 1)))
  {
    TakesByte(p, EndByte(k), p.(ctl := EndHdr(k + 1)));
  }

  lemma TakesFirstEnd(p: Parse)
    requires p.ctl == BlkHdr(1)
    ensures Takes(p, BitsOf(0x17, 8), p.(ctl := EndHdr(2)))
  {
    TakesByte(p, 0x17, p.(ctl := EndHdr(2)));
  }

  lemma TakesLastEnd(p: Parse)
    requires p.ctl == EndHdr(6)
    ensures Takes(p, BitsOf(0x90, 8), p.(ctl := CCrc(1), storedCombinedCRC := 0))
  {
    TakesByte(p, 0x90, p.(ctl := CCrc(1), storedCombinedCRC := 0));
  }

  lemma TakesTrailer(p: Parse, crc: nat)
    requires p.ctl == BlkHdr(1) && crc < Pow2(32)
    ensures Takes(p, TrailerBits(crc), p.(ctl := Idle, storedCombinedCRC := crc))
  {
    hide Takes, BitsOf, Step, Pow2, Ok, Need;
    var p2, p3, p4, p5, p6 := p.(ctl := EndHdr(2)), p.(ctl := EndHdr(3)), p.(ctl := EndHdr(4)), p.(ctl := EndHdr(5)), p.(ctl := EndHdr(6));
    var p7, q := p.(ctl := CCrc(1), storedCombinedCRC := 0), p.(ctl := Idle, storedCombinedCRC := crc);
    TakesFirstEnd(p);
    TakesLastEnd(p6);
    TakesEndByte(p2, 2);
    TakesEndByte(p3, 3);
    TakesEndByte(p4, 4);
    TakesEndByte(p5, 5);
    TakesCombinedCrc(p7, crc);
    var r7 := BitsOf(crc, 32);
    var r6 := BitsOf(0x90, 8) + r7;
    var r5 := BitsOf(0x50, 8) + r6;
    var r4 := BitsOf(0x38, 8) + r5;
    var r3 := BitsOf(0x45, 8) + r4;
    var r2 := BitsOf(0x72, 8) + r3;
    TakesThen(p6, BitsOf(0x90, 8), p7, r7, q);
    TakesThen(p5, BitsOf(0x50, 8), p6, r6, q);
    TakesThen(p4, BitsOf(0x38, 8), p5, r5, q);
    TakesThen(p3, BitsOf(0x45, 8), p4, r4, q);
    TakesThen(p2, BitsOf(0x72, 8), p3, r3, q);
    TakesThen(p, BitsOf(0x17, 8), p2, r2, q);
  }
}
