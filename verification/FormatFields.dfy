/** The format of a compressed stream by the places of its bits, independent of how they are
    written and read. */
module FormatFields {
  import opened Words
  import opened Bits
  import opened WordBits
  import opened HuffmanCodes
  import opened MtfCoding
  import opened MtfEncoder
  import opened Parser
  import opened Printer

  /** The n bits from a place on are those of v, the highest first. */
  ghost predicate Field(s: seq<bool>, from: nat, n: nat, v: nat) {
    from + n <= |s| && forall k :: from <= k < from + n ==> (s[k] <==> Bit(v, from + n - 1 - k))
  }

  lemma {:induction false} BitsOfField(v: nat, n: nat)
    ensures Field(BitsOf(v, n), 0, n, v)
  {
    if n > 0 {
      BitsOfField(v / 2, n - 1);
      hide Bit;
      var s, init := BitsOf(v, n), BitsOf(v / 2, n - 1);
      forall k | 0 <= k < n ensures s[k] <==> Bit(v, n - 1 - k) {
        if k < n - 1 {
          assert s[k] == init[k];
          BitNext(v, n - 2 - k);
        } else {
          BitLowest(v);
        }
      }
    }
  }

  /** A field further on stays a field behind other bits. */
  lemma FieldBehind(c: seq<bool>, t: seq<bool>, from: nat, n: nat, v: nat)
    requires Field(t, from, n, v)
    ensures Field(c + t, |c| + from, n, v)
  {
    hide Bit;
    var place := |c| + from;
    forall k | place <= k < place + n ensures (c + t)[k] <==> Bit(v, place + n - 1 - k) {
      assert (c + t)[k] == t[k - |c|];
    }
  }

  /** The bits of a number, and more bits behind them. */
  lemma FieldFirst(v: nat, n: nat, t: seq<bool>)
    ensures Field(BitsOf(v, n) + t, 0, n, v)
  {
    BitsOfField(v, n);
    hide Bit, BitsOf;
  }

  /** Two fields side by side are one. */
  lemma FieldsJoin(s: seq<bool>, from: nat, m: nat, hi: nat, n: nat, lo: nat)
    requires Field(s, from, m, hi) && Field(s, from + m, n, lo) && lo < Pow2(n)
    ensures Field(s, from, m + n, Shl(hi, n) + lo)
  {
    hide Bit, Shl, Pow2;
    forall k | from <= k < from + (m + n) ensures s[k] <==> Bit(Shl(hi, n) + lo, from + (m + n) - 1 - k) {
      var i := from + (m + n) - 1 - k;
      BitJoin(hi, n, lo, i);
      if k < from + m { assert i - n == from + m - 1 - k; }
    }
  }

  /** Two bytes in front of other bits. */
  ghost function Two(x: nat, y: nat, t: seq<bool>): (s: seq<bool>)
    ensures |s| == 16 + |t|
  {
    BitsOf(x, 8) + (BitsOf(y, 8) + t)
  }

  lemma Bytes2(x: nat, y: nat, t: seq<bool>)
    requires x < 256 && y < 256
    ensures Field(Two(x, y, t), 0, 16, 256 * x + y)
  {
    hide BitsOf, Field;
    FieldFirst(x, 8, BitsOf(y, 8) + t);
    FieldFirst(y, 8, t);
    FieldBehind(BitsOf(x, 8), BitsOf(y, 8) + t, 0, 8, y);
    Pow2Eight();
    FieldsJoin(Two(x, y, t), 0, 8, x, 8, y);
  }

  lemma Behind2(x: nat, y: nat, t: seq<bool>, from: nat, n: nat, v: nat)
    requires Field(t, from, n, v)
    ensures Field(Two(x, y, t), 16 + from, n, v)
  {
    hide BitsOf, Field;
    FieldBehind(BitsOf(y, 8), t, from, n, v);
    FieldBehind(BitsOf(x, 8), BitsOf(y, 8) + t, 8 + from, n, v);
  }

  lemma Pow2Eight()
    ensures Pow2(8) == 256 && Pow2(16) == 0x1_0000 && Pow2(32) == 0x1_0000_0000
  {
    assert Pow2(4) == 16;
    Pow2Add(4, 4);
    Pow2Add(8, 8);
    Pow2Add(16, 16);
  }

  /** Six bytes are one number of 48 bits. */
  lemma Bytes6(x: nat, y: nat, rest: seq<bool>, b0: nat, b1: nat, b2: nat, b3: nat, b4: nat, b5: nat)
    requires b0 < 256 && b1 < 256 && b2 < 256 && b3 < 256 && b4 < 256 && b5 < 256
    requires x == 0x100_0000 * b0 + 0x1_0000 * b1 + 0x100 * b2 + b3 && y == 0x1_0000 * x + 0x100 * b4 + b5
    ensures Field(Two(b0, b1, Two(b2, b3, Two(b4, b5, rest))), 0, 48, y)
  {
    hide *;
    SixParts(x, y, b0, b1, b2, b3, b4, b5);
    var t4 := Two(b4, b5, rest);
    var t2 := Two(b2, b3, t4);
    Bytes2(b4, b5, rest);
    TwoMore(b2, b3, t4, 16, 256 * b4 + b5);
    TwoMore(b0, b1, t2, 32, Shl(256 * b2 + b3, 16) + (256 * b4 + b5));
  }

  lemma TwoMore(x: nat, y: nat, t: seq<bool>, n: nat, v: nat)
    requires x < 256 && y < 256 && v < Pow2(n) && Field(t, 0, n, v)
    ensures Field(Two(x, y, t), 0, 16 + n, Shl(256 * x + y, n) + v)
  {
    hide *;
    Bytes2(x, y, t);
    Behind2(x, y, t, 0, n, v);
    FieldsJoin(Two(x, y, t), 0, 16, 256 * x + y, n, v);
  }

  lemma SixParts(x: nat, y: nat, b0: nat, b1: nat, b2: nat, b3: nat, b4: nat, b5: nat)
    requires b0 < 256 && b1 < 256 && b2 < 256 && b3 < 256 && b4 < 256 && b5 < 256
    requires x == 0x100_0000 * b0 + 0x1_0000 * b1 + 0x100 * b2 + b3 && y == 0x1_0000 * x + 0x100 * b4 + b5
    ensures 256 * b4 + b5 < Pow2(16) && Shl(256 * b2 + b3, 16) + (256 * b4 + b5) < Pow2(32)
    ensures Shl(256 * b0 + b1, 32) + (Shl(256 * b2 + b3, 16) + (256 * b4 + b5)) == y
  {
    Pow2Eight();
  }

  lemma SixBehind(b0: nat, b1: nat, b2: nat, b3: nat, b4: nat, b5: nat, t: seq<bool>, from: nat, n: nat, v: nat)
    requires Field(t, from, n, v)
    ensures Field(Two(b0, b1, Two(b2, b3, Two(b4, b5, t))), 48 + from, n, v)
  {
    hide *;
    Behind2(b4, b5, t, from, n, v);
    Behind2(b2, b3, Two(b4, b5, t), 16 + from, n, v);
    Behind2(b0, b1, Two(b2, b3, Two(b4, b5, t)), 32 + from, n, v);
  }

  /** The header: "BZh" and the digit of the level. */
  lemma HeaderFields(level: nat)
    requires 1 <= level <= 9
    ensures |HeaderBits(level)| == 32 && Field(HeaderBits(level), 0, 32, 0x425a6830 + level)
  {
    hide BitsOf, Field, Shl, Pow2;
    var x := 0x30 + level;
    assert BitsOf(x, 8) + [] == BitsOf(x, 8);
    Pow2Eight();
    Bytes2(0x68, x, []);
    TwoMore(0x42, 0x5a, Two(0x68, x, []), 16, 256 * 0x68 + x);
    ShlIs(256 * 0x42 + 0x5a);
  }

  lemma ShlIs(x: nat)
    ensures Shl(x, 16) == 0x1_0000 * x
  {
    Pow2Eight();
  }

  /** The trailer: the first digits of the square root of pi, and the combined checksum. */
  lemma TrailerFields(crc: nat)
    ensures |TrailerBits(crc)| == 80 && Field(TrailerBits(crc), 0, 48, 0x177245385090) && Field(TrailerBits(crc), 48, 32, crc)
  {
    hide BitsOf, Field;
    assert TrailerBits(crc) == Two(0x17, 0x72, Two(0x45, 0x38, Two(0x50, 0x90, BitsOf(crc, 32))));
    hide TrailerBits, Two;
    Bytes6(0x17724538, 0x177245385090, BitsOf(crc, 32), 0x17, 0x72, 0x45, 0x38, 0x50, 0x90);
    BitsOfField(crc, 32);
    SixBehind(0x17, 0x72, 0x45, 0x38, 0x50, 0x90, BitsOf(crc, 32), 0, 32, crc);
  }

  // ---------- a block ----------

  ghost predicate RowHas(inUse: seq<bool>, i: nat)
    requires |inUse| == 256 && i < 16
  {
    exists c :: 16 * i <= c < 16 * i + 16 && inUse[c]
  }

  lemma RowIs(inUse: seq<bool>, i: nat)
    requires |inUse| == 256 && i < 16
    ensures RowUsed(inUse, i) <==> RowHas(inUse, i)
  {
    var row := inUse[16 * i..16 * i + 16];
    if RowHas(inUse, i) {
      var c :| 16 * i <= c < 16 * i + 16 && inUse[c];
      assert row[c - 16 * i];
    }
    if RowUsed(inUse, i) {
      var k :| 0 <= k < |row| && row[k];
      assert inUse[16 * i + k];
    }
  }

  /** How many of the rows before row i are used. */
  ghost function RowsBefore(inUse: seq<bool>, i: nat): nat
    requires |inUse| == 256 && i <= 16
  {
    if i == 0 then 0 else RowsBefore(inUse, i - 1) + if RowHas(inUse, i - 1) then 1 else 0
  }

  lemma {:induction false} RowsRise(inUse: seq<bool>, i: nat, j: nat)
    requires |inUse| == 256 && i <= j <= 16
    ensures RowsBefore(inUse, i) <= RowsBefore(inUse, j)
    decreases j
  {
    if i < j { RowsRise(inUse, i, j - 1); }
  }

  lemma {:induction false} RowsSize(inUse: seq<bool>, from: nat)
    requires |inUse| == 256 && from <= 16
    ensures |RowBits(inUse, from)| == 16 * (RowsBefore(inUse, 16) - RowsBefore(inUse, from))
    decreases 16 - from
  {
    if from < 16 {
      RowIs(inUse, from);
      hide RowUsed, RowHas;
      RowsSize(inUse, from + 1);
    }
  }

  /** A used row follows the used rows before it. */
  lemma {:induction false} RowPlace(inUse: seq<bool>, from: nat, i: nat)
    requires |inUse| == 256 && from <= i < 16 && RowHas(inUse, i)
    ensures RowsBefore(inUse, from) <= RowsBefore(inUse, i)
    ensures RowAt(RowBits(inUse, from), 16 * (RowsBefore(inUse, i) - RowsBefore(inUse, from)), inUse, i)
    decreases i - from
  {
    RowIs(inUse, from);
    RowsRise(inUse, from, i);
    hide RowUsed, RowHas;
    var row, rest := inUse[16 * from..16 * from + 16], RowBits(inUse, from + 1);
    if from < i {
      RowPlace(inUse, from + 1, i);
      if RowUsed(inUse, from) { RowBehind(row, rest, 16 * (RowsBefore(inUse, i) - RowsBefore(inUse, from + 1)), inUse, i); } else { assert [] + rest == rest; }
    } else {
      assert (row + rest)[0..16] == row;
    }
  }

  lemma RowBehind(c: seq<bool>, t: seq<bool>, place: nat, inUse: seq<bool>, i: nat)
    requires |inUse| == 256 && i < 16 && RowAt(t, place, inUse, i)
    ensures RowAt(c + t, |c| + place, inUse, i)
  {
    assert (c + t)[|c| + place..|c| + place + 16] == t[place..place + 16];
  }

  lemma RowBefore(t: seq<bool>, c: seq<bool>, place: nat, inUse: seq<bool>, i: nat)
    requires |inUse| == 256 && i < 16 && RowAt(t, place, inUse, i)
    ensures RowAt(t + c, place, inUse, i)
  {
    assert (t + c)[place..place + 16] == t[place..place + 16];
  }

  /** The map of the characters used: sixteen bits for the rows, and the rows that are used. */
  ghost predicate MapAt(s: seq<bool>, place: nat, inUse: seq<bool>)
    requires |inUse| == 256
  {
    && place + 16 + 16 * RowsBefore(inUse, 16) <= |s|
    && (forall i :: 0 <= i < 16 ==> (s[place + i] <==> RowHas(inUse, i)))
    && forall i :: 0 <= i < 16 && RowHas(inUse, i) ==> RowAt(s, place + 16 + 16 * RowsBefore(inUse, i), inUse, i)
  }

  /** The sixteen bits of row i. */
  ghost predicate RowAt(s: seq<bool>, place: nat, inUse: seq<bool>, i: nat)
    requires |inUse| == 256 && i < 16
  {
    place + 16 <= |s| && s[place..place + 16] == inUse[16 * i..16 * i + 16]
  }

  lemma BitInMap(inUse: seq<bool>, rest: seq<bool>, i: nat)
    requires |inUse| == 256 && i < 16
    ensures |MapBits(inUse)| >= 16 && ((MapBits(inUse) + rest)[i] <==> RowHas(inUse, i))
  {
    RowIs(inUse, i);
    hide RowUsed, RowHas, RowBits;
    assert (MapBits(inUse) + rest)[i] == UsedRows(inUse)[i];
  }

  lemma RowInMap(inUse: seq<bool>, rest: seq<bool>, i: nat)
    requires |inUse| == 256 && i < 16 && RowHas(inUse, i)
    ensures RowAt(MapBits(inUse) + rest, 16 + 16 * RowsBefore(inUse, i), inUse, i)
  {
    hide RowUsed, RowHas, RowAt, RowsBefore, RowBits, UsedRows;
    NoneBefore(inUse);
    var used, rows := UsedRows(inUse), RowBits(inUse, 0);
    RowPlace(inUse, 0, i);
    RowBehind(used, rows, 16 * RowsBefore(inUse, i), inUse, i);
    RowBefore(used + rows, rest, 16 + 16 * RowsBefore(inUse, i), inUse, i);
  }

  lemma MapLength(inUse: seq<bool>)
    requires |inUse| == 256
    ensures |MapBits(inUse)| == 16 + 16 * RowsBefore(inUse, 16)
  {
    hide RowsBefore, RowBits;
    NoneBefore(inUse);
    RowsSize(inUse, 0);
  }

  lemma MapIsAt(inUse: seq<bool>, rest: seq<bool>)
    requires |inUse| == 256
    ensures |MapBits(inUse)| == 16 + 16 * RowsBefore(inUse, 16) && MapAt(MapBits(inUse) + rest, 0, inUse)
  {
    hide RowHas, RowAt, RowsBefore, MapBits;
    MapLength(inUse);
    var s := MapBits(inUse) + rest;
    forall i | 0 <= i < 16 ensures s[0 + i] <==> RowHas(inUse, i) {
      BitInMap(inUse, rest, i);
    }
    forall i | 0 <= i < 16 && RowHas(inUse, i) ensures RowAt(s, 0 + 16 + 16 * RowsBefore(inUse, i), inUse, i) {
      RowInMap(inUse, rest, i);
    }
  }

  lemma NoneBefore(inUse: seq<bool>)
    requires |inUse| == 256
    ensures RowsBefore(inUse, 0) == 0
  {
  }

  lemma MapBehind(c: seq<bool>, t: seq<bool>, place: nat, inUse: seq<bool>)
    requires |inUse| == 256 && MapAt(t, place, inUse)
    ensures MapAt(c + t, |c| + place, inUse)
  {
    hide RowHas, RowsBefore, RowAt;
    var s := c + t;
    forall i | 0 <= i < 16 ensures s[|c| + place + i] <==> RowHas(inUse, i) {
      assert s[|c| + place + i] == t[place + i];
    }
    forall i | 0 <= i < 16 && RowHas(inUse, i) ensures RowAt(s, |c| + place + 16 + 16 * RowsBefore(inUse, i), inUse, i) {
      RowBehind(c, t, place + 16 + 16 * RowsBefore(inUse, i), inUse, i);
    }
  }

  /** A block begins with the first digits of pi, its checksum, a bit for blocks that are
      randomised, its origin and its map; then come the numbers of tables and of selectors. */
  lemma BlockFields(b: Block)
    requires Coded(b.tables, b.syms)
    ensures Field(BlockBits(b), 0, 48, 0x314159265359) && Field(BlockBits(b), 48, 32, b.crc)
    ensures Field(BlockBits(b), 80, 1, 0) && Field(BlockBits(b), 81, 24, b.origPtr)
    ensures |b.tables.inUse| == 256 && MapAt(BlockBits(b), 105, b.tables.inUse)
    ensures var place := 121 + 16 * RowsBefore(b.tables.inUse, 16);
            Field(BlockBits(b), place, 3, |b.tables.lens|) && Field(BlockBits(b), place + 3, 15, |b.tables.selector|)
  {
    hide *;
    BlockIs(b);
    DataFields(b.tables, b.syms);
    var data := DataBits(b.tables, b.syms);
    BlockStart(b.crc, b.origPtr, data);
    var place := 16 + 16 * RowsBefore(b.tables.inUse, 16);
    StartMap(b.crc, b.origPtr, data, b.tables.inUse);
    StartField(b.crc, b.origPtr, data, place, 3, |b.tables.lens|);
    StartField(b.crc, b.origPtr, data, place + 3, 15, |b.tables.selector|);
  }

  lemma BlockIs(b: Block)
    requires Coded(b.tables, b.syms)
    ensures BlockBits(b) == MagicBits() + (BitsOf(b.crc, 32) + (BitsOf(0, 1) + (BitsOf(b.origPtr, 24) + DataBits(b.tables, b.syms))))
  {
    hide MagicBits, BitsOf, DataBits, Coded;
  }

  lemma DataFields(t: Tables, syms: seq<nat>)
    requires Coded(t, syms)
    ensures |t.inUse| == 256 && MapAt(DataBits(t, syms), 0, t.inUse)
    ensures var place := 16 + 16 * RowsBefore(t.inUse, 16);
            Field(DataBits(t, syms), place, 3, |t.lens|) && Field(DataBits(t, syms), place + 3, 15, |t.selector|)
  {
    hide BitsOf, Field, MapBits, MapAt, RowsBefore, SelectorBits, TablesBits, CodesBits, SelectorMtf;
    var codes := CodesBits(t, syms, 0);
    var more := SelectorBits(SelectorMtf(t)) + TablesBits(t.lens, 0);
    MapIsAt(t.inUse, CodingBits(t) + codes);
    var coding := BitsOf(|t.lens|, 3) + (BitsOf(|t.selector|, 15) + (more + codes));
    Nest4(BitsOf(|t.lens|, 3), BitsOf(|t.selector|, 15), more, codes);
    FieldFirst(|t.lens|, 3, BitsOf(|t.selector|, 15) + (more + codes));
    FieldFirst(|t.selector|, 15, more + codes);
    FieldBehind(BitsOf(|t.lens|, 3), BitsOf(|t.selector|, 15) + (more + codes), 0, 15, |t.selector|);
    FieldBehind(MapBits(t.inUse), coding, 0, 3, |t.lens|);
    FieldBehind(MapBits(t.inUse), coding, 3, 15, |t.selector|);
  }

  lemma Nest4(a: seq<bool>, b: seq<bool>, c: seq<bool>, d: seq<bool>)
    ensures (a + (b + c)) + d == a + (b + (c + d))
  {
  }

  lemma MagicIs(t: seq<bool>)
    ensures MagicBits() + t == Two(0x31, 0x41, Two(0x59, 0x26, Two(0x53, 0x59, t)))
  {
    hide BitsOf;
    Regroup(BitsOf(0x31, 8), BitsOf(0x41, 8), BitsOf(0x59, 8), BitsOf(0x26, 8), BitsOf(0x53, 8), BitsOf(0x59, 8), t);
  }

  lemma Regroup(a: seq<bool>, b: seq<bool>, c: seq<bool>, d: seq<bool>, e: seq<bool>, f: seq<bool>, t: seq<bool>)
    ensures (a + (b + (c + (d + (e + f))))) + t == a + (b + (c + (d + (e + (f + t)))))
  {
  }

  lemma MagicBehind(t: seq<bool>, from: nat, n: nat, v: nat)
    requires Field(t, from, n, v)
    ensures Field(MagicBits() + t, 48 + from, n, v)
  {
    hide *;
    MagicIs(t);
    SixBehind(0x31, 0x41, 0x59, 0x26, 0x53, 0x59, t, from, n, v);
  }

  lemma BlockStart(crc: nat, origPtr: nat, data: seq<bool>)
    ensures var s := MagicBits() + (BitsOf(crc, 32) + (BitsOf(0, 1) + (BitsOf(origPtr, 24) + data)));
            Field(s, 0, 48, 0x314159265359) && Field(s, 48, 32, crc) && Field(s, 80, 1, 0) && Field(s, 81, 24, origPtr)
  {
    hide BitsOf, Field;
    var o := BitsOf(origPtr, 24) + data;
    var r := BitsOf(0, 1) + o;
    var c := BitsOf(crc, 32) + r;
    MagicFirst(c);
    FieldFirst(crc, 32, r);
    FieldFirst(0, 1, o);
    FieldFirst(origPtr, 24, data);
    FieldBehind(BitsOf(0, 1), o, 0, 24, origPtr);
    FieldBehind(BitsOf(crc, 32), r, 0, 1, 0);
    FieldBehind(BitsOf(crc, 32), r, 1, 24, origPtr);
    hide MagicBits;
    MagicBehind(c, 0, 32, crc);
    MagicBehind(c, 32, 1, 0);
    MagicBehind(c, 33, 24, origPtr);
  }

  lemma MagicFirst(t: seq<bool>)
    ensures Field(MagicBits() + t, 0, 48, 0x314159265359)
  {
    hide *;
    MagicIs(t);
    Bytes6(0x31415926, 0x314159265359, t, 0x31, 0x41, 0x59, 0x26, 0x53, 0x59);
  }

  lemma StartField(crc: nat, origPtr: nat, data: seq<bool>, from: nat, n: nat, v: nat)
    requires Field(data, from, n, v)
    ensures Field(MagicBits() + (BitsOf(crc, 32) + (BitsOf(0, 1) + (BitsOf(origPtr, 24) + data))), 105 + from, n, v)
  {
    hide BitsOf, Field, MagicBits;
    FieldBehind(BitsOf(origPtr, 24), data, from, n, v);
    FieldBehind(BitsOf(0, 1), BitsOf(origPtr, 24) + data, 24 + from, n, v);
    FieldBehind(BitsOf(crc, 32), BitsOf(0, 1) + (BitsOf(origPtr, 24) + data), 25 + from, n, v);
    MagicBehind(BitsOf(crc, 32) + (BitsOf(0, 1) + (BitsOf(origPtr, 24) + data)), 57 + from, n, v);
  }

  lemma StartMap(crc: nat, origPtr: nat, data: seq<bool>, inUse: seq<bool>)
    requires |inUse| == 256 && MapAt(data, 0, inUse)
    ensures MapAt(MagicBits() + (BitsOf(crc, 32) + (BitsOf(0, 1) + (BitsOf(origPtr, 24) + data))), 105, inUse)
  {
    MagicLength();
    hide BitsOf, MapAt, MagicBits;
    MapBehind(BitsOf(origPtr, 24), data, 0, inUse);
    MapBehind(BitsOf(0, 1), BitsOf(origPtr, 24) + data, 24, inUse);
    MapBehind(BitsOf(crc, 32), BitsOf(0, 1) + (BitsOf(origPtr, 24) + data), 25, inUse);
    MapBehind(MagicBits(), BitsOf(crc, 32) + (BitsOf(0, 1) + (BitsOf(origPtr, 24) + data)), 57, inUse);
  }

  lemma MagicLength()
    ensures |MagicBits()| == 48
  {
    hide BitsOf;
  }

  // ---------- the alphabet ----------

  /** The characters that a map has. */
  ghost function Chars(inUse: seq<bool>, n: nat): set<int>
    requires n <= |inUse|
  {
    set c | 0 <= c < n && inUse[c]
  }

  lemma {:induction false} RankCounts(inUse: seq<bool>, n: nat)
    requires |inUse| == 256 && n <= 256
    ensures Rank(inUse, n) == |Chars(inUse, n)|
  {
    if n == 0 {
      assert Chars(inUse, 0) == {};
    } else {
      RankCounts(inUse, n - 1);
      var c := n - 1;
      assert Chars(inUse, n) == if inUse[c] then Chars(inUse, c) + {c} else Chars(inUse, c);
    }
  }

  /** Two symbols more than there are characters, and the last of them ends a block. */
  lemma EndOfBlock(block: seq<byte>, p: seq<nat>, inUse: seq<bool>)
    requires |block| > 0 && UsedIn(block, inUse)
    ensures |inUse| == 256 && AlphaSize(inUse) == |Chars(inUse, 256)| + 2
    ensures var syms := BlockSymbols(block, p, inUse); syms[|syms| - 1] == |Chars(inUse, 256)| + 1
  {
    RankCounts(inUse, 256);
    hide Chars, Rank, Encode, Column;
  }

  // ---------- selectors and lengths ----------

  /** A selector is sent as so many ones and a zero. */
  lemma {:induction false} UnaryIs(j: nat)
    ensures |Unary(j)| == j + 1 && !Unary(j)[j] && forall k :: 0 <= k < j ==> Unary(j)[k]
  {
    if j > 0 { UnaryIs(j - 1); }
  }

  /** From one length to the next: one and zero for every step up, two ones for every step
      down, and a zero. */
  lemma {:induction false} DeltaIs(curr: nat, len: nat)
    ensures var n := if curr < len then len - curr else curr - len;
            && |LenBits(curr, len)| == 2 * n + 1 && !LenBits(curr, len)[2 * n]
            && forall k :: 0 <= k < n ==> LenBits(curr, len)[2 * k] && (LenBits(curr, len)[2 * k + 1] <==> len < curr)
    decreases if curr < len then len - curr else curr - len
  {
    if curr < len {
      DeltaIs(curr + 1, len);
      DeltaMore(true, false, LenBits(curr + 1, len), len - curr - 1, false);
    } else if curr > len {
      DeltaIs(curr - 1, len);
      DeltaMore(true, true, LenBits(curr - 1, len), curr - len - 1, true);
    }
  }

  lemma DeltaMore(a: bool, b: bool, s: seq<bool>, n: nat, down: bool)
    requires |s| == 2 * n + 1 && !s[2 * n] && a && b == down && forall k :: 0 <= k < n ==> s[2 * k] && (s[2 * k + 1] <==> down)
    ensures var t := [a, b] + s; !t[2 * n + 2] && forall k :: 0 <= k < n + 1 ==> t[2 * k] && (t[2 * k + 1] <==> down)
  {
    var t := [a, b] + s;
    forall k | 0 <= k < n + 1 ensures t[2 * k] && (t[2 * k + 1] <==> down) {
      if k > 0 {
        assert t[2 * k] == s[2 * (k - 1)] && t[2 * k + 1] == s[2 * (k - 1) + 1];
      }
    }
  }
}
