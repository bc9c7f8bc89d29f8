/** BZ2_decompress (decompress.c) as a machine: each state waits for a number of bits, and a
    step takes the value read to the next state. */
module Parser {
  import opened Words
  import opened Bits
  import opened Transform
  import opened HuffmanCodes
  import opened MtfCoding
  import opened MtfEncoder

  const BZ_G_SIZE := 50
  const BZ_N_GROUPS := 6
  const BZ_MAX_SELECTORS := 2 + 900000 / BZ_G_SIZE

  datatype Error = DataErrorMagic | DataError

  /** What a block's header has established: the characters in use, the table chosen for
      each group of symbols, and the lengths of each table. */
  datatype Tables = Tables(inUse: seq<bool>, selector: seq<nat>, lens: seq<seq<byte>>)

  /** The states BZ_X_*, with the local variables that are alive in each. In Randomised and
      Overrun the machine stops although the source goes on: a randomised block, which is not
      modelled, and a selector written beyond the end of `selectorMtf`, of which nothing can
      be said. */
  datatype Ctl =
    | Magic(k: nat)
    | BlkHdr(k: nat)
    | BCrc(k: nat)
    | RandBit
    | OrigPtr(k: nat)
    | Mapping1(used16: seq<bool>)
    | Mapping2(used16: seq<bool>, inUse: seq<bool>)
    | Selector1(inUse: seq<bool>)
    | Selector2(inUse: seq<bool>, nGroups: nat)
    | Selector3(inUse: seq<bool>, nGroups: nat, nSelectors: nat, mtf: seq<nat>, j: nat)
    | Coding1(inUse: seq<bool>, nGroups: nat, selector: seq<nat>, lens: seq<seq<byte>>)
    | Coding2(inUse: seq<bool>, nGroups: nat, selector: seq<nat>, lens: seq<seq<byte>>, cur: seq<byte>, curr: nat)
    | Coding3(inUse: seq<bool>, nGroups: nat, selector: seq<nat>, lens: seq<seq<byte>>, cur: seq<byte>, curr: nat)
    | Mtf1(tables: Tables, groupNo: nat, groupPos: nat, d: Decoder)
    | Mtf2(tables: Tables, groupNo: nat, groupPos: nat, d: Decoder, zn: nat, zvec: nat)
    | Output(column: seq<byte>)
    | EndHdr(k: nat)
    | CCrc(k: nat)
    | Idle
    | Failed(error: Error)
    | Randomised
    | Overrun

  datatype Parse = Parse(ctl: Ctl, level: nat, storedBlockCRC: nat, storedCombinedCRC: nat, origPtr: nat)

  function Start(): Parse { Parse(Magic(0), 0, 0, 0, 0) }

  // ---------- the pieces of a block header ----------

  function AlphaSize(inUse: seq<bool>): nat
    requires |inUse| == 256
  {
    Rank(inUse, 256) + 2
  }

  /** The character with sequence number k: `seqToUnseq[k]`. */
  function UsedChar(inUse: seq<bool>, k: nat, c: nat): (r: byte)
    requires |inUse| == 256 && c <= 256
    decreases 256 - c
  {
    if c == 256 then 0 else if inUse[c] && Rank(inUse, c) == k then c else UsedChar(inUse, k, c + 1)
  }

  function Unseq(inUse: seq<bool>, s: seq<nat>): (r: seq<byte>)
    requires |inUse| == 256
    ensures |r| == |s|
  {
    seq(|s|, i requires 0 <= i < |s| => UsedChar(inUse, s[i], 0))
  }

  /** Undoing the move-to-front coding of the selectors. */
  function UndoSelectors(mtf: seq<nat>, list: seq<nat>): (r: seq<nat>)
    requires forall k :: 0 <= k < |mtf| ==> mtf[k] < |list|
    ensures |r| == |mtf|
    decreases |mtf|
  {
    if mtf == [] then [] else [list[mtf[0]]] + UndoSelectors(mtf[1..], MoveToFront(list, mtf[0]))
  }

  lemma {:induction false} SelectorsInRange(mtf: seq<nat>, list: seq<nat>, n: nat)
    requires forall k :: 0 <= k < |mtf| ==> mtf[k] < |list|
    requires forall k :: 0 <= k < |list| ==> list[k] < n
    ensures forall k :: 0 <= k < |mtf| ==> UndoSelectors(mtf, list)[k] < n
    decreases |mtf|
  {
    if mtf != [] {
      SelectorsInRange(mtf[1..], MoveToFront(list, mtf[0]), n);
    }
  }

  function MinLen(lens: seq<byte>): (m: nat)
    ensures forall i :: 0 <= i < |lens| ==> m <= lens[i]
    ensures m == 32 || exists i :: 0 <= i < |lens| && lens[i] == m
  {
    if lens == [] then 32
    else
      var m := MinLen(lens[..|lens| - 1]);
      if lens[|lens| - 1] < m then lens[|lens| - 1] else m
  }

  function MaxLen(lens: seq<byte>): (m: nat)
    ensures forall i :: 0 <= i < |lens| ==> lens[i] <= m
    ensures m == 0 || exists i :: 0 <= i < |lens| && lens[i] == m
  {
    if lens == [] then 0
    else
      var m := MaxLen(lens[..|lens| - 1]);
      if lens[|lens| - 1] > m then lens[|lens| - 1] else m
  }

  lemma LenRange(lens: seq<byte>)
    requires Lengths(lens)
    ensures 1 <= MinLen(lens) <= MaxLen(lens) <= LONGEST
    ensures exists i :: 0 <= i < |lens| && lens[i] == MaxLen(lens)
  {
    assert MinLen(lens) <= lens[0] <= MaxLen(lens);
  }

  /** The tables of BZ2_hbCreateDecodeTables, entry by entry. */
  function Limit(lens: seq<byte>, n: nat): int {
    if MinLen(lens) <= n <= MaxLen(lens) then First(lens, n) + CountEq(lens, n) - 1 else 0
  }

  function Base(lens: seq<byte>, n: nat): int {
    if MinLen(lens) <= n <= MaxLen(lens) then First(lens, n) - CountLess(lens, n) else CountLess(lens, n)
  }

  /** The symbol in place k, from i on. Places beyond the last symbol are never read: see
      HuffmanCodes.OnlyCodesDecode. */
  function Perm(lens: seq<byte>, k: nat, i: nat): (sym: nat)
    requires i <= |lens|
    ensures lens != [] ==> sym < |lens|
    decreases |lens| - i
  {
    if i == |lens| then 0 else if Slot(lens, i) == k then i else Perm(lens, k, i + 1)
  }

  // ---------- states that can occur ----------

  ghost predicate TablesOk(t: Tables) {
    && |t.inUse| == 256 && |t.lens| <= BZ_N_GROUPS
    && (forall k :: 0 <= k < |t.lens| ==> |t.lens[k]| == AlphaSize(t.inUse) && Lengths(t.lens[k]))
    && |t.selector| <= BZ_MAX_SELECTORS && forall k :: 0 <= k < |t.selector| ==> t.selector[k] < |t.lens|
  }

  ghost predicate CodingOk(inUse: seq<bool>, nGroups: nat, selector: seq<nat>, lens: seq<seq<byte>>) {
    && |inUse| == 256 && |lens| < nGroups <= BZ_N_GROUPS
    && (forall k :: 0 <= k < |lens| ==> |lens[k]| == AlphaSize(inUse) && Lengths(lens[k]))
    && |selector| <= BZ_MAX_SELECTORS && forall k :: 0 <= k < |selector| ==> selector[k] < nGroups
  }

  ghost predicate CurOk(inUse: seq<bool>, cur: seq<byte>, curr: nat) {
    && |inUse| == 256 && |cur| < AlphaSize(inUse) && 1 <= curr <= LONGEST
    && forall k :: 0 <= k < |cur| ==> 1 <= cur[k] <= LONGEST
  }

  ghost predicate Ok(c: Ctl) {
    match c
    case Mapping1(used16) => |used16| < 16
    case Mapping2(used16, inUse) => |used16| == 16 && |inUse| < 256
    case Selector1(inUse) => |inUse| == 256
    case Selector2(inUse, nGroups) => |inUse| == 256 && 2 <= nGroups <= BZ_N_GROUPS
    case Selector3(inUse, nGroups, nSelectors, mtf, j) =>
      |inUse| == 256 && 2 <= nGroups <= BZ_N_GROUPS && |mtf| < nSelectors && |mtf| <= BZ_MAX_SELECTORS && j < nGroups && forall k :: 0 <= k < |mtf| ==> mtf[k] < nGroups
    case Coding1(inUse, nGroups, selector, lens) => CodingOk(inUse, nGroups, selector, lens)
    case Coding2(inUse, nGroups, selector, lens, cur, curr) => CodingOk(inUse, nGroups, selector, lens) && CurOk(inUse, cur, curr)
    case Coding3(inUse, nGroups, selector, lens, cur, curr) => CodingOk(inUse, nGroups, selector, lens) && CurOk(inUse, cur, curr)
    case Mtf1(tables, groupNo, groupPos, d) => TablesOk(tables) && groupNo < |tables.selector| && |d.list| == 256
    case Mtf2(tables, groupNo, groupPos, d, zn, zvec) => TablesOk(tables) && groupNo < |tables.selector| && |d.list| == 256 && zn <= LONGEST + 1
    case _ => true
  }

  /** The lengths that decode the current group. */
  function GroupLens(t: Tables, groupNo: nat): seq<byte>
    requires TablesOk(t) && groupNo < |t.selector|
  {
    t.lens[t.selector[groupNo]]
  }

  predicate Stopped(c: Ctl) {
    c.Output? || c.Idle? || c.Failed? || c.Randomised? || c.Overrun?
  }

  /** How many bits the state waits for. */
  function Need(c: Ctl): (n: nat)
    requires Ok(c) && !Stopped(c)
    ensures 1 <= n <= 24
  {
    match c
    case RandBit | Mapping1(_) | Mapping2(_, _) => 1
    case Selector1(_) => 3
    case Selector2(_, _) => 15
    case Selector3(_, _, _, _, _) => 1
    case Coding1(_, _, _, _) => 5
    case Coding2(_, _, _, _, _, _) => 1
    case Coding3(_, _, _, _, _, _) => 1
    case Mtf1(t, g, _, _) => LenRange(GroupLens(t, g)); MinLen(GroupLens(t, g))
    case Mtf2(_, _, _, _, _, _) => 1
    case _ => 8
  }

  // ---------- the steps ----------

  function BlkByte(k: nat): nat {
    if k == 1 then 0x31 else if k == 2 then 0x41 else if k == 3 then 0x59 else if k == 4 then 0x26 else if k == 5 then 0x53 else 0x59
  }

  function EndByte(k: nat): nat {
    if k == 2 then 0x72 else if k == 3 then 0x45 else if k == 4 then 0x38 else if k == 5 then 0x50 else 0x90
  }

  /** Rows of sixteen characters none of which is in use are not sent. */
  function Rows(used16: seq<bool>, inUse: seq<bool>): (c: Ctl)
    requires |used16| == 16 && |inUse| <= 256
    ensures Ok(c) && (c == Failed(DataError) || c.Selector1? || c.Mapping2?)
    decreases 256 - |inUse|
  {
    if |inUse| == 256 then
      if Rank(inUse, 256) == 0 then Failed(DataError) else Selector1(inUse)
    else if |inUse| % 16 == 0 && !used16[|inUse| / 16] then Rows(used16, inUse + seq(16, _ => false))
    else Mapping2(used16, inUse)
  }

  /** One more selector, or the coding tables next. */
  function NextSelector(inUse: seq<bool>, nGroups: nat, nSelectors: nat, mtf: seq<nat>): (c: Ctl)
    requires |inUse| == 256 && 2 <= nGroups <= BZ_N_GROUPS && |mtf| <= nSelectors && |mtf| <= BZ_MAX_SELECTORS
    requires forall k :: 0 <= k < |mtf| ==> mtf[k] < nGroups
    ensures Ok(c) && !Stopped(c)
  {
    if |mtf| < nSelectors then Selector3(inUse, nGroups, nSelectors, mtf, 0)
    else
      SelectorsInRange(mtf, Iota(nGroups), nGroups);
      Coding1(inUse, nGroups, UndoSelectors(mtf, Iota(nGroups)), [])
  }

  /** A bit of a selector: the zero that ends it has it written to `selectorMtf[|mtf|]`. */
  function OnSelectorBit(inUse: seq<bool>, nGroups: nat, nSelectors: nat, mtf: seq<nat>, j: nat, v: nat): (c: Ctl)
    requires Ok(Selector3(inUse, nGroups, nSelectors, mtf, j))
    ensures Ok(c)
  {
    if v == 0 then
      if |mtf| >= BZ_MAX_SELECTORS then Overrun else NextSelector(inUse, nGroups, nSelectors, mtf + [j])
    else if j + 1 >= nGroups then Failed(DataError)
    else Selector3(inUse, nGroups, nSelectors, mtf, j + 1)
  }

  /** The range check before every bit of a length. */
  function CheckLen(inUse: seq<bool>, nGroups: nat, selector: seq<nat>, lens: seq<seq<byte>>, cur: seq<byte>, curr: int): (c: Ctl)
    requires CodingOk(inUse, nGroups, selector, lens) && |cur| < AlphaSize(inUse) && forall k :: 0 <= k < |cur| ==> 1 <= cur[k] <= LONGEST
    ensures Ok(c)
  {
    if curr < 1 || curr > 20 then Failed(DataError) else Coding2(inUse, nGroups, selector, lens, cur, curr)
  }

  /** GET_MTF_VAL up to the first bits of a code: a new group begins every fifty symbols. */
  function NextCode(t: Tables, groupNo: int, groupPos: nat, d: Decoder): (c: Ctl)
    requires TablesOk(t) && |d.list| == 256 && -1 <= groupNo && (groupPos > 0 ==> 0 <= groupNo < |t.selector|)
    ensures Ok(c)
  {
    if groupPos == 0 then
      if groupNo + 1 >= |t.selector| then Failed(DataError)
      else Mtf1(t, groupNo + 1, BZ_G_SIZE - 1, d)
    else Mtf1(t, groupNo, groupPos - 1, d)
  }

  /** A length is complete. */
  function NextLen(inUse: seq<bool>, nGroups: nat, selector: seq<nat>, lens: seq<seq<byte>>, cur: seq<byte>, curr: nat): (c: Ctl)
    requires CodingOk(inUse, nGroups, selector, lens) && CurOk(inUse, cur, curr)
    ensures Ok(c)
  {
    var cur' := cur + [curr];
    RankAtMost(inUse);
    if |cur'| < AlphaSize(inUse) then CheckLen(inUse, nGroups, selector, lens, cur', curr)
    else
      var lens' := lens + [cur'];
      if |lens'| < nGroups then Coding1(inUse, nGroups, selector, lens')
      else NextCode(Tables(inUse, selector, lens'), -1, 0, Decoder(Iota(256), 0, 1, []))
  }

  lemma RankAtMost(inUse: seq<bool>)
    requires |inUse| == 256
    ensures AlphaSize(inUse) <= BZ_MAX_ALPHA_SIZE
  {
  }

  /** A decoded symbol: a run digit, the end of the block, or a character after the run that
      is pending. */
  function OnSymbol(level: nat, origPtr: nat, t: Tables, groupNo: nat, groupPos: nat, d: Decoder, sym: nat): (c: Ctl)
    requires TablesOk(t) && |d.list| == 256 && groupNo < |t.selector| && sym < AlphaSize(t.inUse)
    ensures Ok(c)
  {
    RankAtMost(t.inUse);
    match OnSym(d, sym, Rank(t.inUse, 256) + 1, 100000 * level)
    case More(d') => NextCode(t, groupNo, groupPos, d')
    case Done(column) => if origPtr >= |column| then Failed(DataError) else Output(Unseq(t.inUse, column))
    case Bad => Failed(DataError)
  }

  /** The loop of GET_MTF_VAL, up to the next bit it needs. */
  function OnCode(level: nat, origPtr: nat, t: Tables, groupNo: nat, groupPos: nat, d: Decoder, zn: nat, zvec: nat): (c: Ctl)
    requires TablesOk(t) && |d.list| == 256 && groupNo < |t.selector|
    ensures Ok(c)
  {
    var lens := GroupLens(t, groupNo);
    if zn > LONGEST then Failed(DataError)
    else if zvec <= Limit(lens, zn) then
      if zvec - Base(lens, zn) < 0 || zvec - Base(lens, zn) >= BZ_MAX_ALPHA_SIZE then Failed(DataError)
      else OnSymbol(level, origPtr, t, groupNo, groupPos, d, Perm(lens, zvec - Base(lens, zn), 0))
    else Mtf2(t, groupNo, groupPos, d, zn + 1, zvec)
  }

  function Step(p: Parse, v: nat): (q: Parse)
    requires Ok(p.ctl) && !Stopped(p.ctl)
    ensures Ok(q.ctl)
  {
    match p.ctl
    case Magic(k) =>
      if k == 0 then if v != 0x42 then p.(ctl := Failed(DataErrorMagic)) else p.(ctl := Magic(1))
      else if k == 1 then if v != 0x5a then p.(ctl := Failed(DataErrorMagic)) else p.(ctl := Magic(2))
      else if k == 2 then if v != 0x68 then p.(ctl := Failed(DataErrorMagic)) else p.(ctl := Magic(3))
      else if v < 0x30 + 1 || v > 0x30 + 9 then p.(ctl := Failed(DataErrorMagic))
      else p.(ctl := BlkHdr(1), level := v - 0x30)
    case BlkHdr(k) =>
      if k == 1 && v == 0x17 then p.(ctl := EndHdr(2))
      else if v != BlkByte(k) then p.(ctl := Failed(DataError))
      else if k < 6 then p.(ctl := BlkHdr(k + 1))
      else p.(ctl := BCrc(1), storedBlockCRC := 0)
    case BCrc(k) =>
      p.(ctl := if k < 4 then BCrc(k + 1) else RandBit, storedBlockCRC := 0x100 * p.storedBlockCRC + v)
    case RandBit =>
      if v == 1 then p.(ctl := Randomised) else p.(ctl := OrigPtr(1), origPtr := 0)
    case OrigPtr(k) =>
      var origPtr := 0x100 * p.origPtr + v;
      if k < 3 then p.(ctl := OrigPtr(k + 1), origPtr := origPtr)
      else if origPtr > 10 + 100000 * p.level then p.(ctl := Failed(DataError), origPtr := origPtr)
      else p.(ctl := Mapping1([]), origPtr := origPtr)
    case Mapping1(used16) =>
      var used := used16 + [v == 1];
      p.(ctl := if |used| < 16 then Mapping1(used) else Rows(used, []))
    case Mapping2(used16, inUse) => p.(ctl := Rows(used16, inUse + [v == 1]))
    case Selector1(inUse) =>
      p.(ctl := if v < 2 || v > 6 then Failed(DataError) else Selector2(inUse, v))
    case Selector2(inUse, nGroups) =>
      p.(ctl := if v < 1 then Failed(DataError) else NextSelector(inUse, nGroups, v, []))
    case Selector3(inUse, nGroups, nSelectors, mtf, j) =>
      p.(ctl := OnSelectorBit(inUse, nGroups, nSelectors, mtf, j, v))
    case Coding1(inUse, nGroups, selector, lens) => p.(ctl := CheckLen(inUse, nGroups, selector, lens, [], v))
    case Coding2(inUse, nGroups, selector, lens, cur, curr) =>
      p.(ctl := if v == 0 then NextLen(inUse, nGroups, selector, lens, cur, curr) else Coding3(inUse, nGroups, selector, lens, cur, curr))
    case Coding3(inUse, nGroups, selector, lens, cur, curr) =>
      p.(ctl := CheckLen(inUse, nGroups, selector, lens, cur, if v == 0 then curr + 1 else curr - 1))
    case Mtf1(t, g, pos, d) =>
      p.(ctl := OnCode(p.level, p.origPtr, t, g, pos, d, MinLen(GroupLens(t, g)), v))
    case Mtf2(t, g, pos, d, zn, zvec) =>
      p.(ctl := OnCode(p.level, p.origPtr, t, g, pos, d, zn, 2 * zvec + v))
    case EndHdr(k) =>
      if v != EndByte(k) then p.(ctl := Failed(DataError))
      else if k < 6 then p.(ctl := EndHdr(k + 1))
      else p.(ctl := CCrc(1), storedCombinedCRC := 0)
    case CCrc(k) =>
      p.(ctl := if k < 4 then CCrc(k + 1) else Idle, storedCombinedCRC := 0x100 * p.storedCombinedCRC + v)
  }

  // ---------- runs ----------

  /** The machine fed with bits: as far as it gets, and the bits it has not taken. */
  function Feed(p: Parse, bits: seq<bool>): (r: (Parse, seq<bool>))
    requires Ok(p.ctl)
    ensures Ok(r.0.ctl) && (Stopped(r.0.ctl) || |r.1| < Need(r.0.ctl))
    decreases |bits|
  {
    if Stopped(p.ctl) || |bits| < Need(p.ctl) then (p, bits)
    else Feed(Step(p, ValueOf(bits[..Need(p.ctl)])), bits[Need(p.ctl)..])
  }

  /** It does not matter where the input is split: what is left over after the first part is
      carried on with the second. */
  lemma {:induction false} FeedSplit(p: Parse, a: seq<bool>, b: seq<bool>)
    requires Ok(p.ctl)
    ensures Feed(p, a + b) == Feed(Feed(p, a).0, Feed(p, a).1 + b)
    decreases |a|
  {
    hide Step, Ok, Need;
    if !Stopped(p.ctl) && |a| >= Need(p.ctl) {
      var n := Need(p.ctl);
      assert (a + b)[..n] == a[..n] && (a + b)[n..] == a[n..] + b;
      FeedSplit(Step(p, ValueOf(a[..n])), a[n..], b);
    }
  }

  /** A field of the width the state waits for. */
  lemma FeedField(p: Parse, v: nat, n: nat, rest: seq<bool>)
    requires Ok(p.ctl) && !Stopped(p.ctl) && n == Need(p.ctl) && v < Pow2(n)
    ensures Feed(p, BitsOf(v, n) + rest) == Feed(Step(p, v), rest)
  {
    hide Step, Ok, Need;
    var bits := BitsOf(v, n) + rest;
    assert bits[..n] == BitsOf(v, n) && bits[n..] == rest;
    ValueOfBits(v, n);
  }
}
