/** The coding tables of a block (sendMTFValues, compress.c): the symbols are first divided among
    the tables, then four passes each give every group of fifty symbols the table that codes it
    cheapest and every table the lengths that suit the symbols it codes. */
module TableRefinement {
  import opened Words
  import opened HuffmanCodes
  import Lengths = HuffmanLengths
  import Optimal = HuffmanOptimal
  import Trees = HuffmanTrees
  import opened MtfCoding
  import opened MtfEncoder
  import opened Parser
  import opened MtfSender

  const BZ_LESSER_ICOST := 0
  const BZ_GREATER_ICOST := 15
  const BZ_N_ITERS := 4

  // ---------- groups and their cost ----------

  ghost predicate Below(syms: seq<nat>, n: nat) { forall k :: 0 <= k < |syms| ==> syms[k] < n }

  /** The bits a table needs for some symbols. */
  ghost function Cost(lens: seq<byte>, syms: seq<nat>): nat
    requires Below(syms, |lens|)
  {
    if syms == [] then 0 else Cost(lens, syms[..|syms| - 1]) + lens[syms[|syms| - 1]]
  }

  /** Group g: fifty symbols, the last group perhaps fewer. */
  ghost function Group(syms: seq<nat>, g: nat): (s: seq<nat>)
    requires 50 * g < |syms|
    ensures 0 < |s| <= 50 && 50 * g + |s| <= |syms|
    ensures forall n: nat :: Below(syms, n) ==> Below(s, n)
  {
    if 50 * g + 50 <= |syms| then syms[50 * g..50 * g + 50] else syms[50 * g..]
  }

  /** Every table has a length for every symbol, and none is above 17. */
  ghost predicate Tabled(lens: seq<seq<byte>>, alphaSize: nat) {
    forall t :: 0 <= t < |lens| ==> |lens[t]| == alphaSize && forall v :: 0 <= v < alphaSize ==> lens[t][v] <= 17
  }

  /** Table t is the first of those that code the group with the fewest bits. */
  ghost predicate Cheapest(lens: seq<seq<byte>>, alphaSize: nat, group: seq<nat>, t: nat)
    requires Tabled(lens, alphaSize) && Below(group, alphaSize)
  {
    && t < |lens|
    && (forall u :: t <= u < |lens| ==> Cost(lens[t], group) <= Cost(lens[u], group))
    && forall u :: 0 <= u < t ==> Cost(lens[t], group) < Cost(lens[u], group)
  }

  /** The first groups have selectors: for each the first of the cheapest tables. */
  ghost predicate Selects(lens: seq<seq<byte>>, alphaSize: nat, syms: seq<nat>, selector: seq<nat>) {
    && Tabled(lens, alphaSize) && Below(syms, alphaSize) && 50 * |selector| < |syms| + 50
    && forall g :: 0 <= g < |selector| ==> Cheapest(lens, alphaSize, Group(syms, g), selector[g])
  }

  /** The symbols of the groups that table t codes. */
  ghost function CodedBy(syms: seq<nat>, selector: seq<nat>, t: nat): seq<nat>
    requires 50 * |selector| < |syms| + 50
  {
    if selector == [] then []
    else CodedBy(syms, selector[..|selector| - 1], t) + if selector[|selector| - 1] == t then Group(syms, |selector| - 1) else []
  }

  /** How often every symbol occurs. */
  ghost function FreqOf(alphaSize: nat, syms: seq<nat>): (freq: seq<nat>)
    ensures |freq| == alphaSize && forall v :: 0 <= v < alphaSize ==> freq[v] == Occurs(syms, v)
  {
    seq(alphaSize, v requires 0 <= v < alphaSize => Occurs(syms, v))
  }

  /** Lengths that suit the frequencies: those of a cheapest code, once the weights have been
      halved as often as needed to keep it within 17 bits. */
  ghost predicate Suits(freq: seq<nat>, lens: seq<byte>) {
    CodeLengths(lens, |freq|) && exists k: nat :: Lengths.HalvedAsNeeded(Lengths.Weights(freq), k, lens, 17)
  }

  /** One pass: every group is given the cheapest of the tables there were, and every table the
      lengths that suit what it now codes. */
  ghost predicate Pass(before: seq<seq<byte>>, alphaSize: nat, syms: seq<nat>, selector: seq<nat>, after: seq<seq<byte>>) {
    && Selects(before, alphaSize, syms, selector) && |syms| <= 50 * |selector| && |after| == |before|
    && forall t :: 0 <= t < |after| ==> Suits(FreqOf(alphaSize, CodedBy(syms, selector, t)), after[t])
  }

  /** Passes one after the other. */
  ghost predicate Passes(tables: seq<seq<seq<byte>>>, selectors: seq<seq<nat>>, alphaSize: nat, syms: seq<nat>) {
    |tables| == |selectors| + 1 && forall i :: 0 <= i < |selectors| ==> Pass(tables[i], alphaSize, syms, selectors[i], tables[i + 1])
  }

  // ---------- the cost of a group under every table ----------

  lemma {:induction false} CostAtMost(lens: seq<byte>, syms: seq<nat>)
    requires Below(syms, |lens|) && forall v :: 0 <= v < |lens| ==> lens[v] <= 17
    ensures Cost(lens, syms) <= 17 * |syms|
  {
    if syms != [] { CostAtMost(lens, syms[..|syms| - 1]); }
  }

  /** Two lengths side by side in one word. */
  function Packed(hi: nat, lo: nat): nat { 0x1_0000 * hi + lo }

  lemma PackedOr(hi: byte, lo: byte)
    ensures Or(Shl(hi, 16), lo) == Packed(hi, lo)
  {
    Pow2Sixteen();
    OrDisjoint(hi, 16, lo);
  }

  lemma Pow2Sixteen()
    ensures Pow2(16) == 0x1_0000 && Pow2(32) == 0x1_0000_0000
  {
    assert Pow2(8) == 256;
    Pow2Add(8, 8);
    Pow2Add(16, 16);
  }

  lemma Unpacked(word: nat, hi: nat, lo: nat)
    requires word == 0x1_0000 * hi + lo && lo < 0x1_0000
    ensures And(word, 0xffff) == lo && Shr(word, 16) == hi
  {
    Pow2Sixteen();
    AndMask(word, 16);
    DivModUnique(word, 0x1_0000, hi, lo);
  }

  /** A word holds the costs of some symbols under two tables. */
  ghost predicate PackedCost(lens: seq<seq<byte>>, alphaSize: nat, c: nat, syms: seq<nat>, word: nat) {
    && Tabled(lens, alphaSize) && Below(syms, alphaSize) && 2 * c + 1 < |lens|
    && word == 0x1_0000 * Cost(lens[2 * c + 1], syms) + Cost(lens[2 * c], syms)
  }

  lemma PackedNone(lens: seq<seq<byte>>, alphaSize: nat, c: nat)
    requires Tabled(lens, alphaSize) && 2 * c + 1 < |lens|
    ensures PackedCost(lens, alphaSize, c, [], 0)
  {
  }

  /** Adding the packed lengths of a symbol adds to both costs: neither leaves its half. */
  lemma PackedNext(lens: seq<seq<byte>>, alphaSize: nat, c: nat, syms: seq<nat>, word: nat, v: nat)
    requires PackedCost(lens, alphaSize, c, syms, word) && |syms| < 50 && v < alphaSize
    ensures PackedCost(lens, alphaSize, c, syms + [v], (word + Packed(lens[2 * c + 1][v], lens[2 * c][v])) % Pow2(32))
  {
    var hi, lo := lens[2 * c + 1], lens[2 * c];
    CostAtMost(hi, syms);
    CostAtMost(lo, syms);
    CostSnoc(hi, syms, v);
    CostSnoc(lo, syms, v);
    Pow2Sixteen();
    assert word + Packed(lens[2 * c + 1][v], lens[2 * c][v]) < Pow2(32);
    NoWrap(word + Packed(lens[2 * c + 1][v], lens[2 * c][v]), Pow2(32));
  }

  lemma NoWrap(x: nat, m: nat)
    requires x < m
    ensures x % m == x
  {
  }

  lemma CostSnoc(lens: seq<byte>, syms: seq<nat>, v: nat)
    requires Below(syms, |lens|) && v < |lens|
    ensures Below(syms + [v], |lens|) && Cost(lens, syms + [v]) == Cost(lens, syms) + lens[v]
  {
    assert (syms + [v])[..|syms|] == syms;
  }

  lemma PackedParts(lens: seq<seq<byte>>, alphaSize: nat, c: nat, syms: seq<nat>, word: nat)
    requires PackedCost(lens, alphaSize, c, syms, word) && |syms| <= 50
    ensures And(word, 0xffff) == Cost(lens[2 * c], syms) && Shr(word, 16) == Cost(lens[2 * c + 1], syms)
  {
    CostAtMost(lens[2 * c], syms);
    Unpacked(word, Cost(lens[2 * c + 1], syms), Cost(lens[2 * c], syms));
  }

  /** The table of packed lengths. */
  ghost predicate PackedTable(lens: seq<seq<byte>>, lenPack: seq<(nat, nat, nat)>, alphaSize: nat) {
    && Tabled(lens, alphaSize) && |lens| == 6 && |lenPack| >= alphaSize
    && forall v :: 0 <= v < alphaSize ==> lenPack[v] == (Packed(lens[1][v], lens[0][v]), Packed(lens[3][v], lens[2][v]), Packed(lens[5][v], lens[4][v]))
  }

  method PackLengths(lens: seq<seq<byte>>, lenPack: array<(nat, nat, nat)>, alphaSize: nat)
    requires |lens| == 6 && Tabled(lens, alphaSize) && alphaSize <= lenPack.Length
    modifies lenPack
    ensures PackedTable(lens, lenPack[..], alphaSize)
  {
    for v := 0 to alphaSize
      invariant forall u :: 0 <= u < v ==> lenPack[u] == (Packed(lens[1][u], lens[0][u]), Packed(lens[3][u], lens[2][u]), Packed(lens[5][u], lens[4][u]))
    {
      PackedOr(lens[1][v], lens[0][v]);
      PackedOr(lens[3][v], lens[2][v]);
      PackedOr(lens[5][v], lens[4][v]);
      lenPack[v] := (Or(Shl(lens[1][v], 16), lens[0][v]), Or(Shl(lens[3][v], 16), lens[2][v]), Or(Shl(lens[5][v], 16), lens[4][v]));
    }
  }

  /** The costs of some symbols under all tables. */
  ghost predicate Costs(lens: seq<seq<byte>>, alphaSize: nat, syms: seq<nat>, cost: seq<nat>) {
    && Tabled(lens, alphaSize) && Below(syms, alphaSize) && |lens| <= |cost|
    && forall t :: 0 <= t < |lens| ==> cost[t] == Cost(lens[t], syms)
  }

  /** The costs of fifty symbols under six tables, added up two tables to a word. */
  method FastCosts(lens: seq<seq<byte>>, lenPack: array<(nat, nat, nat)>, mtfv: seq<nat>, gs: nat, alphaSize: nat, cost: array<nat>)
    requires PackedTable(lens, lenPack[..], alphaSize) && Below(mtfv, alphaSize) && gs + 50 <= |mtfv| && cost.Length == 6
    modifies cost
    ensures Costs(lens, alphaSize, mtfv[gs..gs + 50], cost[..])
  {
    hide *;
    var cost01: nat, cost23: nat, cost45: nat := 0, 0, 0;
    NothingPacked(lens, alphaSize, mtfv, gs, lenPack[..]);
    for nn := 0 to 50
      invariant PackedCosts(lens, alphaSize, mtfv, gs, gs + nn, cost01, cost23, cost45)
    {
      PackedStep(lens, alphaSize, mtfv, gs, nn, cost01, cost23, cost45, lenPack[..]);
      var icv := mtfv[gs + nn];
      cost01 := (cost01 + lenPack[icv].0) % Pow2(32);
      cost23 := (cost23 + lenPack[icv].1) % Pow2(32);
      cost45 := (cost45 + lenPack[icv].2) % Pow2(32);
    }
    cost[0], cost[1] := And(cost01, 0xffff), Shr(cost01, 16);
    cost[2], cost[3] := And(cost23, 0xffff), Shr(cost23, 16);
    cost[4], cost[5] := And(cost45, 0xffff), Shr(cost45, 16);
    PackedAll(lens, alphaSize, mtfv, gs, cost01, cost23, cost45, lenPack[..], cost[..]);
  }

  /** Three words hold the costs of the symbols from gs up to i under six tables. */
  ghost predicate PackedCosts(lens: seq<seq<byte>>, alphaSize: nat, mtfv: seq<nat>, gs: nat, i: nat, word0: nat, word1: nat, word2: nat) {
    && gs <= i <= |mtfv|
    && PackedCost(lens, alphaSize, 0, mtfv[gs..i], word0) && PackedCost(lens, alphaSize, 1, mtfv[gs..i], word1)
    && PackedCost(lens, alphaSize, 2, mtfv[gs..i], word2)
  }

  lemma NothingPacked(lens: seq<seq<byte>>, alphaSize: nat, mtfv: seq<nat>, gs: nat, lenPack: seq<(nat, nat, nat)>)
    requires gs <= |mtfv| && PackedTable(lens, lenPack, alphaSize)
    ensures PackedCosts(lens, alphaSize, mtfv, gs, gs, 0, 0, 0)
  {
    assert mtfv[gs..gs] == [];
    PackedNone(lens, alphaSize, 0);
    PackedNone(lens, alphaSize, 1);
    PackedNone(lens, alphaSize, 2);
  }

  lemma PackedStep(lens: seq<seq<byte>>, alphaSize: nat, mtfv: seq<nat>, gs: nat, nn: nat, word0: nat, word1: nat, word2: nat, lenPack: seq<(nat, nat, nat)>)
    requires PackedTable(lens, lenPack, alphaSize) && Below(mtfv, alphaSize) && nn < 50 && gs + nn < |mtfv|
    requires PackedCosts(lens, alphaSize, mtfv, gs, gs + nn, word0, word1, word2)
    ensures mtfv[gs + nn] < |lenPack| && Pow2(32) > 0
    ensures var p := lenPack[mtfv[gs + nn]];
            PackedCosts(lens, alphaSize, mtfv, gs, gs + nn + 1, (word0 + p.0) % Pow2(32), (word1 + p.1) % Pow2(32), (word2 + p.2) % Pow2(32))
  {
    hide PackedCost, Packed, Pow2, Tabled;
    var syms, icv := mtfv[gs..gs + nn], mtfv[gs + nn];
    assert mtfv[gs..gs + nn + 1] == syms + [icv];
    PackedNext(lens, alphaSize, 0, syms, word0, icv);
    PackedNext(lens, alphaSize, 1, syms, word1, icv);
    PackedNext(lens, alphaSize, 2, syms, word2, icv);
  }

  lemma PackedAll(lens: seq<seq<byte>>, alphaSize: nat, mtfv: seq<nat>, gs: nat, word0: nat, word1: nat, word2: nat, lenPack: seq<(nat, nat, nat)>, cost: seq<nat>)
    requires PackedTable(lens, lenPack, alphaSize) && PackedCosts(lens, alphaSize, mtfv, gs, gs + 50, word0, word1, word2)
    requires cost == [And(word0, 0xffff), Shr(word0, 16), And(word1, 0xffff), Shr(word1, 16), And(word2, 0xffff), Shr(word2, 16)]
    ensures Costs(lens, alphaSize, mtfv[gs..gs + 50], cost)
  {
    var syms := mtfv[gs..gs + 50];
    PackedParts(lens, alphaSize, 0, syms, word0);
    PackedParts(lens, alphaSize, 1, syms, word1);
    PackedParts(lens, alphaSize, 2, syms, word2);
    assert Tabled(lens, alphaSize) && Below(syms, alphaSize);
    hide And, Shr, Pow2, Cost, Packed, Below;
  }

  /** The costs of a group under all tables, one table at a time. */
  method SlowCosts(lens: seq<seq<byte>>, mtfv: seq<nat>, gs: nat, ge: nat, alphaSize: nat, cost: array<nat>)
    requires Tabled(lens, alphaSize) && Below(mtfv, alphaSize) && gs <= ge < |mtfv| && ge - gs < 50 && |lens| <= cost.Length
    modifies cost
    ensures Costs(lens, alphaSize, mtfv[gs..ge + 1], cost[..])
  {
    hide Cost;
    for t := 0 to |lens|
      invariant forall u :: 0 <= u < t ==> cost[u] == 0
    {
      cost[t] := 0;
    }
    NoCost(lens, alphaSize, cost[..]);
    assert mtfv[gs..gs] == [];
    for i := gs to ge + 1
      invariant Costs(lens, alphaSize, mtfv[gs..i], cost[..])
    {
      var icv := mtfv[i];
      ghost var syms := mtfv[gs..i];
      assert mtfv[gs..i + 1] == syms + [icv];
      for t := 0 to |lens|
        invariant forall u :: 0 <= u < t ==> cost[u] == Cost(lens[u], syms + [icv])
        invariant forall u :: t <= u < |lens| ==> cost[u] == Cost(lens[u], syms)
      {
        CostAtMost(lens[t], syms);
        CostSnoc(lens[t], syms, icv);
        cost[t] := (cost[t] + lens[t][icv]) % 0x1_0000;
      }
    }
  }

  lemma NoCost(lens: seq<seq<byte>>, alphaSize: nat, cost: seq<nat>)
    requires Tabled(lens, alphaSize) && |lens| <= |cost| && forall t :: 0 <= t < |lens| ==> cost[t] == 0
    ensures Costs(lens, alphaSize, [], cost)
  {
  }

  /** The costs of one group under all tables; both ways of adding them up give the same. */
  method GroupCosts(lens: seq<seq<byte>>, lenPack: array<(nat, nat, nat)>, mtfv: seq<nat>, gs: nat, ge: nat, alphaSize: nat, cost: array<nat>)
    requires |lens| <= cost.Length == 6 && Tabled(lens, alphaSize) && Below(mtfv, alphaSize) && gs <= ge < |mtfv| && ge - gs < 50
    requires |lens| == 6 ==> PackedTable(lens, lenPack[..], alphaSize)
    modifies cost
    ensures Costs(lens, alphaSize, mtfv[gs..ge + 1], cost[..])
  {
    if |lens| == 6 && 50 == ge - gs + 1 {
      FastCosts(lens, lenPack, mtfv, gs, alphaSize, cost);
    } else {
      SlowCosts(lens, mtfv, gs, ge, alphaSize, cost);
    }
  }

  /** The best table for a group. */
  method BestTable(lens: seq<seq<byte>>, cost: array<nat>, ghost alphaSize: nat, ghost group: seq<nat>) returns (bt: nat)
    requires Costs(lens, alphaSize, group, cost[..]) && |group| <= 50 && lens != []
    ensures Cheapest(lens, alphaSize, group, bt)
  {
    hide Cost;
    CostAtMost(lens[0], group);
    var bc, best := 999999999, -1;
    for t := 0 to |lens|
      invariant -1 <= best < |lens| && (t == 0 ==> best == -1 && bc == 999999999)
      invariant t > 0 ==> 0 <= best < t && bc == Cost(lens[best], group)
      invariant t > 0 ==> forall u :: 0 <= u < t ==> bc <= Cost(lens[u], group)
      invariant forall u :: 0 <= u < best ==> bc < Cost(lens[u], group)
    {
      if cost[t] < bc { bc, best := cost[t], t; }
    }
    bt := best;
  }

  // ---------- one pass ----------

  /** What every table codes. */
  ghost function PartsOf(n: nat, syms: seq<nat>, selector: seq<nat>): (parts: seq<seq<nat>>)
    requires 50 * |selector| < |syms| + 50
    ensures |parts| == n && forall t :: 0 <= t < n ==> parts[t] == CodedBy(syms, selector, t)
  {
    seq(n, t requires 0 <= t < n => CodedBy(syms, selector, t))
  }

  ghost function NoParts(n: nat): (parts: seq<seq<nat>>)
    ensures |parts| == n && forall t :: 0 <= t < n ==> parts[t] == []
  {
    seq(n, _ => [])
  }

  /** The counters hold how often every table codes every symbol. */
  ghost predicate Counts(rfreq: array2<nat>, parts: seq<seq<nat>>, alphaSize: nat)
    reads rfreq
  {
    && |parts| <= rfreq.Length0 && alphaSize <= rfreq.Length1
    && forall t, v :: 0 <= t < |parts| && 0 <= v < alphaSize ==> rfreq[t, v] == Occurs(parts[t], v)
  }

  method ClearFreqs(rfreq: array2<nat>, nGroups: nat, alphaSize: nat)
    requires nGroups <= rfreq.Length0 && alphaSize <= rfreq.Length1
    modifies rfreq
    ensures Counts(rfreq, NoParts(nGroups), alphaSize)
  {
    for t := 0 to nGroups
      invariant forall s, v :: 0 <= s < t && 0 <= v < alphaSize ==> rfreq[s, v] == 0
    {
      for v := 0 to alphaSize
        invariant forall s, v :: 0 <= s < t && 0 <= v < alphaSize ==> rfreq[s, v] == 0
        invariant forall u :: 0 <= u < v ==> rfreq[t, u] == 0
      {
        rfreq[t, v] := 0;
      }
    }
  }

  /** The symbols of a group are counted for its table. */
  method CountGroup(rfreq: array2<nat>, bt: nat, mtfv: seq<nat>, gs: nat, ge: nat, alphaSize: nat, ghost parts: seq<seq<nat>>)
    requires Counts(rfreq, parts, alphaSize) && bt < |parts| && Below(mtfv, alphaSize) && gs <= ge < |mtfv|
    modifies rfreq
    ensures Counts(rfreq, parts[bt := parts[bt] + mtfv[gs..ge + 1]], alphaSize)
  {
    hide Occurs;
    assert parts[bt] + mtfv[gs..gs] == parts[bt];
    for i := gs to ge + 1
      invariant Counts(rfreq, parts[bt := parts[bt] + mtfv[gs..i]], alphaSize)
    {
      ghost var part := parts[bt] + mtfv[gs..i];
      assert parts[bt] + mtfv[gs..i + 1] == part + [mtfv[i]];
      forall v | 0 <= v < alphaSize ensures Occurs(part + [mtfv[i]], v) == Occurs(part, v) + if v == mtfv[i] then 1 else 0 {
        OccursSnoc(part, mtfv[i], v);
      }
      rfreq[bt, mtfv[i]] := rfreq[bt, mtfv[i]] + 1;
    }
  }

  lemma OccursSnoc(s: seq<nat>, x: nat, v: nat)
    ensures Occurs(s + [x], v) == Occurs(s, v) + if v == x then 1 else 0
  {
    assert (s + [x])[..|s|] == s;
  }

  lemma NextGroup(lens: seq<seq<byte>>, alphaSize: nat, syms: seq<nat>, selector: seq<nat>, n: nat, bt: nat)
    requires Selects(lens, alphaSize, syms, selector) && 50 * |selector| < |syms| && bt < n
    requires Cheapest(lens, alphaSize, Group(syms, |selector|), bt)
    ensures Selects(lens, alphaSize, syms, selector + [bt])
    ensures PartsOf(n, syms, selector + [bt]) == PartsOf(n, syms, selector)[bt := PartsOf(n, syms, selector)[bt] + Group(syms, |selector|)]
  {
    hide Cheapest, Tabled;
    var more := selector + [bt];
    assert more[..|selector|] == selector;
    var parts, group := PartsOf(n, syms, selector), Group(syms, |selector|);
    forall t | 0 <= t < n ensures PartsOf(n, syms, more)[t] == parts[bt := parts[bt] + group][t] {
      assert CodedBy(syms, more, t) == CodedBy(syms, selector, t) + if t == bt then group else [];
    }
  }

  lemma NoGroups(lens: seq<seq<byte>>, alphaSize: nat, syms: seq<nat>, n: nat)
    requires Tabled(lens, alphaSize) && Below(syms, alphaSize) && syms != []
    ensures Selects(lens, alphaSize, syms, []) && PartsOf(n, syms, []) == NoParts(n)
  {
  }

  /** Every group is given its best table, and what every table codes is counted. */
  method AssignTables(lens: seq<seq<byte>>, lenPack: array<(nat, nat, nat)>, mtfv: seq<nat>, alphaSize: nat, rfreq: array2<nat>)
    returns (selector: seq<nat>)
    requires 2 <= |lens| <= 6 && Tabled(lens, alphaSize) && Below(mtfv, alphaSize) && mtfv != []
    requires |lens| == 6 ==> PackedTable(lens, lenPack[..], alphaSize)
    requires Counts(rfreq, NoParts(|lens|), alphaSize)
    modifies rfreq
    ensures Selects(lens, alphaSize, mtfv, selector) && |mtfv| <= 50 * |selector|
    ensures Counts(rfreq, PartsOf(|lens|, mtfv, selector), alphaSize)
  {
    hide Cost, Below, Tabled, Group, Cheapest, Selects, PartsOf, NoParts, CodedBy, Counts, Costs, PackedTable, Occurs;
    var cost := new nat[6];
    var gs: nat := 0;
    selector := [];
    NoGroups(lens, alphaSize, mtfv, |lens|);
    while gs < |mtfv|
      invariant gs <= |mtfv| && (gs < |mtfv| ==> gs == 50 * |selector|)
      invariant gs == |mtfv| ==> |mtfv| <= 50 * |selector|
      invariant Selects(lens, alphaSize, mtfv, selector) && 50 * |selector| < |mtfv| + 50
      invariant Counts(rfreq, PartsOf(|lens|, mtfv, selector), alphaSize)
    {
      var ge: nat := gs + BZ_G_SIZE - 1;
      if ge >= |mtfv| { ge := |mtfv| - 1; }
      GroupIs(mtfv, |selector|, gs, ge);
      GroupCosts(lens, lenPack, mtfv, gs, ge, alphaSize, cost);
      var bt := BestTable(lens, cost, alphaSize, mtfv[gs..ge + 1]);
      CheapestIs(lens, alphaSize, mtfv[gs..ge + 1], bt);
      NextGroup(lens, alphaSize, mtfv, selector, |lens|, bt);
      CountGroup(rfreq, bt, mtfv, gs, ge, alphaSize, PartsOf(|lens|, mtfv, selector));
      selector := selector + [bt];
      gs := ge + 1;
    }
  }

  lemma GroupIs(syms: seq<nat>, g: nat, gs: nat, ge: nat)
    requires gs == 50 * g < |syms| && ge == if gs + BZ_G_SIZE - 1 >= |syms| then |syms| - 1 else gs + BZ_G_SIZE - 1
    ensures gs <= ge < |syms| && ge - gs < 50 && syms[gs..ge + 1] == Group(syms, g)
    ensures ge + 1 < |syms| ==> ge + 1 == 50 * (g + 1)
  {
  }

  lemma CheapestIs(lens: seq<seq<byte>>, alphaSize: nat, group: seq<nat>, t: nat)
    requires Tabled(lens, alphaSize) && Below(group, alphaSize) && Cheapest(lens, alphaSize, group, t)
    ensures t < |lens|
  {
  }

  // ---------- new lengths ----------

  lemma {:induction false} SumSet(freq: seq<nat>, i: nat)
    requires i < |freq|
    ensures Sum(freq[i := freq[i] + 1]) == Sum(freq) + 1
  {
    var n := |freq| - 1;
    if i == n {
      assert freq[i := freq[i] + 1][..n] == freq[..n];
    } else {
      SumSet(freq[..n], i);
      assert freq[i := freq[i] + 1][..n] == freq[..n][i := freq[i] + 1];
    }
  }

  lemma {:induction false} SumZero(freq: seq<nat>)
    requires forall v :: 0 <= v < |freq| ==> freq[v] == 0
    ensures Sum(freq) == 0
  {
    if freq != [] { SumZero(freq[..|freq| - 1]); }
  }

  /** The frequencies of all symbols add up to the number of symbols. */
  lemma {:induction false} FreqsAddUp(alphaSize: nat, syms: seq<nat>)
    requires Below(syms, alphaSize)
    ensures Sum(FreqOf(alphaSize, syms)) == |syms|
  {
    if syms == [] {
      SumZero(FreqOf(alphaSize, []));
    } else {
      var init, x := syms[..|syms| - 1], syms[|syms| - 1];
      FreqsAddUp(alphaSize, init);
      var freq := FreqOf(alphaSize, init);
      SumSet(freq, x);
      assert freq[x := freq[x] + 1] == FreqOf(alphaSize, syms);
    }
  }

  lemma {:induction false} CodedSome(syms: seq<nat>, selector: seq<nat>, t: nat, n: nat)
    requires 50 * |selector| < |syms| + 50 && Below(syms, n)
    ensures Below(CodedBy(syms, selector, t), n) && |CodedBy(syms, selector, t)| <= |syms|
    ensures |CodedBy(syms, selector, t)| <= 50 * |selector|
  {
    if selector != [] { CodedSome(syms, selector[..|selector| - 1], t, n); }
  }

  method FreqRow(rfreq: array2<nat>, t: nat, alphaSize: nat, ghost parts: seq<seq<nat>>) returns (freq: seq<nat>)
    requires Counts(rfreq, parts, alphaSize) && t < |parts|
    ensures freq == FreqOf(alphaSize, parts[t])
  {
    freq := [];
    for v := 0 to alphaSize
      invariant |freq| == v && forall u :: 0 <= u < v ==> freq[u] == Occurs(parts[t], u)
    {
      freq := freq + [rfreq[t, v]];
    }
  }

  /** The lengths of every table for what it codes. */
  method NewLengths(rfreq: array2<nat>, nGroups: nat, alphaSize: nat, ghost syms: seq<nat>, ghost selector: seq<nat>) returns (lens: seq<seq<byte>>)
    requires 2 <= alphaSize <= BZ_MAX_ALPHA_SIZE && 50 * |selector| < |syms| + 50 && Below(syms, alphaSize) && |syms| <= 900001
    requires Counts(rfreq, PartsOf(nGroups, syms, selector), alphaSize)
    ensures |lens| == nGroups && forall t :: 0 <= t < nGroups ==> Suits(FreqOf(alphaSize, CodedBy(syms, selector, t)), lens[t])
  {
    hide Occurs, CodedBy, Suits, Sum, Below, Counts, CodeLengths, Lengths.HalvedAsNeeded, Lengths.Weights;
    lens := [];
    for t := 0 to nGroups
      invariant |lens| == t
      invariant forall u :: 0 <= u < t ==> Suits(FreqOf(alphaSize, CodedBy(syms, selector, u)), lens[u])
    {
      ghost var part := CodedBy(syms, selector, t);
      var freq := FreqRow(rfreq, t, alphaSize, PartsOf(nGroups, syms, selector));
      CodedSome(syms, selector, t, alphaSize);
      FreqsAddUp(alphaSize, part);
      var len := TableLengths(freq, alphaSize);
      SuitsIs(freq, len);
      lens := lens + [len];
    }
  }

  lemma SuitsIs(freq: seq<nat>, lens: seq<byte>)
    requires CodeLengths(lens, |freq|) && exists k: nat :: Lengths.HalvedAsNeeded(Lengths.Weights(freq), k, lens, 17)
    ensures Suits(freq, lens)
  {
  }

  // ---------- the initial tables ----------

  /** The shortest part from a place on that weighs at least the target, or all that is left. */
  ghost predicate Reaches(freq: seq<nat>, from: nat, to: nat, target: nat) {
    && from <= to <= |freq| && (to == |freq| || Sum(freq[from..to]) >= target)
    && (from < to ==> Sum(freq[from..to - 1]) < target)
  }

  /** Part p of the alphabet: the shortest that has its share of the occurrences left; every
      second part but the last gives up its last symbol, if it has more than one. */
  ghost predicate IsPart(freq: seq<nat>, nGroups: nat, p: nat, from: nat, to: nat, full: nat) {
    && p < nGroups && from <= |freq| && Reaches(freq, from, full, Sum(freq[from..]) / (nGroups - p))
    && to == if full > from + 1 && p % 2 == 1 && p < nGroups - 1 then full - 1 else full
  }

  /** The alphabet is divided into parts, one for every table, and a table takes no bits for the
      symbols of its own part and fifteen for all others. */
  ghost predicate Divides(freq: seq<nat>, bounds: seq<nat>, fulls: seq<nat>, lens: seq<seq<byte>>) {
    && |bounds| == |lens| + 1 && |fulls| == |lens| && bounds[0] == 0 && bounds[|lens|] == |freq|
    && (forall p :: 0 <= p < |lens| ==> IsPart(freq, |lens|, p, bounds[p], bounds[p + 1], fulls[p]))
    && forall t :: 0 <= t < |lens| ==> Owns(lens[t], |freq|, bounds[|lens| - 1 - t], bounds[|lens| - t])
  }

  ghost predicate Owns(lens: seq<byte>, alphaSize: nat, from: nat, to: nat) {
    |lens| == alphaSize && forall v :: 0 <= v < alphaSize ==> lens[v] == if from <= v < to then 0 else 15
  }

  /** The tables that the passes start from. */
  ghost predicate Initial(freq: seq<nat>, lens: seq<seq<byte>>) {
    exists bounds: seq<nat>, fulls: seq<nat> :: Divides(freq, bounds, fulls, lens)
  }

  lemma {:induction false} SumSplit(freq: seq<nat>, from: nat, mid: nat, end: nat)
    requires from <= mid <= end <= |freq|
    ensures Sum(freq[from..end]) == Sum(freq[from..mid]) + Sum(freq[mid..end])
    decreases end
  {
    if mid < end {
      SumSplit(freq, from, mid, end - 1);
      assert freq[from..end][..end - 1 - from] == freq[from..end - 1];
      assert freq[mid..end][..end - 1 - mid] == freq[mid..end - 1];
    } else {
      assert freq[mid..end] == [];
    }
  }

  /** The last part ends where the alphabet ends: only there has everything been counted. */
  lemma LastPart(freq: seq<nat>, from: nat, to: nat)
    requires from <= |freq| && Reaches(freq, from, to, Sum(freq[from..])) && freq != [] && freq[|freq| - 1] > 0
    ensures to == |freq|
  {
    hide Sum;
    SumSplit(freq, from, to, |freq|);
    assert freq[from..|freq|] == freq[from..] && freq[to..|freq|] == freq[to..];
    if to < |freq| { LastCounts(freq, to); }
  }

  lemma LastCounts(freq: seq<nat>, i: nat)
    requires i < |freq| && freq[|freq| - 1] > 0
    ensures Sum(freq[i..]) > 0
  {
    assert freq[i..][|freq| - i - 1] == freq[|freq| - 1];
  }

  /** The end of a part, and how often its symbols occur. */
  method FindPart(mtfFreq: seq<nat>, nGroups: nat, nPart: nat, gs: nat, remF: nat) returns (ge: int, aFreq: nat, ghost full: nat)
    requires 1 <= nPart <= nGroups && gs <= |mtfFreq| && remF == Sum(mtfFreq[gs..])
    ensures gs - 1 <= ge < |mtfFreq| && aFreq == Sum(mtfFreq[gs..ge + 1])
    ensures IsPart(mtfFreq, nGroups, nGroups - nPart, gs, ge + 1, full)
  {
    hide Sum;
    var tFreq := remF / nPart;
    ge := gs - 1;
    aFreq := 0;
    NoSum(mtfFreq, gs);
    while aFreq < tFreq && ge < |mtfFreq| - 1
      invariant gs - 1 <= ge < |mtfFreq| && aFreq == Sum(mtfFreq[gs..ge + 1])
      invariant gs <= ge ==> Sum(mtfFreq[gs..ge]) < tFreq
    {
      ge := ge + 1;
      SumNext(mtfFreq, gs, ge);
      aFreq := aFreq + mtfFreq[ge];
    }
    full := ge + 1;
    if ge > gs && nPart != nGroups && nPart != 1 && (nGroups - nPart) % 2 == 1 {
      SumNext(mtfFreq, gs, ge);
      aFreq := aFreq - mtfFreq[ge];
      ge := ge - 1;
    }
  }

  lemma NoSum(freq: seq<nat>, gs: nat)
    requires gs <= |freq|
    ensures Sum(freq[gs..gs]) == 0
  {
    assert freq[gs..gs] == [];
  }

  lemma SumNext(freq: seq<nat>, gs: nat, ge: nat)
    requires gs <= ge < |freq|
    ensures Sum(freq[gs..ge + 1]) == Sum(freq[gs..ge]) + freq[ge]
  {
    assert freq[gs..ge + 1][..ge - gs] == freq[gs..ge];
  }

  /** Fifteen bits for every symbol but those from gs to ge. */
  method PartTable(alphaSize: nat, gs: nat, ge: int) returns (lens: seq<byte>)
    requires ge >= gs - 1
    ensures Owns(lens, alphaSize, gs, ge + 1)
  {
    lens := [];
    for v := 0 to alphaSize
      invariant |lens| == v
      invariant forall u :: 0 <= u < v ==> lens[u] == if gs <= u < ge + 1 then 0 else 15
    {
      lens := lens + [if v >= gs && v <= ge then BZ_LESSER_ICOST else BZ_GREATER_ICOST];
    }
  }

  method InitialTables(mtfFreq: seq<nat>, nMTF: nat, nGroups: nat) returns (lens: seq<seq<byte>>)
    requires 1 <= nGroups && nMTF == Sum(mtfFreq) && mtfFreq != [] && mtfFreq[|mtfFreq| - 1] > 0
    ensures |lens| == nGroups && Initial(mtfFreq, lens)
  {
    hide Sum, IsPart, Owns, Reaches;
    var nPart: nat, remF: nat, gs: nat := nGroups, nMTF, 0;
    lens := seq(nGroups, _ => []);
    ghost var bounds: seq<nat>, fulls: seq<nat> := [0], [];
    assert mtfFreq[0..] == mtfFreq;
    while nPart > 0
      invariant nPart <= nGroups == |lens| && gs <= |mtfFreq| && remF == Sum(mtfFreq[gs..])
      invariant |bounds| == nGroups - nPart + 1 && |fulls| == nGroups - nPart && bounds[0] == 0 && bounds[nGroups - nPart] == gs
      invariant forall p :: 0 <= p < nGroups - nPart ==> IsPart(mtfFreq, nGroups, p, bounds[p], bounds[p + 1], fulls[p])
      invariant forall t :: nPart <= t < nGroups ==> Owns(lens[t], |mtfFreq|, bounds[nGroups - 1 - t], bounds[nGroups - t])
      invariant nPart == 0 ==> gs == |mtfFreq|
    {
      var ge, aFreq, full := FindPart(mtfFreq, nGroups, nPart, gs, remF);
      var len := PartTable(|mtfFreq|, gs, ge);
      if nPart == 1 { WholeRest(mtfFreq, nGroups, gs, ge + 1, full); }
      SumSplit(mtfFreq, gs, ge + 1, |mtfFreq|);
      assert mtfFreq[gs..|mtfFreq|] == mtfFreq[gs..] && mtfFreq[ge + 1..|mtfFreq|] == mtfFreq[ge + 1..];
      lens := lens[nPart - 1 := len];
      bounds, fulls := bounds + [ge + 1], fulls + [full];
      nPart := nPart - 1;
      gs := ge + 1;
      remF := remF - aFreq;
    }
    assert Divides(mtfFreq, bounds, fulls, lens);
  }

  lemma WholeRest(freq: seq<nat>, nGroups: nat, from: nat, to: nat, full: nat)
    requires 1 <= nGroups && IsPart(freq, nGroups, nGroups - 1, from, to, full) && freq != [] && freq[|freq| - 1] > 0
    ensures to == |freq|
  {
    hide Reaches, Sum;
    assert Sum(freq[from..]) / 1 == Sum(freq[from..]);
    LastPart(freq, from, full);
  }

  // ---------- all of it ----------

  /** The sizes from which on there is one more table. */
  ghost function Reached(n: nat): set<int> {
    var sizes := {200, 600, 1200, 2400};
    set b | b in sizes && b <= n
  }

  lemma TablesFor(n: nat)
    ensures GroupCount(n) == 2 + |Reached(n)|
  {
    assert n < 200 ==> Reached(n) == {};
    assert 200 <= n < 600 ==> Reached(n) == {200};
    assert 600 <= n < 1200 ==> Reached(n) == {200, 600};
    assert 1200 <= n < 2400 ==> Reached(n) == {200, 600, 1200};
    assert 2400 <= n ==> Reached(n) == {200, 600, 1200, 2400};
  }

  /** What is sent: the tables after four passes from the initial ones, and the selectors of the
      last pass. */
  ghost predicate Refined(alphaSize: nat, syms: seq<nat>, selector: seq<nat>, lens: seq<seq<byte>>) {
    exists tables: seq<seq<seq<byte>>>, selectors: seq<seq<nat>> :: FourPasses(tables, selectors, alphaSize, syms, selector, lens)
  }

  ghost predicate FourPasses(tables: seq<seq<seq<byte>>>, selectors: seq<seq<nat>>, alphaSize: nat, syms: seq<nat>, selector: seq<nat>, lens: seq<seq<byte>>) {
    && Passes(tables, selectors, alphaSize, syms) && |selectors| == 4
    && |tables[0]| == 2 + |Reached(|syms|)| && Initial(FreqOf(alphaSize, syms), tables[0])
    && selectors[3] == selector && tables[4] == lens
  }

  /** One iteration. */
  method ImproveTables(before: seq<seq<byte>>, lenPack: array<(nat, nat, nat)>, rfreq: array2<nat>, mtfv: seq<nat>, alphaSize: nat)
    returns (selector: seq<nat>, after: seq<seq<byte>>)
    requires 2 <= alphaSize <= BZ_MAX_ALPHA_SIZE && 0 < |mtfv| <= 900001 && Below(mtfv, alphaSize)
    requires 2 <= |before| <= 6 && Tabled(before, alphaSize)
    requires lenPack.Length >= alphaSize && rfreq.Length0 >= 6 && rfreq.Length1 >= alphaSize
    modifies lenPack, rfreq
    ensures Pass(before, alphaSize, mtfv, selector, after)
  {
    hide *;
    ClearFreqs(rfreq, |before|, alphaSize);
    if |before| == 6 { PackLengths(before, lenPack, alphaSize); }
    selector := AssignTables(before, lenPack, mtfv, alphaSize, rfreq);
    SelectedCount(before, alphaSize, mtfv, selector);
    after := NewLengths(rfreq, |before|, alphaSize, mtfv, selector);
    PassIs(before, alphaSize, mtfv, selector, after);
  }

  lemma SelectedCount(lens: seq<seq<byte>>, alphaSize: nat, syms: seq<nat>, selector: seq<nat>)
    requires Selects(lens, alphaSize, syms, selector)
    ensures 50 * |selector| < |syms| + 50
  {
  }

  lemma PassIs(before: seq<seq<byte>>, alphaSize: nat, syms: seq<nat>, selector: seq<nat>, after: seq<seq<byte>>)
    requires Selects(before, alphaSize, syms, selector) && |syms| <= 50 * |selector| < |syms| + 50 && |after| == |before|
    requires forall t :: 0 <= t < |after| ==> Suits(FreqOf(alphaSize, CodedBy(syms, selector, t)), after[t])
    ensures Pass(before, alphaSize, syms, selector, after)
  {
    hide Selects, Suits, CodedBy;
  }

  /** What a pass leaves can be sent, and improved by another. */
  lemma PassLeaves(before: seq<seq<byte>>, alphaSize: nat, syms: seq<nat>, selector: seq<nat>, after: seq<seq<byte>>)
    requires Pass(before, alphaSize, syms, selector, after)
    ensures |after| == |before| && Tabled(after, alphaSize) && |syms| <= 50 * |selector| < |syms| + 50
    ensures forall k :: 0 <= k < |selector| ==> selector[k] < |after|
    ensures forall t :: 0 <= t < |after| ==> CodeLengths(after[t], alphaSize)
  {
    forall t | 0 <= t < |after| ensures CodeLengths(after[t], alphaSize) {
      assert Suits(FreqOf(alphaSize, CodedBy(syms, selector, t)), after[t]);
    }
    forall k | 0 <= k < |selector| ensures selector[k] < |after| {
      assert Cheapest(before, alphaSize, Group(syms, k), selector[k]);
    }
  }

  lemma InitialTabled(freq: seq<nat>, lens: seq<seq<byte>>)
    requires Initial(freq, lens)
    ensures Tabled(lens, |freq|)
  {
    hide IsPart;
    var bounds: seq<nat>, fulls: seq<nat> :| Divides(freq, bounds, fulls, lens);
  }

  lemma OneMorePass(tables: seq<seq<seq<byte>>>, selectors: seq<seq<nat>>, alphaSize: nat, syms: seq<nat>, selector: seq<nat>, after: seq<seq<byte>>)
    requires Passes(tables, selectors, alphaSize, syms) && Pass(tables[|selectors|], alphaSize, syms, selector, after)
    ensures Passes(tables + [after], selectors + [selector], alphaSize, syms)
  {
    hide Pass;
  }

  lemma NoPasses(lens: seq<seq<byte>>, alphaSize: nat, syms: seq<nat>)
    ensures Passes([lens], [], alphaSize, syms)
  {
  }

  lemma RefinedIs(tables: seq<seq<seq<byte>>>, selectors: seq<seq<nat>>, alphaSize: nat, syms: seq<nat>, selector: seq<nat>, lens: seq<seq<byte>>)
    requires FourPasses(tables, selectors, alphaSize, syms, selector, lens)
    ensures Refined(alphaSize, syms, selector, lens)
  {
    hide FourPasses;
  }

  lemma ChoiceIs(nMTF: nat, alphaSize: nat, selector: seq<nat>, lens: seq<seq<byte>>)
    requires |lens| == GroupCount(nMTF) && nMTF <= 50 * |selector| < nMTF + 50
    requires forall k :: 0 <= k < |selector| ==> selector[k] < |lens|
    requires forall t :: 0 <= t < |lens| ==> CodeLengths(lens[t], alphaSize)
    ensures Choice(nMTF, alphaSize, selector, lens)
  {
  }

  /** The iterations of `sendMTFValues` that choose the tables. */
  method RefineTables(mtfFreq: seq<nat>, mtfv: seq<nat>, alphaSize: nat) returns (selector: seq<nat>, lens: seq<seq<byte>>)
    requires 2 <= alphaSize <= BZ_MAX_ALPHA_SIZE && 0 < |mtfv| <= 900001 && Below(mtfv, alphaSize)
    requires mtfFreq == FreqOf(alphaSize, mtfv) && mtfFreq[alphaSize - 1] > 0
    ensures Choice(|mtfv|, alphaSize, selector, lens)
    ensures Refined(alphaSize, mtfv, selector, lens)
  {
    hide Below, Initial, Pass, Tabled, Passes, Sum, Occurs, GroupCount, Choice, Refined, CodeLengths, Reached;
    assert |mtfv| > 0;  // AssertH 3001
    var nGroups := GroupCount(|mtfv|);
    TablesFor(|mtfv|);
    FreqsAddUp(alphaSize, mtfv);
    lens := InitialTables(mtfFreq, |mtfv|, nGroups);
    InitialTabled(mtfFreq, lens);
    var lenPack := new (nat, nat, nat)[BZ_MAX_ALPHA_SIZE];
    var rfreq := new nat[BZ_N_GROUPS, BZ_MAX_ALPHA_SIZE];
    ghost var first := lens;
    ghost var tables: seq<seq<seq<byte>>>, selectors: seq<seq<nat>> := [lens], [];
    NoPasses(lens, alphaSize, mtfv);
    selector := [];
    for iter := 0 to BZ_N_ITERS
      invariant |tables| == iter + 1 && |selectors| == iter && Passes(tables, selectors, alphaSize, mtfv)
      invariant tables[0] == first && tables[iter] == lens && |lens| == nGroups && Tabled(lens, alphaSize)
      invariant iter > 0 ==> selectors[iter - 1] == selector && Choice(|mtfv|, alphaSize, selector, lens)
    {
      ghost var before := lens;
      selector, lens := ImproveTables(lens, lenPack, rfreq, mtfv, alphaSize);
      OneMorePass(tables, selectors, alphaSize, mtfv, selector, lens);
      PassLeaves(before, alphaSize, mtfv, selector, lens);
      ChoiceIs(|mtfv|, alphaSize, selector, lens);
      tables, selectors := tables + [lens], selectors + [selector];
    }
    RefinedIs(tables, selectors, alphaSize, mtfv, selector, lens);
  }

  // ---------- the initial tables are determined ----------

  lemma SumGrows(freq: seq<nat>, from: nat, mid: nat, end: nat)
    requires from <= mid <= end <= |freq|
    ensures Sum(freq[from..mid]) <= Sum(freq[from..end])
  {
    SumSplit(freq, from, mid, end);
  }

  lemma ReachesOnce(freq: seq<nat>, from: nat, to1: nat, to2: nat, target: nat)
    requires Reaches(freq, from, to1, target) && Reaches(freq, from, to2, target)
    ensures to1 == to2
  {
    hide Sum;
    if to1 < to2 { SumGrows(freq, from, to1, to2 - 1); }
    if to2 < to1 { SumGrows(freq, from, to2, to1 - 1); }
  }

  lemma {:induction false} BoundsOnce(freq: seq<nat>, bounds1: seq<nat>, fulls1: seq<nat>, lens1: seq<seq<byte>>,
      bounds2: seq<nat>, fulls2: seq<nat>, lens2: seq<seq<byte>>, p: nat)
    requires Divides(freq, bounds1, fulls1, lens1) && Divides(freq, bounds2, fulls2, lens2) && p <= |lens1| == |lens2|
    ensures bounds1[p] == bounds2[p]
  {
    if p > 0 {
      BoundsOnce(freq, bounds1, fulls1, lens1, bounds2, fulls2, lens2, p - 1);
      hide Sum, Owns, Reaches;
      assert IsPart(freq, |lens1|, p - 1, bounds1[p - 1], bounds1[p], fulls1[p - 1]);
      assert IsPart(freq, |lens2|, p - 1, bounds2[p - 1], bounds2[p], fulls2[p - 1]);
      ReachesOnce(freq, bounds1[p - 1], fulls1[p - 1], fulls2[p - 1], Sum(freq[bounds1[p - 1]..]) / (|lens1| - (p - 1)));
    }
  }

  /** The frequencies determine the initial tables. */
  lemma InitialOnce(freq: seq<nat>, lens1: seq<seq<byte>>, lens2: seq<seq<byte>>)
    requires Initial(freq, lens1) && Initial(freq, lens2) && |lens1| == |lens2|
    ensures lens1 == lens2
  {
    hide IsPart;
    var bounds1: seq<nat>, fulls1: seq<nat> :| Divides(freq, bounds1, fulls1, lens1);
    var bounds2: seq<nat>, fulls2: seq<nat> :| Divides(freq, bounds2, fulls2, lens2);
    forall t | 0 <= t < |lens1| ensures lens1[t] == lens2[t] {
      BoundsOnce(freq, bounds1, fulls1, lens1, bounds2, fulls2, lens2, |lens1| - 1 - t);
      BoundsOnce(freq, bounds1, fulls1, lens1, bounds2, fulls2, lens2, |lens1| - t);
      assert Owns(lens1[t], |freq|, bounds1[|lens1| - 1 - t], bounds1[|lens1| - t]);
      assert Owns(lens2[t], |freq|, bounds2[|lens1| - 1 - t], bounds2[|lens1| - t]);
    }
  }

  lemma {:induction false} PartOf(freq: seq<nat>, bounds: seq<nat>, fulls: seq<nat>, lens: seq<seq<byte>>, v: nat, n: nat) returns (p: nat)
    requires Divides(freq, bounds, fulls, lens) && n <= |lens| && v < bounds[n]
    ensures p < n && bounds[p] <= v < bounds[p + 1]
  {
    if v < bounds[n - 1] { p := PartOf(freq, bounds, fulls, lens, v, n - 1); } else { p := n - 1; }
  }

  lemma {:induction false} BoundsRise(freq: seq<nat>, bounds: seq<nat>, fulls: seq<nat>, lens: seq<seq<byte>>, p: nat, q: nat)
    requires Divides(freq, bounds, fulls, lens) && p <= q <= |lens|
    ensures bounds[p] <= bounds[q]
    decreases q
  {
    if p < q {
      BoundsRise(freq, bounds, fulls, lens, p, q - 1);
      assert IsPart(freq, |lens|, q - 1, bounds[q - 1], bounds[q], fulls[q - 1]);
    }
  }

  /** Every symbol belongs to the part of exactly one table. */
  lemma OneOwner(freq: seq<nat>, lens: seq<seq<byte>>, v: nat) returns (t: nat)
    requires Initial(freq, lens) && v < |freq|
    ensures t < |lens| && |lens[t]| == |freq| && lens[t][v] == 0
    ensures forall u :: 0 <= u < |lens| && u != t ==> |lens[u]| == |freq| && lens[u][v] == 15
  {
    hide IsPart;
    var bounds: seq<nat>, fulls: seq<nat> :| Divides(freq, bounds, fulls, lens);
    var n := |lens|;
    var p := PartOf(freq, bounds, fulls, lens, v, n);
    t := n - 1 - p;
    assert Owns(lens[t], |freq|, bounds[n - 1 - t], bounds[n - t]);
    forall u | 0 <= u < n && u != t ensures |lens[u]| == |freq| && lens[u][v] == 15 {
      assert Owns(lens[u], |freq|, bounds[n - 1 - u], bounds[n - u]);
      if u < t {
        BoundsRise(freq, bounds, fulls, lens, p + 1, n - 1 - u);
      } else {
        BoundsRise(freq, bounds, fulls, lens, n - u, p);
      }
    }
  }

  // ---------- a pass improves the tables ----------

  /** The bits that all groups take, each coded by its table. */
  ghost function Size(lens: seq<seq<byte>>, alphaSize: nat, syms: seq<nat>, selector: seq<nat>): nat
    requires Tabled(lens, alphaSize) && Below(syms, alphaSize) && 50 * |selector| < |syms| + 50
    requires forall k :: 0 <= k < |selector| ==> selector[k] < |lens|
  {
    if selector == [] then 0
    else Size(lens, alphaSize, syms, selector[..|selector| - 1]) + Cost(lens[selector[|selector| - 1]], Group(syms, |selector| - 1))
  }

  /** The bits of the symbols that do not occur, each counted once. */
  ghost function Unused(freq: seq<nat>, lens: seq<byte>): nat
    requires |freq| == |lens|
  {
    if lens == [] then 0
    else Unused(freq[..|freq| - 1], lens[..|lens| - 1]) + if freq[|freq| - 1] == 0 then lens[|lens| - 1] else 0
  }

  /** The bits of all the symbols, by frequency. */
  ghost function Weighted(freq: seq<nat>, lens: seq<byte>): nat
    requires |freq| == |lens|
  {
    if lens == [] then 0 else Weighted(freq[..|freq| - 1], lens[..|lens| - 1]) + freq[|freq| - 1] * lens[|lens| - 1]
  }

  lemma {:induction false} WeightedZero(freq: seq<nat>, lens: seq<byte>)
    requires |freq| == |lens| && forall v :: 0 <= v < |freq| ==> freq[v] == 0
    ensures Weighted(freq, lens) == 0
  {
    if lens != [] { WeightedZero(freq[..|freq| - 1], lens[..|lens| - 1]); }
  }

  lemma {:induction false} WeightedSet(freq: seq<nat>, lens: seq<byte>, i: nat)
    requires i < |freq| == |lens|
    ensures Weighted(freq[i := freq[i] + 1], lens) == Weighted(freq, lens) + lens[i]
  {
    var n := |freq| - 1;
    var more := freq[i := freq[i] + 1];
    if i == n {
      assert more[..n] == freq[..n];
      OneMore(freq[n], lens[n]);
    } else {
      WeightedSet(freq[..n], lens[..n], i);
      assert more[..n] == freq[..n][i := freq[i] + 1];
    }
  }

  lemma OneMore(x: nat, y: nat)
    ensures (x + 1) * y == x * y + y
  {
  }

  /** Coding symbol by symbol takes the bits that the frequencies say. */
  lemma {:induction false} CostByFreqs(lens: seq<byte>, syms: seq<nat>)
    requires Below(syms, |lens|)
    ensures Cost(lens, syms) == Weighted(FreqOf(|lens|, syms), lens)
  {
    if syms == [] {
      WeightedZero(FreqOf(|lens|, []), lens);
    } else {
      var init, x := syms[..|syms| - 1], syms[|syms| - 1];
      CostByFreqs(lens, init);
      var freq := FreqOf(|lens|, init);
      WeightedSet(freq, lens, x);
      assert freq[x := freq[x] + 1] == FreqOf(|lens|, syms);
    }
  }

  /** What a code costs for the weights of `BZ2_hbMakeCodeLengths`. */
  lemma {:induction false} CodeCostIs(freq: seq<nat>, lens: seq<byte>, n: nat)
    requires n <= |freq| == |lens|
    ensures Optimal.CodeCost(Lengths.Weights(freq), lens[..n]) == Weighted(freq[..n], lens[..n]) + Unused(freq[..n], lens[..n])
  {
    if n > 0 {
      CodeCostIs(freq, lens, n - 1);
      assert lens[..n][..n - 1] == lens[..n - 1] && freq[..n][..n - 1] == freq[..n - 1];
      assert Lengths.Weights(freq)[n] == if freq[n - 1] == 0 then 1 else freq[n - 1];
    }
  }

  lemma {:induction false} SpaceIsShare(lens: seq<byte>)
    requires forall i :: 0 <= i < |lens| ==> lens[i] <= LONGEST
    ensures Optimal.CodeSpace(lens, LONGEST) == Share(lens, LONGEST)
  {
    if lens != [] { SpaceIsShare(lens[..|lens| - 1]); }
  }

  /** Lengths for these frequencies that no halving of the weights has touched. */
  ghost predicate Unhalved(freq: seq<nat>, lens: seq<byte>) {
    |lens| == |freq| && Optimal.Minimal(Lengths.Weights(freq), lens)
  }

  /** A table that codes few symbols is not halved. */
  lemma FewUnhalved(alphaSize: nat, syms: seq<nat>, lens: seq<byte>)
    requires Suits(FreqOf(alphaSize, syms), lens) && Below(syms, alphaSize) && |syms| + alphaSize < 6765
    ensures Unhalved(FreqOf(alphaSize, syms), lens)
  {
    var freq := FreqOf(alphaSize, syms);
    var k: nat :| Lengths.HalvedAsNeeded(Lengths.Weights(freq), k, lens, 17);
    hide Optimal.Minimal, Trees.Fib, Sum, Below, FreqOf, Lengths.Weights, Lengths.Needed;
    FreqsAddUp(alphaSize, syms);
    TotalOfWeights(freq, alphaSize);
    assert freq[..alphaSize] == freq;
    FibTwenty();
  }

  lemma FibTwenty()
    ensures Trees.Fib(20) == 6765
  {
    assert Trees.Fib(5) == 5 && Trees.Fib(6) == 8;
    assert Trees.Fib(7) == 13 && Trees.Fib(8) == 21;
    assert Trees.Fib(9) == 34 && Trees.Fib(10) == 55;
    assert Trees.Fib(11) == 89 && Trees.Fib(12) == 144;
    assert Trees.Fib(13) == 233 && Trees.Fib(14) == 377;
    assert Trees.Fib(15) == 610 && Trees.Fib(16) == 987;
    assert Trees.Fib(17) == 1597 && Trees.Fib(18) == 2584;
  }

  /** New lengths for what a table codes are no worse than the old ones. */
  lemma TableGain(alphaSize: nat, syms: seq<nat>, before: seq<byte>, after: seq<byte>)
    requires Below(syms, alphaSize) && CodeLengths(before, alphaSize) && Unhalved(FreqOf(alphaSize, syms), after)
    ensures var freq := FreqOf(alphaSize, syms);
            Cost(after, syms) + Unused(freq, after) <= Cost(before, syms) + Unused(freq, before)
  {
    var freq := FreqOf(alphaSize, syms);
    SpaceIsShare(before);
    assert Optimal.PrefixLengths(before, LONGEST);
    CostByFreqs(before, syms);
    CostByFreqs(after, syms);
    hide *;
    CodeCostIs(freq, before, alphaSize);
    CodeCostIs(freq, after, alphaSize);
    assert freq[..alphaSize] == freq && before[..alphaSize] == before && after[..alphaSize] == after;
    UnhalvedCheapest(freq, before, after);
  }

  lemma UnhalvedCheapest(freq: seq<nat>, before: seq<byte>, after: seq<byte>)
    requires Unhalved(freq, after) && |before| == |freq| && Optimal.PrefixLengths(before, LONGEST)
    ensures Optimal.CodeCost(Lengths.Weights(freq), after) <= Optimal.CodeCost(Lengths.Weights(freq), before)
  {
    hide Optimal.PrefixLengths, Optimal.CodeCost, Lengths.Weights;
  }

  /** What the first n tables take for what they code. */
  ghost function TablesCost(lens: seq<seq<byte>>, alphaSize: nat, parts: seq<seq<nat>>, n: nat): nat
    requires Tabled(lens, alphaSize) && n <= |lens| && n <= |parts| && forall t :: 0 <= t < |parts| ==> Below(parts[t], alphaSize)
  {
    if n == 0 then 0 else TablesCost(lens, alphaSize, parts, n - 1) + Cost(lens[n - 1], parts[n - 1])
  }

  /** The bits of the symbols that a table does not code, in the first n tables. */
  ghost function TablesUnused(lens: seq<seq<byte>>, alphaSize: nat, parts: seq<seq<nat>>, n: nat): nat
    requires Tabled(lens, alphaSize) && n <= |lens| && n <= |parts|
  {
    if n == 0 then 0 else TablesUnused(lens, alphaSize, parts, n - 1) + Unused(FreqOf(alphaSize, parts[n - 1]), lens[n - 1])
  }

  lemma {:induction false} CostJoins(lens: seq<byte>, a: seq<nat>, b: seq<nat>)
    requires Below(a, |lens|) && Below(b, |lens|)
    ensures Below(a + b, |lens|) && Cost(lens, a + b) == Cost(lens, a) + Cost(lens, b)
  {
    if b == [] {
      assert a + b == a;
    } else {
      var init := b[..|b| - 1];
      CostJoins(lens, a, init);
      assert (a + b)[..|a + b| - 1] == a + init;
    }
  }

  /** A group is added to the cost of its table. */
  lemma {:induction false} TablesCostNext(lens: seq<seq<byte>>, alphaSize: nat, parts: seq<seq<nat>>, bt: nat, group: seq<nat>, n: nat)
    requires Tabled(lens, alphaSize) && n <= |lens| && n <= |parts| && bt < |parts| && bt < |lens| && Below(group, alphaSize)
    requires forall t :: 0 <= t < |parts| ==> Below(parts[t], alphaSize)
    ensures Below(parts[bt] + group, alphaSize)
    ensures TablesCost(lens, alphaSize, parts[bt := parts[bt] + group], n) ==
            TablesCost(lens, alphaSize, parts, n) + if bt < n then Cost(lens[bt], group) else 0
  {
    CostJoins(lens[bt], parts[bt], group);
    if n > 0 { TablesCostNext(lens, alphaSize, parts, bt, group, n - 1); }
  }

  lemma {:induction false} NoTablesCost(lens: seq<seq<byte>>, alphaSize: nat, parts: seq<seq<nat>>, n: nat)
    requires Tabled(lens, alphaSize) && n <= |lens| && n <= |parts| && forall t :: 0 <= t < |parts| ==> parts[t] == []
    ensures TablesCost(lens, alphaSize, parts, n) == 0
  {
    if n > 0 { NoTablesCost(lens, alphaSize, parts, n - 1); }
  }

  lemma PartsBelow(n: nat, syms: seq<nat>, selector: seq<nat>, alphaSize: nat)
    requires 50 * |selector| < |syms| + 50 && Below(syms, alphaSize)
    ensures forall t :: 0 <= t < n ==> Below(PartsOf(n, syms, selector)[t], alphaSize)
  {
    forall t | 0 <= t < n ensures Below(PartsOf(n, syms, selector)[t], alphaSize) {
      CodedSome(syms, selector, t, alphaSize);
    }
  }

  /** Group by group or table by table, the size is the same. */
  lemma {:induction false} SizeByTables(lens: seq<seq<byte>>, alphaSize: nat, syms: seq<nat>, selector: seq<nat>)
    requires Tabled(lens, alphaSize) && Below(syms, alphaSize) && 50 * |selector| < |syms| + 50
    requires forall k :: 0 <= k < |selector| ==> selector[k] < |lens|
    ensures forall t :: 0 <= t < |lens| ==> Below(PartsOf(|lens|, syms, selector)[t], alphaSize)
    ensures Size(lens, alphaSize, syms, selector) == TablesCost(lens, alphaSize, PartsOf(|lens|, syms, selector), |lens|)
  {
    var n := |lens|;
    PartsBelow(n, syms, selector, alphaSize);
    if selector == [] {
      NoTablesCost(lens, alphaSize, PartsOf(n, syms, []), n);
    } else {
      var g := |selector| - 1;
      var init, bt := selector[..g], selector[g];
      SizeByTables(lens, alphaSize, syms, init);
      PartsBelow(n, syms, init, alphaSize);
      TablesCostNext(lens, alphaSize, PartsOf(n, syms, init), bt, Group(syms, g), n);
      PartsNext(n, syms, selector);
    }
  }

  lemma PartsNext(n: nat, syms: seq<nat>, selector: seq<nat>)
    requires 50 * |selector| < |syms| + 50 && selector != [] && selector[|selector| - 1] < n
    ensures var g, bt, init := |selector| - 1, selector[|selector| - 1], PartsOf(n, syms, selector[..|selector| - 1]);
            PartsOf(n, syms, selector) == init[bt := init[bt] + Group(syms, g)]
  {
    var g, bt, init := |selector| - 1, selector[|selector| - 1], PartsOf(n, syms, selector[..|selector| - 1]);
    forall t | 0 <= t < n ensures PartsOf(n, syms, selector)[t] == init[bt := init[bt] + Group(syms, g)][t] {
    }
  }

  lemma {:induction false} TablesGain(before: seq<seq<byte>>, after: seq<seq<byte>>, alphaSize: nat, parts: seq<seq<nat>>, n: nat)
    requires Tabled(before, alphaSize) && Tabled(after, alphaSize) && n <= |before| == |after| == |parts|
    requires forall t :: 0 <= t < |parts| ==> Below(parts[t], alphaSize)
    requires forall t :: 0 <= t < |parts| ==> CodeLengths(before[t], alphaSize) && Unhalved(FreqOf(alphaSize, parts[t]), after[t])
    ensures TablesCost(after, alphaSize, parts, n) + TablesUnused(after, alphaSize, parts, n)
         <= TablesCost(before, alphaSize, parts, n) + TablesUnused(before, alphaSize, parts, n)
  {
    hide Below, CodeLengths, Unhalved, Unused, Cost;
    if n > 0 {
      TablesGain(before, after, alphaSize, parts, n - 1);
      TableGain(alphaSize, parts[n - 1], before[n - 1], after[n - 1]);
    }
  }

  /** No selectors code the groups in fewer bits than those of the cheapest tables. */
  lemma {:induction false} SelectedCheapest(lens: seq<seq<byte>>, alphaSize: nat, syms: seq<nat>, selector: seq<nat>, other: seq<nat>)
    requires Selects(lens, alphaSize, syms, selector) && |other| == |selector|
    requires forall k :: 0 <= k < |other| ==> other[k] < |lens|
    ensures forall k :: 0 <= k < |selector| ==> selector[k] < |lens|
    ensures Size(lens, alphaSize, syms, selector) <= Size(lens, alphaSize, syms, other)
  {
    hide Tabled, Below, Cost;
    forall k | 0 <= k < |selector| ensures selector[k] < |lens| {
      assert Cheapest(lens, alphaSize, Group(syms, k), selector[k]);
    }
    if selector != [] {
      var g := |selector| - 1;
      assert forall k :: 0 <= k < g ==> selector[..g][k] == selector[k];
      SelectedCheapest(lens, alphaSize, syms, selector[..g], other[..g]);
      assert Cheapest(lens, alphaSize, Group(syms, g), selector[g]);
    }
  }

  /** What a pass gains: when no weights had to be halved, the new tables code the groups in no
      more bits than the old ones did, symbols that a table does not code counted once; and the
      selectors of the next pass can only take fewer. */
  lemma PassGains(before: seq<seq<byte>>, alphaSize: nat, syms: seq<nat>, selector: seq<nat>, after: seq<seq<byte>>, next: seq<nat>)
    requires Pass(before, alphaSize, syms, selector, after) && forall t :: 0 <= t < |before| ==> CodeLengths(before[t], alphaSize)
    requires forall t :: 0 <= t < |after| ==> Unhalved(FreqOf(alphaSize, CodedBy(syms, selector, t)), after[t])
    requires Selects(after, alphaSize, syms, next) && |next| == |selector|
    ensures Tabled(after, alphaSize) && (forall k :: 0 <= k < |selector| ==> selector[k] < |after| && next[k] < |after|)
    ensures Size(after, alphaSize, syms, next) <= Size(after, alphaSize, syms, selector)
    ensures var n, parts := |after|, PartsOf(|after|, syms, selector);
            Size(after, alphaSize, syms, selector) + TablesUnused(after, alphaSize, parts, n)
            <= Size(before, alphaSize, syms, selector) + TablesUnused(before, alphaSize, parts, n)
  {
    hide *;
    PassLeaves(before, alphaSize, syms, selector, after);
    PassShape(before, alphaSize, syms, selector, after);
    SelectedCheapest(after, alphaSize, syms, next, selector);
    SizeByTables(before, alphaSize, syms, selector);
    SizeByTables(after, alphaSize, syms, selector);
    TablesGain(before, after, alphaSize, PartsOf(|after|, syms, selector), |after|);
  }

  lemma PassShape(before: seq<seq<byte>>, alphaSize: nat, syms: seq<nat>, selector: seq<nat>, after: seq<seq<byte>>)
    requires Pass(before, alphaSize, syms, selector, after)
    ensures Tabled(before, alphaSize) && Below(syms, alphaSize)
  {
  }
}
