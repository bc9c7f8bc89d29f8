/** Move-to-front and run coding of a block undo each other. */
module MtfRoundTrip {
  import opened Words
  import opened Permutations
  import opened Rotations
  import opened Transform
  import opened HuffmanCodes
  import opened MtfCoding
  import opened MtfEncoder
  import opened Parser
  import opened Printer

  /** The character with the sequence number of c is c. */
  lemma {:induction false} UsedCharFrom(inUse: seq<bool>, c: nat, k: nat)
    requires |inUse| == 256 && k <= c < 256 && inUse[c]
    ensures UsedChar(inUse, Rank(inUse, c), k) == c
    decreases c - k
  {
    if k < c {
      RankMonotone(inUse, k, c);
      UsedCharFrom(inUse, c, k + 1);
    }
  }

  /** Mapping sequence numbers back gives the last column. */
  lemma UnseqColumn(b: seq<byte>, p: seq<nat>, inUse: seq<bool>)
    requires |b| > 0 && UsedIn(b, inUse)
    ensures Unseq(inUse, Column(b, p, inUse)) == LastColumn(b, p)
  {
    forall i | 0 <= i < |p| ensures Unseq(inUse, Column(b, p, inUse))[i] == LastColumn(b, p)[i] {
      UsedCharFrom(inUse, LastColumn(b, p)[i], 0);
    }
  }

  lemma {:induction false} EncodeAtMost(list: seq<nat>, s: seq<nat>, pending: nat)
    requires forall x :: x in s ==> x in list
    ensures |Encode(list, s, pending)| <= pending + |s|
    ensures forall k :: 0 <= k < |Encode(list, s, pending)| ==> Encode(list, s, pending)[k] <= |list| || Encode(list, s, pending)[k] <= 1
    decreases |s|
  {
    RunLengthBounds(pending);
    if s != [] {
      EncodeNext(list, s, pending);
      hide Encode, RunCode;
      var j := IndexOf(list, s[0]);
      EncodeAtMost(MoveToFront(list, j), s[1..], if j == 0 then pending + 1 else 0);
    }
  }

  /** What the symbols of a block satisfy. */
  lemma BlockSymbolsFit(b: seq<byte>, p: seq<nat>, inUse: seq<bool>)
    requires |b| > 0 && UsedIn(b, inUse)
    ensures var syms := BlockSymbols(b, p, inUse);
            && 0 < |syms| <= |p| + 1 && BlockSyms(inUse, syms) && Rank(inUse, 256) > 0
            && forall k :: 0 <= k < |syms| ==> syms[k] < AlphaSize(inUse)
  {
    ColumnInList(b, p, inUse);
    RankMonotone(inUse, b[0], 256);
    EncodeAtMost(Iota(Rank(inUse, 256)), Column(b, p, inUse), 0);
  }

  lemma IotaPrefix(n: nat)
    requires n <= 256
    ensures Iota(n) + Iota(256)[n..] == Iota(256)
  {
  }

  /** The decoder's column for the symbols of a block is the coded one. */
  lemma SymbolsRoundTrip(b: seq<byte>, p: seq<nat>, inUse: seq<bool>)
    requires |b| > 0 && UsedIn(b, inUse)
    ensures var syms := BlockSymbols(b, p, inUse);
            && SymsDecode(syms) && Finished(SymsDecoder(syms)) == Column(b, p, inUse)
            && ColumnOf(Tables(inUse, [], []), syms) == LastColumn(b, p)
  {
    var n, s, syms := Rank(inUse, 256), Column(b, p, inUse), BlockSymbols(b, p, inUse);
    ColumnInList(b, p, inUse);
    RankMonotone(inUse, b[0], 256);
    IotaPrefix(n);
    hide Column, Encode, Decode, Finished, UsedIn, Rank, LastColumn;
    DecodeEncode(Iota(n), Iota(256)[n..], s, 0, []);
    assert syms[..|syms| - 1] == Encode(Iota(n), s, 0);
    assert [] + Repeat(Iota(n)[0], 0) + s == s;
    UnseqColumn(b, p, inUse);
  }
}
