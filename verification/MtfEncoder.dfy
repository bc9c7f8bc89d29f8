/** Generating the move-to-front symbols of a sorted block (compress.c), written over the
    sorted pointers they are computed from. */
module MtfEncoder {
  import opened Words
  import opened Permutations
  import opened Rotations
  import opened Transform
  import opened MtfCoding

  // ---------- the characters in use ----------

  /** How many characters below c are in use: the sequence number of c. */
  function Rank(inUse: seq<bool>, c: nat): (r: nat)
    requires c <= |inUse|
    ensures r <= c
  {
    if c == 0 then 0 else Rank(inUse, c - 1) + if inUse[c - 1] then 1 else 0
  }

  lemma {:induction false} RankMonotone(inUse: seq<bool>, c: nat, d: nat)
    requires c <= d <= |inUse|
    ensures Rank(inUse, c) <= Rank(inUse, d)
    ensures c < d && inUse[c] ==> Rank(inUse, c) < Rank(inUse, d)
    decreases d - c
  {
    if c < d { RankMonotone(inUse, c + 1, d); }
  }

  /** The encoder's map from characters to sequence numbers. */
  method MakeMapsE(inUse: array<bool>, unseqToSeq: array<nat>) returns (nInUse: nat)
    requires inUse.Length == 256 && unseqToSeq.Length == 256
    modifies unseqToSeq
    ensures nInUse == Rank(inUse[..], 256)
    ensures forall c :: 0 <= c < 256 && inUse[c] ==> unseqToSeq[c] == Rank(inUse[..], c)
  {
    nInUse := 0;
    for i := 0 to 256
      invariant nInUse == Rank(inUse[..], i)
      invariant forall c :: 0 <= c < i && inUse[c] ==> unseqToSeq[c] == Rank(inUse[..], c)
    {
      if inUse[i] {
        unseqToSeq[i] := nInUse;
        nInUse := nInUse + 1;
      }
    }
  }

  ghost predicate MapsBack(inUse: seq<bool>, m: seq<nat>, i: nat) {
    && i <= |inUse| == 256 == |m|
    && forall c :: 0 <= c < i && inUse[c] ==> Rank(inUse, c) < Rank(inUse, i) && Rank(inUse, c) < 256 && m[Rank(inUse, c)] == c
  }

  lemma MapsBackStep(inUse: seq<bool>, m: seq<nat>, i: nat)
    requires MapsBack(inUse, m, i) && i < 256
    ensures !inUse[i] ==> Rank(inUse, i + 1) == Rank(inUse, i) && MapsBack(inUse, m, i + 1)
    ensures inUse[i] ==> Rank(inUse, i + 1) == Rank(inUse, i) + 1 && MapsBack(inUse, m[Rank(inUse, i) := i], i + 1)
  {
  }

  /** The decoder's map back: it undoes the encoder's on every character in use. */
  method MakeMapsD(inUse: array<bool>, seqToUnseq: array<byte>) returns (nInUse: nat)
    requires inUse.Length == 256 && seqToUnseq.Length == 256
    modifies seqToUnseq
    ensures nInUse == Rank(inUse[..], 256)
    ensures MapsBack(inUse[..], seqToUnseq[..], 256)
  {
    hide MapsBack, Rank;
    ghost var u, m := inUse[..], seqToUnseq[..];
    nInUse := 0;
    MapsBackStart(u, m);
    for i := 0 to 256
      invariant inUse[..] == u && seqToUnseq[..] == m
      invariant nInUse == Rank(u, i) && MapsBack(u, m, i)
    {
      MapsBackStep(u, m, i);
      if inUse[i] {
        seqToUnseq[nInUse] := i;
        m := m[nInUse := i];
        nInUse := nInUse + 1;
      }
    }
  }

  lemma MapsBackStart(inUse: seq<bool>, m: seq<nat>)
    requires |inUse| == 256 == |m|
    ensures MapsBack(inUse, m, 0) && Rank(inUse, 0) == 0
  {
  }

  // ---------- memory shared by ptr and mtfv ----------

  /** `ptr[i]` read out of 16-bit halves, low half first. */
  function PtrAt(mem: seq<nat>, i: nat): nat
    requires 2 * i + 1 < |mem|
  {
    mem[2 * i] + 0x1_0000 * mem[2 * i + 1]
  }

  /** From entry i on, the pointers are still intact. */
  ghost predicate Intact(mem: seq<nat>, p: seq<nat>, i: nat) {
    2 * |p| <= |mem| && forall k :: i <= k < |p| ==> PtrAt(mem, k) == p[k]
  }

  /** Symbols have been written up to wr and nothing beyond has changed. */
  ghost predicate Wrote(mem: seq<nat>, mem': seq<nat>, wr: nat, more: seq<nat>) {
    && |mem'| == |mem| && wr + |more| <= |mem|
    && mem'[..wr + |more|] == mem[..wr] + more
    && forall k :: wr + |more| <= k < |mem| ==> mem'[k] == mem[k]
  }

  lemma WroteOne(mem: seq<nat>, mem1: seq<nat>, wr: nat, more: seq<nat>, v: nat)
    requires Wrote(mem, mem1, wr, more) && wr + |more| < |mem|
    ensures Wrote(mem, mem1[wr + |more| := v], wr, more + [v])
  {
    var m := mem1[wr + |more| := v];
    assert m[..wr + |more| + 1] == m[..wr + |more|] + [v];
    assert m[..wr + |more|] == mem1[..wr + |more|];
    assert mem[..wr] + (more + [v]) == mem[..wr] + more + [v];
  }

  lemma RunCodeStep(z: nat)
    requires z > 0
    ensures RunCode(z) == [if (z - 1) % 2 == 1 then BZ_RUNB else BZ_RUNA] + if z - 1 < 2 then [] else RunCode((z - 1 - 2) / 2 + 1)
  {
    if z % 2 == 1 {
      assert (z - 1 < 2 ==> (z - 1) / 2 == 0) && (z - 1 >= 2 ==> (z - 1 - 2) / 2 + 1 == (z - 1) / 2);
    } else {
      assert (z - 1 < 2 ==> (z - 2) / 2 == 0) && (z - 1 >= 2 ==> (z - 1 - 2) / 2 + 1 == (z - 2) / 2);
    }
  }

  lemma WroteFits(mem: seq<nat>, mem': seq<nat>, wr: nat, more: seq<nat>)
    requires Wrote(mem, mem', wr, more)
    ensures |mem'| == |mem| && wr + |more| <= |mem|
  {
  }

  /** Of every symbol below n the number of times it has been written. */
  ghost predicate Tallied(freq: seq<nat>, syms: seq<nat>, n: nat) {
    n <= |freq| && forall v :: 0 <= v < n ==> freq[v] == Occurs(syms, v)
  }

  lemma TallyOne(freq: seq<nat>, syms: seq<nat>, n: nat, v: nat)
    requires Tallied(freq, syms, n) && v < n
    ensures v < |freq| && Tallied(freq[v := freq[v] + 1], syms + [v], n)
  {
    assert (syms + [v])[..|syms|] == syms;
  }

  method ClearCounts(mtfFreq: array<nat>, n: nat)
    requires n <= mtfFreq.Length
    modifies mtfFreq
    ensures Tallied(mtfFreq[..], [], n)
  {
    for i := 0 to n
      invariant forall v :: 0 <= v < i ==> mtfFreq[v] == 0
    {
      mtfFreq[i] := 0;
    }
  }

  /** One symbol, written and counted. */
  method PutSymbol(mem: array<nat>, mtfFreq: array<nat>, wr: nat, v: nat, ghost n: nat)
    requires mem != mtfFreq && wr < mem.Length && v < n && Tallied(mtfFreq[..], mem[..wr], n)
    modifies mem, mtfFreq
    ensures mem[..] == old(mem[..])[wr := v] && Tallied(mtfFreq[..], mem[..wr + 1], n)
  {
    TallyOne(mtfFreq[..], mem[..wr], n, v);
    hide Tallied;
    ghost var f, m := mtfFreq[..], mem[..];
    mem[wr] := v;
    mtfFreq[v] := mtfFreq[v] + 1;
    assert mtfFreq[..] == f[v := f[v] + 1];
    assert mem[..wr + 1] == m[..wr] + [v] && m[..wr] == old(mem[..wr]);
  }

  /** The pending run, written and counted as RUNA/RUNB digits. */
  method WriteRun(mem: array<nat>, mtfFreq: array<nat>, wr0: nat, zPend0: nat, ghost n: nat) returns (wr: nat)
    requires mem != mtfFreq && wr0 + zPend0 <= mem.Length && 2 <= n && Tallied(mtfFreq[..], mem[..wr0], n)
    modifies mem, mtfFreq
    ensures wr <= mem.Length && Tallied(mtfFreq[..], mem[..wr], n)
    ensures wr == wr0 + |RunCode(zPend0)| <= wr0 + zPend0
    ensures Wrote(old(mem[..]), mem[..], wr0, RunCode(zPend0))
    ensures forall k :: wr0 <= k < wr ==> mem[k] == 0 || mem[k] == 1
    ensures DigitSum(mem[wr0..wr]) == zPend0
  {
    hide Wrote, RunCode, DigitSum, Tallied, Occurs;
    wr := wr0;
    ghost var m0: seq<nat>, m: seq<nat>, done: seq<nat> := mem[..], mem[..], [];
    RunLengthBounds(zPend0);
    WroteNothing(m0, wr0);
    if zPend0 == 0 {
      RunCodeZero();
    } else {
      var zPend: nat := zPend0 - 1;
      while true
        invariant mem[..] == m && wr == wr0 + |done| && Wrote(m0, m, wr0, done)
        invariant wr <= mem.Length && Tallied(mtfFreq[..], mem[..wr], n)
        invariant done + RunCode(zPend + 1) == RunCode(zPend0)
        decreases zPend
      {
        RunCodeStep(zPend + 1);
        ghost var rest := if zPend < 2 then [] else RunCode((zPend - 2) / 2 + 1);
        var v: nat := if zPend % 2 == 1 then BZ_RUNB else BZ_RUNA;
        assert (done + [v]) + rest == done + ([v] + rest) == RunCode(zPend0);
        WroteFits(m0, m, wr0, done);
        WroteOne(m0, m, wr0, done, v);
        PutSymbol(mem, mtfFreq, wr, v, n);
        m := m[wr := v];
        wr := wr + 1;
        done := done + [v];
        if zPend < 2 { break; }
        zPend := (zPend - 2) / 2;
      }
      assert done == RunCode(zPend0);
    }
    RunThere(m0, mem[..], wr0, zPend0);
    assert mem[..][wr0..wr] == mem[wr0..wr];
  }

  lemma RunThere(m0: seq<nat>, m: seq<nat>, wr: nat, z: nat)
    requires Wrote(m0, m, wr, RunCode(z))
    ensures wr + |RunCode(z)| <= |m| && DigitSum(m[wr..wr + |RunCode(z)|]) == z
    ensures forall k :: wr <= k < wr + |RunCode(z)| ==> m[k] == 0 || m[k] == 1
  {
    RunDigits(z);
    assert m[wr..wr + |RunCode(z)|] == RunCode(z);
    hide RunCode;
    forall k | wr <= k < wr + |RunCode(z)| ensures m[k] == 0 || m[k] == 1 {
      assert m[k] == RunCode(z)[k - wr];
    }
  }

  lemma RunCodeZero()
    ensures RunCode(0) == []
  {
  }

  lemma WroteNothing(mem: seq<nat>, wr: nat)
    requires wr <= |mem|
    ensures Wrote(mem, mem, wr, [])
  {
    assert mem[..wr] + [] == mem[..wr];
  }

  /** The list yy while the search for a character shifts it: entries before j have moved
      up one place, and the entry that was at j is in hand. */
  ghost predicate Shifted(y0: seq<nat>, y: seq<nat>, j: nat) {
    && 1 <= j < |y0| == |y|
    && (forall k :: 1 <= k <= j ==> y[k] == y0[k - 1])
    && (forall k :: j < k < |y0| ==> y[k] == y0[k])
  }

  lemma {:induction false} FirstIndex(y: seq<nat>, x: nat, j: nat)
    requires j < |y| && y[j] == x && forall k :: 0 <= k < j ==> y[k] != x
    ensures x in y && IndexOf(y, x) == j
  {
    if j > 0 { FirstIndex(y[1..], x, j - 1); }
  }

  lemma ShiftedMoves(y0: seq<nat>, y: seq<nat>, j: nat, x: nat)
    requires Shifted(y0, y, j) && y0[j] == x && x in y0 && forall k :: 0 <= k < j ==> y0[k] != x
    ensures IndexOf(y0, x) == j && y[0 := x] == MoveToFront(y0, j)
  {
    FirstIndex(y0, x, j);
    var r := MoveToFront(y0, j);
    forall k | 0 <= k < |y0| ensures y[0 := x][k] == r[k] {
      if 1 <= k <= j { assert r[k] == y0[..j][k - 1]; }
      if j < k { assert r[k] == y0[j + 1..][k - j - 1]; }
    }
  }

  /** Find a character that is not first in the list and move it to the front. */
  method FindAndMove(yy: array<nat>, x: nat) returns (j: nat)
    requires yy.Length >= 1 && x in yy[..] && yy[0] != x
    modifies yy
    ensures 0 < j < yy.Length && j == IndexOf(old(yy[..]), x)
    ensures yy[..] == MoveToFront(old(yy[..]), j)
  {
    ghost var y0 := yy[..];
    ghost var at :| 0 <= at < |y0| && y0[at] == x;
    j := 1;
    var rtmp := yy[1];
    yy[1] := yy[0];
    while x != rtmp
      invariant Shifted(y0, yy[..], j) && rtmp == y0[j]
      invariant forall k :: 0 <= k < j ==> y0[k] != x
      decreases |y0| - j
    {
      j := j + 1;
      var rtmp2 := rtmp;
      rtmp := yy[j];
      yy[j] := rtmp2;
    }
    ShiftedMoves(y0, yy[..], j, x);
    ghost var y := yy[..];
    yy[0] := rtmp;
    assert yy[..] == y[0 := x];
  }

  // ---------- the whole pass ----------

  /** The sequence numbers of the last column, row by row. */
  function Column(b: seq<byte>, p: seq<nat>, inUse: seq<bool>): (s: seq<nat>)
    requires |b| > 0 && |inUse| == 256
    ensures |s| == |p|
  {
    seq(|p|, i requires 0 <= i < |p| => Rank(inUse, LastColumn(b, p)[i]))
  }

  function Iota(n: nat): (s: seq<nat>)
    ensures |s| == n && forall i :: 0 <= i < n ==> s[i] == i
  {
    seq(n, i => i)
  }

  ghost predicate UsedIn(b: seq<byte>, inUse: seq<bool>) {
    |inUse| == 256 && forall i :: 0 <= i < |b| ==> inUse[b[i]]
  }

  lemma ColumnInList(b: seq<byte>, p: seq<nat>, inUse: seq<bool>)
    requires |b| > 0 && UsedIn(b, inUse)
    ensures forall x :: x in Column(b, p, inUse) ==> x in Iota(Rank(inUse, 256))
  {
    var s, n := Column(b, p, inUse), Rank(inUse, 256);
    forall i | 0 <= i < |s| ensures s[i] < n && s[i] in Iota(n) {
      RankMonotone(inUse, LastColumn(b, p)[i], 256);
      assert Iota(n)[s[i]] == s[i];
    }
  }

  /** The symbols of a block: its coded last column and the end-of-block symbol. */
  function BlockSymbols(b: seq<byte>, p: seq<nat>, inUse: seq<bool>): seq<nat>
    requires |b| > 0 && UsedIn(b, inUse)
  {
    ColumnInList(b, p, inUse);
    Encode(Iota(Rank(inUse, 256)), Column(b, p, inUse), 0) + [Rank(inUse, 256) + 1]
  }

  /** Written symbols and those still to come are together the whole code. */
  ghost predicate Coding(code: seq<nat>, mem: seq<nat>, p: seq<nat>, yy: seq<nat>, s: seq<nat>, i: nat, wr: nat, zPend: nat) {
    && i <= |s| == |p| && wr + zPend <= i && Intact(mem, p, i) && yy != []
    && (forall x :: x in s ==> x in yy)
    && code == mem[..wr] + Encode(yy, s[i..], zPend)
  }

  lemma CodeZero(code: seq<nat>, mem: seq<nat>, p: seq<nat>, yy: seq<nat>, s: seq<nat>, i: nat, wr: nat, zPend: nat)
    requires Coding(code, mem, p, yy, s, i, wr, zPend) && i < |s| && yy[0] == s[i]
    ensures Coding(code, mem, p, yy, s, i + 1, wr, zPend + 1)
  {
    assert s[i] in yy;
    assert s[i..][1..] == s[i + 1..];
    assert MoveToFront(yy, 0) == yy;
  }

  lemma StillIntact(mem: seq<nat>, mem': seq<nat>, p: seq<nat>, i: nat, wr: nat, more: seq<nat>)
    requires Intact(mem, p, i) && Wrote(mem, mem', wr, more) && wr + |more| <= i + 1
    ensures Intact(mem', p, i + 1)
  {
    forall k | i + 1 <= k < |p| ensures PtrAt(mem', k) == p[k] {
      assert PtrAt(mem, k) == p[k];
    }
  }

  lemma CodeOther(code: seq<nat>, mem: seq<nat>, mem': seq<nat>, p: seq<nat>, yy: seq<nat>, s: seq<nat>, i: nat, wr: nat, zPend: nat, j: nat)
    requires Coding(code, mem, p, yy, s, i, wr, zPend) && i < |s| && yy[0] != s[i]
    requires s[i] in yy && j == IndexOf(yy, s[i]) && |RunCode(zPend)| <= zPend
    requires Wrote(mem, mem', wr, RunCode(zPend) + [j + 1])
    ensures Coding(code, mem', p, MoveToFront(yy, j), s, i + 1, wr + |RunCode(zPend)| + 1, 0)
  {
    hide *;
    CodingParts(code, mem, p, yy, s, i, wr, zPend);
    assert |RunCode(zPend) + [j + 1]| == |RunCode(zPend)| + 1;
    StillIntact(mem, mem', p, i, wr, RunCode(zPend) + [j + 1]);
    CodeText(code, mem, mem', yy, s, i, wr, zPend, j);
    CodingIs(code, mem', p, MoveToFront(yy, j), s, i + 1, wr + |RunCode(zPend)| + 1, 0);
  }

  lemma CodingParts(code: seq<nat>, mem: seq<nat>, p: seq<nat>, yy: seq<nat>, s: seq<nat>, i: nat, wr: nat, zPend: nat)
    requires Coding(code, mem, p, yy, s, i, wr, zPend)
    ensures i <= |s| == |p| && wr + zPend <= i && wr <= |mem| && Intact(mem, p, i) && yy != []
    ensures (forall x :: x in s ==> x in yy) && (forall x :: x in s[i..] ==> x in yy) && code == mem[..wr] + Encode(yy, s[i..], zPend)
  {
    hide Encode;
  }

  lemma CodingIs(code: seq<nat>, mem: seq<nat>, p: seq<nat>, yy: seq<nat>, s: seq<nat>, i: nat, wr: nat, zPend: nat)
    requires i <= |s| == |p| && wr + zPend <= i && wr <= |mem| && Intact(mem, p, i) && yy != []
    requires (forall x :: x in s ==> x in yy) && code == mem[..wr] + Encode(yy, s[i..], zPend)
    ensures Coding(code, mem, p, yy, s, i, wr, zPend)
  {
    hide Encode, Intact;
  }

  lemma CodeText(code: seq<nat>, mem: seq<nat>, mem': seq<nat>, yy: seq<nat>, s: seq<nat>, i: nat, wr: nat, zPend: nat, j: nat)
    requires i < |s| && wr <= |mem| && yy != [] && yy[0] != s[i] && (forall x :: x in s ==> x in yy)
    requires code == mem[..wr] + Encode(yy, s[i..], zPend) && j == IndexOf(yy, s[i])
    requires Wrote(mem, mem', wr, RunCode(zPend) + [j + 1])
    ensures (forall x :: x in s ==> x in MoveToFront(yy, j)) && wr + |RunCode(zPend)| + 1 <= |mem'|
    ensures code == mem'[..wr + |RunCode(zPend)| + 1] + Encode(MoveToFront(yy, j), s[i + 1..], 0)
  {
    hide *;
    SameMembers(yy, j);
    assert s[i..][1..] == s[i + 1..] && s[i..][0] == s[i];
    EncodeNext(yy, s[i..], zPend);
    WroteText(mem, mem', wr, RunCode(zPend), j + 1, Encode(MoveToFront(yy, j), s[i + 1..], 0));
  }

  lemma WroteText(mem: seq<nat>, mem': seq<nat>, wr: nat, run: seq<nat>, v: nat, rest: seq<nat>)
    requires Wrote(mem, mem', wr, run + [v])
    ensures wr <= |mem| && wr + |run| + 1 <= |mem'|
    ensures mem[..wr] + (run + [v] + rest) == mem'[..wr + |run| + 1] + rest
  {
    assert wr + |run + [v]| == wr + |run| + 1;
    assert mem[..wr] + (run + [v] + rest) == (mem[..wr] + (run + [v])) + rest;
  }

  lemma CodeEnd(code: seq<nat>, mem: seq<nat>, mem': seq<nat>, p: seq<nat>, yy: seq<nat>, s: seq<nat>, wr: nat, zPend: nat, eob: nat)
    requires Coding(code, mem, p, yy, s, |s|, wr, zPend)
    requires Wrote(mem, mem', wr, RunCode(zPend) + [eob])
    ensures mem'[..wr + |RunCode(zPend)| + 1] == code + [eob]
  {
    assert s[|s|..] == [];
    assert mem[..wr] + (RunCode(zPend) + [eob]) == mem[..wr] + RunCode(zPend) + [eob];
  }

  lemma WroteThen(mem: seq<nat>, mem1: seq<nat>, wr: nat, run: seq<nat>, v: nat, mem2: seq<nat>)
    requires Wrote(mem, mem1, wr, run) && wr + |run| < |mem| && mem2 == mem1[wr + |run| := v]
    ensures Wrote(mem, mem2, wr, run + [v])
  {
    WroteOne(mem, mem1, wr, run, v);
  }

  lemma ReadRow(b: seq<byte>, p: seq<nat>, mem: seq<nat>, i: nat)
    requires |b| > 0 && IsPerm(p, |b|) && i < |b| && Intact(mem, p, i)
    ensures var j: int := (PtrAt(mem, i) as int) - 1;
            var j' := if j < 0 then j + |b| else j;
            0 <= j' < |b| && b[j'] == LastColumn(b, p)[i]
  {
    var j: int := (p[i] as int) - 1;
    if j < 0 {
      DivModUnique(p[i] + |b| - 1, |b|, 0, |b| - 1);
    } else {
      DivModUnique(p[i] + |b| - 1, |b|, 1, j);
    }
  }

  /** A character that is not first in the list: the run before it, then its place. */
  method WriteOther(mem: array<nat>, mtfFreq: array<nat>, yy: array<nat>, ll: nat, wr0: nat, zPend: nat,
      ghost code: seq<nat>, ghost p: seq<nat>, ghost s: seq<nat>, ghost i: nat)
    returns (wr: nat)
    requires mem != mtfFreq && mem != yy && mtfFreq != yy
    requires Coding(code, mem[..], p, yy[..], s, i, wr0, zPend) && i < |s| && s[i] == ll
    requires wr0 <= mem.Length && yy.Length > 0 && yy[0] != ll && Tallied(mtfFreq[..], mem[..wr0], yy.Length + 2)
    modifies mem, mtfFreq, yy
    ensures Coding(code, mem[..], p, yy[..], s, i + 1, wr, 0)
    ensures wr <= mem.Length && Tallied(mtfFreq[..], mem[..wr], yy.Length + 2)
  {
    hide Coding, Wrote, Intact, IndexOf, MoveToFront, RunCode, Tallied, DigitSum;
    ghost var m, y := mem[..], yy[..];
    CodingBounds(code, m, p, y, s, i, wr0, zPend);
    var wr' := WriteRun(mem, mtfFreq, wr0, zPend, yy.Length + 2);
    ghost var m1 := mem[..];
    var k := FindAndMove(yy, ll);
    PutSymbol(mem, mtfFreq, wr', k + 1, yy.Length + 2);
    WroteThen(m, m1, wr0, RunCode(zPend), k + 1, mem[..]);
    CodeOther(code, m, mem[..], p, y, s, i, wr0, zPend, k);
    wr := wr' + 1;
  }

  /** `generateMTFValues`. The symbols go into the memory the pointers are read from; every
      pointer is read before its place is written, because there are never more symbols
      than rows read. */
  method GenerateMtfValues(mem: array<nat>, mtfFreq: array<nat>, block: array<byte>, unseqToSeq: array<nat>, nInUse: nat, nblock: nat, ghost p: seq<nat>, ghost inUse: seq<bool>)
    returns (nMTF: nat)
    requires mem != unseqToSeq && mem as object != block && mtfFreq != mem && mtfFreq != unseqToSeq && mtfFreq as object != block
    requires mtfFreq.Length >= nInUse + 2 && 0 < nblock == block.Length == |p| && unseqToSeq.Length == 256 == |inUse|
    requires IsPerm(p, nblock) && Intact(mem[..], p, 0)
    requires UsedIn(block[..], inUse) && nInUse == Rank(inUse, 256)
    requires forall c :: 0 <= c < 256 && inUse[c] ==> unseqToSeq[c] == Rank(inUse, c)
    modifies mem, mtfFreq
    ensures nMTF <= nblock + 1 <= mem.Length && Tallied(mtfFreq[..], mem[..nMTF], nInUse + 2)
    ensures mem[..nMTF] == BlockSymbols(block[..], p, inUse)
  {
    hide Coding, Wrote, Intact, UsedIn, IsPerm, Column, Encode, Rank, MoveToFront, IndexOf, RunCode, PtrAt, LastColumn, Tallied;
    ghost var b := block[..];
    ghost var s := Column(b, p, inUse);
    var eob := nInUse + 1;
    ClearCounts(mtfFreq, eob + 1);
    assert mem[..0] == [];
    var yy := new nat[nInUse](i => i);
    assert yy[..] == Iota(nInUse);
    ColumnInList(b, p, inUse);
    ghost var code := Encode(Iota(nInUse), s, 0);
    var wr: nat, zPend: nat := 0, 0;
    StartCoding(code, mem[..], p, yy[..], s, b, inUse);
    for i := 0 to nblock
      invariant yy.Length == nInUse && Coding(code, mem[..], p, yy[..], s, i, wr, zPend)
      invariant wr <= mem.Length && Tallied(mtfFreq[..], mem[..wr], eob + 1)
    {
      CodingBounds(code, mem[..], p, yy[..], s, i, wr, zPend);
      ReadRow(b, p, mem[..], i);
      var j: int := (PtrAt(mem[..], i) as int) - 1;
      if j < 0 { j := j + nblock; }
      RowInUse(b, p, inUse, i, j);
      var ll := unseqToSeq[block[j]];
      assert ll == s[i] && ll in yy[..];
      if yy[0] == ll {
        CodeZero(code, mem[..], p, yy[..], s, i, wr, zPend);
        zPend := zPend + 1;
      } else {
        wr := WriteOther(mem, mtfFreq, yy, ll, wr, zPend, code, p, s, i);
        zPend := 0;
      }
    }
    CodingBounds(code, mem[..], p, yy[..], s, nblock, wr, zPend);
    ghost var m := mem[..];
    nMTF := WriteRun(mem, mtfFreq, wr, zPend, eob + 1);
    ghost var m1 := mem[..];
    PutSymbol(mem, mtfFreq, nMTF, eob, eob + 1);
    WroteThen(m, m1, wr, RunCode(zPend), eob, mem[..]);
    CodeEnd(code, m, mem[..], p, yy[..], s, wr, zPend, eob);
    nMTF := nMTF + 1;
  }

  lemma StartCoding(code: seq<nat>, mem: seq<nat>, p: seq<nat>, yy: seq<nat>, s: seq<nat>, b: seq<byte>, inUse: seq<bool>)
    requires |b| > 0 && UsedIn(b, inUse) && Intact(mem, p, 0) && |s| == |p|
    requires yy == Iota(Rank(inUse, 256)) && (forall x :: x in s ==> x in yy) && code == Encode(yy, s, 0)
    ensures Coding(code, mem, p, yy, s, 0, 0, 0)
  {
    RankMonotone(inUse, b[0], 256);
    assert s[0..] == s;
    assert mem[..0] + Encode(yy, s, 0) == Encode(yy, s, 0);
  }

  lemma CodingBounds(code: seq<nat>, mem: seq<nat>, p: seq<nat>, yy: seq<nat>, s: seq<nat>, i: nat, wr: nat, zPend: nat)
    requires Coding(code, mem, p, yy, s, i, wr, zPend)
    ensures yy != [] && wr + zPend <= i <= |s| == |p| && 2 * |p| <= |mem| && Intact(mem, p, i)
    ensures i < |s| ==> s[i] in yy
    ensures |RunCode(zPend)| <= zPend
  {
    RunLengthBounds(zPend);
  }

  lemma RowInUse(b: seq<byte>, p: seq<nat>, inUse: seq<bool>, i: nat, j: nat)
    requires |b| > 0 && UsedIn(b, inUse) && i < |p| && j < |b| && b[j] == LastColumn(b, p)[i]
    ensures inUse[b[j]] && Column(b, p, inUse)[i] == Rank(inUse, b[j])
  {
  }
}
