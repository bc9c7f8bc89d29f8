/** The decoder's symbol loop (decompress.c) with the sliding lists, one symbol at a time,
    against the decoder on values. */
module MtfDecoder {
  import opened Words
  import opened Permutations
  import opened Rotations
  import opened Transform
  import opened MtfCoding
  import opened MtfEncoder
  import opened MtfArena
  import opened RunLength

  ghost predicate Allowed(syms: seq<nat>, eob: nat, n: nat) {
    0 < n && forall k :: 0 <= k < |syms| ==> syms[k] == eob || syms[k] <= n
  }

  /** The verdict on a string of symbols. */
  ghost function Judge(d: Decoder, syms: seq<nat>, eob: nat, nblockMAX: nat): Verdict
    requires Allowed(syms, eob, |d.list|)
    decreases |syms|
  {
    if syms == [] then More(d)
    else
      var v := OnSym(d, syms[0], eob, nblockMAX);
      if v.More? then Judge(v.d, syms[1..], eob, nblockMAX) else v
  }

  ghost predicate SymsOk(syms: seq<nat>, eob: nat) {
    && syms != [] && syms[|syms| - 1] == eob && 1 < eob
    && forall k :: 0 <= k < |syms| - 1 ==> syms[k] <= 256 && syms[k] != eob
  }

  /** The characters of the indices, through seqToUnseq. */
  function Mapped(s: seq<nat>, seqToUnseq: seq<byte>): (r: seq<byte>)
    requires |seqToUnseq| == 256 && forall i :: 0 <= i < |s| ==> s[i] < 256
    ensures |r| == |s|
  {
    seq(|s|, i requires 0 <= i < |s| => seqToUnseq[s[i]])
  }

  /** The output array and the counts after the characters of s. */
  ghost predicate Emitted(s: seq<byte>, tt: seq<nat>, unzftab: seq<nat>) {
    && |s| <= |tt| && |unzftab| == 256
    && (forall i :: 0 <= i < |s| ==> tt[i] == s[i])
    && forall c :: 0 <= c < 256 ==> unzftab[c] == CountEq(s, c)
  }

  /** The entries are those of an array of 16-bit words. */
  ghost predicate Halfwords(tt: seq<nat>) { forall i :: 0 <= i < |tt| ==> tt[i] < 0x1_0000 }

  lemma ZeroHalfwords(tt: seq<nat>)
    requires forall i :: 0 <= i < |tt| ==> tt[i] == 0
    ensures Halfwords(tt)
  {
  }

  lemma EmitOne(s: seq<byte>, tt: seq<nat>, unzftab: seq<nat>, uc: byte)
    requires Emitted(s, tt, unzftab) && |s| < |tt|
    ensures Emitted(s + [uc], tt[|s| := uc], unzftab[uc := unzftab[uc] + 1])
  {
    assert (s + [uc])[..|s|] == s;
  }

  /** A run: the count first, then the characters one by one. */
  ghost predicate Emitting(s: seq<byte>, tt: seq<nat>, unzftab: seq<nat>, uc: byte, es: nat) {
    && |s| <= |tt| && |unzftab| == 256
    && (forall i :: 0 <= i < |s| ==> tt[i] == s[i])
    && forall c :: 0 <= c < 256 ==> unzftab[c] == CountEq(s, c) + if c == uc then es else 0
  }

  lemma EmitRunStart(s: seq<byte>, tt: seq<nat>, unzftab: seq<nat>, uc: byte, es: nat)
    requires Emitted(s, tt, unzftab)
    ensures |unzftab| == 256 && Emitting(s, tt, unzftab[uc := unzftab[uc] + es], uc, es)
  {
  }

  lemma EmitRunStep(s: seq<byte>, tt: seq<nat>, unzftab: seq<nat>, uc: byte, es: nat)
    requires Emitting(s, tt, unzftab, uc, es) && es > 0 && |s| < |tt|
    ensures Emitting(s + [uc], tt[|s| := uc], unzftab, uc, es - 1)
  {
    assert (s + [uc])[..|s|] == s;
  }

  lemma EmitRunEnd(s: seq<byte>, tt: seq<nat>, unzftab: seq<nat>, uc: byte)
    requires Emitting(s, tt, unzftab, uc, 0)
    ensures Emitted(s, tt, unzftab)
  {
  }

  /** The run of es copies goes into the output, if it fits. */
  method PutRun(tt: array<nat>, unzftab: array<nat>, nblock0: nat, nblockMAX: nat, uc: byte, es0: nat, ghost s: seq<byte>)
    returns (ok: bool, nblock: nat)
    requires tt != unzftab && tt.Length >= nblockMAX >= nblock0 == |s| && Emitted(s, tt[..], unzftab[..])
    modifies tt, unzftab
    ensures ok == (nblock0 + es0 <= nblockMAX)
    ensures ok ==> nblock == nblock0 + es0 && Emitted(s + Repeat(uc, es0), tt[..], unzftab[..])
    ensures Halfwords(old(tt[..])) ==> Halfwords(tt[..])
  {
    hide Emitted, Emitting;
    EmitShape(s, tt[..], unzftab[..]);
    EmitRunStart(s, tt[..], unzftab[..], uc, es0);
    ghost var t, u := tt[..], unzftab[..][uc := unzftab[uc] + es0];
    unzftab[uc] := unzftab[uc] + es0;
    var es: nat := es0;
    nblock := nblock0;
    ghost var r: seq<byte> := s;
    while es > 0
      invariant es <= es0 && nblock == |r| == nblock0 + (es0 - es) <= nblockMAX
      invariant tt[..] == t && unzftab[..] == u && |t| >= nblockMAX
      invariant Emitting(r, t, u, uc, es) && r + Repeat(uc, es) == s + Repeat(uc, es0)
      invariant Halfwords(old(tt[..])) ==> Halfwords(t)
    {
      if nblock >= nblockMAX { return false, nblock; }
      EmitRunStep(r, t, u, uc, es);
      RepeatNext(r, uc, es);
      tt[nblock] := uc;
      t := t[nblock := uc];
      r := r + [uc];
      nblock := nblock + 1;
      es := es - 1;
    }
    EmitRunEnd(r, t, u, uc);
    assert r + Repeat(uc, 0) == r;
    ok := true;
  }

  lemma EmitShape(s: seq<byte>, tt: seq<nat>, unzftab: seq<nat>)
    requires Emitted(s, tt, unzftab)
    ensures |unzftab| == 256 && |s| <= |tt|
  {
  }

  lemma RepeatNext(r: seq<byte>, uc: byte, es: nat)
    requires es > 0
    ensures r + Repeat(uc, es) == (r + [uc]) + Repeat(uc, es - 1)
  {
    assert Repeat(uc, es) == [uc] + Repeat(uc, es - 1);
  }

  /** The decoder's list and output as the arena and the array have them. */
  ghost predicate Held(d: Decoder, list: seq<byte>, chars: seq<byte>, s: seq<byte>) {
    && |list| == 256 == |chars| && d.list == list
    && (forall i :: 0 <= i < |d.out| ==> d.out[i] < 256)
    && s == Mapped(d.out, chars)
  }

  lemma HeldRun(d: Decoder, list: seq<byte>, chars: seq<byte>, s: seq<byte>, es: nat, n: nat)
    requires Held(d, list, chars, s)
    ensures Held(Decoder(d.list, 0, 1, d.out + Repeat(d.list[0], es)), list, chars, s + Repeat(chars[list[0]], es))
  {
  }

  lemma HeldChar(d: Decoder, list: seq<byte>, chars: seq<byte>, s: seq<byte>, sym: nat)
    requires Held(d, list, chars, s) && d.es == 0 && 2 <= sym <= 256
    ensures Held(DecodeStep(d, sym), MoveToFront(list, sym - 1), chars, s + [chars[list[sym - 1]]])
    ensures DecodeStep(d, sym).es == 0 && DecodeStep(d, sym).n == 1 && |DecodeStep(d, sym).out| == |d.out| + 1
  {
    assert d.out + Repeat(d.list[0], 0) == d.out;
  }

  lemma HeldShape(d: Decoder, list: seq<byte>, chars: seq<byte>, s: seq<byte>)
    requires Held(d, list, chars, s)
    ensures |list| == 256 == |chars| == |d.list| && |s| == |d.out| && d.list[0] == list[0]
  {
  }

  /** Writing the pending run out first changes nothing for a symbol that ends it. */
  lemma Flushed(d: Decoder, sym: nat, eob: nat, max: nat)
    requires |d.list| == 256 && (sym == eob || sym <= 256) && sym >= 2
    ensures |d.out| + d.es > max ==> OnSym(d, sym, eob, max) == Bad
    ensures |d.out| + d.es <= max ==>
            OnSym(d, sym, eob, max) == OnSym(Decoder(d.list, 0, 1, d.out + Repeat(d.list[0], d.es)), sym, eob, max)
  {
    var e := Decoder(d.list, 0, 1, d.out + Repeat(d.list[0], d.es));
    assert e.out + Repeat(e.list[0], 0) == e.out;
  }

  /** What the decoder answers to a symbol. */
  datatype Reply = GoOn | BlockEnd | BadData

  /** The state of the symbol loop between two symbols: BZ2_decompress leaves the loop whenever
      the input is used up and comes back into its middle, so what it needs is kept here. */
  class SymbolDecoder {
    const seqToUnseq: array<byte>
    const tt: array<nat>
    const unzftab: array<nat>
    const mtfa: array<byte>
    const mtfbase: array<int>
    var eob: nat
    var nblockMAX: nat
    var nblock: nat
    // whether the last symbol was a digit of a run, and the run so far
    var inRun: bool
    var es: int
    var N: nat
    // the list that the arena holds, and the characters written
    ghost var list: seq<byte>
    ghost var s: seq<byte>

    ghost predicate Separate() {
      && seqToUnseq.Length == 256 && unzftab.Length == 256 && mtfa.Length == MTFA_SIZE && mtfbase.Length == 16
      && tt != unzftab && mtfa != seqToUnseq && mtfa as object !in {tt as object, unzftab as object, mtfbase as object}
      && mtfbase as object !in {tt as object, unzftab as object, seqToUnseq as object}
      && seqToUnseq as object !in {tt as object, unzftab as object}
    }

    /** No run is pending. */
    ghost predicate Flat(d: Decoder)
      reads this`eob, this`nblockMAX, this`nblock, this`list, this`s, seqToUnseq, tt, unzftab, mtfa, mtfbase
    {
      && Separate() && 1 < eob && nblock == |s| <= nblockMAX <= tt.Length && d.es == 0 && d.n == 1
      && Held(d, list, seqToUnseq[..], s) && Represents(mtfa[..], mtfbase[..], list) && Emitted(s, tt[..], unzftab[..])
    }

    /** The arrays and counters stand for the decoder d on values. */
    ghost predicate Holds(d: Decoder)
      reads this, seqToUnseq, tt, unzftab, mtfa, mtfbase
    {
      if inRun then es >= -1 && d.es == es + 1 && d.n == N && Flat(Decoder(d.list, 0, 1, d.out)) else Flat(d)
    }

    constructor (size: nat)
      ensures Separate() && tt.Length == size && Halfwords(tt[..])
      ensures fresh(seqToUnseq) && fresh(tt) && fresh(unzftab) && fresh(mtfa) && fresh(mtfbase)
    {
      seqToUnseq, tt, unzftab := new byte[256](_ => 0), new nat[size](_ => 0), new nat[256](_ => 0);
      mtfa, mtfbase := new byte[MTFA_SIZE](_ => 0), new int[16](_ => 0);
    }

    lemma ListIs(d: Decoder)
      requires Holds(d)
      ensures Separate() && |d.list| == 256 && 1 < eob && |d.out| == nblock <= nblockMAX <= tt.Length
      ensures !inRun ==> d.es == 0 && d.n == 1
    {
    }

    /** makeMaps_d, the counts and the list at the start of a block. */
    method Begin(inUse: array<bool>, max: nat)
      requires Separate() && inUse.Length == 256 && Rank(inUse[..], 256) > 0 && max <= tt.Length
      modifies this, seqToUnseq, unzftab, mtfa, mtfbase
      ensures Holds(Decoder(Iota(256), 0, 1, [])) && !inRun && eob == Rank(inUse[..], 256) + 1 && nblockMAX == max
      ensures MapsBack(inUse[..], seqToUnseq[..], 256)
    {
      hide MapsBack, Rank, Represents, Held;
      ghost var used := inUse[..];
      var nInUse := MakeMapsD(inUse, seqToUnseq);
      assert inUse[..] == used;
      ghost var chars := seqToUnseq[..];
      eob, nblockMAX := nInUse + 1, max;
      for i := 0 to 256
        modifies unzftab
        invariant forall k :: 0 <= k < i ==> unzftab[k] == 0
      {
        unzftab[i] := 0;
      }
      MtfInit(mtfa, mtfbase);
      nblock, inRun, list, s := 0, false, Identity(), [];
      HeldStart(Decoder(Iota(256), 0, 1, []), chars);
      assert inUse[..] == used && seqToUnseq[..] == chars;
    }

    /** A digit of a run. Its weight must not have grown beyond the guard. */
    method AddDigit(nextSym: nat, ghost d: Decoder) returns (ok: bool)
      requires Holds(d) && inRun && (nextSym == BZ_RUNA || nextSym == BZ_RUNB)
      modifies this`es, this`N
      ensures d.list != [] && ok == (d.n < 2 * 1024 * 1024)
      ensures ok ==> inRun && Holds(DecodeStep(d, nextSym))
      ensures nextSym <= 1 && (ok ==> es == old(es) + (nextSym + 1) * old(N) && N == 2 * old(N))
    {
      hide Held, Represents, Emitted;
      ListIs(d);
      if N >= 2 * 1024 * 1024 { return false; }
      if nextSym == BZ_RUNA { es := es + (0 + 1) * N; }
      else if nextSym == BZ_RUNB { es := es + (1 + 1) * N; }
      N := N * 2;
      ok := true;
    }

    /** The pending run goes into the output, if it fits. */
    method EndRun(ghost d: Decoder) returns (ok: bool)
      requires Holds(d) && inRun
      modifies this`es, this`nblock, this`inRun, this`s, tt, unzftab
      ensures |d.list| == 256 && ok == (|d.out| + d.es <= nblockMAX)
      ensures ok ==> !inRun && Holds(Decoder(d.list, 0, 1, d.out + Repeat(d.list[0], d.es)))
      ensures Halfwords(old(tt[..])) ==> Halfwords(tt[..])
    {
      hide Held, Represents, Emitted, Halfwords;
      ghost var e := Decoder(d.list, 0, 1, d.out);
      ghost var a, b, chars := mtfa[..], mtfbase[..], seqToUnseq[..];
      HeldShape(e, list, seqToUnseq[..], s);
      RepresentsShape(mtfa[..], mtfbase[..], list);
      es := es + 1;
      var uc := seqToUnseq[mtfa[mtfbase[0]]];
      ok, nblock := PutRun(tt, unzftab, nblock, nblockMAX, uc, es, s);
      assert mtfa[..] == a && mtfbase[..] == b && seqToUnseq[..] == chars;
      HeldRun(e, list, seqToUnseq[..], s, es, 1);
      s := s + Repeat(uc, es);
      inRun := false;
    }

    /** A character goes into the output and to the front of the list. */
    method PutChar(nextSym: nat, ghost d: Decoder)
      requires Holds(d) && !inRun && 2 <= nextSym <= 256 && nblock < nblockMAX
      modifies this`nblock, this`list, this`s, tt, unzftab, mtfa, mtfbase
      ensures |d.list| == 256 && Holds(DecodeStep(d, nextSym))
      ensures Halfwords(old(tt[..])) ==> Halfwords(tt[..])
    {
      hide Held, Represents, Emitted, DecodeStep;
      ghost var chars := seqToUnseq[..];
      HeldShape(d, list, chars, s);
      HeldChar(d, list, chars, s, nextSym);
      var uc := Fetch(mtfa, mtfbase, nextSym - 1, list);
      EmitShape(s, tt[..], unzftab[..]);
      var c := seqToUnseq[uc];
      EmitOne(s, tt[..], unzftab[..], c);
      ghost var t: seq<nat>, u: seq<nat> := tt[..], unzftab[..];
      ghost var a, b := mtfa[..], mtfbase[..];
      unzftab[c] := unzftab[c] + 1;
      tt[nblock] := c;
      assert tt[..] == t[|s| := c as nat] && unzftab[..] == u[c := u[c] + 1];
      assert mtfa[..] == a && mtfbase[..] == b && seqToUnseq[..] == chars;
      s := s + [c];
      list := MoveToFront(list, nextSym - 1);
      nblock := nblock + 1;
    }

    /** A symbol that is not part of a run. */
    method TakeOther(nextSym: nat, ghost d: Decoder) returns (reply: Reply)
      requires Holds(d) && !inRun && 2 <= nextSym && (nextSym == eob || nextSym <= 256)
      modifies this`nblock, this`list, this`s, tt, unzftab, mtfa, mtfbase
      ensures |d.list| == 256 && Answered(reply, OnSym(d, nextSym, eob, nblockMAX))
      ensures Halfwords(old(tt[..])) ==> Halfwords(tt[..])
    {
      hide Held, Represents, Emitted, DecodeStep, Halfwords;
      ListIs(d);
      if nextSym == eob {
        HeldDone(d, list, seqToUnseq[..], s);
        return BlockEnd;
      }
      if nblock >= nblockMAX { return BadData; }
      PutChar(nextSym, d);
      reply := GoOn;
    }

    /** The reply is the verdict; and the state follows it. */
    ghost predicate Answered(reply: Reply, v: Verdict)
      reads this, seqToUnseq, tt, unzftab, mtfa, mtfbase
    {
      match reply
      case GoOn => v.More? && Holds(v.d)
      case BlockEnd =>
        v.Done? && nblock == |v.column| && seqToUnseq.Length == 256 && (forall i :: 0 <= i < |v.column| ==> v.column[i] < 256)
        && Emitted(Mapped(v.column, seqToUnseq[..]), tt[..], unzftab[..])
      case BadData => v.Bad?
    }

    /** One turn of the symbol loop. Its answer is the decoder's on values; at the end of the
        block the characters of the column stand in tt and are counted in unzftab. */
    method TakeSymbol(nextSym: nat, ghost d: Decoder) returns (reply: Reply)
      requires Holds(d) && (nextSym == eob || nextSym <= 256)
      modifies this`nblock, this`inRun, this`es, this`N, this`list, this`s, tt, unzftab, mtfa, mtfbase
      ensures |d.list| == 256 && Answered(reply, OnSym(d, nextSym, eob, nblockMAX))
      ensures Halfwords(old(tt[..])) ==> Halfwords(tt[..])
    {
      hide Held, Represents, Emitted, DecodeStep, Halfwords, Flat;
      ListIs(d);
      ghost var e := d;
      if nextSym == BZ_RUNA || nextSym == BZ_RUNB {
        if !inRun {
          es, N, inRun := -1, 1, true;
          RunBegun(d);
        }
        var fine := AddDigit(nextSym, d);
        return if fine then GoOn else BadData;
      }
      if inRun {
        Flushed(d, nextSym, eob, nblockMAX);
        e := Decoder(d.list, 0, 1, d.out + Repeat(d.list[0], d.es));
        var fine := EndRun(d);
        if !fine { return BadData; }
      }
      reply := TakeOther(nextSym, e);
    }

    lemma RunBegun(d: Decoder)
      requires Flat(d) && inRun && es == -1 && N == 1
      ensures Holds(d)
    {
    }
  }

  lemma HeldStart(d0: Decoder, chars: seq<byte>)
    requires d0 == Decoder(Iota(256), 0, 1, []) && |chars| == 256
    ensures Held(d0, Identity(), chars, [])
  {
  }

  lemma HeldDone(d: Decoder, list: seq<byte>, chars: seq<byte>, s: seq<byte>)
    requires Held(d, list, chars, s) && d.es == 0
    ensures Finished(d) == d.out && (forall i :: 0 <= i < |d.out| ==> d.out[i] < 256) && s == Mapped(d.out, chars)
  {
    assert d.out + Repeat(d.list[0], 0) == d.out;
  }
}
