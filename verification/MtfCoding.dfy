/** Move-to-front coding with run coding of zeros: the symbols of compress.c and what
    decompress.c makes of them, on values. */
module MtfCoding {
  import opened Words

  const BZ_RUNA := 0
  const BZ_RUNB := 1

  /** Entry j moved to the front. */
  function MoveToFront<T>(list: seq<T>, j: nat): (r: seq<T>)
    requires j < |list|
    ensures |r| == |list|
  {
    [list[j]] + list[..j] + list[j + 1..]
  }

  /** How often v occurs. */
  function Occurs(s: seq<nat>, v: nat): nat {
    if s == [] then 0 else Occurs(s[..|s| - 1], v) + if s[|s| - 1] == v then 1 else 0
  }

  /** The place of x in the list. */
  function IndexOf(list: seq<nat>, x: nat): (j: nat)
    requires x in list
    ensures j < |list| && list[j] == x && x !in list[..j]
  {
    if list[0] == x then 0
    else
      var j := IndexOf(list[1..], x);
      assert list[..j + 1] == [list[0]] + list[1..][..j];
      j + 1
  }

  /** A run of z zeros in bijective base 2: digits 1 (RUNA) and 2 (RUNB), lowest first. */
  function RunCode(z: nat): (s: seq<nat>)
    ensures forall k :: 0 <= k < |s| ==> s[k] == BZ_RUNA || s[k] == BZ_RUNB
  {
    if z == 0 then []
    else if z % 2 == 1 then [BZ_RUNA] + RunCode((z - 1) / 2)
    else [BZ_RUNB] + RunCode((z - 2) / 2)
  }

  /** The run that a string of RUNA/RUNB digits stands for, the first one weighing n. */
  function RunValue(s: seq<nat>, n: nat): nat {
    if s == [] then 0 else (if s[0] == BZ_RUNA then n else 2 * n) + RunValue(s[1..], 2 * n)
  }

  lemma {:induction false} RunRoundTrip(z: nat, n: nat)
    ensures RunValue(RunCode(z), n) == z * n
  {
    if z > 0 {
      var y := if z % 2 == 1 then (z - 1) / 2 else (z - 2) / 2;
      RunRoundTrip(y, 2 * n);
      assert RunCode(z)[1..] == RunCode(y);
      RunDigit(y, n);
    }
  }

  /** What a string of run digits comes to: digit k is worth (s[k] + 1) * 2^k. */
  function DigitSum(s: seq<nat>): nat {
    if s == [] then 0 else DigitSum(s[..|s| - 1]) + (s[|s| - 1] + 1) * Pow2(|s| - 1)
  }

  lemma {:induction false} DigitSumFirst(s: seq<nat>)
    requires s != []
    ensures DigitSum(s) == s[0] + 1 + 2 * DigitSum(s[1..])
  {
    if |s| > 1 {
      var n := |s| - 1;
      DigitSumFirst(s[..n]);
      assert s[..n][1..] == s[1..][..n - 1];
      DigitPower(s[n] + 1, n - 1);
    } else {
      assert s[..0] == [] && s[1..] == [];
    }
  }

  lemma DigitPower(d: nat, n: nat)
    ensures d * Pow2(n + 1) == 2 * (d * Pow2(n))
  {
  }

  /** The symbols sent for a run of z are zeros and ones, and digit k of them counts
      (s[k] + 1) * 2^k. */
  lemma {:induction false} RunDigits(z: nat)
    ensures forall k :: 0 <= k < |RunCode(z)| ==> RunCode(z)[k] == 0 || RunCode(z)[k] == 1
    ensures DigitSum(RunCode(z)) == z
    decreases z
  {
    if z > 0 {
      var y := if z % 2 == 1 then (z - 1) / 2 else (z - 2) / 2;
      RunDigits(y);
      assert RunCode(z)[1..] == RunCode(y);
      DigitSumFirst(RunCode(z));
    }
  }

  /** Only one string of zeros and ones comes to z. */
  lemma {:induction false} DigitsUnique(s: seq<nat>)
    requires forall k :: 0 <= k < |s| ==> s[k] <= 1
    ensures s == RunCode(DigitSum(s))
    decreases |s|
  {
    if s != [] {
      DigitSumFirst(s);
      DigitsUnique(s[1..]);
      assert s == [s[0]] + s[1..];
    }
  }

  lemma RunDigit(y: nat, n: nat)
    ensures (2 * y + 1) * n == n + y * (2 * n)
    ensures (2 * y + 2) * n == 2 * n + y * (2 * n)
  {
  }

  /** A run code is no longer than the run, and d digits need a run of at least 2^d - 1. */
  lemma {:induction false} RunLengthBounds(z: nat)
    ensures |RunCode(z)| <= z && Pow2(|RunCode(z)|) <= z + 1
    ensures z > 0 ==> |RunCode(z)| > 0
  {
    if z > 0 {
      RunLengthBounds(if z % 2 == 1 then (z - 1) / 2 else (z - 2) / 2);
    }
  }

  /** The guard on N never fires for a legal block: its digits weigh less than 2^21. */
  lemma RunGuardNeverFires(z: nat, d: nat)
    requires z <= 900000 && d < |RunCode(z)|
    ensures Pow2(d) < 2 * 1024 * 1024
  {
    RunLengthBounds(z);
    Pow2Monotone(d, |RunCode(z)|);
  }

  /** The symbols for s, with `pending` zeros seen and not yet written, before the
      end-of-block symbol. */
  function Encode(list: seq<nat>, s: seq<nat>, pending: nat): (r: seq<nat>)
    requires forall x :: x in s ==> x in list
    decreases |s|
  {
    if s == [] then RunCode(pending)
    else
      var j := IndexOf(list, s[0]);
      var list' := MoveToFront(list, j);
      SameMembers(list, j);
      if j == 0 then Encode(list', s[1..], pending + 1)
      else RunCode(pending) + [j + 1] + Encode(list', s[1..], 0)
  }

  lemma SameMembers(list: seq<nat>, j: nat)
    requires j < |list|
    ensures forall x :: x in MoveToFront(list, j) <==> x in list
  {
    assert list == list[..j] + [list[j]] + list[j + 1..];
  }

  /** The list after s has been coded. */
  function ListAfter(list: seq<nat>, s: seq<nat>): (r: seq<nat>)
    requires forall x :: x in s ==> x in list
    ensures |r| == |list|
    decreases |s|
  {
    if s == [] then list
    else
      SameMembers(list, IndexOf(list, s[0]));
      ListAfter(MoveToFront(list, IndexOf(list, s[0])), s[1..])
  }

  /** Encoding goes on where it stopped. */
  lemma {:induction false} EncodeStep(list: seq<nat>, s: seq<nat>, x: nat)
    requires x in list && forall y :: y in s ==> y in list
    ensures forall y :: y in s + [x] ==> y in list
    ensures x in ListAfter(list, s)
    ensures ListAfter(list, s + [x]) == MoveToFront(ListAfter(list, s), IndexOf(ListAfter(list, s), x))
    decreases |s|
  {
    if s == [] {
      assert s + [x] == [x];
      assert [x][1..] == [];
    } else {
      var j := IndexOf(list, s[0]);
      SameMembers(list, j);
      assert (s + [x])[1..] == s[1..] + [x];
      EncodeStep(MoveToFront(list, j), s[1..], x);
    }
  }

  // ---------- decoding ----------

  datatype Decoder = Decoder(list: seq<nat>, es: nat, n: nat, out: seq<nat>)

  function Repeat<T>(x: T, k: nat): (s: seq<T>)
    ensures |s| == k && forall i :: 0 <= i < k ==> s[i] == x
  {
    seq(k, _ => x)
  }

  /** One symbol other than end of block: a run digit adds to the pending run; any other
      symbol first writes the run out. */
  function DecodeStep(d: Decoder, sym: nat): Decoder
    requires sym == BZ_RUNA || sym == BZ_RUNB || sym - 1 < |d.list|
    requires d.list != []
  {
    if sym == BZ_RUNA then d.(es := d.es + d.n, n := 2 * d.n)
    else if sym == BZ_RUNB then d.(es := d.es + 2 * d.n, n := 2 * d.n)
    else
      var out := d.out + Repeat(d.list[0], d.es);
      Decoder(MoveToFront(d.list, sym - 1), 0, 1, out + [d.list[sym - 1]])
  }

  /** A symbol of 0 or 1 adds itself and one, times the weight, to the run; the weight doubles. */
  lemma DigitTaken(d: Decoder, sym: nat)
    requires d.list != [] && sym <= 1
    ensures DecodeStep(d, sym) == d.(es := d.es + (sym + 1) * d.n, n := 2 * d.n)
  {
  }

  ghost predicate Decodable(syms: seq<nat>, n: nat) {
    0 < n && forall k :: 0 <= k < |syms| ==> syms[k] <= n
  }

  function Decode(d: Decoder, syms: seq<nat>): (r: Decoder)
    requires Decodable(syms, |d.list|)
    ensures |r.list| == |d.list|
    decreases |syms|
  {
    if syms == [] then d else Decode(DecodeStep(d, syms[0]), syms[1..])
  }

  /** What has been decoded once the pending run is written out. */
  function Finished(d: Decoder): seq<nat>
    requires d.list != []
  {
    d.out + Repeat(d.list[0], d.es)
  }

  /** What the decoder makes of a symbol, with all its checks: it goes on, the block is
      complete, or the data are bad. */
  datatype Verdict = More(d: Decoder) | Done(column: seq<nat>) | Bad

  function OnSym(d: Decoder, sym: nat, eob: nat, nblockMAX: nat): Verdict
    requires d.list != [] && (sym == eob || sym <= |d.list|)
  {
    if sym == BZ_RUNA || sym == BZ_RUNB then
      if d.n >= 2 * 1024 * 1024 then Bad else More(DecodeStep(d, sym))
    else if |d.out| + d.es > nblockMAX then Bad
    else if sym == eob then Done(Finished(d))
    else if |d.out| + d.es >= nblockMAX then Bad
    else More(DecodeStep(d, sym))
  }

  lemma {:induction false} DecodeConcat(d: Decoder, s: seq<nat>, t: seq<nat>)
    requires Decodable(s, |d.list|) && Decodable(t, |d.list|)
    ensures Decodable(s + t, |d.list|)
    ensures Decode(d, s + t) == Decode(Decode(d, s), t)
    decreases |s|
  {
    if s == [] {
      assert s + t == t;
    } else {
      assert (s + t)[1..] == s[1..] + t;
      DecodeConcat(DecodeStep(d, s[0]), s[1..], t);
    }
  }

  lemma {:induction false} DecodeRun(d: Decoder, s: seq<nat>)
    requires d.list != [] && forall k :: 0 <= k < |s| ==> s[k] == BZ_RUNA || s[k] == BZ_RUNB
    ensures Decodable(s, |d.list|)
    ensures Decode(d, s) == d.(es := d.es + RunValue(s, d.n), n := d.n * Pow2(|s|))
    decreases |s|
  {
    if s == [] {
      assert Pow2(0) == 1;
    } else {
      DecodeRun(DecodeStep(d, s[0]), s[1..]);
      MulComm(d.n, Pow2(|s| - 1));
    }
  }

  lemma MulComm(a: nat, b: nat)
    ensures (2 * a) * b == a * (2 * b)
  {
  }

  lemma DecodeRunCode(d: Decoder, z: nat)
    requires d.list != [] && d.es == 0 && d.n == 1
    ensures Decodable(RunCode(z), |d.list|)
    ensures Decode(d, RunCode(z)) == d.(es := z, n := Pow2(|RunCode(z)|))
  {
    DecodeRun(d, RunCode(z));
    RunRoundTrip(z, 1);
  }

  lemma SymbolsInRange(list: seq<nat>, s: seq<nat>, pending: nat)
    requires list != [] && forall x :: x in s ==> x in list
    ensures Decodable(Encode(list, s, pending), |list|)
    decreases |s|
  {
    if s != [] {
      var j := IndexOf(list, s[0]);
      SameMembers(list, j);
      SymbolsInRange(MoveToFront(list, j), s[1..], if j == 0 then pending + 1 else 0);
    }
  }

  /** A written run followed by one move-to-front symbol. */
  lemma DecodeGroup(list: seq<nat>, more: seq<nat>, j: nat, pending: nat, out: seq<nat>, tail: seq<nat>)
    requires 0 < j < |list| && Decodable(tail, |list + more|)
    ensures Decodable(RunCode(pending) + [j + 1] + tail, |list + more|)
    ensures Decode(Decoder(list + more, 0, 1, out), RunCode(pending) + [j + 1] + tail) ==
            Decode(Decoder(MoveToFront(list, j) + more, 0, 1, out + Repeat(list[0], pending) + [list[j]]), tail)
  {
    var d, head, mid := Decoder(list + more, 0, 1, out), RunCode(pending), [j + 1];
    DecodeRunCode(d, pending);
    assert Decodable(mid, |d.list|);
    DecodeConcat(Decode(d, head), mid, tail);
    DecodeConcat(d, head, mid + tail);
    assert head + (mid + tail) == head + mid + tail;
    assert MoveToFront(list + more, j) == MoveToFront(list, j) + more;
    var e := Decode(d, head);
    assert mid[1..] == [];
    assert Decode(e, mid) == Decode(DecodeStep(e, j + 1), []);
  }

  /** One step of the encoder, seen from its result. */
  lemma EncodeNext(list: seq<nat>, s: seq<nat>, pending: nat)
    requires s != [] && forall x :: x in s ==> x in list
    ensures s[0] in list && forall x :: x in s[1..] ==> x in list
    ensures var j := IndexOf(list, s[0]);
            && (forall x :: x in s[1..] ==> x in MoveToFront(list, j))
            && MoveToFront(list, j)[0] == s[0]
            && (j == 0 ==> MoveToFront(list, j) == list && list[0] == s[0] && Encode(list, s, pending) == Encode(list, s[1..], pending + 1))
            && (j > 0 ==> list[0] != s[0] && Encode(list, s, pending) == RunCode(pending) + [j + 1] + Encode(MoveToFront(list, j), s[1..], 0))
  {
    var j := IndexOf(list, s[0]);
    SameMembers(list, j);
    hide RunCode;
    if j == 0 {
      assert MoveToFront(list, 0) == list;
    } else {
      assert list[..j][0] == list[0];
    }
  }

  /** Decoding gives back what was encoded. The decoder's list may be longer than the
      encoder's: only the part in use matters. */
  lemma {:induction false} DecodeEncode(list: seq<nat>, more: seq<nat>, s: seq<nat>, pending: nat, out: seq<nat>)
    requires list != [] && forall x :: x in s ==> x in list
    ensures Decodable(Encode(list, s, pending), |list + more|)
    ensures Finished(Decode(Decoder(list + more, 0, 1, out), Encode(list, s, pending))) == out + Repeat(list[0], pending) + s
    decreases |s|
  {
    SymbolsInRange(list, s, pending);
    hide RunCode, DecodeStep, Decode, MoveToFront;
    if s == [] {
      DecodeRunCode(Decoder(list + more, 0, 1, out), pending);
    } else {
      hide Encode, Decodable, Finished;
      EncodeNext(list, s, pending);
      var j := IndexOf(list, s[0]);
      var list' := MoveToFront(list, j);
      if j == 0 {
        DecodeEncode(list, more, s[1..], pending + 1, out);
        RunThenZero(list[0], pending, out, s);
      } else {
        var out' := out + Repeat(list[0], pending) + [s[0]];
        SymbolsLonger(list', more, s[1..]);
        DecodeGroup(list, more, j, pending, out, Encode(list', s[1..], 0));
        DecodeEncode(list', more, s[1..], 0, out');
        assert out' + Repeat(list'[0], 0) + s[1..] == out + Repeat(list[0], pending) + s;
      }
    }
  }

  lemma SymbolsLonger(list: seq<nat>, more: seq<nat>, s: seq<nat>)
    requires list != [] && forall x :: x in s ==> x in list
    ensures Decodable(Encode(list, s, 0), |list + more|)
  {
    SymbolsInRange(list, s, 0);
  }

  lemma RunThenZero(x: nat, pending: nat, out: seq<nat>, s: seq<nat>)
    requires s != [] && s[0] == x
    ensures out + Repeat(x, pending + 1) + s[1..] == out + Repeat(x, pending) + s
  {
    assert Repeat(x, pending + 1) == Repeat(x, pending) + [x];
    assert s == [x] + s[1..];
  }
}
