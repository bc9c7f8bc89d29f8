/** zlib's Adler-32 (adler32.c): sums with deferred reduction, reduction without division,
    and the combination of two checksums. */
module Adler32 {
  import opened Words

  const BASE: nat := 65521
  const NMAX: nat := 5552

  /** A 32-bit unsigned variable: that every sum fits is what its type asks to be proved. */
  type uint32 = x: int | 0 <= x < 0x1_0000_0000

  // ---------- the definition ----------

  datatype Sums = Sums(a: nat, b: nat)

  /** Section 9 of RFC 1950: both sums are reduced after every byte. */
  function Running(s: Sums, buf: seq<byte>): (r: Sums)
    ensures s.a < BASE && s.b < BASE ==> r.a < BASE && r.b < BASE
  {
    if buf == [] then s
    else
      var r := Running(s, buf[..|buf| - 1]);
      var a := (r.a + buf[|buf| - 1]) % BASE;
      Sums(a, (r.b + a) % BASE)
  }

  function Pack(s: Sums): nat { s.a + 0x1_0000 * s.b }

  function Unpack(adler: nat): Sums { Sums(adler % 0x1_0000, adler / 0x1_0000 % 0x1_0000) }

  /** A checksum as adler32 returns it. */
  predicate Reduced(adler: nat) {
    adler < 0x1_0000_0000 && Unpack(adler).a < BASE && Unpack(adler).b < BASE
  }

  /** The sums that a checksum stands for, whether it is reduced or not. */
  function Residues(s: Sums): Sums { Sums(s.a % BASE, s.b % BASE) }

  lemma PackUnpack(s: Sums)
    requires s.a < 0x1_0000 && s.b < 0x1_0000
    ensures Pack(s) < 0x1_0000_0000 && Unpack(Pack(s)) == s
    ensures s.a < BASE && s.b < BASE ==> Reduced(Pack(s))
    ensures Or(s.a, Shl(s.b, 16)) == Pack(s)
  {
    Pow2Values();
    OrDisjoint(s.b, 16, s.a);
    hide Or, Shl;
    DivModUnique(Pack(s), 0x1_0000, s.b, s.a);
    DivModUnique(s.b, 0x1_0000, 0, s.b);
  }

  /** The halves of a checksum, as they are read out. */
  lemma Halves(adler: nat)
    ensures And(adler, 0xffff) == Unpack(adler).a < 0x1_0000
    ensures And(Shr(adler, 16), 0xffff) == Unpack(adler).b < 0x1_0000
    ensures Reduced(adler) ==> Unpack(adler).a < BASE && Unpack(adler).b < BASE
  {
    hide And, Shr;
    LowHalf(adler);
    LowHalf(Shr(adler, 16));
  }

  lemma LowHalf(x: nat)
    ensures And(x, 0xffff) == x % 0x1_0000 && Shr(x, 16) == x / 0x1_0000
  {
    Pow2Values();
    AndMask(x, 16);
  }

  /** The running sums of a concatenation. */
  lemma {:induction false} RunningConcat(s: Sums, x: seq<byte>, y: seq<byte>)
    ensures Running(s, x + y) == Running(Running(s, x), y)
  {
    if y == [] {
      assert x + y == x;
    } else {
      assert (x + y)[..|x + y| - 1] == x + y[..|y| - 1];
      RunningConcat(s, x, y[..|y| - 1]);
    }
  }

  // ---------- reduction without division ----------

  lemma ChopCongruent(a: nat)
    ensures (a % 0x1_0000 + 15 * (a / 0x1_0000)) % BASE == a % BASE
  {
    var q, r := a / 0x1_0000, a % 0x1_0000;
    var x := r + 15 * q;
    DivModUnique(a, BASE, x / BASE + q, x % BASE);
  }

  /** `CHOP`. */
  method Chop(a0: uint32) returns (a: uint32)
    ensures a == a0 % 0x1_0000 + 15 * (a0 / 0x1_0000) && a % BASE == a0 % BASE
  {
    LowHalf(a0);
    ChopCongruent(a0);
    var tmp := Shr(a0, 16);
    Shl16(tmp);
    a := And(a0, 0xffff);
    a := a + (Shl(tmp, 4) - tmp);
  }

  lemma Shl16(x: nat)
    ensures Shl(x, 4) == 16 * x
  {
    Pow2Values();
  }

  /** `MOD28`: one subtraction is enough below 2^28. */
  method Mod28(a0: uint32) returns (a: uint32)
    requires a0 < 0x1000_0000
    ensures a == a0 % BASE
  {
    a := Chop(a0);
    if a >= BASE { a := a - BASE; }
  }

  /** `MOD`, for every 32-bit value. */
  method Mod(a0: uint32) returns (a: uint32)
    ensures a == a0 % BASE
  {
    a := Chop(a0);
    a := Mod28(a);
  }

  /** `MOD63`, for every nonnegative 64-bit value. */
  method Mod63(a0: nat) returns (a: nat)
    requires a0 < 0x8000_0000_0000_0000
    ensures a == a0 % BASE
  {
    var tmp := a0 / 0x1_0000_0000;
    a := a0 % 0x1_0000_0000 + (256 * tmp - 32 * tmp + tmp);
    Fold32(a0);
    ChopCongruent(a);
    tmp := a / 0x1_0000;
    a := a % 0x1_0000 + (16 * tmp - tmp);
    ChopCongruent(a);
    tmp := a / 0x1_0000;
    a := a % 0x1_0000 + (16 * tmp - tmp);
    if a >= BASE { a := a - BASE; }
  }

  lemma Fold32(a: nat)
    ensures (a % 0x1_0000_0000 + 225 * (a / 0x1_0000_0000)) % BASE == a % BASE
  {
    var q, r := a / 0x1_0000_0000, a % 0x1_0000_0000;
    var x := r + 225 * q;
    assert 0x1_0000_0000 == 65551 * BASE + 225;
    DivModUnique(a, BASE, x / BASE + 65551 * q, x % BASE);
  }

  // ---------- deferred sums ----------

  function Sum1(a: nat, buf: seq<byte>): nat {
    if buf == [] then a else Sum1(a, buf[..|buf| - 1]) + buf[|buf| - 1]
  }

  function Sum2(a: nat, b: nat, buf: seq<byte>): nat {
    if buf == [] then b else Sum2(a, b, buf[..|buf| - 1]) + Sum1(a, buf)
  }

  lemma ModAdd(x: nat, y: nat)
    ensures (x % BASE + y) % BASE == (x + y) % BASE
    ensures (y + x % BASE) % BASE == (x + y) % BASE
  {
    var q := x / BASE;
    var z := x % BASE + y;
    DivModUnique(x + y, BASE, z / BASE + q, z % BASE);
  }

  /** Reducing once at the end gives the same sums. */
  lemma {:induction false} DeferredSums(a: nat, b: nat, buf: seq<byte>)
    ensures Running(Sums(a % BASE, b % BASE), buf) == Sums(Sum1(a, buf) % BASE, Sum2(a, b, buf) % BASE)
  {
    if buf != [] {
      var init, x := buf[..|buf| - 1], buf[|buf| - 1];
      DeferredSums(a, b, init);
      ModAdd(Sum1(a, init), x);
      ModAdd(Sum2(a, b, init), Sum1(a, buf) % BASE);
      ModAdd(Sum1(a, buf), Sum2(a, b, init));
    }
  }

  function Bound(n: nat): nat {
    if n == 0 then BASE - 1 else Bound(n - 1) + (BASE - 1) + 255 * n
  }

  lemma {:induction false} BoundIs(n: nat)
    ensures 2 * Bound(n) == 2 * (n + 1) * (BASE - 1) + 255 * (n * (n + 1))
  {
    if n > 0 {
      BoundIs(n - 1);
      assert n * (n + 1) == (n - 1) * n + 2 * n;
    }
  }

  lemma {:induction false} BoundMonotone(m: nat, n: nat)
    requires m <= n
    ensures Bound(m) <= Bound(n)
    decreases n
  {
    if m < n { BoundMonotone(m, n - 1); }
  }

  lemma {:induction false} SumsBounded(a: nat, b: nat, buf: seq<byte>)
    requires a < BASE + 15 && b < BASE + 15
    ensures Sum1(a, buf) <= BASE + 14 + 255 * |buf|
    ensures Sum2(a, b, buf) <= Bound(|buf|) + 15 * (|buf| + 1)
  {
    if buf != [] { SumsBounded(a, b, buf[..|buf| - 1]); }
  }

  /** NMAX bytes can be summed before the second sum needs more than 32 bits, even from halves
      that are not reduced. */
  lemma NoOverflow(a: nat, b: nat, buf: seq<byte>)
    requires a < 0x1_0000 && b < 0x1_0000 && |buf| <= NMAX
    ensures Sum1(a, buf) < 0x1_0000_0000 && Sum2(a, b, buf) < 0x1_0000_0000
  {
    SumsBounded(a, b, buf);
    BoundMonotone(|buf|, NMAX);
    BoundIs(NMAX);
  }

  /** NMAX is as large as it can be. */
  lemma NmaxIsLargest()
    ensures Bound(NMAX) <= 0xffff_ffff < Bound(NMAX + 1)
  {
    BoundIs(NMAX);
    BoundIs(NMAX + 1);
  }

  lemma SumStep(a: nat, b: nat, buf: seq<byte>, lo: nat, hi: nat)
    requires lo <= hi < |buf|
    ensures Sum1(a, buf[lo..hi + 1]) == Sum1(a, buf[lo..hi]) + buf[hi]
    ensures Sum2(a, b, buf[lo..hi + 1]) == Sum2(a, b, buf[lo..hi]) + Sum1(a, buf[lo..hi + 1])
  {
    assert buf[lo..hi + 1][..hi - lo] == buf[lo..hi];
  }

  lemma SumStart(a: nat, b: nat, buf: seq<byte>, lo: nat)
    requires lo <= |buf|
    ensures Sum1(a, buf[lo..lo]) == a && Sum2(a, b, buf[lo..lo]) == b
  {
  }

  /** One byte more, short of the limit. */
  method Do1(buf: seq<byte>, pos: nat, adler0: uint32, sum0: uint32, ghost a: nat, ghost b: nat, ghost lo: nat)
    returns (adler: uint32, sum2: uint32)
    requires lo <= pos < |buf| && pos - lo < NMAX && a < 0x1_0000 && b < 0x1_0000
    requires adler0 == Sum1(a, buf[lo..pos]) && sum0 == Sum2(a, b, buf[lo..pos])
    ensures adler == Sum1(a, buf[lo..pos + 1]) && sum2 == Sum2(a, b, buf[lo..pos + 1])
  {
    SumStep(a, b, buf, lo, pos);
    NoOverflow(a, b, buf[lo..pos + 1]);
    hide Sum1, Sum2;
    adler := adler0 + buf[pos];
    sum2 := sum0 + adler;
  }

  /** `DO16`. */
  method Do16(buf: seq<byte>, pos: nat, adler0: uint32, sum0: uint32, ghost a: nat, ghost b: nat, ghost lo: nat)
    returns (adler: uint32, sum2: uint32)
    requires lo <= pos && pos + 16 <= |buf| && pos + 16 - lo <= NMAX && a < 0x1_0000 && b < 0x1_0000
    requires adler0 == Sum1(a, buf[lo..pos]) && sum0 == Sum2(a, b, buf[lo..pos])
    ensures adler == Sum1(a, buf[lo..pos + 16]) && sum2 == Sum2(a, b, buf[lo..pos + 16])
  {
    hide Sum1, Sum2;
    adler, sum2 := adler0, sum0;
    for i := 0 to 16
      invariant adler == Sum1(a, buf[lo..pos + i]) && sum2 == Sum2(a, b, buf[lo..pos + i])
    {
      adler, sum2 := Do1(buf, pos + i, adler, sum2, a, b, lo);
    }
  }

  lemma Reduce(s: Sums, buf: seq<byte>, lo: nat, hi: nat, a: nat, b: nat)
    requires lo <= hi <= |buf| && Running(s, buf[..lo]) == Residues(Sums(a, b))
    ensures Running(s, buf[..hi]) == Sums(Sum1(a, buf[lo..hi]) % BASE, Sum2(a, b, buf[lo..hi]) % BASE)
  {
    RunningConcat(s, buf[..lo], buf[lo..hi]);
    assert buf[..hi] == buf[..lo] + buf[lo..hi];
    DeferredSums(a, b, buf[lo..hi]);
  }

  lemma Small(x: nat)
    requires x < BASE
    ensures x % BASE == x
  {
  }

  /** One block of NMAX bytes and one reduction. */
  method SumBlock(buf: seq<byte>, pos0: nat, adler0: uint32, sum0: uint32, ghost s: Sums) returns (adler: uint32, sum2: uint32)
    requires pos0 + NMAX <= |buf| && adler0 < 0x1_0000 && sum0 < 0x1_0000 && Running(s, buf[..pos0]) == Residues(Sums(adler0, sum0))
    ensures Running(s, buf[..pos0 + NMAX]) == Sums(adler, sum2) && adler < BASE && sum2 < BASE
  {
    hide Sum1, Sum2, Running;
    SumStart(adler0, sum0, buf, pos0);
    adler, sum2 := adler0, sum0;
    var pos: nat, n := pos0, NMAX / 16;
    while n > 0
      invariant 0 <= n && pos + 16 * n == pos0 + NMAX
      invariant adler == Sum1(adler0, buf[pos0..pos]) && sum2 == Sum2(adler0, sum0, buf[pos0..pos])
    {
      adler, sum2 := Do16(buf, pos, adler, sum2, adler0, sum0, pos0);
      pos := pos + 16;
      n := n - 1;
    }
    Reduce(s, buf, pos0, pos, adler0, sum0);
    adler := Mod(adler);
    sum2 := Mod(sum2);
  }

  /** The bytes that remain, fewer than NMAX. */
  method SumRest(buf: seq<byte>, pos0: nat, adler0: uint32, sum0: uint32, ghost s: Sums) returns (adler: uint32, sum2: uint32)
    requires pos0 <= |buf| < pos0 + NMAX && adler0 < 0x1_0000 && sum0 < 0x1_0000 && Running(s, buf[..pos0]) == Residues(Sums(adler0, sum0))
    ensures Running(s, buf) == Sums(adler, sum2)
  {
    hide Sum1, Sum2, Running;
    SumStart(adler0, sum0, buf, pos0);
    adler, sum2 := adler0, sum0;
    var pos: nat, len: nat := pos0, |buf| - pos0;
    while len >= 16
      invariant pos0 <= pos && pos + len == |buf|
      invariant adler == Sum1(adler0, buf[pos0..pos]) && sum2 == Sum2(adler0, sum0, buf[pos0..pos])
    {
      len := len - 16;
      adler, sum2 := Do16(buf, pos, adler, sum2, adler0, sum0, pos0);
      pos := pos + 16;
    }
    while len > 0
      invariant pos0 <= pos && pos + len == |buf|
      invariant adler == Sum1(adler0, buf[pos0..pos]) && sum2 == Sum2(adler0, sum0, buf[pos0..pos])
    {
      len := len - 1;
      adler, sum2 := Do1(buf, pos, adler, sum2, adler0, sum0, pos0);
      pos := pos + 1;
    }
    Reduce(s, buf, pos0, pos, adler0, sum0);
    assert buf[..pos] == buf;
    adler := Mod(adler);
    sum2 := Mod(sum2);
  }

  lemma ShortSums(a: nat, b: nat, buf: seq<byte>)
    requires a < 0x1_0000 && b < 0x1_0000 && |buf| < 16
    ensures Sum1(a, buf) < 2 * BASE && Sum2(a, b, buf) < 0x1000_0000
  {
    SumsBounded(a, b, buf);
    BoundMonotone(|buf|, 16);
    BoundIs(16);
  }

  /** The single byte that is kept fast is added with one subtraction for each sum: is that
      enough? */
  predicate Exact(adler: nat, buf: seq<byte>) {
    |buf| == 1 ==> Unpack(adler).b + (Unpack(adler).a + buf[0]) % BASE < 2 * BASE
  }

  /** It is for every checksum that is reduced, and not for this one. */
  lemma ReducedIsExact(adler: nat, buf: seq<byte>)
    ensures Reduced(adler) ==> Exact(adler, buf) && Residues(Unpack(adler)) == Unpack(adler)
    ensures !Exact(0xffff_fff0, [0])
  {
    hide Exact;
    if Reduced(adler) {
      Small(Unpack(adler).a);
      Small(Unpack(adler).b);
      OneFits(adler, buf);
    }
    assert Unpack(0xffff_fff0) == Sums(0xfff0, 0xffff);
    NotOne(0xffff_fff0, [0]);
  }

  lemma OneFits(adler: nat, buf: seq<byte>)
    requires Reduced(adler)
    ensures Exact(adler, buf)
  {
  }

  lemma NotOne(adler: nat, buf: seq<byte>)
    requires Unpack(adler) == Sums(0xfff0, 0xffff) && buf == [0]
    ensures !Exact(adler, buf)
  {
  }

  /** `adler32_z` on a buffer that is there, from any starting value: both halves are right up
      to a multiple of BASE, and reduced if and only if one subtraction is enough. */
  method Adler32(adler0: nat, buf: seq<byte>) returns (r: nat)
    ensures r == Pack(Running(Residues(Unpack(adler0)), buf)) <==> Exact(adler0, buf)
    ensures Residues(Unpack(r)) == Running(Residues(Unpack(adler0)), buf) && r < 0x1_0000_0000
    ensures Reduced(adler0) ==> r == Pack(Running(Unpack(adler0), buf)) && Reduced(r)
  {
    hide *;
    ghost var s := Residues(Unpack(adler0));
    Halves(adler0);
    ReducedIsExact(adler0, buf);
    var sum2: uint32 := And(Shr(adler0, 16), 0xffff);
    var adler: uint32 := And(adler0, 0xffff);
    BaseIs();
    if |buf| == 1 {
      ghost var a0, b0 := adler, sum2;
      adler := adler + buf[0];
      if adler >= BASE { adler := adler - BASE; }
      sum2 := sum2 + adler;
      if sum2 >= BASE { sum2 := sum2 - BASE; }
      OneByte(adler0, buf, a0, b0, adler, sum2);
    } else {
      NotSingle(adler0, buf);
      adler, sum2 := SumMany(buf, adler, sum2);
      ResiduesFit(adler, sum2);
    }
    Packed(s, buf, adler, sum2);
    r := Or(adler, Shl(sum2, 16));
  }

  /** `adler32_z` on any other number of bytes. */
  method SumMany(buf: seq<byte>, adler0: uint32, sum0: uint32) returns (adler: uint32, sum2: uint32)
    requires |buf| != 1 && adler0 < 0x1_0000 && sum0 < 0x1_0000
    ensures Running(Residues(Sums(adler0, sum0)), buf) == Sums(adler, sum2) && adler < BASE && sum2 < BASE
  {
    hide *;
    ghost var s := Residues(Sums(adler0, sum0));
    BaseIs();
    RunningStart(s, buf);
    ResiduesFit(adler0, sum0);
    adler, sum2 := adler0, sum0;
    if |buf| < 16 {
      adler, sum2 := SumShort(buf, adler, sum2);
    } else {
      var pos: nat, len: nat := 0, |buf|;
      while len >= NMAX
        decreases len
        invariant pos + len == |buf| && adler < 0x1_0000 && sum2 < 0x1_0000 && Running(s, buf[..pos]) == Residues(Sums(adler, sum2))
        invariant pos > 0 ==> Running(s, buf[..pos]) == Sums(adler, sum2)
      {
        len := len - NMAX;
        adler, sum2 := SumBlock(buf, pos, adler, sum2, s);
        ResiduesFit(adler, sum2);
        pos := pos + NMAX;
      }
      if len > 0 {
        adler, sum2 := SumRest(buf, pos, adler, sum2, s);
      }
      assert len == 0 ==> buf[..pos] == buf;
    }
  }

  lemma ResiduesFit(a: nat, b: nat)
    ensures Residues(Sums(a, b)).a < BASE && Residues(Sums(a, b)).b < BASE
    ensures a < BASE && b < BASE ==> Residues(Sums(a, b)) == Sums(a, b)
  {
  }

  lemma NotSingle(adler: nat, buf: seq<byte>)
    requires |buf| != 1
    ensures Exact(adler, buf)
  {
  }

  /** What is returned, from the two sums. */
  lemma Packed(s: Sums, buf: seq<byte>, a: nat, b: nat)
    requires a < BASE && b < 0x1_0000 && Running(s, buf) == Residues(Sums(a, b))
    ensures Or(a, Shl(b, 16)) < 0x1_0000_0000 && Unpack(Or(a, Shl(b, 16))) == Sums(a, b)
    ensures Residues(Unpack(Or(a, Shl(b, 16)))) == Running(s, buf)
    ensures Or(a, Shl(b, 16)) == Pack(Running(s, buf)) <==> b < BASE
    ensures b < BASE ==> Reduced(Or(a, Shl(b, 16)))
  {
    hide Running, Or, Shl;
    PackUnpack(Sums(a, b));
    Small(a);
  }

  lemma RunningStart(s: Sums, buf: seq<byte>)
    ensures Running(s, buf[..0]) == s
  {
  }

  lemma OneByte(adler0: nat, buf: seq<byte>, a0: nat, b0: nat, a: nat, b: nat)
    requires |buf| == 1 && a0 < 0x1_0000 && b0 < 0x1_0000 && Unpack(adler0) == Sums(a0, b0)
    requires a == if a0 + buf[0] >= BASE then a0 + buf[0] - BASE else a0 + buf[0]
    requires b == if b0 + a >= BASE then b0 + a - BASE else b0 + a
    ensures a < BASE && b < 0x1_0000 && Running(Residues(Unpack(adler0)), buf) == Residues(Sums(a, b))
    ensures Exact(adler0, buf) <==> b < BASE
  {
    hide Running, Unpack;
    RunningOne(Residues(Sums(a0, b0)), buf);
    ModAdd(a0, buf[0]);
    ModAdd(b0, a);
    OneReduced(a0 + buf[0], a);
  }

  lemma RunningOne(s: Sums, buf: seq<byte>)
    requires |buf| == 1
    ensures var a := (s.a + buf[0]) % BASE; Running(s, buf) == Sums(a, (s.b + a) % BASE)
  {
    assert buf[..0] == [] && Running(s, buf[..0]) == s;
  }

  lemma OneReduced(x: nat, a: nat)
    requires x < 2 * BASE && a == if x >= BASE then x - BASE else x
    ensures a < BASE && x % BASE == a == a % BASE
  {
  }

  method SumShort(buf: seq<byte>, adler0: uint32, sum0: uint32) returns (adler: uint32, sum2: uint32)
    requires |buf| < 16 && adler0 < 0x1_0000 && sum0 < 0x1_0000
    ensures Running(Residues(Sums(adler0, sum0)), buf) == Sums(adler, sum2)
  {
    hide Sum1, Sum2, Running;
    SumStart(adler0, sum0, buf, 0);
    adler, sum2 := adler0, sum0;
    var pos: nat := 0;
    while pos < |buf|
      invariant pos <= |buf|
      invariant adler == Sum1(adler0, buf[0..pos]) && sum2 == Sum2(adler0, sum0, buf[0..pos])
    {
      adler, sum2 := Do1(buf, pos, adler, sum2, adler0, sum0, 0);
      pos := pos + 1;
    }
    assert buf[0..pos] == buf;
    ShortSums(adler0, sum0, buf);
    DeferredSums(adler0, sum0, buf);
    if adler >= BASE { adler := adler - BASE; }
    sum2 := Mod28(sum2);
  }

  // ---------- combination ----------

  /** Starting the first sum higher by d raises the second by d for every byte. */
  lemma {:induction false} SumsShift(a: nat, b: nat, d: nat, c: nat, buf: seq<byte>)
    ensures Sum1(a + d, buf) == Sum1(a, buf) + d
    ensures Sum2(a + d, b + c, buf) == Sum2(a, b, buf) + c + |buf| * d
  {
    if buf != [] {
      var init := buf[..|buf| - 1];
      SumsShift(a, b, d, c, init);
      assert |buf| * d == |init| * d + d by { Once(|init|, d); }
    }
  }

  lemma Once(n: nat, d: nat)
    ensures (n + 1) * d == n * d + d
  {
  }

  /** The sums of a concatenation, from those of the two parts, before reduction. */
  lemma ConcatSums(x: seq<byte>, y: seq<byte>)
    ensures Sum1(1, x + y) + 1 == Sum1(1, x) + Sum1(1, y)
    ensures Sum2(1, 0, x + y) + |y| == Sum2(1, 0, x) + Sum2(1, 0, y) + |y| * Sum1(1, x)
  {
    SumsConcat(1, 0, x, y);
    SumsShift(0, 0, Sum1(1, x), Sum2(1, 0, x), y);
    SumsShift(0, 0, 1, 0, y);
  }

  lemma {:induction false} SumsConcat(a: nat, b: nat, x: seq<byte>, y: seq<byte>)
    ensures Sum1(a, x + y) == Sum1(Sum1(a, x), y)
    ensures Sum2(a, b, x + y) == Sum2(Sum1(a, x), Sum2(a, b, x), y)
  {
    if y == [] {
      assert x + y == x;
    } else {
      assert (x + y)[..|x + y| - 1] == x + y[..|y| - 1];
      SumsConcat(a, b, x, y[..|y| - 1]);
    }
  }

  /** The checksum of a whole buffer. */
  function Adler(buf: seq<byte>): nat { Pack(Running(Sums(1, 0), buf)) }

  lemma AdlerSums(buf: seq<byte>)
    ensures Reduced(Adler(buf)) && Unpack(Adler(buf)) == Sums(Sum1(1, buf) % BASE, Sum2(1, 0, buf) % BASE)
  {
    DeferredSums(1, 0, buf);
    PackUnpack(Running(Sums(1, 0), buf));
  }

  /** The length times the first sum, reduced. */
  function Scaled(len: nat, a: nat): (r: nat)
    ensures r < BASE
  {
    ProductFits0(len % BASE, a);
    len % BASE * a % BASE
  }

  /** The sums of a concatenation from the reduced sums of the parts and the second length. */
  function Joined(x: Sums, y: Sums, len: nat): Sums {
    Sums(Residue(x.a + y.a + BASE - 1), Residue(Scaled(len, x.a) + x.b + y.b + BASE - Residue(len)))
  }

  function Residue(x: nat): (r: nat)
    ensures r < BASE
  {
    x % BASE
  }

  lemma ProductFits0(x: nat, y: nat)
    ensures x * y >= 0
  {
  }

  /** The subtractions at the end are enough. */
  predicate Joinable(x: Sums, y: Sums, len: nat) {
    x.a + y.a <= 2 * BASE && Scaled(len, x.a) + x.b + y.b < 3 * BASE + Residue(len)
  }

  lemma ReducedJoin(adler1: nat, adler2: nat, len: nat)
    ensures Reduced(adler1) && Reduced(adler2) ==> Joinable(Unpack(adler1), Unpack(adler2), len)
    ensures !Joinable(Unpack(0xffff), Unpack(0xffff), len)
  {
    hide Scaled, Residue;
  }

  /** The two sums before the subtractions, and what is put together from them. */
  function FirstOf(x: Sums, y: Sums): nat { x.a + y.a + BASE - 1 }

  function SecondOf(x: Sums, y: Sums, len: nat): nat { Scaled(len, x.a) + x.b + y.b + BASE - Residue(len) }

  function Combined(x: Sums, y: Sums, len: nat): nat {
    Or(FirstCut(FirstOf(x, y)), Shl(SecondCut(SecondOf(x, y, len)), 16))
  }

  /** The first sum spills into the second half exactly when the two lower halves together are
      at least 2^17 - 14: then bit 16 is set whatever the second sum is. */
  lemma SpillsWhen(x: Sums, y: Sums, len: nat)
    requires x.a < 0x1_0000 && y.a < 0x1_0000
    ensures FirstCut(FirstOf(x, y)) >= 0x1_0000 <==> x.a + y.a >= 0x2_0000 - 14
    ensures x.a + y.a >= 0x2_0000 - 14 ==> Combined(x, y, len) / 0x1_0000 % 2 == 1
    ensures x.a + y.a < 0x2_0000 - 14 ==> Combined(x, y, len) / 0x1_0000 == SecondCut(SecondOf(x, y, len))
  {
    hide Or, SecondOf, SecondCut;
    var a, b := FirstCut(FirstOf(x, y)), SecondCut(SecondOf(x, y, len));
    Pow2Values();
    if x.a + y.a >= 0x2_0000 - 14 {
      OrKeepsHigh(a, b, 16);
      DivModUnique(a, 0x1_0000, 1, a - 0x1_0000);
      OddOr(1, b);
      LowHalf(a);
      LowHalf(Combined(x, y, len));
    } else {
      OrDisjoint(b, 16, a);
      DivModUnique(b * 0x1_0000 + a, 0x1_0000, b, a);
    }
  }

  /** An input for which that is wrong: the second sum is even. */
  lemma Spilled()
    ensures SecondCut(SecondOf(Unpack(0xffff), Unpack(0xffff), 0)) == 0
    ensures Combined(Unpack(0xffff), Unpack(0xffff), 0) / 0x1_0000 % 2 == 1
  {
    hide Combined, SecondOf, SecondCut;
    assert Unpack(0xffff) == Sums(0xffff, 0);
    NoSecond(Sums(0xffff, 0));
    SpillsWhen(Sums(0xffff, 0), Sums(0xffff, 0), 0);
  }

  lemma NoSecond(x: Sums)
    requires x.b == 0
    ensures SecondCut(SecondOf(x, x, 0)) == 0
  {
    assert Scaled(0, x.a) == 0;
    assert Residue(0) == 0 && Residue(BASE) == 0;
  }

  lemma OddOr(x: nat, y: nat)
    requires x % 2 == 1
    ensures Or(x, y) % 2 == 1
  {
    OrBit(x, y);
  }

  lemma OrBit(x: nat, y: nat)
    requires x % 2 == 1
    ensures Or(x, y) == 2 * Or(x / 2, y / 2) + 1
  {
  }

  lemma {:induction false} OrKeepsHigh(x: nat, y: nat, n: nat)
    ensures Shr(Or(x, Shl(y, n)), n) == Or(Shr(x, n), y)
    decreases n
  {
    hide Or;
    if n > 0 {
      var p := Pow2(n - 1);
      OrKeepsHigh(x / 2, y, n - 1);
      OrHalf(x, y * p);
      HalfQuotient(2 * Or(x / 2, y * p) + x % 2, p);
      HalfQuotient(x, p);
      assert y * Pow2(n) == 2 * (y * p) by { Twice(y, p); }
    } else {
      assert x / 1 == x && y * 1 == y;
    }
  }

  lemma HalfQuotient(x: nat, p: nat)
    requires p > 0
    ensures x / (2 * p) == x / 2 / p
  {
    var q, r := x / 2 / p, x / 2 % p;
    assert x == q * (2 * p) + (2 * r + x % 2);
    DivModUnique(x, 2 * p, q, 2 * r + x % 2);
  }

  /** `adler32_combine_`, on any two values: it joins them if and only if the subtractions at
      its end are enough, as they are for two checksums that are reduced. */
  method Combine(adler1: nat, adler2: nat, len2: int) returns (r: nat)
    requires len2 < 0x8000_0000_0000_0000
    ensures len2 < 0 ==> r == 0xffff_ffff
    ensures len2 >= 0 ==> (r == Pack(Joined(Unpack(adler1), Unpack(adler2), len2)) <==> Joinable(Unpack(adler1), Unpack(adler2), len2))
    ensures len2 >= 0 ==> r == Combined(Unpack(adler1), Unpack(adler2), len2)
    ensures len2 >= 0 && Reduced(adler1) && Reduced(adler2) ==> r == Pack(Joined(Unpack(adler1), Unpack(adler2), len2)) && Reduced(r)
  {
    if len2 < 0 { return 0xffff_ffff; }
    hide *;
    BaseIs();
    ghost var x, y := Unpack(adler1), Unpack(adler2);
    var sum1, sum2 := JoinSums(adler1, adler2, len2);
    ghost var s1, s2 := sum1, sum2;
    sum1, sum2 := Subtract(sum1, sum2);
    JoinedIs(x, y, len2);
    JoinableIs(x, y, len2);
    ReducedJoin(adler1, adler2, len2);
    PackJoined(s1, s2, sum1, sum2);
    CombinedIs(x, y, len2);
    r := Or(sum1, Shl(sum2, 16));
  }

  lemma CombinedIs(x: Sums, y: Sums, len: nat)
    ensures Combined(x, y, len) == Or(FirstCut(FirstOf(x, y)), Shl(SecondCut(SecondOf(x, y, len)), 16))
  {
    hide Or, Shl, FirstOf, SecondOf, FirstCut, SecondCut;
  }

  lemma SumsAre(x: Sums, y: Sums, len: nat)
    ensures FirstOf(x, y) == x.a + y.a + BASE - 1
    ensures SecondOf(x, y, len) == Scaled(len, x.a) + x.b + y.b + BASE - Residue(len)
  {
    hide Scaled, Residue;
  }

  /** The sums before the last reductions. */
  method JoinSums(adler1: nat, adler2: nat, len2: nat) returns (sum1: uint32, sum2: uint32)
    requires len2 < 0x8000_0000_0000_0000
    ensures sum1 == FirstOf(Unpack(adler1), Unpack(adler2)) <= 3 * 0x1_0000
    ensures sum2 == SecondOf(Unpack(adler1), Unpack(adler2), len2) < 5 * BASE
  {
    hide *;
    Halves(adler1);
    Halves(adler2);
    BaseIs();
    var rem: uint32 := Remainder(len2);
    sum1 := And(adler1, 0xffff);
    sum2 := MulMod(rem, sum1, len2);
    sum1 := sum1 + (And(adler2, 0xffff) + BASE - 1);
    sum2 := sum2 + (And(Shr(adler1, 16), 0xffff) + And(Shr(adler2, 16), 0xffff) + BASE - rem);
    SumsAre(Unpack(adler1), Unpack(adler2), len2);
  }

  lemma JoinableIs(x: Sums, y: Sums, len: nat)
    ensures Joinable(x, y, len) <==> FirstOf(x, y) < 3 * BASE && SecondOf(x, y, len) < 4 * BASE
  {
    hide Scaled, Residue;
  }

  /** Sums that are not reduced are not those of the joined checksum. */
  lemma PackJoined(s1: nat, s2: nat, a: nat, b: nat)
    requires s1 <= 3 * 0x1_0000 && s2 < 5 * BASE
    requires a == FirstCut(s1) && b == SecondCut(s2)
    ensures Or(a, Shl(b, 16)) == Pack(Sums(Residue(s1), Residue(s2))) <==> s1 < 3 * BASE && s2 < 4 * BASE
    ensures s1 < 3 * BASE && s2 < 4 * BASE ==> Reduced(Or(a, Shl(b, 16)))
  {
    hide Or, Unpack;
    Pow2Values();
    var p, q := Residue(s1), Residue(s2);
    assert s1 >= 3 * BASE ==> p == s1 - 3 * BASE;
    assert s2 >= 4 * BASE ==> q == s2 - 4 * BASE;
    if a < 0x1_0000 {
      OrDisjoint(b, 16, a);
      assert Or(a, Shl(b, 16)) == b * 0x1_0000 + a;
      if s1 < 3 * BASE && s2 < 4 * BASE {
        PackUnpack(Sums(p, q));
      }
    } else {
      OrKeepsLow(a, b, 16);
      DivModUnique(a, 0x1_0000, 1, a - 0x1_0000);
      DivModUnique(q * 0x1_0000 + p, 0x1_0000, q, p);
    }
  }

  lemma {:induction false} OrKeepsLow(x: nat, y: nat, n: nat)
    ensures Or(x, y * Pow2(n)) % Pow2(n) == x % Pow2(n)
    decreases n
  {
    hide Or;
    if n > 0 {
      var p := Pow2(n - 1);
      OrKeepsLow(x / 2, y, n - 1);
      var z := Or(x / 2, y * p);
      OrHalf(x, y * p);
      LowOf(z, x, p);
      assert y * Pow2(n) == 2 * (y * p) by { Twice(y, p); }
    }
  }

  lemma Twice(y: nat, p: nat)
    ensures y * (2 * p) == 2 * (y * p)
  {
  }

  lemma OrHalf(x: nat, m: nat)
    ensures Or(x, 2 * m) == 2 * Or(x / 2, m) + x % 2
  {
  }

  lemma LowOf(z: nat, x: nat, p: nat)
    requires p > 0 && z % p == x / 2 % p
    ensures (2 * z + x % 2) % (2 * p) == x % (2 * p)
  {
    HalfRemainder(2 * z + x % 2, p);
    HalfRemainder(x, p);
  }

  lemma HalfRemainder(x: nat, p: nat)
    requires p > 0
    ensures x % (2 * p) == 2 * (x / 2 % p) + x % 2
  {
    var q, r := x / 2 / p, x / 2 % p;
    assert x == q * (2 * p) + (2 * r + x % 2);
    DivModUnique(x, 2 * p, q, 2 * r + x % 2);
  }

  lemma BaseIs()
    ensures BASE == 65521 && NMAX == 5552
  {
  }

  lemma JoinedIs(x: Sums, y: Sums, len: nat)
    ensures Joined(x, y, len) == Sums(Residue(FirstOf(x, y)), Residue(SecondOf(x, y, len)))
  {
    hide Scaled, Residue;
  }

  /** What two subtractions leave of the first sum, and of the second. */
  function FirstCut(x: nat): (r: nat)
    ensures x < 4 * BASE ==> r < 2 * BASE
  {
    if x < 3 * BASE then Residue(x) else x - 2 * BASE
  }

  function SecondCut(x: nat): (r: nat)
    ensures x < 5 * BASE ==> r < 2 * BASE
  {
    if x < 4 * BASE then Residue(x) else x - 3 * BASE
  }

  /** The last reductions, by subtraction alone. */
  method Subtract(sum10: uint32, sum20: uint32) returns (sum1: uint32, sum2: uint32)
    requires sum10 < 4 * BASE && sum20 < 5 * BASE
    ensures sum1 == FirstCut(sum10) && sum2 == SecondCut(sum20)
  {
    hide Residue;
    sum1, sum2 := sum10, sum20;
    if sum1 < 3 * BASE { ThreeBases(sum1); }
    if sum1 >= BASE { sum1 := sum1 - BASE; }
    if sum1 >= BASE { sum1 := sum1 - BASE; }
    if sum2 < 4 * BASE { FourBases(sum2); }
    if sum2 >= 2 * BASE { sum2 := sum2 - 2 * BASE; }
    if sum2 >= BASE { sum2 := sum2 - BASE; }
  }

  /** Two subtractions reduce a sum of at most three remainders. */
  lemma ThreeBases(x: nat)
    requires x < 3 * BASE
    ensures Residue(x) == if x >= 2 * BASE then x - 2 * BASE else if x >= BASE then x - BASE else x
  {
  }

  lemma FourBases(x: nat)
    requires x < 4 * BASE
    ensures x >= 2 * BASE ==> Residue(x) == if x >= 3 * BASE then x - 3 * BASE else x - 2 * BASE
    ensures x < 2 * BASE ==> Residue(x) == if x >= BASE then x - BASE else x
  {
  }

  /** `MOD63(len2)` */
  method Remainder(len2: nat) returns (rem: uint32)
    requires len2 < 0x8000_0000_0000_0000
    ensures rem == Residue(len2)
  {
    rem := Mod63(len2);
  }

  /** `sum2 = rem * sum1; MOD(sum2);` */
  method MulMod(rem: uint32, sum1: uint32, ghost len2: nat) returns (sum2: uint32)
    requires rem == Residue(len2) && sum1 < 0x1_0000
    ensures sum2 == Scaled(len2, sum1)
  {
    ProductFits(rem, sum1);
    sum2 := rem * sum1;
    sum2 := Mod(sum2);
  }

  lemma ProductFits(x: nat, y: nat)
    requires x < BASE && y < 0x1_0000
    ensures 0 <= x * y < 0x1_0000_0000
  {
    MulMono(x, BASE, y);
    MulMono(y, 0x1_0000, BASE);
  }

  lemma MulMono(x: nat, y: nat, z: nat)
    requires x <= y
    ensures 0 <= x * z <= y * z
  {
  }

  lemma ModMul(x: nat, y: nat)
    ensures (x % BASE * (y % BASE)) % BASE == (x * y) % BASE
  {
    var q, r, p, s := x / BASE, x % BASE, y / BASE, y % BASE;
    ModProduct(q, r, p, s);
    MulMono(0, r, s);
    var z := r * s;
    var k := q * (BASE * p + s) + r * p;
    DivModUnique(x * y, BASE, z / BASE + k, z % BASE);
  }

  lemma ModProduct(q: nat, r: nat, p: nat, s: nat)
    ensures (BASE * q + r) * (BASE * p + s) == BASE * (q * (BASE * p + s) + r * p) + r * s
    ensures q * (BASE * p + s) + r * p >= 0
  {
    var y := BASE * p + s;
    assert (BASE * q + r) * y == BASE * (q * y) + r * y by { SplitLeft(BASE * q, r, y); MulTwiceOver(BASE, q, y); }
    assert r * y == BASE * (r * p) + r * s by { SplitRight(r, BASE * p, s); MulSwap(r, BASE, p); }
  }

  lemma SplitLeft(x: nat, y: nat, z: nat) ensures (x + y) * z == x * z + y * z { }
  lemma SplitRight(x: nat, y: nat, z: nat) ensures x * (y + z) == x * y + x * z { }
  lemma MulTwiceOver(x: nat, y: nat, z: nat) ensures (x * y) * z == x * (y * z) { }
  lemma MulSwap(x: nat, y: nat, z: nat) ensures x * (y * z) == y * (x * z) { }

  /** The combination of two checksums is the checksum of the two buffers joined. */
  lemma CombineIsConcat(x: seq<byte>, y: seq<byte>)
    ensures Adler(x + y) == Pack(Joined(Unpack(Adler(x)), Unpack(Adler(y)), |y|))
  {
    hide Sum1, Sum2, Running, Unpack, Pack, Reduced;
    AdlerSums(x);
    AdlerSums(y);
    DeferredSums(1, 0, x + y);
    ConcatSums(x, y);
    var a, b, c, d, n := Sum1(1, x), Sum2(1, 0, x), Sum1(1, y), Sum2(1, 0, y), |y|;
    FirstSum(a, c, Sum1(1, x + y));
    SecondSum(a, b, d, n, n * a, Sum2(1, 0, x + y));
  }

  lemma FirstSum(a: nat, c: nat, t: nat)
    requires t + 1 == a + c
    ensures t % BASE == (a % BASE + c % BASE + BASE - 1) % BASE
  {
    var z := a % BASE + c % BASE + BASE - 1;
    assert t + BASE == z + BASE * (a / BASE + c / BASE);
    DivModUnique(t, BASE, z / BASE + (a / BASE + c / BASE) - 1, z % BASE);
  }

  lemma SecondSum(a: nat, b: nat, d: nat, n: nat, p: nat, t: nat)
    requires p == n * a && t + n == b + d + p
    ensures t % BASE == (n % BASE * (a % BASE) % BASE + b % BASE + d % BASE + BASE - n % BASE) % BASE
  {
    ModMul(n, a);
    var z := p % BASE + b % BASE + d % BASE + BASE - n % BASE;
    var k := p / BASE + b / BASE + d / BASE - n / BASE - 1;
    assert t == z + BASE * k;
    DivModUnique(t, BASE, z / BASE + k, z % BASE);
  }
}
