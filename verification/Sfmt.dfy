/** The SFMT generator (dep/SFMT): the recursion on 128-bit words, bulk and in-place
    generation, and the draws made from it. */
module Sfmt {
  import opened Words
  import opened ExclusiveOr
  import opened WordBits

  /** Four 32-bit lanes, lowest first. */
  datatype W128 = W128(u0: nat, u1: nat, u2: nat, u3: nat)

  predicate InRange(w: W128) {
    w.u0 < 0x1_0000_0000 && w.u1 < 0x1_0000_0000 && w.u2 < 0x1_0000_0000 && w.u3 < 0x1_0000_0000
  }

  /** The parameters SFMT-params.h supplies. */
  datatype Params = Params(n: nat, pos1: nat, sl1: nat, sl2: nat, sr1: nat, sr2: nat, mask: W128)

  ghost predicate Proper(p: Params) {
    2 <= p.n && 1 <= p.pos1 < p.n && 0 < p.sl2 < 8 && 0 < p.sr2 < 8
  }

  // ---------- shifts of 128 bits ----------

  function Low64(w: W128): nat { Shl(w.u1, 32) + w.u0 }
  function High64(w: W128): nat { Shl(w.u3, 32) + w.u2 }
  function Value(w: W128): nat { Shl(High64(w), 64) + Low64(w) }

  function FromHalves(hi: nat, lo: nat): W128 {
    W128(Low(lo, 32), Low(Shr(lo, 32), 32), Low(hi, 32), Low(Shr(hi, 32), 32))
  }

  /** `lshift128`, with the carry between the 64-bit halves written out. */
  function LShift128(w: W128, shift: nat): W128
    requires 0 < shift < 8
  {
    var th, tl := Or(Shl(w.u3, 32), w.u2), Or(Shl(w.u1, 32), w.u0);
    var oh, ol := Low(Shl(th, shift * 8), 64), Low(Shl(tl, shift * 8), 64);
    FromHalves(Or(oh, Shr(tl, 64 - shift * 8)), ol)
  }

  /** `rshift128`. */
  function RShift128(w: W128, shift: nat): W128
    requires 0 < shift < 8
  {
    var th, tl := Or(Shl(w.u3, 32), w.u2), Or(Shl(w.u1, 32), w.u0);
    var oh, ol := Shr(th, shift * 8), Shr(tl, shift * 8);
    FromHalves(oh, Or(ol, Low(Shl(th, 64 - shift * 8), 64)))
  }

  lemma Halves(w: W128)
    requires InRange(w)
    ensures Or(Shl(w.u3, 32), w.u2) == High64(w) < Pow2(64)
    ensures Or(Shl(w.u1, 32), w.u0) == Low64(w) < Pow2(64)
  {
    Pow2Word();
    OrDisjoint(w.u3, 32, w.u2);
    OrDisjoint(w.u1, 32, w.u0);
    JoinBelow(w.u3, 32, w.u2, 32);
    JoinBelow(w.u1, 32, w.u0, 32);
  }

  lemma JoinBelow(hi: nat, m: nat, lo: nat, n: nat)
    requires hi < Pow2(m) && lo < Pow2(n)
    ensures Shl(hi, n) + lo < Pow2(m + n)
  {
    Pow2Add(m, n);
    MulWeak(hi + 1, Pow2(m), Pow2(n));
    assert (hi + 1) * Pow2(n) == Shl(hi, n) + Pow2(n) by { ShlSum(hi, 1, n); assert Shl(1, n) == Pow2(n); }
  }

  lemma HalvesBack(hi: nat, lo: nat)
    requires hi < Pow2(64) && lo < Pow2(64)
    ensures var w := FromHalves(hi, lo); High64(w) == hi && Low64(w) == lo && InRange(w)
  {
    hide Shl, Shr, Low;
    Pow2Word();
    SplitSum(hi, 32);
    SplitSum(lo, 32);
    ShrBelow(hi, 32, 32);
    ShrBelow(lo, 32, 32);
    LowSmall(Shr(hi, 32), 32);
    LowSmall(Shr(lo, 32), 32);
  }

  /** What the left shift leaves in the two halves. */
  lemma LShiftHalves(w: W128, shift: nat)
    requires InRange(w) && 0 < shift < 8
    ensures var k := shift * 8;
            LShift128(w, shift) == FromHalves(Shl(Low(High64(w), 64 - k), k) + Shr(Low64(w), 64 - k), Low(Shl(Low64(w), k), 64))
    ensures Shr(Low64(w), 64 - shift * 8) < Pow2(shift * 8)
  {
    hide Shl, Shr, Low, Or, High64, Low64, FromHalves, InRange, Pow2;
    Halves(w);
    var k, th, tl := shift * 8, High64(w), Low64(w);
    ShlFields(th, 64 - k, k);
    ShrBelow(tl, k, 64 - k);
    OrShl(Low(th, 64 - k), k, Shr(tl, 64 - k));
  }

  /** The left shift is a shift of the 128-bit value. */
  lemma LShiftIsShift(w: W128, shift: nat)
    requires InRange(w) && 0 < shift < 8
    ensures Value(LShift128(w, shift)) == Low(Shl(Value(w), shift * 8), 128)
    ensures InRange(LShift128(w, shift))
  {
    hide Shl, Shr, Low, Or, High64, Low64, FromHalves, InRange, LShift128, Pow2;
    Halves(w);
    LShiftHalves(w, shift);
    var k, th, tl := shift * 8, High64(w), Low64(w);
    var hi, lo := Low(th, 64 - k), Shr(tl, 64 - k);
    ShlJoin(th, tl, k);
    JoinBelow(hi, 64 - k, lo, k);
    HalvesBack(Shl(hi, k) + lo, Low(Shl(tl, k), 64));
    LowOfJoin(Shl(th, k) + lo, 64, Low(Shl(tl, k), 64), 64);
    LowAdd(th, k, lo);
  }

  lemma OrShl(hi: nat, n: nat, lo: nat)
    requires lo < Pow2(n)
    ensures Or(Shl(hi, n), lo) == Or(lo, Shl(hi, n)) == Shl(hi, n) + lo
  {
    OrDisjoint(hi, n, lo);
  }

  /** (th * 2^64 + tl) * 2^k, regrouped at bit 64. */
  lemma ShlJoin(th: nat, tl: nat, k: nat)
    requires k <= 64
    ensures Shl(Shl(th, 64) + tl, k) == Shl(Shl(th, k) + Shr(tl, 64 - k), 64) + Low(Shl(tl, k), 64)
  {
    hide Shl, Shr, Low;
    ShlSum(Shl(th, 64), tl, k);
    ShlAdd(th, 64, k);
    ShlAdd(th, k, 64);
    SplitSum(Shl(tl, k), 64);
    ShlFields(tl, 64 - k, k);
    ShlSum(Shl(th, k), Shr(tl, 64 - k), 64);
  }

  lemma LowOfJoin(hi: nat, n: nat, lo: nat, m: nat)
    requires lo < Pow2(n)
    ensures Low(Shl(hi, n) + lo, m + n) == Shl(Low(hi, m), n) + lo
  {
    hide Shl, Shr, Low;
    SplitSum(hi, m);
    ShlSum(Shl(Shr(hi, m), m), Low(hi, m), n);
    ShlAdd(Shr(hi, m), m, n);
    JoinBelow(Low(hi, m), m, lo, n);
    JoinedParts(Shr(hi, m), m + n, Shl(Low(hi, m), n) + lo);
  }

  /** The low 64 bits of th * 2^k + lo. */
  lemma LowAdd(th: nat, k: nat, lo: nat)
    requires k <= 64 && lo < Pow2(k)
    ensures Low(Shl(th, k) + lo, 64) == Shl(Low(th, 64 - k), k) + lo
  {
    LowOfJoin(th, k, lo, 64 - k);
  }

  lemma RShiftHalves(w: W128, shift: nat)
    requires InRange(w) && 0 < shift < 8
    ensures var k := shift * 8;
            RShift128(w, shift) == FromHalves(Shr(High64(w), k), Shl(Low(High64(w), k), 64 - k) + Shr(Low64(w), k))
    ensures Shr(Low64(w), shift * 8) < Pow2(64 - shift * 8)
  {
    hide Shl, Shr, Low, Or, High64, Low64, FromHalves, InRange, Pow2;
    Halves(w);
    var k, th, tl := shift * 8, High64(w), Low64(w);
    ShlFields(th, k, 64 - k);
    ShrBelow(tl, 64 - k, k);
    OrShl(Low(th, k), 64 - k, Shr(tl, k));
  }

  /** The right shift is a shift of the 128-bit value. */
  lemma RShiftIsShift(w: W128, shift: nat)
    requires InRange(w) && 0 < shift < 8
    ensures Value(RShift128(w, shift)) == Shr(Value(w), shift * 8)
    ensures InRange(RShift128(w, shift))
  {
    hide Shl, Shr, Low, Or, High64, Low64, FromHalves, InRange, RShift128, Pow2;
    Halves(w);
    RShiftHalves(w, shift);
    var k, th, tl := shift * 8, High64(w), Low64(w);
    JoinBelow(Low(th, k), k, Shr(tl, k), 64 - k);
    ShrBelow(th, 64 - k, k);
    Pow2Monotone(64 - k, 64);
    HalvesBack(Shr(th, k), Shl(Low(th, k), 64 - k) + Shr(tl, k));
    ShrJoin(th, tl, k);
  }

  lemma ShrJoin(th: nat, tl: nat, k: nat)
    requires k <= 64
    ensures Shr(Shl(th, 64) + tl, k) == Shl(Shr(th, k), 64) + (Shl(Low(th, k), 64 - k) + Shr(tl, k))
  {
    hide Shl, Shr, Low;
    var q := Shl(Shr(th, k), 64) + (Shl(Low(th, k), 64 - k) + Shr(tl, k));
    SplitSum(th, k);
    SplitSum(tl, k);
    ShlSum(Shl(Shr(th, k), k), Low(th, k), 64);
    ShlAdd(Shr(th, k), k, 64);
    ShlAdd(Shr(th, k), 64, k);
    ShlAdd(Low(th, k), 64 - k, k);
    ShlSum(Shl(Shr(th, k), 64), Shl(Low(th, k), 64 - k) + Shr(tl, k), k);
    ShlSum(Shl(Low(th, k), 64 - k), Shr(tl, k), k);
    JoinedParts(q, k, Low(tl, k));
  }

  // ---------- the recursion ----------

  /** One lane of the recursion. */
  function Lane(a: nat, x: nat, b: nat, mask: nat, y: nat, d: nat, p: Params): nat {
    Xor(Xor(Xor(Xor(a, x), And(Shr(b, p.sr1), mask)), y), Low(Shl(d, p.sl1), 32))
  }

  /** The new word from the words N, N - POS1, 2 and 1 places back. */
  function Recursion(p: Params, a: W128, b: W128, c: W128, d: W128): W128
    requires Proper(p)
  {
    var x, y := LShift128(a, p.sl2), RShift128(c, p.sr2);
    W128(Lane(a.u0, x.u0, b.u0, p.mask.u0, y.u0, d.u0, p),
         Lane(a.u1, x.u1, b.u1, p.mask.u1, y.u1, d.u1, p),
         Lane(a.u2, x.u2, b.u2, p.mask.u2, y.u2, d.u2, p),
         Lane(a.u3, x.u3, b.u3, p.mask.u3, y.u3, d.u3, p))
  }

  /** Lane k, lowest first. */
  function LaneOf(w: W128, k: nat): nat {
    if k == 0 then w.u0 else if k == 1 then w.u1 else if k == 2 then w.u2 else w.u3
  }

  /** Bit i of lane k is bit 32k + i of the 128-bit value. */
  lemma LaneBits(w: W128, k: nat, i: nat)
    requires InRange(w) && k < 4 && i < 32
    ensures Bit(Value(w), 32 * k + i) == Bit(LaneOf(w, k), i)
  {
    hide Bit, Shl, Pow2, Or;
    Halves(w);
    Pow2Word();
    var j := 32 * k + i;
    BitJoin(High64(w), 64, Low64(w), j);
    if k < 2 {
      HalfBits(w.u1, w.u0, j);
    } else {
      HalfBits(w.u3, w.u2, j - 64);
    }
  }

  lemma HalfBits(hi: nat, lo: nat, j: nat)
    requires lo < 0x1_0000_0000
    ensures Bit(Shl(hi, 32) + lo, j) == if j < 32 then Bit(lo, j) else Bit(hi, j - 32)
  {
    hide Bit, Shl, Pow2;
    Pow2Word();
    BitJoin(hi, 32, lo, j);
  }

  /** Bit i of lane k of r is the exclusive or of: the bit of a; the bit of a shifted left by
      sl2 bytes, over all 128 bits; the bit of b's lane shifted right by sr1, if the mask has
      it; the bit of c shifted right by sr2 bytes, over all 128 bits; and the bit of d's lane
      shifted left by sl1. */
  ghost predicate RecursionBit(p: Params, r: W128, a: W128, b: W128, c: W128, d: W128, k: nat, i: nat) {
    var t1 := Bit(LaneOf(a, k), i);
    var t2 := BitAt(Value(a), 32 * k + i - 8 * p.sl2);
    var t3 := i + p.sr1 < 32 && Bit(LaneOf(b, k), i + p.sr1) && Bit(LaneOf(p.mask, k), i);
    var t4 := BitAt(Value(c), 32 * k + i + 8 * p.sr2);
    var t5 := BitAt(LaneOf(d, k), i - p.sl1);
    Bit(LaneOf(r, k), i) == (t1 != (t2 != (t3 != (t4 != t5))))
  }

  /** The recursion bit by bit. */
  ghost predicate Obeys(p: Params, r: W128, a: W128, b: W128, c: W128, d: W128) {
    forall k, i :: 0 <= k < 4 && 0 <= i < 32 ==> RecursionBit(p, r, a, b, c, d, k, i)
  }

  lemma LaneBit(a: nat, x: nat, b: nat, mask: nat, y: nat, d: nat, p: Params, i: nat)
    requires b < Pow2(32) && i < 32
    ensures Bit(Lane(a, x, b, mask, y, d, p), i) ==
            (Bit(a, i) != (Bit(x, i) != ((i + p.sr1 < 32 && Bit(b, i + p.sr1) && Bit(mask, i)) != (Bit(y, i) != BitAt(d, i - p.sl1)))))
  {
    hide Bit, Xor, And, Shl, Shr, Low, Pow2;
    var t, u := And(Shr(b, p.sr1), mask), Low(Shl(d, p.sl1), 32);
    BitXor(Xor(Xor(Xor(a, x), t), y), u, i);
    BitXor(Xor(Xor(a, x), t), y, i);
    BitXor(Xor(a, x), t, i);
    BitXor(a, x, i);
    BitAnd(Shr(b, p.sr1), mask, i);
    BitShr(b, p.sr1, i);
    if i + p.sr1 >= 32 { BitBelow(b, 32, i + p.sr1); }
    BitLow(Shl(d, p.sl1), 32, i);
    BitShl(d, p.sl1, i);
  }

  /** The new word has the bits that the recursion prescribes. */
  lemma RecursionBits(p: Params, a: W128, b: W128, c: W128, d: W128)
    requires Proper(p) && InRange(a) && InRange(b) && InRange(c)
    ensures Obeys(p, Recursion(p, a, b, c, d), a, b, c, d)
  {
    hide Bit, Lane, LShift128, RShift128, Value, Low, Shl, Shr, Pow2;
    Pow2Word();
    var x, y, r := LShift128(a, p.sl2), RShift128(c, p.sr2), Recursion(p, a, b, c, d);
    LShiftIsShift(a, p.sl2);
    RShiftIsShift(c, p.sr2);
    forall k, i | 0 <= k < 4 && 0 <= i < 32 ensures RecursionBit(p, r, a, b, c, d, k, i) {
      LaneBit(LaneOf(a, k), LaneOf(x, k), LaneOf(b, k), LaneOf(p.mask, k), LaneOf(y, k), LaneOf(d, k), p, i);
      LaneBits(x, k, i);
      LaneBits(y, k, i);
      BitLow(Shl(Value(a), p.sl2 * 8), 128, 32 * k + i);
      BitShl(Value(a), p.sl2 * 8, 32 * k + i);
      BitShr(Value(c), p.sr2 * 8, 32 * k + i);
    }
  }

  /** A 128-bit word in memory. */
  function Load(u: array<nat>): W128
    requires u.Length == 4
    reads u
  {
    W128(u[0], u[1], u[2], u[3])
  }

  /** `do_recursion`, lane by lane through pointers. The output may be any of the inputs. */
  method DoRecursion(r: array<nat>, a: array<nat>, b: array<nat>, c: array<nat>, d: array<nat>, p: Params)
    requires Proper(p) && r.Length == a.Length == b.Length == c.Length == d.Length == 4
    modifies r
    ensures Load(r) == Recursion(p, old(Load(a)), old(Load(b)), old(Load(c)), old(Load(d)))
    ensures InRange(old(Load(a))) && InRange(old(Load(b))) && InRange(old(Load(c))) ==>
              Obeys(p, Load(r), old(Load(a)), old(Load(b)), old(Load(c)), old(Load(d)))
  {
    hide Lane, LShift128, RShift128, InRange, Obeys;
    if InRange(Load(a)) && InRange(Load(b)) && InRange(Load(c)) { RecursionBits(p, Load(a), Load(b), Load(c), Load(d)); }
    var x := LShift128(Load(a), p.sl2);
    var y := RShift128(Load(c), p.sr2);
    r[0] := Lane(a[0], x.u0, b[0], p.mask.u0, y.u0, d[0], p);
    r[1] := Lane(a[1], x.u1, b[1], p.mask.u1, y.u1, d[1], p);
    r[2] := Lane(a[2], x.u2, b[2], p.mask.u2, y.u2, d[2], p);
    r[3] := Lane(a[3], x.u3, b[3], p.mask.u3, y.u3, d[3], p);
  }

  /** Term k of the sequence that starts with the words of s. */
  function Term(p: Params, s: seq<W128>, k: nat): W128
    requires Proper(p) && |s| == p.n
  {
    if k < p.n then s[k]
    else Recursion(p, Term(p, s, k - p.n), Term(p, s, k - p.n + p.pos1), Term(p, s, k - 2), Term(p, s, k - 1))
  }

  lemma {:induction false} AndAtMost(x: nat, y: nat)
    ensures And(x, y) <= x
    decreases x + y
  {
    if x != 0 && y != 0 { AndAtMost(x / 2, y / 2); }
  }

  lemma LaneBelow(a: nat, x: nat, b: nat, mask: nat, y: nat, d: nat, p: Params)
    requires a < Pow2(32) && x < Pow2(32) && b < Pow2(32) && y < Pow2(32)
    ensures Lane(a, x, b, mask, y, d, p) < Pow2(32)
  {
    hide Xor, And, Shr, Shl, Low, Pow2;
    var t, u := And(Shr(b, p.sr1), mask), Low(Shl(d, p.sl1), 32);
    AndAtMost(Shr(b, p.sr1), mask);
    ShrAtMost(b, p.sr1);
    XorBelow(a, x, 32);
    XorBelow(Xor(a, x), t, 32);
    XorBelow(Xor(Xor(a, x), t), y, 32);
    XorBelow(Xor(Xor(Xor(a, x), t), y), u, 32);
  }

  lemma ShrAtMost(x: nat, n: nat)
    ensures Shr(x, n) <= x
  {
    DivNat(x, Pow2(n));
  }

  lemma RecursionInRange(p: Params, a: W128, b: W128, c: W128, d: W128)
    requires Proper(p) && InRange(a) && InRange(b) && InRange(c)
    ensures InRange(Recursion(p, a, b, c, d))
  {
    hide Lane, LShift128, RShift128, Value, Low, Shl, Shr, Pow2;
    Pow2Word();
    var x, y := LShift128(a, p.sl2), RShift128(c, p.sr2);
    LShiftIsShift(a, p.sl2);
    RShiftIsShift(c, p.sr2);
    LaneBelow(a.u0, x.u0, b.u0, p.mask.u0, y.u0, d.u0, p);
    LaneBelow(a.u1, x.u1, b.u1, p.mask.u1, y.u1, d.u1, p);
    LaneBelow(a.u2, x.u2, b.u2, p.mask.u2, y.u2, d.u2, p);
    LaneBelow(a.u3, x.u3, b.u3, p.mask.u3, y.u3, d.u3, p);
  }

  lemma {:induction false} TermInRange(p: Params, s: seq<W128>, k: nat)
    requires Proper(p) && |s| == p.n && forall j :: 0 <= j < p.n ==> InRange(s[j])
    ensures InRange(Term(p, s, k))
    decreases k
  {
    hide Recursion, InRange;
    if k >= p.n {
      TermInRange(p, s, k - p.n);
      TermInRange(p, s, k - p.n + p.pos1);
      TermInRange(p, s, k - 2);
      RecursionInRange(p, Term(p, s, k - p.n), Term(p, s, k - p.n + p.pos1), Term(p, s, k - 2), Term(p, s, k - 1));
    }
  }

  /** The sequence of a seed, bit by bit: every word after the first N comes by the recursion
      from the words N, N - POS1, 2 and 1 places back. */
  lemma TermObeys(p: Params, s: seq<W128>, k: nat)
    requires Proper(p) && |s| == p.n && (forall j :: 0 <= j < p.n ==> InRange(s[j])) && k >= p.n
    ensures Obeys(p, Term(p, s, k), Term(p, s, k - p.n), Term(p, s, k - (p.n - p.pos1)), Term(p, s, k - 2), Term(p, s, k - 1))
  {
    hide Recursion, InRange, Obeys;
    TermInRange(p, s, k - p.n);
    TermInRange(p, s, k - p.n + p.pos1);
    TermInRange(p, s, k - 2);
    RecursionBits(p, Term(p, s, k - p.n), Term(p, s, k - p.n + p.pos1), Term(p, s, k - 2), Term(p, s, k - 1));
  }

  /** t holds the N terms from m on. */
  ghost predicate Window(p: Params, s: seq<W128>, t: seq<W128>, m: nat)
    requires Proper(p) && |s| == p.n
  {
    |t| == p.n && forall j :: 0 <= j < p.n ==> t[j] == Term(p, s, m + j)
  }

  /** Restarting the sequence from any N consecutive terms goes on with it. */
  lemma {:induction false} TermRestarts(p: Params, s: seq<W128>, t: seq<W128>, m: nat, k: nat)
    requires Proper(p) && |s| == p.n && Window(p, s, t, m)
    ensures Term(p, t, k) == Term(p, s, m + k)
    decreases k
  {
    hide Recursion;
    if k >= p.n {
      TermRestarts(p, s, t, m, k - p.n);
      TermRestarts(p, s, t, m, k - p.n + p.pos1);
      TermRestarts(p, s, t, m, k - 2);
      TermRestarts(p, s, t, m, k - 1);
      assert m + k - p.n == m + (k - p.n) && m + k - p.n + p.pos1 == m + (k - p.n + p.pos1);
    }
  }

  // ---------- filling the state and filling an array ----------

  /** The first i words have been replaced by the terms N places later. */
  ghost predicate Replaced(p: Params, s: seq<W128>, t: seq<W128>, i: nat)
    requires Proper(p) && |s| == p.n
  {
    && |t| == p.n && i <= p.n
    && (forall j :: 0 <= j < i ==> t[j] == Term(p, s, p.n + j))
    && (forall j :: i <= j < p.n ==> t[j] == Term(p, s, j))
  }

  lemma TermStep(p: Params, s: seq<W128>, i: nat)
    requires Proper(p) && |s| == p.n
    ensures Term(p, s, p.n + i) == Recursion(p, Term(p, s, i), Term(p, s, i + p.pos1), Term(p, s, p.n + i - 2), Term(p, s, p.n + i - 1))
  {
    hide Recursion;
    assert p.n + i - p.n == i && p.n + i - p.n + p.pos1 == i + p.pos1;
  }

  /** Where a term sits while the state is being replaced. */
  function Place(p: Params, k: nat): nat { if k < p.n then k else k - p.n }

  lemma ReplacedAt(p: Params, s: seq<W128>, t: seq<W128>, i: nat, k: nat)
    requires Proper(p) && |s| == p.n && Replaced(p, s, t, i) && i <= k < i + p.n
    ensures Place(p, k) < |t| == p.n && t[Place(p, k)] == Term(p, s, k)
  {
    hide Term;
    if k >= p.n { assert p.n + (k - p.n) == k; }
  }

  lemma ReplacedStep(p: Params, s: seq<W128>, t: seq<W128>, i: nat)
    requires Proper(p) && |s| == p.n && Replaced(p, s, t, i) && i < p.n
    ensures Place(p, i + p.pos1) < |t| == p.n && Place(p, p.n + i - 2) < |t| && Place(p, p.n + i - 1) < |t|
    ensures var v := Recursion(p, t[i], t[Place(p, i + p.pos1)], t[Place(p, p.n + i - 2)], t[Place(p, p.n + i - 1)]);
            Replaced(p, s, t[i := v], i + 1)
  {
    hide Recursion, Term;
    TermStep(p, s, i);
    ReplacedAt(p, s, t, i, i);
    ReplacedAt(p, s, t, i, i + p.pos1);
    ReplacedAt(p, s, t, i, p.n + i - 2);
    ReplacedAt(p, s, t, i, p.n + i - 1);
  }

  lemma ReplacedStart(p: Params, s: seq<W128>)
    requires Proper(p) && |s| == p.n
    ensures Replaced(p, s, s, 0)
  {
    hide Recursion;
  }

  lemma ReplacedAll(p: Params, s: seq<W128>, t: seq<W128>)
    requires Proper(p) && |s| == p.n && Replaced(p, s, t, p.n)
    ensures Window(p, s, t, p.n)
  {
  }

  /** `sfmt_gen_rand_all`: the state moves on by N terms, in place. */
  method GenRandAll(state: array<W128>, p: Params)
    requires Proper(p) && state.Length == p.n
    modifies state
    ensures Window(p, old(state[..]), state[..], p.n)
  {
    hide Recursion, Replaced, Window;
    ghost var s, t := state[..], state[..];
    ReplacedStart(p, s);
    var r1, r2 := p.n - 2, p.n - 1;
    var i: nat := 0;
    while i < p.n - p.pos1
      invariant i <= p.n - p.pos1 && state[..] == t && Replaced(p, s, t, i)
      invariant r1 == Place(p, p.n + i - 2) && r2 == Place(p, p.n + i - 1)
    {
      ReplacedStep(p, s, t, i);
      state[i] := Recursion(p, state[i], state[i + p.pos1], state[r1], state[r2]);
      t := t[i := Recursion(p, t[i], t[i + p.pos1], t[r1], t[r2])];
      r1 := r2;
      r2 := i;
      i := i + 1;
    }
    while i < p.n
      invariant p.n - p.pos1 <= i <= p.n && state[..] == t && Replaced(p, s, t, i)
      invariant r1 == Place(p, p.n + i - 2) && r2 == Place(p, p.n + i - 1)
    {
      ReplacedStep(p, s, t, i);
      state[i] := Recursion(p, state[i], state[i + p.pos1 - p.n], state[r1], state[r2]);
      t := t[i := Recursion(p, t[i], t[i + p.pos1 - p.n], t[r1], t[r2])];
      r1 := r2;
      r2 := i;
      i := i + 1;
    }
    ReplacedAll(p, s, t);
  }

  /** The first i words of the array are the terms after the state, and r1 and r2 are the
      last two terms made. */
  ghost predicate Filled(p: Params, s: seq<W128>, a: seq<W128>, i: nat, r1: W128, r2: W128)
    requires Proper(p) && |s| == p.n
  {
    && i <= |a|
    && (forall j :: 0 <= j < i ==> a[j] == Term(p, s, p.n + j))
    && r1 == Term(p, s, p.n + i - 2) && r2 == Term(p, s, p.n + i - 1)
  }

  lemma FilledStart(p: Params, s: seq<W128>, a: seq<W128>)
    requires Proper(p) && |s| == p.n
    ensures Filled(p, s, a, 0, s[p.n - 2], s[p.n - 1])
  {
  }

  lemma FilledStep(p: Params, s: seq<W128>, a: seq<W128>, i: nat, r1: W128, r2: W128, x: W128, y: W128)
    requires Proper(p) && |s| == p.n && Filled(p, s, a, i, r1, r2) && i < |a|
    requires x == Term(p, s, i) && y == Term(p, s, i + p.pos1)
    ensures var v := Recursion(p, x, y, r1, r2); Filled(p, s, a[i := v], i + 1, r2, v)
  {
    hide Recursion;
    TermStep(p, s, i);
    var v := Recursion(p, x, y, r1, r2);
    assert p.n + (i + 1) - 2 == p.n + i - 1 && p.n + (i + 1) - 1 == p.n + i;
  }

  lemma FilledAt(p: Params, s: seq<W128>, a: seq<W128>, i: nat, r1: W128, r2: W128, j: nat)
    requires Proper(p) && |s| == p.n && Filled(p, s, a, i, r1, r2) && j < i
    ensures a[j] == Term(p, s, p.n + j)
  {
  }

  /** The first j words of the state are the last N of `size` terms. */
  ghost predicate Carried(p: Params, s: seq<W128>, t: seq<W128>, size: nat, j: nat)
    requires Proper(p) && |s| == p.n
  {
    |t| == p.n && j <= p.n && forall k :: 0 <= k < j ==> t[k] == Term(p, s, size + k)
  }

  lemma CarriedStep(p: Params, s: seq<W128>, t: seq<W128>, size: nat, j: nat, v: W128)
    requires Proper(p) && |s| == p.n && Carried(p, s, t, size, j) && j < p.n && v == Term(p, s, size + j)
    ensures Carried(p, s, t[j := v], size, j + 1)
  {
    hide Term;
  }

  lemma TermOfState(p: Params, s: seq<W128>, k: nat)
    requires Proper(p) && |s| == p.n && k < p.n
    ensures Term(p, s, k) == s[k]
  {
  }

  /** `gen_rand_array`: whatever the size from N on, the array gets the next terms and the
      state their last N. */
  method GenRandArray(state: array<W128>, a: array<W128>, size: nat, p: Params)
    requires Proper(p) && state.Length == p.n <= size == a.Length && state != a
    modifies state, a
    ensures forall i :: 0 <= i < size ==> a[i] == Term(p, old(state[..]), p.n + i)
    ensures Window(p, old(state[..]), state[..], size)
  {
    hide Recursion, Term, Filled, Carried;
    ghost var s, f := state[..], a[..];
    FilledStart(p, s, f);
    var r1, r2 := state[p.n - 2], state[p.n - 1];
    var i: nat := 0;
    while i < p.n - p.pos1
      invariant i <= p.n - p.pos1 && state[..] == s && a[..] == f && Filled(p, s, f, i, r1, r2)
    {
      TermOfState(p, s, i);
      TermOfState(p, s, i + p.pos1);
      FilledStep(p, s, f, i, r1, r2, s[i], s[i + p.pos1]);
      a[i] := Recursion(p, state[i], state[i + p.pos1], r1, r2);
      f := f[i := a[i]];
      r1 := r2;
      r2 := a[i];
      i := i + 1;
    }
    while i < p.n
      invariant p.n - p.pos1 <= i <= p.n && state[..] == s && a[..] == f && Filled(p, s, f, i, r1, r2)
    {
      TermOfState(p, s, i);
      FilledAt(p, s, f, i, r1, r2, i + p.pos1 - p.n);
      FilledStep(p, s, f, i, r1, r2, s[i], f[i + p.pos1 - p.n]);
      a[i] := Recursion(p, state[i], a[i + p.pos1 - p.n], r1, r2);
      f := f[i := a[i]];
      r1 := r2;
      r2 := a[i];
      i := i + 1;
    }
    while i < size - p.n
      invariant p.n <= i <= (if size - p.n < p.n then p.n else size - p.n)
      invariant state[..] == s && a[..] == f && Filled(p, s, f, i, r1, r2)
    {
      FilledAt(p, s, f, i, r1, r2, i - p.n);
      FilledAt(p, s, f, i, r1, r2, i + p.pos1 - p.n);
      FilledStep(p, s, f, i, r1, r2, f[i - p.n], f[i + p.pos1 - p.n]);
      a[i] := Recursion(p, a[i - p.n], a[i + p.pos1 - p.n], r1, r2);
      f := f[i := a[i]];
      r1 := r2;
      r2 := a[i];
      i := i + 1;
    }
    FillTail(state, a, size, p, i, r1, r2, s);
  }

  /** The last N terms, which also become the state. */
  method FillTail(state: array<W128>, a: array<W128>, size: nat, p: Params, i0: nat, r10: W128, r20: W128, ghost s: seq<W128>)
    requires Proper(p) && state.Length == p.n == |s| <= size == a.Length && state != a
    requires i0 == (if size - p.n < p.n then p.n else size - p.n) && Filled(p, s, a[..], i0, r10, r20)
    modifies state, a
    ensures forall i :: 0 <= i < size ==> a[i] == Term(p, s, p.n + i)
    ensures Window(p, s, state[..], size)
  {
    hide Recursion, Term, Filled, Carried;
    ghost var f, t := a[..], state[..];
    var i, r1, r2 := i0, r10, r20;
    var j: nat := 0;
    CarriedStart(p, s, t, size);
    while j < 2 * p.n - size
      invariant j <= (if 2 * p.n < size then 0 else 2 * p.n - size)
      invariant state[..] == t && a[..] == f && |t| == p.n && Carried(p, s, t, size, j)
    {
      FilledAt(p, s, f, i, r1, r2, j + size - p.n);
      CarriedStep(p, s, t, size, j, f[j + size - p.n]);
      state[j] := a[j + size - p.n];
      t := t[j := f[j + size - p.n]];
      j := j + 1;
    }
    while i < size
      invariant p.n <= i <= size && j == i + p.n - size
      invariant state[..] == t && a[..] == f && |t| == p.n
      invariant Filled(p, s, f, i, r1, r2) && Carried(p, s, t, size, j)
    {
      FilledAt(p, s, f, i, r1, r2, i - p.n);
      FilledAt(p, s, f, i, r1, r2, i + p.pos1 - p.n);
      FilledStep(p, s, f, i, r1, r2, f[i - p.n], f[i + p.pos1 - p.n]);
      a[i] := Recursion(p, a[i - p.n], a[i + p.pos1 - p.n], r1, r2);
      f := f[i := a[i]];
      r1 := r2;
      r2 := a[i];
      FilledAt(p, s, f, i + 1, r1, r2, i);
      CarriedStep(p, s, t, size, j, f[i]);
      state[j] := a[i];
      t := t[j := f[i]];
      i := i + 1;
      j := j + 1;
    }
    AllFilled(p, s, f, size, r1, r2);
    AllCarried(p, s, t, size);
  }

  lemma CarriedStart(p: Params, s: seq<W128>, t: seq<W128>, size: nat)
    requires Proper(p) && |s| == p.n == |t|
    ensures Carried(p, s, t, size, 0)
  {
  }

  lemma AllFilled(p: Params, s: seq<W128>, a: seq<W128>, size: nat, r1: W128, r2: W128)
    requires Proper(p) && |s| == p.n && Filled(p, s, a, size, r1, r2)
    ensures forall i :: 0 <= i < size ==> a[i] == Term(p, s, p.n + i)
  {
  }

  lemma AllCarried(p: Params, s: seq<W128>, t: seq<W128>, size: nat)
    requires Proper(p) && |s| == p.n && Carried(p, s, t, size, p.n)
    ensures Window(p, s, t, size)
  {
  }

  // ---------- draws ----------

  /** Word k of the sequence read as 32-bit words. */
  function Word32(p: Params, s: seq<W128>, k: nat): nat
    requires Proper(p) && |s| == p.n
  {
    LaneOf(Term(p, s, k / 4), k % 4)
  }

  lemma WordAt(p: Params, s: seq<W128>, t: seq<W128>, m: nat, idx: nat)
    requires Proper(p) && |s| == p.n && Window(p, s, t, m) && idx < 4 * p.n
    ensures LaneOf(t[idx / 4], idx % 4) == Word32(p, s, 4 * m + idx)
  {
    hide Term;
    assert (4 * m + idx) / 4 == m + idx / 4 && (4 * m + idx) % 4 == idx % 4;
  }

  /** `u64[k]`: two lanes, the first one low. */
  function PairOf(w: W128, k: nat): nat {
    if k == 0 then w.u0 + 0x1_0000_0000 * w.u1 else w.u2 + 0x1_0000_0000 * w.u3
  }

  lemma PairAt(p: Params, s: seq<W128>, t: seq<W128>, m: nat, h: nat)
    requires Proper(p) && |s| == p.n && Window(p, s, t, m) && h < 2 * p.n
    ensures PairOf(t[h / 2], h % 2) == Word32(p, s, 4 * m + 2 * h) + 0x1_0000_0000 * Word32(p, s, 4 * m + 2 * h + 1)
  {
    hide Term, Window, Word32;
    WindowShape(p, s, t, m);
    WordAt(p, s, t, m, 2 * h);
    WordAt(p, s, t, m, 2 * h + 1);
    assert 2 * h / 4 == h / 2 == (2 * h + 1) / 4;
    assert 2 * h % 4 == 2 * (h % 2) && (2 * h + 1) % 4 == 2 * (h % 2) + 1;
  }

  class Generator {
    const p: Params
    const state: array<W128>
    var idx: nat
    // the initial state, and how many terms the state has moved on since
    ghost const seed: seq<W128>
    ghost var base: nat

    ghost predicate Valid()
      reads this, state
    {
      && Proper(p) && |seed| == p.n == state.Length && idx <= 4 * p.n
      && Window(p, seed, state[..], base)
    }

    /** The number of the next word to be drawn. */
    ghost function Position(): nat
      reads this
    {
      4 * base + idx
    }

    /** A state that has been initialised: the first draw will regenerate it. */
    constructor (p: Params, words: seq<W128>)
      requires Proper(p) && |words| == p.n
      ensures Valid() && seed == words && this.p == p && fresh(state)
      ensures idx == 4 * p.n && Position() == 4 * p.n
    {
      this.p := p;
      state := new W128[p.n](i requires 0 <= i < p.n => words[i]);
      idx := 4 * p.n;
      seed := words;
      base := 0;
      new;
      hide Term;
      forall j | 0 <= j < p.n ensures words[j] == Term(p, words, 0 + j) {
        TermOfState(p, words, j);
      }
    }

    /** Words not yet drawn are regenerated when none is left. */
    method Refill()
      requires Valid()
      modifies this, state
      ensures Valid() && Position() == old(Position()) && idx < 4 * p.n
      ensures idx == old(idx) || idx == 0
    {
      hide Term, Recursion;
      if idx >= 4 * p.n {
        ghost var t := state[..];
        GenRandAll(state, p);
        forall j | 0 <= j < p.n ensures state[j] == Term(p, seed, base + p.n + j) {
          TermRestarts(p, seed, t, base, p.n + j);
          assert base + (p.n + j) == base + p.n + j;
        }
        base := base + p.n;
        idx := 0;
      }
    }

    /** `sfmt_genrand_uint32`: the next word of the sequence. */
    method GenrandUint32() returns (r: nat)
      requires Valid()
      modifies this, state
      ensures Valid() && r == Word32(p, seed, old(Position())) && Position() == old(Position()) + 1
    {
      hide Term, Window;
      Refill();
      WindowShape(p, seed, state[..], base);
      WordAt(p, seed, state[..], base, idx);
      r := LaneOf(state[idx / 4], idx % 4);
      idx := idx + 1;
    }

    /** `sfmt_genrand_uint64`: the next two words, the first one low. */
    method GenrandUint64() returns (r: nat)
      requires Valid() && idx % 2 == 0
      modifies this, state
      ensures Valid() && idx % 2 == 0 && Position() == old(Position()) + 2
      ensures r == Word32(p, seed, old(Position())) + 0x1_0000_0000 * Word32(p, seed, old(Position()) + 1)
    {
      hide Term, Window, Word32, PairOf;
      Refill();
      WindowShape(p, seed, state[..], base);
      PairAt(p, seed, state[..], base, idx / 2);
      r := PairOf(state[idx / 2 / 2], idx / 2 % 2);
      idx := idx + 2;
    }

    /** `sfmt_fill_array32`: the words that `size` single draws would give, leaving the
        generator where they would leave it. */
    method FillArray32(a: array<W128>, size: nat)
      requires Valid() && idx == 4 * p.n && size % 4 == 0 && size >= 4 * p.n
      requires a.Length == size / 4 && a != state
      modifies this, state, a
      ensures Valid() && idx == 4 * p.n && Position() == old(Position()) + size
      ensures forall i :: 0 <= i < size ==> LaneOf(a[i / 4], i % 4) == Word32(p, seed, old(Position()) + i)
    {
      hide Term, Recursion;
      ghost var t, m := state[..], base;
      GenRandArray(state, a, size / 4, p);
      forall j | 0 <= j < p.n ensures state[j] == Term(p, seed, m + size / 4 + j) {
        TermRestarts(p, seed, t, m, size / 4 + j);
        assert m + (size / 4 + j) == m + size / 4 + j;
      }
      base := base + size / 4;
      forall i | 0 <= i < size ensures LaneOf(a[i / 4], i % 4) == Word32(p, seed, 4 * m + 4 * p.n + i) {
        TermRestarts(p, seed, t, m, p.n + i / 4);
        assert (4 * m + 4 * p.n + i) / 4 == m + (p.n + i / 4) && (4 * m + 4 * p.n + i) % 4 == i % 4;
      }
      idx := 4 * p.n;
    }
  }

  lemma WindowShape(p: Params, s: seq<W128>, t: seq<W128>, m: nat)
    requires Proper(p) && |s| == p.n && Window(p, s, t, m)
    ensures |t| == p.n
  {
  }

  /** Bulk filling is the same as drawing one word at a time: from generators at the same
      place of the same sequence, the same words, and the same place afterwards. */
  method FillEqualsDraws(g: Generator, h: Generator, size: nat) returns (bulk: array<W128>, drawn: array<nat>)
    requires g.Valid() && h.Valid() && g.state != h.state && g != h
    requires g.p == h.p && g.seed == h.seed && g.Position() == h.Position()
    requires g.idx == 4 * g.p.n && size % 4 == 0 && size >= 4 * g.p.n
    modifies g, h, g.state, h.state
    ensures bulk.Length == size / 4 && drawn.Length == size
    ensures forall i :: 0 <= i < size ==> drawn[i] == LaneOf(bulk[i / 4], i % 4)
    ensures g.Valid() && h.Valid() && g.Position() == h.Position() == old(g.Position()) + size
  {
    hide Term, Window, Word32, LaneOf;
    ghost var at := g.Position();
    var any := W128(0, 0, 0, 0);
    bulk := new W128[size / 4](_ => any);
    drawn := new nat[size](_ => 0);
    g.FillArray32(bulk, size);
    ghost var f := bulk[..];
    for k := 0 to size
      invariant g.Valid() && h.Valid() && g.Position() == at + size && h.Position() == at + k
      invariant bulk[..] == f
      invariant forall i :: 0 <= i < k ==> drawn[i] == Word32(g.p, g.seed, at + i)
    {
      drawn[k] := h.GenrandUint32();
    }
  }
}
