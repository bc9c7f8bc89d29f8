/** The mark that mainSort (blocksort.c) sets in a frequency table entry, bit 21, when the
    small bucket is in order; below it the entry still tells where the bucket begins. */
module Marks {
  import opened Words
  import opened Rotations
  import opened Buckets

  const SETMASK: nat := 0x20_0000
  const CLEARMASK: nat := 0xffff_ffff - 0x20_0000

  lemma {:induction false} AndFields(hi: nat, lo: nat, hi2: nat, lo2: nat, n: nat)
    requires lo < Pow2(n) && lo2 < Pow2(n)
    ensures And(hi * Pow2(n) + lo, hi2 * Pow2(n) + lo2) == And(hi, hi2) * Pow2(n) + And(lo, lo2)
    decreases n
  {
    hide And;
    if n > 0 {
      var p := Pow2(n - 1);
      AndFields(hi, lo / 2, hi2, lo2 / 2, n - 1);
      Half(hi, p, lo);
      Half(hi2, p, lo2);
      AndStep(hi * Pow2(n) + lo, hi2 * Pow2(n) + lo2);
      AndStep(lo, lo2);
      Twice(And(hi, hi2), p);
    } else {
      AndNone();
    }
  }

  lemma AndNone()
    ensures And(0, 0) == 0
  {
  }

  lemma Twice(x: nat, p: nat)
    ensures 2 * (x * p) == x * (2 * p)
  {
  }

  lemma Half(hi: nat, p: nat, lo: nat)
    ensures (hi * (2 * p) + lo) / 2 == hi * p + lo / 2 && (hi * (2 * p) + lo) % 2 == lo % 2
  {
    Twice(hi, p);
    assert hi * (2 * p) + lo == 2 * (hi * p + lo / 2) + lo % 2;
    DivModUnique(hi * (2 * p) + lo, 2, hi * p + lo / 2, lo % 2);
  }

  lemma AndStep(x: nat, y: nat)
    ensures And(x, y) == 2 * And(x / 2, y / 2) + if x % 2 == 1 && y % 2 == 1 then 1 else 0
  {
    if x == 0 || y == 0 { AndZero(x / 2, y / 2); }
  }

  lemma AndZero(x: nat, y: nat)
    ensures x == 0 || y == 0 ==> And(x, y) == 0
  {
  }

  lemma Bit21()
    ensures Pow2(21) == SETMASK
  {
    Pow2Values();
    Pow2Add(16, 4);
    assert Pow2(21) == 2 * Pow2(20);
  }

  /** An entry with or without its mark. */
  function Entry(x: nat, marked: bool): nat { x + if marked then SETMASK else 0 }

  lemma SmallAnds()
    ensures And(0, 1) == 0 && And(1, 1) == 1 && And(0, 2046) == 0 && And(1, 2046) == 0
  {
    AndEven(1, 1023);
  }

  /** What the three operations on a mark do. */
  lemma MarkOps(x: nat, marked: bool)
    requires x < SETMASK
    ensures And(Entry(x, marked), SETMASK) == (if marked then SETMASK else 0)
    ensures And(Entry(x, marked), CLEARMASK) == x
    ensures Or(Entry(x, marked), SETMASK) == Entry(x, true)
  {
    Bit21();
    SmallAnds();
    var hi := if marked then 1 else 0;
    MarkParts(x, hi);
    OrMark(x, hi);
  }

  lemma MarkParts(x: nat, hi: nat)
    requires x < Pow2(21) && Pow2(21) == SETMASK && hi <= 1
    requires And(0, 1) == 0 && And(1, 1) == 1 && And(0, 2046) == 0 && And(1, 2046) == 0
    ensures And(hi * SETMASK + x, SETMASK) == hi * SETMASK && And(hi * SETMASK + x, CLEARMASK) == x
  {
    hide And, Pow2;
    AndFields(hi, x, 1, 0, 21);
    AndZero(x, 0);
    AndFields(hi, x, 2046, Pow2(21) - 1, 21);
    AndMask(x, 21);
    DivModUnique(x, SETMASK, 0, x);
    assert 2046 * SETMASK + (SETMASK - 1) == CLEARMASK;
  }

  lemma OrMark(x: nat, hi: nat)
    requires x < Pow2(21) && Pow2(21) == SETMASK && hi <= 1
    ensures Or(hi * SETMASK + x, SETMASK) == SETMASK + x
  {
    hide Or, Pow2;
    OrDisjoint(1, 21, x);
    if hi == 1 { OrAgain(1, x, 21); }
  }

  lemma {:induction false} OrAgain(hi: nat, lo: nat, n: nat)
    requires lo < Pow2(n)
    ensures Or(hi * Pow2(n) + lo, hi * Pow2(n)) == hi * Pow2(n) + lo
    decreases n
  {
    hide Or;
    if n == 0 {
      OrSelf(hi);
    } else {
      Half(hi, Pow2(n - 1), lo);
      Half(hi, Pow2(n - 1), 0);
      OrAgain(hi, lo / 2, n - 1);
      OrStep(hi * Pow2(n) + lo, hi * Pow2(n));
    }
  }

  lemma OrStep(x: nat, y: nat)
    ensures Or(x, y) == 2 * Or(x / 2, y / 2) + if x % 2 == 1 || y % 2 == 1 then 1 else 0
  {
    if x == 0 && y == 0 { OrZero(0); }
  }

  lemma {:induction false} OrSelf(x: nat)
    ensures Or(x, x) == x
  {
    if x > 0 { OrSelf(x / 2); }
  }

  /** The table while the big buckets are worked on: where each small bucket begins, and
      which are marked. */
  ghost predicate Marked(b: seq<byte>, t: seq<nat>, fl: seq<bool>)
    requires |b| > 0
  {
    |t| == |fl| == 65537 && |b| < SETMASK && forall d :: 0 <= d < |t| ==> t[d] == Entry(Start(b, d), fl[d])
  }

  lemma EntryParts(b: seq<byte>, t: seq<nat>, fl: seq<bool>, d: nat)
    requires |b| > 0 && Marked(b, t, fl) && d <= 65536
    ensures |t| == |fl| == 65537
    ensures And(t[d], SETMASK) == (if fl[d] then SETMASK else 0) && And(t[d], CLEARMASK) == Start(b, d) <= |b|
  {
    hide Start, And, Or;
    StartRange(b, d, 65536);
    MarkOps(Start(b, d), fl[d]);
  }

  lemma MarkEntry(b: seq<byte>, t: seq<nat>, fl: seq<bool>, d: nat)
    requires |b| > 0 && Marked(b, t, fl) && d <= 65536
    ensures |t| == |fl| == 65537 && Marked(b, t[d := Or(t[d], SETMASK)], fl[d := true])
  {
    hide Start, And, Or;
    StartRange(b, d, 65536);
    MarkOps(Start(b, d), fl[d]);
  }

  lemma NoMarks(b: seq<byte>, t: seq<nat>, fl: seq<bool>)
    requires |b| > 0 && |t| == |fl| == 65537 && |b| < SETMASK && (forall d :: 0 <= d <= 65536 ==> t[d] == Start(b, d)) && forall d :: 0 <= d < |fl| ==> !fl[d]
    ensures Marked(b, t, fl)
  {
    hide Start;
  }
}
