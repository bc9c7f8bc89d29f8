/** mainQSort3 (blocksort.c): the 3-way quicksort of strings. It orders a range of `ptr`,
    whose rotations agree in their first dSt characters, on a fixed stack. */
module MainQSort {
  import opened Words
  import opened Permutations
  import opened Rotations
  import opened Rearrange
  import opened RangeStack
  import opened FallbackQSort
  import opened MainCompare
  import opened MainSimpleSort

  const MAIN_QSORT_SMALL_THRESH := 20
  const MAIN_QSORT_DEPTH_THRESH := BZ_N_RADIX + BZ_N_QSORT
  const MAIN_QSORT_STACK_SIZE := 100

  /** The characters at depth d, to partition by. */
  ghost function CharsAt(b: seq<byte>, d: nat): (k: seq<nat>)
    requires |b| > 0
    ensures |k| == |b| && forall i :: 0 <= i < |b| ==> k[i] == CharAt(b, i + d)
  {
    seq<nat>(|b|, i requires 0 <= i < |b| => CharAt(b, i + d))
  }

  function CharAt(b: seq<byte>, i: nat): (c: nat)
    requires |b| > 0
    ensures 0 <= c < 256
  {
    At(b, i)
  }

  lemma CharRead(b: seq<byte>, blk: seq<byte>, f: seq<nat>, lo: int, hi: int, d: nat, x: int)
    requires Overshot(b, blk) && InRange(f, CharsAt(b, d), lo, hi) && d <= MAIN_QSORT_DEPTH_THRESH && lo <= x <= hi
    ensures 0 <= x < |f| && f[x] + d < |blk| && blk[f[x] + d] == Key(f, CharsAt(b, d), x)
  {
  }

  // ---------- partitioning by the character at depth d ----------

  method CharLow(ptr: array<nat>, block: array<byte>, d: nat, med: byte, lo: int, ltLo0: int, unLo0: int, unHi: int, ghost gtHi: int, ghost hi: int,
                 ghost b: seq<byte>, ghost f0: seq<nat>)
    returns (ltLo: int, unLo: int)
    requires |b| > 0 && Overshot(b, block[..]) && d <= MAIN_QSORT_DEPTH_THRESH
    requires Partitioning(f0, ptr[..], CharsAt(b, d), med, lo, ltLo0, unLo0, unHi, gtHi, hi)
    modifies ptr
    ensures Partitioning(f0, ptr[..], CharsAt(b, d), med, lo, ltLo, unLo, unHi, gtHi, hi)
    ensures unLo0 <= unLo && (unLo <= unHi ==> Key(ptr[..], CharsAt(b, d), unLo) > med)
  {
    hide *;
    ltLo, unLo := ltLo0, unLo0;
    ghost var f, ec, blk := ptr[..], CharsAt(b, d), block[..];
    while unLo <= unHi
      invariant ptr[..] == f && block[..] == blk && unLo0 <= unLo
      invariant Partitioning(f0, f, ec, med, lo, ltLo, unLo, unHi, gtHi, hi)
    {
      PartBounds(f0, f, ec, med, lo, ltLo, unLo, unHi, gtHi, hi);
      CharRead(b, blk, f, lo, hi, d, unLo);
      assert ptr[unLo] == f[unLo] && block[f[unLo] + d] == blk[f[unLo] + d];
      var n := block[ptr[unLo] + d] as int - med as int;
      if n > 0 { break; }
      TakeLow(f0, f, ec, med, lo, ltLo, unLo, unHi, gtHi, hi);
      if n == 0 {
        f := f[unLo := f[ltLo]][ltLo := f[unLo]];
        Swap(ptr, unLo, ltLo);
        ltLo := ltLo + 1;
      }
      unLo := unLo + 1;
    }
  }

  lemma PartBounds(f0: seq<nat>, f: seq<nat>, ec: seq<nat>, med: nat, lo: int, ltLo: int, unLo: int, unHi: int, gtHi: int, hi: int)
    requires Partitioning(f0, f, ec, med, lo, ltLo, unLo, unHi, gtHi, hi)
    ensures 0 <= lo <= ltLo <= unLo <= unHi + 1 && unHi <= gtHi <= hi < |f| && InRange(f, ec, lo, hi) && Rearranged(f0, f, lo, hi)
  {
  }

  method CharHigh(ptr: array<nat>, block: array<byte>, d: nat, med: byte, ghost lo: int, ghost ltLo: int, unLo: int, unHi0: int, gtHi0: int, hi: int,
                  ghost b: seq<byte>, ghost f0: seq<nat>)
    returns (unHi: int, gtHi: int)
    requires |b| > 0 && Overshot(b, block[..]) && d <= MAIN_QSORT_DEPTH_THRESH
    requires Partitioning(f0, ptr[..], CharsAt(b, d), med, lo, ltLo, unLo, unHi0, gtHi0, hi)
    requires unLo <= unHi0 ==> Key(ptr[..], CharsAt(b, d), unLo) > med
    modifies ptr
    ensures Partitioning(f0, ptr[..], CharsAt(b, d), med, lo, ltLo, unLo, unHi, gtHi, hi)
    ensures unHi <= unHi0
    ensures unLo <= unHi ==> Key(ptr[..], CharsAt(b, d), unLo) > med && Key(ptr[..], CharsAt(b, d), unHi) < med
  {
    hide *;
    unHi, gtHi := unHi0, gtHi0;
    ghost var f, ec, blk := ptr[..], CharsAt(b, d), block[..];
    while unLo <= unHi
      invariant ptr[..] == f && block[..] == blk && unHi <= unHi0
      invariant Partitioning(f0, f, ec, med, lo, ltLo, unLo, unHi, gtHi, hi)
      invariant unLo <= unHi ==> Key(f, ec, unLo) > med
    {
      PartBounds(f0, f, ec, med, lo, ltLo, unLo, unHi, gtHi, hi);
      CharRead(b, blk, f, lo, hi, d, unHi);
      assert ptr[unHi] == f[unHi] && block[f[unHi] + d] == blk[f[unHi] + d];
      var n := block[ptr[unHi] + d] as int - med as int;
      if n < 0 { break; }
      TakeHigh(f0, f, ec, med, lo, ltLo, unLo, unHi, gtHi, hi);
      if n == 0 {
        SwapKeys(f, ec, unHi, gtHi, lo, hi);
        f := f[unHi := f[gtHi]][gtHi := f[unHi]];
        Swap(ptr, unHi, gtHi);
        gtHi := gtHi - 1;
      }
      unHi := unHi - 1;
    }
  }

  /** The partition loop: it ends with unHi == unLo - 1. */
  method CharPartition(ptr: array<nat>, block: array<byte>, d: nat, lo: int, hi: int, med: byte, ghost b: seq<byte>)
    returns (ltLo: int, unLo: int, gtHi: int)
    requires |b| > 0 && Overshot(b, block[..]) && d <= MAIN_QSORT_DEPTH_THRESH && InRange(ptr[..], CharsAt(b, d), lo, hi)
    modifies ptr
    ensures Partitioning(old(ptr[..]), ptr[..], CharsAt(b, d), med, lo, ltLo, unLo, unLo - 1, gtHi, hi)
  {
    hide *;
    ghost var f0, ec, blk := ptr[..], CharsAt(b, d), block[..];
    ltLo, unLo := lo, lo;
    var unHi := hi;
    gtHi := hi;
    PartStart(f0, ec, med, lo, hi);
    while true
      invariant block[..] == blk
      invariant Partitioning(f0, ptr[..], ec, med, lo, ltLo, unLo, unHi, gtHi, hi)
      decreases unHi - unLo + 1
    {
      PartBounds(f0, ptr[..], ec, med, lo, ltLo, unLo, unHi, gtHi, hi);
      ltLo, unLo := CharLow(ptr, block, d, med, lo, ltLo, unLo, unHi, gtHi, hi, b, f0);
      unHi, gtHi := CharHigh(ptr, block, d, med, lo, ltLo, unLo, unHi, gtHi, hi, b, f0);
      PartBounds(f0, ptr[..], ec, med, lo, ltLo, unLo, unHi, gtHi, hi);
      if unLo > unHi { break; }
      ghost var f := ptr[..];
      TakeBoth(f0, f, ec, med, lo, ltLo, unLo, unHi, gtHi, hi);
      Swap(ptr, unLo, unHi);
      unLo := unLo + 1;
      unHi := unHi - 1;
    }
  }

  lemma PartStart(f: seq<nat>, ec: seq<nat>, med: nat, lo: int, hi: int)
    requires InRange(f, ec, lo, hi)
    ensures Partitioning(f, f, ec, med, lo, lo, lo, hi, hi, hi)
  {
  }

  // ---------- the median ----------

  function Least(a: byte, b: byte): byte { if a < b then a else b }

  function Most(a: byte, b: byte): byte { if a < b then b else a }

  /** `mmed3` */
  method Mmed3(a0: byte, b0: byte, c: byte) returns (m: byte)
    ensures m == Most(Least(a0, b0), Least(Most(a0, b0), c))
    ensures m == a0 || m == b0 || m == c
  {
    var a, b := a0, b0;
    if a > b { a, b := b, a; }
    if b > c {
      b := c;
      if a > b { b := a; }
    }
    return b;
  }

  // ---------- three parts at a time on the stack ----------

  /** A pending range, whose rotations agree in their first d characters. */
  datatype Part = Part(r: Range, d: nat)

  ghost function Spans(ps: seq<Part>): (rs: seq<Range>)
    ensures |rs| == |ps| && forall s :: 0 <= s < |ps| ==> rs[s] == ps[s].r
  {
    seq(|ps|, s requires 0 <= s < |ps| => ps[s].r)
  }

  lemma SpansConcat(ps: seq<Part>, qs: seq<Part>)
    ensures Spans(ps + qs) == Spans(ps) + Spans(qs)
  {
  }

  lemma SpansSnoc(ps: seq<Part>, p: Part)
    ensures Spans(ps + [p]) == Spans(ps) + [p.r]
  {
  }

  /** From the bottom up, each range is at least half as large as all those above it
      together. */
  ghost predicate Thirds(rs: seq<Range>, cap: int) {
    rs == [] ||
    (&& 0 <= Size(rs[0]) <= cap
     && (|rs| > 1 ==> Size(rs[0]) >= 1)
     && Thirds(rs[1..], RangeStack.Min(2 * Size(rs[0]), cap - Size(rs[0]))))
  }

  lemma {:induction false} ThirdsPop(rs: seq<Range>, r: Range, cap: int)
    requires Thirds(rs + [r], cap)
    ensures Thirds(rs, cap)
  {
    if rs != [] {
      assert (rs + [r])[1..] == rs[1..] + [r];
      ThirdsPop(rs[1..], r, RangeStack.Min(2 * Size(rs[0]), cap - Size(rs[0])));
    }
  }

  lemma {:induction false} ThirdsSplit(rs: seq<Range>, r: Range, p: Range, q: Range, s: Range, cap: int)
    requires Thirds(rs + [r], cap)
    requires 0 <= Size(s) <= Size(q) <= Size(p) && 1 <= Size(q) && Size(p) + Size(q) + Size(s) <= Size(r)
    ensures Thirds(rs + [p, q, s], cap)
  {
    if rs == [] {
      var c1 := RangeStack.Min(2 * Size(p), cap - Size(p));
      var c2 := RangeStack.Min(2 * Size(q), c1 - Size(q));
      assert [p, q, s][1..] == [q, s] && [q, s][1..] == [s] && [s][1..] == [];
      assert rs + [r] == [r] && rs + [p, q, s] == [p, q, s];
      assert Thirds([s], c2);
      assert Thirds([q, s], c1);
    } else {
      assert (rs + [r])[1..] == rs[1..] + [r];
      assert (rs + [p, q, s])[1..] == rs[1..] + [p, q, s];
      ThirdsSplit(rs[1..], r, p, q, s, RangeStack.Min(2 * Size(rs[0]), cap - Size(rs[0])));
    }
  }

  /** Two ranges up, at most half is left. */
  lemma {:induction false} ThirdsDepth(rs: seq<Range>, cap: int)
    requires Thirds(rs, cap) && |rs| >= 2
    ensures Pow2(|rs| / 2 - 1) <= cap
    decreases |rs|
  {
    if |rs| >= 4 {
      var rest := rs[1..];
      var cap1 := RangeStack.Min(2 * Size(rs[0]), cap - Size(rs[0]));
      assert rest[1..] == rs[2..];
      ThirdsDepth(rs[2..], RangeStack.Min(2 * Size(rest[0]), cap1 - Size(rest[0])));
    }
  }

  /** Work still pending: going deeper into a range or splitting it reduces it. */
  ghost function PartWork(p: Part): int {
    if Size(p.r) <= 0 then 0 else 64 * Size(p.r) - 32 + (16 - p.d)
  }

  ghost function PendingWork(ps: seq<Part>): int {
    if ps == [] then 0 else PendingWork(ps[..|ps| - 1]) + PartWork(ps[|ps| - 1])
  }

  lemma PendingSnoc(ps: seq<Part>, p: Part)
    ensures PendingWork(ps + [p]) == PendingWork(ps) + PartWork(p)
  {
    assert (ps + [p])[..|ps|] == ps;
  }

  lemma {:induction false} PendingNonnegative(ps: seq<Part>)
    requires forall s :: 0 <= s < |ps| ==> ps[s].d <= 15
    ensures PendingWork(ps) >= 0
  {
    if ps != [] { PendingNonnegative(ps[..|ps| - 1]); }
  }

  lemma SplitWork(ps: seq<Part>, top: Part, p: Part, q: Part, s: Part)
    requires Size(p.r) >= Size(q.r) >= Size(s.r) >= 0 && Size(q.r) >= 1 && Size(p.r) + Size(q.r) + Size(s.r) == Size(top.r)
    requires 2 <= top.d <= MAIN_QSORT_DEPTH_THRESH && top.d <= p.d && top.d <= q.d && top.d <= s.d
    ensures PendingWork(ps + [p, q, s]) < PendingWork(ps + [top])
  {
    PendingSnoc(ps, top);
    PendingSnoc(ps, p);
    PendingSnoc(ps + [p], q);
    PendingSnoc(ps + [p] + [q], s);
    assert ps + [p, q, s] == ps + [p] + [q] + [s];
  }

  // ---------- what the main loop keeps ----------

  ghost predicate PartsAgree(b: seq<byte>, f: seq<nat>, ps: seq<Part>)
    requires |b| > 0
  {
    forall s :: 0 <= s < |ps| ==> BZ_N_RADIX <= ps[s].d <= MAIN_QSORT_DEPTH_THRESH + 1 && Agree(b, f, ps[s].r.lo, ps[s].r.hi, ps[s].d)
  }

  ghost predicate Sorting(b: seq<byte>, f0: seq<nat>, f: seq<nat>, ps: seq<Part>, lo: int, hi: int)
    requires |b| > 0
  {
    && InRange(f, Ranks(b), lo, hi) && Rearranged(f0, f, lo, hi) && PartsAgree(b, f, ps)
    && Apart(Spans(ps), lo, hi) && Resolved(f, Ranks(b), Spans(ps), lo, hi) && Thirds(Spans(ps), hi - lo + 1)
  }

  lemma StartSorting(b: seq<byte>, f: seq<nat>, lo: int, hi: int, d: nat)
    requires |b| > 0 && InRange(f, Ranks(b), lo, hi) && Agree(b, f, lo, hi, d) && BZ_N_RADIX <= d <= MAIN_QSORT_DEPTH_THRESH + 1
    ensures Sorting(b, f, f, [Part(Range(lo, hi), d)], lo, hi)
  {
    hide Cmp, Rank;
    var ps := [Part(Range(lo, hi), d)];
    assert Spans(ps) == [Range(lo, hi)] && [Range(lo, hi)][1..] == [];
    assert Thirds([Range(lo, hi)], hi - lo + 1);
    assert PartsAgree(b, f, ps) && Apart(Spans(ps), lo, hi);
    forall x, y | lo <= x < y <= hi ensures InSame(Spans(ps), x, y) {
      assert Spans(ps)[0].lo <= x && y <= Spans(ps)[0].hi;
    }
  }

  lemma TopPart(b: seq<byte>, f0: seq<nat>, f: seq<nat>, ps: seq<Part>, p: Part, lo: int, hi: int)
    requires |b| > 0 && Sorting(b, f0, f, ps + [p], lo, hi)
    ensures InRange(f, Ranks(b), p.r.lo, p.r.hi) && Agree(b, f, p.r.lo, p.r.hi, p.d) && BZ_N_RADIX <= p.d <= MAIN_QSORT_DEPTH_THRESH + 1
    ensures 2 <= p.d <= 15 && 0 <= lo <= p.r.lo <= p.r.hi + 1 <= hi + 1 <= |f| && PendingWork(ps) >= 0 && PendingWork(ps) <= PendingWork(ps + [p])
  {
    hide Agree, Rank, Cmp;
    SpansSnoc(ps, p);
    ApartPop(Spans(ps), p.r, lo, hi);
    PendingSnoc(ps, p);
    forall s | 0 <= s < |ps| ensures ps[s].d <= 15 { assert (ps + [p])[s] == ps[s]; }
    assert (ps + [p])[|ps|] == p;
    PendingNonnegative(ps);
  }

  /** The stack never comes near its limit, so assertion 1001 holds. */
  lemma StackFits(b: seq<byte>, f0: seq<nat>, f: seq<nat>, ps: seq<Part>, lo: int, hi: int)
    requires |b| > 0 && Sorting(b, f0, f, ps, lo, hi) && hi - lo + 1 <= 0x8000_0000
    ensures |ps| <= 65
  {
    if |ps| > 65 {
      Pow2Word();
      ThirdsDepth(Spans(ps), hi - lo + 1);
      Pow2Monotone(32, |ps| / 2 - 1);
    }
  }

  /** Ranges other than the one rearranged are as before. */
  lemma OthersAgree(b: seq<byte>, f: seq<nat>, g: seq<nat>, ps: seq<Part>, r: Range, lo: int, hi: int)
    requires |b| > 0 && PartsAgree(b, f, ps) && Rearranged(f, g, r.lo, r.hi) && Apart(Spans(ps) + [r], lo, hi)
    ensures PartsAgree(b, g, ps)
  {
    hide Cmp;
    ApartPop(Spans(ps), r, lo, hi);
    forall s | 0 <= s < |ps| ensures Agree(b, g, ps[s].r.lo, ps[s].r.hi, ps[s].d) {
      assert Disjoint(Spans(ps)[s], r);
      assert forall x :: ps[s].r.lo <= x <= ps[s].r.hi ==> g[x] == f[x];
    }
  }

  lemma SortedStep(b: seq<byte>, f0: seq<nat>, f: seq<nat>, g: seq<nat>, ps: seq<Part>, p: Part, lo: int, hi: int)
    requires |b| > 0 && Sorting(b, f0, f, ps + [p], lo, hi)
    requires Rearranged(f, g, p.r.lo, p.r.hi) && SortedKeys(g, Ranks(b), p.r.lo, p.r.hi)
    ensures Sorting(b, f0, g, ps, lo, hi)
  {
    hide Agree, Rank, Cmp, Resolved, SortedKeys, Apart, Thirds, InRange, Rearranged;
    SpansSnoc(ps, p);
    var rs := Spans(ps);
    LowerParts(b, f, ps, [p]);
    OthersAgree(b, f, g, ps, p.r, lo, hi);
    ResolveSorted(f, g, Ranks(b), rs, p.r, lo, hi);
    ApartPop(rs, p.r, lo, hi);
    Widen(f, g, p.r, lo, hi);
    RearrangedTrans(f0, f, g, lo, hi);
    InRangeKept(f, g, Ranks(b), lo, hi, lo, hi);
    ThirdsPop(rs, p.r, hi - lo + 1);
  }

  lemma LowerParts(b: seq<byte>, f: seq<nat>, ps: seq<Part>, qs: seq<Part>)
    requires |b| > 0 && PartsAgree(b, f, ps + qs)
    ensures PartsAgree(b, f, ps)
  {
    hide Agree;
    forall s | 0 <= s < |ps| ensures BZ_N_RADIX <= ps[s].d <= MAIN_QSORT_DEPTH_THRESH + 1 && Agree(b, f, ps[s].r.lo, ps[s].r.hi, ps[s].d) {
      assert (ps + qs)[s] == ps[s];
    }
  }

  /** The parts of the range r, in any order: apart from each other, each agreeing to its
      depth; positions not in the same part are in order. */
  ghost predicate Parted(b: seq<byte>, f: seq<nat>, r: Range, d: nat, p: Part, q: Part, s: Part)
    requires |b| > 0
  {
    && Within(p.r, r.lo, r.hi) && Within(q.r, r.lo, r.hi) && Within(s.r, r.lo, r.hi)
    && Disjoint(p.r, q.r) && Disjoint(q.r, s.r) && Disjoint(p.r, s.r)
    && Size(p.r) + Size(q.r) + Size(s.r) == Size(r) && Size(p.r) < Size(r) && Size(q.r) < Size(r) && Size(s.r) < Size(r)
    && PartsAgree(b, f, [p, q, s]) && d <= p.d && d <= q.d && d <= s.d
    && forall x, y :: r.lo <= x < y <= r.hi ==> Key(f, Ranks(b), x) <= Key(f, Ranks(b), y) || InSame(Spans([p, q, s]), x, y)
  }

  lemma InThree(p: Part, q: Part, s: Part, x: int, y: int)
    ensures InSame(Spans([p, q, s]), x, y) <==> (p.r.lo <= x && y <= p.r.hi) || (q.r.lo <= x && y <= q.r.hi) || (s.r.lo <= x && y <= s.r.hi)
  {
    var rs := Spans([p, q, s]);
    assert rs[0] == p.r && rs[1] == q.r && rs[2] == s.r;
  }

  lemma PartedSwap(b: seq<byte>, f: seq<nat>, r: Range, d: nat, p: Part, q: Part, s: Part)
    requires |b| > 0 && Parted(b, f, r, d, p, q, s)
    ensures Parted(b, f, r, d, q, p, s) && Parted(b, f, r, d, p, s, q)
  {
    hide Agree, Key, Rank, Spans, InSame;
    forall x, y ensures InSame(Spans([p, q, s]), x, y) == InSame(Spans([q, p, s]), x, y) == InSame(Spans([p, s, q]), x, y) {
      InThree(p, q, s, x, y);
      InThree(q, p, s, x, y);
      InThree(p, s, q, x, y);
    }
    var ps := [p, q, s];
    assert ps[0] == p && ps[1] == q && ps[2] == s;
  }

  /** The three parts of a partition. */
  lemma ThreeParts(b: seq<byte>, g: seq<nat>, r: Range, d: nat, med: nat, n: int, m: int)
    requires |b| > MAIN_QSORT_DEPTH_THRESH && BZ_N_RADIX <= d <= MAIN_QSORT_DEPTH_THRESH && InRange(g, Ranks(b), r.lo, r.hi) && Agree(b, g, r.lo, r.hi, d)
    requires ThreeWay(g, CharsAt(b, d), med, r.lo, n, m, r.hi) && n + 1 < m && (r.lo <= n || m <= r.hi)
    ensures Parted(b, g, r, d, Part(Range(r.lo, n), d), Part(Range(m, r.hi), d), Part(Range(n + 1, m - 1), d + 1))
  {
    hide Rank, Cmp;
    var p, q, s := Part(Range(r.lo, n), d), Part(Range(m, r.hi), d), Part(Range(n + 1, m - 1), d + 1);
    forall x, y | r.lo <= x < y <= r.hi ensures Key(g, Ranks(b), x) <= Key(g, Ranks(b), y) || InSame(Spans([p, q, s]), x, y) {
      InThree(p, q, s, x, y);
      if !((p.r.lo <= x && y <= p.r.hi) || (q.r.lo <= x && y <= q.r.hi) || (s.r.lo <= x && y <= s.r.hi)) {
        CharOrder(b, g, r.lo, r.hi, d, x, y);
      }
    }
    forall x, y | n + 1 <= x <= m - 1 && n + 1 <= y <= m - 1 ensures Cmp(b, g[x], g[y], d + 1) == 0 {
      CharEqual(b, g, r.lo, r.hi, d, x, y);
    }
    var ps := [p, q, s];
    assert Agree(b, g, p.r.lo, p.r.hi, p.d) && Agree(b, g, q.r.lo, q.r.hi, q.d) && Agree(b, g, s.r.lo, s.r.hi, s.d);
  }

  lemma CharOrder(b: seq<byte>, g: seq<nat>, lo: int, hi: int, d: nat, x: int, y: int)
    requires d < |b| && InRange(g, Ranks(b), lo, hi) && Agree(b, g, lo, hi, d) && lo <= x <= hi && lo <= y <= hi
    requires Key(g, CharsAt(b, d), x) < Key(g, CharsAt(b, d), y)
    ensures Key(g, Ranks(b), x) <= Key(g, Ranks(b), y)
  {
    CmpSplit(b, g[x], g[y], d, |b| - d);
    RankOrder(b, g[x], g[y]);
  }

  lemma CharEqual(b: seq<byte>, g: seq<nat>, lo: int, hi: int, d: nat, x: int, y: int)
    requires d < |b| && InRange(g, Ranks(b), lo, hi) && Agree(b, g, lo, hi, d) && lo <= x <= hi && lo <= y <= hi
    requires Key(g, CharsAt(b, d), x) == Key(g, CharsAt(b, d), y)
    ensures Cmp(b, g[x], g[y], d + 1) == 0
  {
    hide Rank, Cmp, At, Agree;
    KeyChar(b, g, lo, hi, d, x);
    KeyChar(b, g, lo, hi, d, y);
    AgreeAt(b, g, lo, hi, d, x, y);
    OneDeeper(b, g[x], g[y], d);
  }

  lemma KeyChar(b: seq<byte>, g: seq<nat>, lo: int, hi: int, d: nat, x: int)
    requires |b| > 0 && InRange(g, Ranks(b), lo, hi) && lo <= x <= hi
    ensures 0 <= x < |g| && Key(g, CharsAt(b, d), x) == At(b, g[x] + d)
  {
    hide Rank;
  }

  lemma AgreeAt(b: seq<byte>, g: seq<nat>, lo: int, hi: int, d: nat, x: int, y: int)
    requires |b| > 0 && Agree(b, g, lo, hi, d) && lo <= x <= hi && lo <= y <= hi
    ensures 0 <= lo <= hi < |g| && Cmp(b, g[x], g[y], d) == 0
  {
    hide Cmp;
  }

  lemma OneDeeper(b: seq<byte>, p: nat, q: nat, d: nat)
    requires |b| > 0 && Cmp(b, p, q, d) == 0 && At(b, p + d) == At(b, q + d)
    ensures Cmp(b, p, q, d + 1) == 0
  {
    CmpSplit(b, p, q, d, 1);
    assert Cmp(b, p + d, q + d, 1) == Cmp(b, p + d + 1, q + d + 1, 0);
  }

  /** The top range has been rearranged; positions within it are resolved by what replaces
      it. */
  lemma ResolveParts(f: seq<nat>, g: seq<nat>, ec: seq<nat>, rs: seq<Range>, r: Range, more: seq<Range>, lo: int, hi: int)
    requires InRange(f, ec, lo, hi) && Apart(rs + [r], lo, hi) && Rearranged(f, g, r.lo, r.hi) && Resolved(f, ec, rs + [r], lo, hi)
    requires forall x, y :: r.lo <= x < y <= r.hi ==> Key(g, ec, x) <= Key(g, ec, y) || InSame(more, x, y)
    ensures Resolved(g, ec, rs + more, lo, hi)
  {
    hide Key;
    ApartPop(rs, r, lo, hi);
    forall x, y | lo <= x < y <= hi ensures Key(g, ec, x) <= Key(g, ec, y) || InSame(rs + more, x, y) {
      if !(r.lo <= x && y <= r.hi) {
        AcrossKept(f, g, ec, rs, r, lo, hi, x, y);
        if InSame(rs, x, y) { SameLower(rs, more, x, y); }
      } else if InSame(more, x, y) {
        var s :| 0 <= s < |more| && more[s].lo <= x && y <= more[s].hi;
        assert (rs + more)[|rs| + s] == more[s];
      }
    }
  }

  lemma ApartThree(rs: seq<Range>, r: Range, p: Range, q: Range, s: Range, lo: int, hi: int)
    requires Apart(rs + [r], lo, hi) && Within(p, r.lo, r.hi) && Within(q, r.lo, r.hi) && Within(s, r.lo, r.hi)
    requires Disjoint(p, q) && Disjoint(q, s) && Disjoint(p, s)
    ensures Apart(rs + [p, q, s], lo, hi)
  {
    ApartPop(rs, r, lo, hi);
  }

  /** A range has been split and its parts, the largest first, are pending. */
  lemma SplitStep(b: seq<byte>, f0: seq<nat>, f: seq<nat>, g: seq<nat>, ps: seq<Part>, top: Part, p: Part, q: Part, s: Part, lo: int, hi: int)
    requires |b| > 0 && Sorting(b, f0, f, ps + [top], lo, hi) && Rearranged(f, g, top.r.lo, top.r.hi)
    requires Parted(b, g, top.r, top.d, p, q, s) && Size(p.r) >= Size(q.r) >= Size(s.r) && top.d <= MAIN_QSORT_DEPTH_THRESH
    ensures Sorting(b, f0, g, ps + [p, q, s], lo, hi)
    ensures PendingWork(ps + [p, q, s]) < PendingWork(ps + [top])
  {
    hide Agree, Rank, Cmp, Key, Resolved, Apart, Thirds, InRange, Rearranged, PendingWork, InSame;
    SpansSnoc(ps, top);
    SpansConcat(ps, [p, q, s]);
    var rs := Spans(ps);
    assert Spans([p, q, s]) == [p.r, q.r, s.r];
    TopPart(b, f0, f, ps, top, lo, hi);
    LowerParts(b, f, ps, [top]);
    OthersAgree(b, f, g, ps, top.r, lo, hi);
    ResolveParts(f, g, Ranks(b), rs, top.r, [p.r, q.r, s.r], lo, hi);
    ApartThree(rs, top.r, p.r, q.r, s.r, lo, hi);
    Widen(f, g, top.r, lo, hi);
    RearrangedTrans(f0, f, g, lo, hi);
    InRangeKept(f, g, Ranks(b), lo, hi, lo, hi);
    ThirdsSplit(rs, top.r, p.r, q.r, s.r, hi - lo + 1);
    SplitWork(ps, top, p, q, s);
  }

  /** All characters at depth d were equal: the same range is pending one deeper. */
  lemma DeeperStep(b: seq<byte>, f0: seq<nat>, f: seq<nat>, g: seq<nat>, ps: seq<Part>, top: Part, lo: int, hi: int)
    requires |b| > MAIN_QSORT_DEPTH_THRESH && Sorting(b, f0, f, ps + [top], lo, hi) && Rearranged(f, g, top.r.lo, top.r.hi)
    requires top.d <= MAIN_QSORT_DEPTH_THRESH && top.r.lo <= top.r.hi && Agree(b, g, top.r.lo, top.r.hi, top.d + 1)
    ensures Sorting(b, f0, g, ps + [Part(top.r, top.d + 1)], lo, hi)
    ensures PendingWork(ps + [Part(top.r, top.d + 1)]) < PendingWork(ps + [top])
  {
    hide Agree, Rank, Cmp, Key, Resolved, Apart, Thirds, InRange, Rearranged;
    var p := Part(top.r, top.d + 1);
    SpansSnoc(ps, top);
    SpansSnoc(ps, p);
    var rs := Spans(ps);
    TopPart(b, f0, f, ps, top, lo, hi);
    LowerParts(b, f, ps, [top]);
    OthersAgree(b, f, g, ps, top.r, lo, hi);
    forall x, y | top.r.lo <= x < y <= top.r.hi ensures InSame([top.r], x, y) { assert [top.r][0] == top.r; }
    ResolveParts(f, g, Ranks(b), rs, top.r, [top.r], lo, hi);
    Widen(f, g, top.r, lo, hi);
    RearrangedTrans(f0, f, g, lo, hi);
    InRangeKept(f, g, Ranks(b), lo, hi, lo, hi);
    PendingSnoc(ps, top);
    PendingSnoc(ps, p);
  }

  lemma Finished(b: seq<byte>, f0: seq<nat>, f: seq<nat>, lo: int, hi: int)
    requires |b| > 0 && Sorting(b, f0, f, [], lo, hi)
    ensures Rearranged(f0, f, lo, hi) && SortedKeys(f, Ranks(b), lo, hi)
  {
    hide Rank, Cmp, Key;
    forall x, y | lo <= x < y <= hi ensures Key(f, Ranks(b), x) <= Key(f, Ranks(b), y) {
      assert !InSame(Spans([]), x, y);
    }
  }

  // ---------- the explicit stack ----------

  /** The arrays `stackLo`, `stackHi` and `stackD` up to sp hold the pending ranges. */
  ghost predicate Stacked(stackLo: seq<int>, stackHi: seq<int>, stackD: seq<nat>, ps: seq<Part>) {
    && |stackLo| == |stackHi| == |stackD| == MAIN_QSORT_STACK_SIZE && |ps| <= MAIN_QSORT_STACK_SIZE
    && forall s :: 0 <= s < |ps| ==> ps[s] == Part(Range(stackLo[s], stackHi[s]), stackD[s])
  }

  lemma EmptyStack(stackLo: seq<int>, stackHi: seq<int>, stackD: seq<nat>)
    requires |stackLo| == |stackHi| == |stackD| == MAIN_QSORT_STACK_SIZE
    ensures Stacked(stackLo, stackHi, stackD, [])
  {
  }

  lemma Constants()
    ensures MAIN_QSORT_STACK_SIZE == 100 && MAIN_QSORT_SMALL_THRESH == 20 && MAIN_QSORT_DEPTH_THRESH == 14 && BZ_N_RADIX == 2
  {
  }

  lemma PopStack(stackLo: seq<int>, stackHi: seq<int>, stackD: seq<nat>, ps: seq<Part>)
    requires Stacked(stackLo, stackHi, stackD, ps) && ps != []
    ensures Stacked(stackLo, stackHi, stackD, ps[..|ps| - 1]) && |stackLo| == |stackHi| == |stackD| == MAIN_QSORT_STACK_SIZE >= |ps|
    ensures ps[|ps| - 1] == Part(Range(stackLo[|ps| - 1], stackHi[|ps| - 1]), stackD[|ps| - 1])
  {
  }

  /** The `mpush` macro. */
  method MPush(stackLo: array<int>, stackHi: array<int>, stackD: array<nat>, sp: int, lo: int, hi: int, d: nat, ghost ps: seq<Part>)
    requires stackLo != stackHi && stackLo as object != stackD && stackHi as object != stackD
    requires Stacked(stackLo[..], stackHi[..], stackD[..], ps) && sp == |ps| < MAIN_QSORT_STACK_SIZE
    modifies stackLo, stackHi, stackD
    ensures Stacked(stackLo[..], stackHi[..], stackD[..], ps + [Part(Range(lo, hi), d)])
  {
    stackLo[sp] := lo;
    stackHi[sp] := hi;
    stackD[sp] := d;
  }

  /** The three parts are put in order of size. */
  method OrderParts(p0: Part, q0: Part, s0: Part, ghost b: seq<byte>, ghost f: seq<nat>, ghost r: Range, ghost d: nat)
    returns (p: Part, q: Part, s: Part)
    requires |b| > 0 && Parted(b, f, r, d, p0, q0, s0)
    ensures Parted(b, f, r, d, p, q, s) && Size(p.r) >= Size(q.r) >= Size(s.r)
  {
    hide Parted;
    p, q, s := p0, q0, s0;
    PartedSwap(b, f, r, d, p, q, s);
    if p.r.hi - p.r.lo < q.r.hi - q.r.lo { p, q := q, p; }
    PartedSwap(b, f, r, d, p, q, s);
    if q.r.hi - q.r.lo < s.r.hi - s.r.lo { q, s := s, q; }
    PartedSwap(b, f, r, d, p, q, s);
    if p.r.hi - p.r.lo < q.r.hi - q.r.lo { p, q := q, p; }
  }

  /** The parts are pushed, the largest first, so that the smallest is sorted next. */
  method PushParts(stackLo: array<int>, stackHi: array<int>, stackD: array<nat>, sp: int, lo: int, hi: int, d: nat, n: int, m: int,
                   ghost ps: seq<Part>, ghost b: seq<byte>, ghost f: seq<nat>)
    returns (ghost p: Part, ghost q: Part, ghost s: Part)
    requires stackLo != stackHi && stackLo as object != stackD && stackHi as object != stackD
    requires Stacked(stackLo[..], stackHi[..], stackD[..], ps) && sp == |ps| < 98 && |b| > 0
    requires Parted(b, f, Range(lo, hi), d, Part(Range(lo, n), d), Part(Range(m, hi), d), Part(Range(n + 1, m - 1), d + 1))
    modifies stackLo, stackHi, stackD
    ensures Parted(b, f, Range(lo, hi), d, p, q, s) && Size(p.r) >= Size(q.r) >= Size(s.r)
    ensures Stacked(stackLo[..], stackHi[..], stackD[..], ps + [p, q, s])
  {
    hide *;
    Constants();
    var p1, q1, s1 := OrderParts(Part(Range(lo, n), d), Part(Range(m, hi), d), Part(Range(n + 1, m - 1), d + 1), b, f, Range(lo, hi), d);
    MPush(stackLo, stackHi, stackD, sp, p1.r.lo, p1.r.hi, p1.d, ps);
    MPush(stackLo, stackHi, stackD, sp + 1, q1.r.lo, q1.r.hi, q1.d, ps + [p1]);
    MPush(stackLo, stackHi, stackD, sp + 2, s1.r.lo, s1.r.hi, s1.d, ps + [p1] + [q1]);
    assert ps + [p1] + [q1] + [s1] == ps + [p1, q1, s1];
    p, q, s := p1, q1, s1;
  }

  /** The popped range is partitioned by the character at depth d; unless that is the same
      throughout, the outer parts are [lo..n] and [m..hi]. */
  method PartitionRange(ptr: array<nat>, block: array<byte>, lo: int, hi: int, d: nat, ghost b: seq<byte>)
    returns (allEqual: bool, n: int, m: int)
    requires |b| > MAIN_QSORT_DEPTH_THRESH && Overshot(b, block[..]) && BZ_N_RADIX <= d <= MAIN_QSORT_DEPTH_THRESH && lo <= hi
    requires InRange(ptr[..], Ranks(b), lo, hi) && Agree(b, ptr[..], lo, hi, d)
    modifies ptr
    ensures Rearranged(old(ptr[..]), ptr[..], lo, hi)
    ensures allEqual ==> Agree(b, ptr[..], lo, hi, d + 1)
    ensures !allEqual ==> Parted(b, ptr[..], Range(lo, hi), d, Part(Range(lo, n), d), Part(Range(m, hi), d), Part(Range(n + 1, m - 1), d + 1))
  {
    hide *;
    ghost var f0, ec, blk := ptr[..], CharsAt(b, d), block[..];
    var mid := (lo + hi) / 2;
    SameLength(b, f0, lo, hi, d);
    CharRead(b, blk, f0, lo, hi, d, lo);
    CharRead(b, blk, f0, lo, hi, d, hi);
    CharRead(b, blk, f0, lo, hi, d, mid);
    assert ptr[lo] == f0[lo] && ptr[hi] == f0[hi] && ptr[mid] == f0[mid];
    var med := Mmed3(block[ptr[lo] + d], block[ptr[hi] + d], block[ptr[mid] + d]);
    ghost var at := if med == block[ptr[lo] + d] then lo else if med == block[ptr[hi] + d] then hi else mid;
    var ltLo, unLo, gtHi := CharPartition(ptr, block, d, lo, hi, med, b);
    ghost var f1 := ptr[..];
    PartBounds(f0, f1, ec, med, lo, ltLo, unLo, unLo - 1, gtHi, hi);
    allEqual := gtHi < ltLo;
    n, m := lo - 1, hi + 1;
    if allEqual {
      AllSame(b, f0, f1, d, med, lo, ltLo, unLo, gtHi, hi);
    } else {
      SplitOf(f0, f1, ec, med, lo, ltLo, unLo, gtHi, hi);
      n, m := GatherEqual(ptr, lo, ltLo, unLo, gtHi, hi, med, ec);
      RearrangedTrans(f0, f1, ptr[..], lo, hi);
      MedianKept(f0, ptr[..], ec, med, lo, n, m, hi, at);
      AgreeKept(b, f0, ptr[..], lo, hi, d);
      InRangeKept(f0, ptr[..], Ranks(b), lo, hi, lo, hi);
      ThreeParts(b, ptr[..], Range(lo, hi), d, med, n, m);
    }
  }

  lemma SameLength(b: seq<byte>, f: seq<nat>, lo: int, hi: int, d: nat)
    requires |b| > 0 && InRange(f, Ranks(b), lo, hi)
    ensures InRange(f, CharsAt(b, d), lo, hi) && 0 <= lo <= hi + 1 <= |f|
  {
  }

  lemma SplitOf(f0: seq<nat>, f: seq<nat>, ec: seq<nat>, med: nat, lo: int, ltLo: int, unLo: int, gtHi: int, hi: int)
    requires Partitioning(f0, f, ec, med, lo, ltLo, unLo, unLo - 1, gtHi, hi)
    ensures Split(f, ec, med, lo, ltLo, unLo, unLo - 1, gtHi, hi)
  {
  }

  lemma AllSame(b: seq<byte>, f0: seq<nat>, f: seq<nat>, d: nat, med: nat, lo: int, ltLo: int, unLo: int, gtHi: int, hi: int)
    requires d < |b| && Partitioning(f0, f, CharsAt(b, d), med, lo, ltLo, unLo, unLo - 1, gtHi, hi) && gtHi < ltLo
    requires InRange(f0, Ranks(b), lo, hi) && Agree(b, f0, lo, hi, d)
    ensures Agree(b, f, lo, hi, d + 1)
  {
    hide Rank, Cmp, Key;
    AgreeKept(b, f0, f, lo, hi, d);
    InRangeKept(f0, f, Ranks(b), lo, hi, lo, hi);
    forall x, y | lo <= x <= hi && lo <= y <= hi ensures Cmp(b, f[x], f[y], d + 1) == 0 {
      assert Key(f, CharsAt(b, d), x) == med && Key(f, CharsAt(b, d), y) == med;
      CharEqual(b, f, lo, hi, d, x, y);
    }
  }

  /** `mainQSort3`. Unless the budget is used up, the range is sorted; in any case it still
      holds the same entries. Assertion 1001 (room on the stack) is proved for every range. */
  method QSort3(ptr: array<nat>, block: array<byte>, quadrant: array<nat>, nblock: nat, loSt: int, hiSt: int, dSt: nat, budget0: int, ghost b: seq<byte>)
    returns (budget: int)
    requires ptr != quadrant && nblock == |b| && MAIN_QSORT_DEPTH_THRESH < nblock <= 900000 && Overshot(b, block[..]) && Quadrants(b, quadrant[..])
    requires InRange(ptr[..], Ranks(b), loSt, hiSt) && Agree(b, ptr[..], loSt, hiSt, dSt) && hiSt - loSt + 1 <= 900000
    requires BZ_N_RADIX <= dSt <= MAIN_QSORT_DEPTH_THRESH + 1
    modifies ptr
    ensures budget <= budget0 && Rearranged(old(ptr[..]), ptr[..], loSt, hiSt)
    ensures budget >= 0 ==> SortedKeys(ptr[..], Ranks(b), loSt, hiSt)
  {
    hide *;
    budget := budget0;
    ghost var f0 := ptr[..];
    Constants();
    var stackLo := new int[MAIN_QSORT_STACK_SIZE];
    var stackHi := new int[MAIN_QSORT_STACK_SIZE];
    var stackD := new nat[MAIN_QSORT_STACK_SIZE];
    EmptyStack(stackLo[..], stackHi[..], stackD[..]);
    MPush(stackLo, stackHi, stackD, 0, loSt, hiSt, dSt, []);
    ghost var ps: seq<Part> := [Part(Range(loSt, hiSt), dSt)];
    assert [] + ps == ps;
    var sp := 1;
    StartSorting(b, f0, loSt, hiSt, dSt);
    while sp > 0
      invariant sp == |ps| && Stacked(stackLo[..], stackHi[..], stackD[..], ps) && budget <= budget0
      invariant Sorting(b, f0, ptr[..], ps, loSt, hiSt) && Overshot(b, block[..]) && Quadrants(b, quadrant[..])
      decreases PendingWork(ps), sp
    {
      StackFits(b, f0, ptr[..], ps, loSt, hiSt);
      assert sp < MAIN_QSORT_STACK_SIZE - 2;  // AssertH 1001
      ghost var f, rest, top := ptr[..], ps[..sp - 1], ps[sp - 1];
      assert ps == rest + [top];
      PopStack(stackLo[..], stackHi[..], stackD[..], ps);
      TopPart(b, f0, f, rest, top, loSt, hiSt);
      sp := sp - 1;
      var lo, hi, d := stackLo[sp], stackHi[sp], stackD[sp];
      if hi - lo < MAIN_QSORT_SMALL_THRESH || d > MAIN_QSORT_DEPTH_THRESH {
        budget := SimpleSort(ptr, block, quadrant, nblock, lo, hi, d, budget, b);
        if budget < 0 {
          Abandoned(b, f0, f, ptr[..], rest, top, loSt, hiSt);
          return;
        }
        SortedStep(b, f0, f, ptr[..], rest, top, loSt, hiSt);
        ps := rest;
        continue;
      }
      var allEqual, n, m := PartitionRange(ptr, block, lo, hi, d, b);
      if allEqual {
        MPush(stackLo, stackHi, stackD, sp, lo, hi, d + 1, rest);
        DeeperStep(b, f0, f, ptr[..], rest, top, loSt, hiSt);
        ps := rest + [Part(Range(lo, hi), d + 1)];
        sp := sp + 1;
        continue;
      }
      ghost var p, q, s := PushParts(stackLo, stackHi, stackD, sp, lo, hi, d, n, m, rest, b, ptr[..]);
      SplitStep(b, f0, f, ptr[..], rest, top, p, q, s, loSt, hiSt);
      ps := rest + [p, q, s];
      sp := sp + 3;
    }
    Finished(b, f0, ptr[..], loSt, hiSt);
  }

  lemma Abandoned(b: seq<byte>, f0: seq<nat>, f: seq<nat>, g: seq<nat>, ps: seq<Part>, p: Part, lo: int, hi: int)
    requires |b| > 0 && Sorting(b, f0, f, ps + [p], lo, hi) && Rearranged(f, g, p.r.lo, p.r.hi)
    ensures Rearranged(f0, g, lo, hi)
  {
    TopPart(b, f0, f, ps, p, lo, hi);
    Widen(f, g, p.r, lo, hi);
    RearrangedTrans(f0, f, g, lo, hi);
  }
}
