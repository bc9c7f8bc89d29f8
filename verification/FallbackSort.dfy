/** The fallback sorter (blocksort.c): prefix doubling over the rotations of a block,
    with bucket boundaries kept in a bitmap. */
module FallbackSort {
  import opened Words
  import opened Permutations
  import opened Rotations
  import opened Transform
  import opened Rearrange
  import opened BitTable
  import opened FallbackQSort

  /** Row i starts a bucket of rotations that agree on their first h characters. */
  ghost predicate HeaderAt(b: seq<byte>, f: seq<nat>, i: nat, h: nat)
    requires |b| > 0 && i < |f|
  {
    i == 0 || Cmp(b, f[i - 1], f[i], h) != 0
  }

  /** The state of a pass at depth h when the rows below d have been refined to 2h. */
  ghost predicate Refined(b: seq<byte>, f: seq<nat>, bh: seq<nat>, h: nat, d: nat) {
    && |b| > 0 && IsPerm(f, |b|) && SortedBy(b, f, h) && d <= |b|
    && (forall x, y :: 0 <= x < y < d ==> Cmp(b, f[x], f[y], 2 * h) <= 0)
    && (forall i: nat :: i < |b| ==> (IsSet(bh, i) <==> HeaderAt(b, f, i, if i < d then 2 * h else h)))
    && Table(bh) && (|b| + 63) / 32 < |bh| && IsSet(bh, |b|) && !IsSet(bh, |b| + 1)
  }

  // ---------- equivalence classes ----------

  /** The first row of the bucket of row t. */
  ghost function Start(bh: seq<nat>, t: nat): (s: nat)
    ensures s <= t
  {
    if t == 0 || IsSet(bh, t) then t else Start(bh, t - 1)
  }

  lemma {:induction false} StartOrder(b: seq<byte>, f: seq<nat>, bh: seq<nat>, h: nat, s: nat, t: nat)
    requires Refined(b, f, bh, h, 0) && s <= t < |b|
    ensures Start(bh, s) <= Start(bh, t)
    ensures Start(bh, s) == Start(bh, t) <==> Cmp(b, f[s], f[t], h) == 0
    decreases t
  {
    if s == t {
      CmpRefl(b, f[s], h);
    } else {
      StartOrder(b, f, bh, h, s, t - 1);
      CmpTrans(b, f[s], f[t - 1], f[t], h) by {
        if s == t - 1 { CmpRefl(b, f[s], h); }
      }
      assert IsSet(bh, t) <==> HeaderAt(b, f, t, h);
    }
  }

  /** Class numbers order positions as the characters h..2h-1 after them do. */
  ghost predicate Classes(b: seq<byte>, ec: seq<nat>, h: nat)
    requires |b| > 0
  {
    |b| <= |ec| && forall u, v :: 0 <= u < |b| && 0 <= v < |b| ==>
      (ec[u] <= ec[v] <==> Cmp(b, u + h, v + h, h) <= 0)
  }

  /** The position h characters before p, as the source computes it. */
  function Before(p: nat, h: nat, n: nat): (k: nat)
    requires p < n && h <= n
    ensures k < n && (k + h) % n == p
  {
    var k := p - h;
    BeforeMod(p, h, n);
    if k < 0 then k + n else k
  }

  lemma BeforeMod(p: nat, h: nat, n: nat)
    requires p < n && h <= n
    ensures p % n == p && (p + n) % n == p
  {
    DivModUnique(p, n, 0, p);
    DivModUnique(p + n, n, 1, p);
  }

  ghost predicate Numbered(f: seq<nat>, ec: seq<nat>, bh: seq<nat>, h: nat, n: nat, i: nat) {
    && |f| == n <= |ec| && h <= n && i <= n
    && (forall t :: 0 <= t < n ==> f[t] < n)
    && forall t :: 0 <= t < i ==> ec[Before(f[t], h, n)] == Start(bh, t)
  }

  lemma NumberStep(f: seq<nat>, ec: seq<nat>, bh: seq<nat>, h: nat, n: nat, i: nat, j: nat)
    requires IsPerm(f, n) && Numbered(f, ec, bh, h, n, i) && i < n && j == Start(bh, i)
    ensures Numbered(f, ec[Before(f[i], h, n) := j], bh, h, n, i + 1)
  {
    var k := Before(f[i], h, n);
    forall t | 0 <= t < i + 1 ensures ec[k := j][Before(f[t], h, n)] == Start(bh, t) {
      if t < i { assert f[t] != f[i]; }
    }
  }

  method NumberClasses(fmap: array<nat>, eclass: array<nat>, bhtab: array<nat>, nblock: nat, h: nat)
    requires fmap != eclass && bhtab != eclass && fmap.Length == nblock <= eclass.Length
    requires IsPerm(fmap[..], nblock) && 0 < h <= nblock
    modifies eclass
    ensures Numbered(fmap[..], eclass[..], bhtab[..], h, nblock, nblock)
  {
    hide Numbered, Start, IsPerm;
    ghost var f, ec, bh := fmap[..], eclass[..], bhtab[..];
    NumberStart(f, ec, bh, h, nblock);
    var j := 0;
    for i := 0 to nblock
      invariant fmap[..] == f && bhtab[..] == bh && eclass[..] == ec
      invariant Numbered(f, ec, bh, h, nblock, i)
      invariant j == if i == 0 then 0 else Start(bh, i - 1)
    {
      StartNext(bh, i);
      EntryBound(f, nblock, i);
      if IsSet(bhtab[..], i) { j := i; }
      NumberStep(f, ec, bh, h, nblock, i, j);
      var k := fmap[i] - h;
      if k < 0 { k := k + nblock; }
      eclass[k] := j;
      ec := ec[Before(f[i], h, nblock) := j];
    }
  }

  lemma NumberStart(f: seq<nat>, ec: seq<nat>, bh: seq<nat>, h: nat, n: nat)
    requires IsPerm(f, n) && h <= n <= |ec|
    ensures Numbered(f, ec, bh, h, n, 0)
  {
  }

  lemma StartNext(bh: seq<nat>, i: nat)
    ensures Start(bh, i) == if i == 0 || IsSet(bh, i) then i else Start(bh, i - 1)
  {
  }

  lemma EntryBound(f: seq<nat>, n: nat, i: nat)
    requires IsPerm(f, n) && i < n
    ensures f[i] < n
  {
  }

  lemma RowOrder(b: seq<byte>, f: seq<nat>, bh: seq<nat>, h: nat, s: nat, t: nat)
    requires Refined(b, f, bh, h, 0) && s < |b| && t < |b|
    ensures Start(bh, s) <= Start(bh, t) <==> Cmp(b, f[s], f[t], h) <= 0
  {
    CmpSym(b, f[s], f[t], h);
    if s <= t {
      StartOrder(b, f, bh, h, s, t);
      if s == t { CmpRefl(b, f[s], h); }
    } else {
      StartOrder(b, f, bh, h, t, s);
    }
  }

  lemma RefinedShape(b: seq<byte>, f: seq<nat>, bh: seq<nat>, h: nat, d: nat)
    requires Refined(b, f, bh, h, d)
    ensures |f| == |b| > 0 && IsPerm(f, |b|)
  {
  }

  lemma ClassOf(f: seq<nat>, ec: seq<nat>, bh: seq<nat>, h: nat, n: nat, t: nat, u: nat)
    requires Numbered(f, ec, bh, h, n, n) && t < n && Before(f[t], h, n) == u
    ensures ec[u] == Start(bh, t)
  {
  }

  lemma ClassPair(b: seq<byte>, f: seq<nat>, ec: seq<nat>, bh: seq<nat>, h: nat, u: nat, v: nat)
    requires Refined(b, f, bh, h, 0) && h <= |b| && Numbered(f, ec, bh, h, |b|, |b|)
    requires u < |b| <= |ec| && v < |b|
    ensures ec[u] <= ec[v] <==> Cmp(b, u + h, v + h, h) <= 0
  {
    hide *;
    RefinedShape(b, f, bh, h, 0);
    var s := RowAfter(f, h, |b|, u);
    var t := RowAfter(f, h, |b|, v);
    ClassOf(f, ec, bh, h, |b|, s, u);
    ClassOf(f, ec, bh, h, |b|, t, v);
    RowOrder(b, f, bh, h, s, t);
    CmpWrap2(b, u + h, f[s], v + h, f[t], h);
  }

  lemma ClassesHold(b: seq<byte>, f: seq<nat>, ec: seq<nat>, bh: seq<nat>, h: nat)
    requires Refined(b, f, bh, h, 0) && h <= |b| && Numbered(f, ec, bh, h, |b|, |b|)
    ensures Classes(b, ec, h)
  {
    forall u, v | 0 <= u < |b| && 0 <= v < |b| ensures ec[u] <= ec[v] <==> Cmp(b, u + h, v + h, h) <= 0 {
      ClassPair(b, f, ec, bh, h, u, v);
    }
  }

  lemma RowAfter(f: seq<nat>, h: nat, n: nat, u: nat) returns (t: nat)
    requires IsPerm(f, n) && h <= n && u < n
    ensures t < n && f[t] % n == (u + h) % n && Before(f[t], h, n) == u
  {
    Surjective(f, n);
    var p := (u + h) % n;
    ModIdem(u + h, n);
    assert p in f;
    t :| 0 <= t < |f| && f[t] == p;
    if u + h < n { DivModUnique(u + h, n, 0, u + h); }
    else if u + h < 2 * n { DivModUnique(u + h, n, 1, u + h - n); }
  }

  // ---------- refining the buckets of one pass ----------

  /** Bits d..l are set and bit l+1 is not: the buckets from d to l-1 have one row each. */
  ghost predicate SetRun(bh: seq<nat>, d: nat, l: nat) {
    forall z: nat :: d <= z <= l ==> IsSet(bh, z)
  }

  lemma AcrossHeader(b: seq<byte>, f: seq<nat>, h: nat, x: nat, m: nat, y: nat)
    requires |b| > 0 && SortedBy(b, f, h) && x < m <= y < |f| && Cmp(b, f[m - 1], f[m], h) != 0
    ensures Cmp(b, f[x], f[y], h) < 0 && Cmp(b, f[x], f[y], 2 * h) < 0
  {
    if x < m - 1 { CmpTrans(b, f[x], f[m - 1], f[m], h); }
    if m < y { CmpTrans(b, f[x], f[m], f[y], h); }
    CmpPrefix(b, f[x], f[y], h, 2 * h);
  }

  lemma SkipSingles(b: seq<byte>, f: seq<nat>, bh: seq<nat>, h: nat, d: nat, l: nat)
    requires Refined(b, f, bh, h, d) && d <= l <= |b| && SetRun(bh, d, l)
    ensures Refined(b, f, bh, h, l)
  {
    forall x, y | 0 <= x < y < l ensures Cmp(b, f[x], f[y], 2 * h) <= 0 {
      if y >= d {
        assert IsSet(bh, y) && HeaderAt(b, f, y, h);
        AcrossHeader(b, f, h, x, y, y);
      }
    }
    forall i: nat | i < l ensures IsSet(bh, i) <==> HeaderAt(b, f, i, 2 * h) {
      if i >= d && i > 0 {
        assert IsSet(bh, i) && HeaderAt(b, f, i, h);
        AcrossHeader(b, f, h, i - 1, i, i);
      }
    }
  }

  /** [l..r] is one bucket of the pass. */
  ghost predicate Bucket(bh: seq<nat>, l: nat, r: nat) {
    && IsSet(bh, l) && l <= r && IsSet(bh, r + 1)
    && forall z: nat :: l < z <= r ==> !IsSet(bh, z)
  }

  lemma {:induction false} BucketEqual(b: seq<byte>, f: seq<nat>, bh: seq<nat>, h: nat, l: nat, r: nat, x: nat, y: nat)
    requires Refined(b, f, bh, h, l) && Bucket(bh, l, r) && r < |b| && l <= x <= y <= r
    ensures Cmp(b, f[x], f[y], h) == 0
    decreases y - x
  {
    if x == y {
      CmpRefl(b, f[x], h);
    } else {
      BucketEqual(b, f, bh, h, l, r, x, y - 1);
      assert !IsSet(bh, y) && !HeaderAt(b, f, y, h);
      CmpTrans(b, f[x], f[y - 1], f[y], h);
    }
  }

  lemma BucketEqualBoth(b: seq<byte>, f: seq<nat>, bh: seq<nat>, h: nat, l: nat, r: nat, x: nat, y: nat)
    requires Refined(b, f, bh, h, l) && Bucket(bh, l, r) && r < |b| && l <= x <= r && l <= y <= r
    ensures Cmp(b, f[x], f[y], h) == 0
  {
    if x <= y {
      BucketEqual(b, f, bh, h, l, r, x, y);
    } else {
      BucketEqual(b, f, bh, h, l, r, y, x);
      CmpSym(b, f[y], f[x], h);
    }
  }

  /** Sorting a bucket moves each row only among rows it is equal to. */
  lemma MovedEqual(b: seq<byte>, f: seq<nat>, g: seq<nat>, bh: seq<nat>, h: nat, l: nat, r: nat, x: nat)
    requires Refined(b, f, bh, h, l) && Bucket(bh, l, r) && r < |b| && Rearranged(f, g, l, r) && x < |b|
    ensures Cmp(b, g[x], f[x], h) == 0
  {
    if l <= x <= r {
      var y := RangeSource(f, g, l, r, x);
      BucketEqualBoth(b, f, bh, h, l, r, y, x);
    } else {
      CmpRefl(b, f[x], h);
    }
  }

  lemma SameClass(b: seq<byte>, i: nat, i': nat, j: nat, j': nat, h: nat)
    requires |b| > 0 && Cmp(b, i, i', h) == 0 && Cmp(b, j, j', h) == 0
    ensures Cmp(b, i, j, h) == Cmp(b, i', j', h)
  {
    CmpSym(b, i, i', h);
    CmpSym(b, j, j', h);
    CmpSym(b, i, j, h);
    CmpSym(b, i', j', h);
    if Cmp(b, i, j, h) <= 0 {
      CmpTrans(b, i', i, j, h);
      CmpTrans(b, i', j, j', h);
    } else {
      CmpTrans(b, j', j, i, h);
      CmpTrans(b, j', i, i', h);
    }
  }

  lemma MovedSame(b: seq<byte>, f: seq<nat>, g: seq<nat>, bh: seq<nat>, h: nat, l: nat, r: nat, x: nat, y: nat)
    requires Refined(b, f, bh, h, l) && Bucket(bh, l, r) && r < |b| && Rearranged(f, g, l, r) && x < |b| && y < |b|
    ensures Cmp(b, g[x], g[y], h) == Cmp(b, f[x], f[y], h)
  {
    MovedEqual(b, f, g, bh, h, l, r, x);
    MovedEqual(b, f, g, bh, h, l, r, y);
    SameClass(b, g[x], f[x], g[y], f[y], h);
  }

  /** Within the bucket the class numbers decide the order at depth 2h. */
  lemma BucketRefined(b: seq<byte>, f: seq<nat>, g: seq<nat>, ec: seq<nat>, bh: seq<nat>, h: nat, l: nat, r: nat, x: nat, y: nat)
    requires Refined(b, f, bh, h, l) && Bucket(bh, l, r) && r < |b| && Rearranged(f, g, l, r)
    requires IsPerm(g, |b|) && Classes(b, ec, h)
    requires l <= x <= r && l <= y <= r
    ensures Cmp(b, g[x], g[y], 2 * h) <= 0 <==> Key(g, ec, x) <= Key(g, ec, y)
  {
    MovedSame(b, f, g, bh, h, l, r, x, y);
    BucketEqualBoth(b, f, bh, h, l, r, x, y);
    CmpSplit(b, g[x], g[y], h, h);
    assert ec[g[x]] <= ec[g[y]] <==> Cmp(b, g[x] + h, g[y] + h, h) <= 0;
  }

  /** The header bits after scanning the sorted bucket. */
  ghost predicate Marked(g: seq<nat>, ec: seq<nat>, bh: seq<nat>, bh': seq<nat>, l: nat, i: nat) {
    forall z: nat :: IsSet(bh', z) <==> MarkAt(g, ec, bh, l, i, z)
  }

  ghost predicate MarkAt(g: seq<nat>, ec: seq<nat>, bh: seq<nat>, l: nat, i: nat, z: nat) {
    if l <= z < i then z == l || Key(g, ec, z - 1) != Key(g, ec, z) else IsSet(bh, z)
  }

  lemma RefinedOrder(b: seq<byte>, f: seq<nat>, g: seq<nat>, ec: seq<nat>, bh: seq<nat>, h: nat, l: nat, r: nat, x: nat, y: nat)
    requires Refined(b, f, bh, h, l) && Bucket(bh, l, r) && r < |b| && Rearranged(f, g, l, r)
    requires IsPerm(g, |b|) && Classes(b, ec, h) && SortedKeys(g, ec, l, r) && x < y <= r
    ensures Cmp(b, g[x], g[y], 2 * h) <= 0
  {
    if l <= x {
      BucketRefined(b, f, g, ec, bh, h, l, r, x, y);
    } else if l <= y {
      assert IsSet(bh, l) && HeaderAt(b, f, l, h);
      AcrossHeader(b, f, h, x, l, y);
      MovedSame(b, f, g, bh, h, l, r, x, y);
      CmpPrefix(b, g[x], g[y], h, 2 * h);
    }
  }

  /** What is known when bucket [l..r] has been sorted: the premises of the step. */
  ghost predicate BucketSorted(b: seq<byte>, f: seq<nat>, g: seq<nat>, ec: seq<nat>, bh: seq<nat>, h: nat, l: nat, r: nat) {
    && Refined(b, f, bh, h, l) && Bucket(bh, l, r) && r < |b| && Rearranged(f, g, l, r)
    && IsPerm(g, |b|) && Classes(b, ec, h) && SortedKeys(g, ec, l, r)
  }

  lemma HeaderOfBucket(b: seq<byte>, f: seq<nat>, g: seq<nat>, ec: seq<nat>, bh: seq<nat>, h: nat, l: nat, r: nat)
    requires BucketSorted(b, f, g, ec, bh, h, l, r)
    ensures HeaderAt(b, g, l, 2 * h)
  {
    if l > 0 {
      assert HeaderAt(b, f, l, h);
      AcrossHeader(b, f, h, l - 1, l, l);
      MovedSame(b, f, g, bh, h, l, r, l - 1, l);
      CmpPrefix(b, g[l - 1], g[l], h, 2 * h);
    }
  }

  lemma HeaderInBucket(b: seq<byte>, f: seq<nat>, g: seq<nat>, ec: seq<nat>, bh: seq<nat>, h: nat, l: nat, r: nat, i: nat)
    requires BucketSorted(b, f, g, ec, bh, h, l, r) && l < i <= r
    ensures HeaderAt(b, g, i, 2 * h) <==> Key(g, ec, i - 1) != Key(g, ec, i)
  {
    BucketRefined(b, f, g, ec, bh, h, l, r, i - 1, i);
    BucketRefined(b, f, g, ec, bh, h, l, r, i, i - 1);
    CmpSym(b, g[i - 1], g[i], 2 * h);
  }

  lemma HeaderElsewhere(b: seq<byte>, f: seq<nat>, g: seq<nat>, ec: seq<nat>, bh: seq<nat>, h: nat, l: nat, r: nat, i: nat)
    requires BucketSorted(b, f, g, ec, bh, h, l, r) && i < |b| && (i < l || r < i)
    ensures IsSet(bh, i) <==> HeaderAt(b, g, i, if i < l then 2 * h else h)
  {
    if i < l {
      if i > 0 { assert g[i - 1] == f[i - 1] && g[i] == f[i]; }
    } else {
      MovedSame(b, f, g, bh, h, l, r, i - 1, i);
    }
  }

  lemma SortedShape(b: seq<byte>, f: seq<nat>, g: seq<nat>, ec: seq<nat>, bh: seq<nat>, h: nat, l: nat, r: nat)
    requires BucketSorted(b, f, g, ec, bh, h, l, r)
    ensures 0 < |b| == |g| && l <= r < |b| && IsSet(bh, |b|) && !IsSet(bh, |b| + 1)
  {
  }

  lemma MarkedAt(g: seq<nat>, ec: seq<nat>, bh: seq<nat>, bh': seq<nat>, l: nat, i: nat, z: nat)
    requires Marked(g, ec, bh, bh', l, i)
    ensures IsSet(bh', z) <==> MarkAt(g, ec, bh, l, i, z)
  {
    hide IsSet, MarkAt;
  }

  lemma RefinedHeader(b: seq<byte>, f: seq<nat>, g: seq<nat>, ec: seq<nat>, bh: seq<nat>, bh': seq<nat>, h: nat, l: nat, r: nat, i: nat)
    requires BucketSorted(b, f, g, ec, bh, h, l, r) && Marked(g, ec, bh, bh', l, r + 1) && i < |b| && |g| == |b|
    ensures IsSet(bh', i) <==> HeaderAt(b, g, i, if i < r + 1 then 2 * h else h)
  {
    hide BucketSorted, Marked, HeaderAt, Key, IsSet;
    MarkedAt(g, ec, bh, bh', l, r + 1, i);
    SortedShape(b, f, g, ec, bh, h, l, r);
    if i == l {
      HeaderOfBucket(b, f, g, ec, bh, h, l, r);
    } else if l < i <= r {
      HeaderInBucket(b, f, g, ec, bh, h, l, r, i);
    } else {
      HeaderElsewhere(b, f, g, ec, bh, h, l, r, i);
    }
  }

  lemma RefinedHeaders(b: seq<byte>, f: seq<nat>, g: seq<nat>, ec: seq<nat>, bh: seq<nat>, bh': seq<nat>, h: nat, l: nat, r: nat)
    requires BucketSorted(b, f, g, ec, bh, h, l, r) && Marked(g, ec, bh, bh', l, r + 1)
    ensures 0 < |b| == |g|
    ensures forall i: nat :: i < |b| ==> (IsSet(bh', i) <==> HeaderAt(b, g, i, if i < r + 1 then 2 * h else h))
    ensures IsSet(bh', |b|) && !IsSet(bh', |b| + 1)
  {
    hide BucketSorted, Marked, HeaderAt, Key, IsSet;
    SortedShape(b, f, g, ec, bh, h, l, r);
    MarkedAt(g, ec, bh, bh', l, r + 1, |b|);
    MarkedAt(g, ec, bh, bh', l, r + 1, |b| + 1);
    forall i: nat | i < |b| ensures IsSet(bh', i) <==> HeaderAt(b, g, i, if i < r + 1 then 2 * h else h) {
      RefinedHeader(b, f, g, ec, bh, bh', h, l, r, i);
    }
  }

  lemma RefinedOrders(b: seq<byte>, f: seq<nat>, g: seq<nat>, ec: seq<nat>, bh: seq<nat>, h: nat, l: nat, r: nat)
    requires BucketSorted(b, f, g, ec, bh, h, l, r)
    ensures |b| > 0 && |g| == |b| && SortedBy(b, g, h)
    ensures forall x, y :: 0 <= x < y < r + 1 ==> Cmp(b, g[x], g[y], 2 * h) <= 0
  {
    forall x, y | 0 <= x < y < |g| ensures Cmp(b, g[x], g[y], h) <= 0 {
      MovedSame(b, f, g, bh, h, l, r, x, y);
    }
    forall x, y | 0 <= x < y < r + 1 ensures Cmp(b, g[x], g[y], 2 * h) <= 0 {
      RefinedOrder(b, f, g, ec, bh, h, l, r, x, y);
    }
  }

  /** One bucket sorted by class and its headers written: refined up to its end. */
  lemma RefineBucket(b: seq<byte>, f: seq<nat>, g: seq<nat>, ec: seq<nat>, bh: seq<nat>, bh': seq<nat>, h: nat, l: nat, r: nat)
    requires Refined(b, f, bh, h, l) && Bucket(bh, l, r) && r < |b| && Rearranged(f, g, l, r)
    requires Classes(b, ec, h) && SortedKeys(g, ec, l, r)
    requires Marked(g, ec, bh, bh', l, r + 1) && Table(bh') && |bh'| == |bh|
    ensures Refined(b, g, bh', h, r + 1)
  {
    RearrangedPerm(f, g, l, r, |b|);
    assert BucketSorted(b, f, g, ec, bh, h, l, r);
    hide BucketSorted, Marked, Bucket, Rearranged, IsPerm, Table, IsSet, HeaderAt, SortedBy, Classes, SortedKeys;
    RefinedOrders(b, f, g, ec, bh, h, l, r);
    RefinedHeaders(b, f, g, ec, bh, bh', h, l, r);
  }

  // ---------- one pass ----------

  lemma MarkStep(g: seq<nat>, ec: seq<nat>, bh: seq<nat>, bh0: seq<nat>, bh1: seq<nat>, l: nat, i: nat, change: bool)
    requires Marked(g, ec, bh, bh0, l, i) && l <= i
    requires change <==> i == l || Key(g, ec, i - 1) != Key(g, ec, i)
    requires IsSet(bh, i) ==> i == l
    requires if change then (forall z: nat :: IsSet(bh1, z) <==> IsSet(bh0, z) || z == i) else bh1 == bh0
    ensures Marked(g, ec, bh, bh1, l, i + 1)
  {
    hide IsSet, Key;
    forall z: nat ensures IsSet(bh1, z) <==> MarkAt(g, ec, bh, l, i + 1, z) {
      assert IsSet(bh0, z) <==> MarkAt(g, ec, bh, l, i, z);
    }
  }

  /** Scan a sorted bucket and set a header wherever the class changes. */
  method MarkHeaders(fmap: array<nat>, eclass: array<nat>, bhtab: array<nat>, l: nat, r: nat)
    requires bhtab != fmap && bhtab != eclass && InRange(fmap[..], eclass[..], l, r) && l <= r
    requires Table(bhtab[..]) && r / 32 < bhtab.Length && Bucket(bhtab[..], l, r)
    modifies bhtab
    ensures Table(bhtab[..])
    ensures Marked(fmap[..], eclass[..], old(bhtab[..]), bhtab[..], l, r + 1)
  {
    hide Table, Marked, IsSet;
    ghost var g, ec, bh := fmap[..], eclass[..], bhtab[..];
    MarkedNone(g, ec, bh, l);
    var cc := -1;
    for i := l to r + 1
      invariant fmap[..] == g && eclass[..] == ec && Table(bhtab[..])
      invariant Marked(g, ec, bh, bhtab[..], l, i)
      invariant cc == if i == l then -1 else Key(g, ec, i - 1) as int
    {
      var cc1: int := eclass[fmap[i]];
      assert cc1 == Key(g, ec, i);
      ghost var before := bhtab[..];
      if cc != cc1 {
        SetBH(bhtab, i);
      }
      MarkStep(g, ec, bh, before, bhtab[..], l, i, cc != cc1);
      cc := cc1;
    }
  }

  lemma MarkedNone(g: seq<nat>, ec: seq<nat>, bh: seq<nat>, l: nat)
    ensures Marked(g, ec, bh, bh, l, l)
  {
  }

  /** The next bucket with more than one row, or none. */
  method NextBucket(bhtab: array<nat>, nblock: nat, d: nat) returns (found: bool, l: nat, r: nat)
    requires Table(bhtab[..]) && (nblock + 1) / 32 < bhtab.Length && d <= nblock
    requires IsSet(bhtab[..], d) && IsSet(bhtab[..], nblock) && !IsSet(bhtab[..], nblock + 1)
    ensures d <= l <= nblock && SetRun(bhtab[..], d, l)
    ensures !found ==> l == nblock
    ensures found ==> l < r < nblock && Bucket(bhtab[..], l, r)
  {
    hide Table, IsSet;
    var k := SkipRun(bhtab, d, true, nblock + 1);
    l := k - 1;
    r := l;
    if l >= nblock { return false, l, r; }
    k := SkipRun(bhtab, k, false, nblock);
    r := k - 1;
    assert r < nblock;  // the second exit of the scan is never taken
    found := true;
  }

  lemma BucketFits(b: seq<byte>, f: seq<nat>, bh: seq<nat>, ec: seq<nat>, h: nat, l: nat, r: nat)
    requires Refined(b, f, bh, h, l) && Classes(b, ec, h) && l <= r < |b|
    ensures InRange(f, ec, l, r) && Table(bh) && r / 32 < |bh|
  {
  }

  lemma Boundary(b: seq<byte>, f: seq<nat>, bh: seq<nat>, h: nat, d: nat)
    requires Refined(b, f, bh, h, d) && (d == 0 || IsSet(bh, d))
    ensures IsSet(bh, d) && IsSet(bh, |b|) && !IsSet(bh, |b| + 1) && Table(bh) && (|b| + 1) / 32 < |bh| && d <= |b|
  {
    if d < |b| { assert IsSet(bh, d) <==> HeaderAt(b, f, d, h); }
  }

  /** Sort one bucket by class and write its headers. */
  method SortBucket(fmap: array<nat>, eclass: array<nat>, bhtab: array<nat>, h: nat, l: nat, r: nat, ghost b: seq<byte>)
    requires fmap != eclass && bhtab != fmap && bhtab != eclass
    requires Refined(b, fmap[..], bhtab[..], h, l) && Classes(b, eclass[..], h)
    requires l < r < |b| <= 0x8000_0000 && Bucket(bhtab[..], l, r)
    modifies fmap, bhtab
    ensures Refined(b, fmap[..], bhtab[..], h, r + 1) && IsSet(bhtab[..], r + 1)
  {
    hide Refined, Classes, Bucket, InRange, Rearranged, SortedKeys, Marked, Table, IsSet;
    ghost var f, ec, bh := fmap[..], eclass[..], bhtab[..];
    BucketFits(b, f, bh, ec, h, l, r);
    FallbackQSort3(fmap, eclass, l, r);
    InRangeKept(f, fmap[..], ec, l, r, l, r);
    MarkHeaders(fmap, eclass, bhtab, l, r);
    RefineBucket(b, f, fmap[..], ec, bh, bhtab[..], h, l, r);
    EndMarked(fmap[..], ec, bh, bhtab[..], l, r);
  }

  lemma EndMarked(g: seq<nat>, ec: seq<nat>, bh: seq<nat>, bh': seq<nat>, l: nat, r: nat)
    requires Bucket(bh, l, r) && Marked(g, ec, bh, bh', l, r + 1)
    ensures IsSet(bh', r + 1)
  {
    MarkedAt(g, ec, bh, bh', l, r + 1, r + 1);
    hide IsSet, Key;
  }

  /** All rows are in their own buckets: the rotations are in strict order already. */
  ghost predicate AllSingle(bh: seq<nat>, n: nat) {
    SetRun(bh, 0, n)
  }

  /** One turn of the doubling loop: from order at depth h to order at depth 2h. */
  method RefinePass(fmap: array<nat>, eclass: array<nat>, bhtab: array<nat>, nblock: nat, h: nat, ghost b: seq<byte>)
    returns (nNotDone: nat)
    requires fmap != eclass && bhtab != fmap && bhtab != eclass && fmap.Length == nblock == |b| <= 0x8000_0000
    requires Refined(b, fmap[..], bhtab[..], h, 0) && Classes(b, eclass[..], h)
    modifies fmap, bhtab
    ensures Refined(b, fmap[..], bhtab[..], h, nblock)
    ensures nNotDone == 0 ==> fmap[..] == old(fmap[..]) && AllSingle(old(bhtab[..]), nblock)
  {
    hide Refined, Classes, Bucket, SetRun, Table, IsSet, AllSingle;
    ghost var f, bh, ec := fmap[..], bhtab[..], eclass[..];
    nNotDone := 0;
    var d := 0;
    BoundsOf(b, fmap[..], bhtab[..], h, d);
    while true
      invariant eclass[..] == ec
      invariant Refined(b, fmap[..], bhtab[..], h, d) && d <= nblock
      invariant d == 0 || IsSet(bhtab[..], d)
      invariant nNotDone == 0 ==> d == 0 && fmap[..] == f && bhtab[..] == bh
      decreases nblock - d
    {
      Boundary(b, fmap[..], bhtab[..], h, d);
      var found, l, r := NextBucket(bhtab, nblock, d);
      SkipSingles(b, fmap[..], bhtab[..], h, d, l);
      if !found {
        SingleRun(bhtab[..], nblock, nNotDone, d);
        break;
      }
      nNotDone := nNotDone + (r - l + 1);
      SortBucket(fmap, eclass, bhtab, h, l, r, b);
      d := r + 1;
    }
  }

  lemma BoundsOf(b: seq<byte>, f: seq<nat>, bh: seq<nat>, h: nat, d: nat)
    requires Refined(b, f, bh, h, d)
    ensures |f| == |b| > 0
  {
  }

  lemma SingleRun(bh: seq<nat>, n: nat, nNotDone: nat, d: nat)
    requires SetRun(bh, d, n) && (nNotDone == 0 ==> d == 0)
    ensures nNotDone == 0 ==> AllSingle(bh, n)
  {
  }

  /** A pass over every row turns depth h into depth 2h. */
  lemma PassDone(b: seq<byte>, f: seq<nat>, bh: seq<nat>, h: nat)
    requires Refined(b, f, bh, h, |b|) && h > 0
    ensures Refined(b, f, bh, 2 * h, 0)
  {
  }

  /** Either stopping condition of the doubling loop means the rotations are sorted. */
  lemma SortedAtEnd(b: seq<byte>, f: seq<nat>, bh: seq<nat>, h: nat)
    requires Refined(b, f, bh, h, 0)
    requires h > |b| || AllSingle(bh, |b|)
    ensures SortsRotations(b, f)
  {
    forall x, y | 0 <= x < y < |f| ensures Cmp(b, f[x], f[y], |b|) <= 0 {
      if h > |b| {
        CmpPrefix(b, f[x], f[y], |b|, h);
      } else {
        assert IsSet(bh, y) && HeaderAt(b, f, y, h);
        AcrossHeader(b, f, h, x, y, y);
        CmpPrefix(b, f[x], f[y], h, |b|);
      }
    }
  }

  // ---------- the initial bucket sort ----------

  /** Where the initial scan, filling each bucket from its end, puts position i. */
  ghost function Place(b: seq<byte>, i: nat): nat
    requires i < |b|
  {
    SlotRange(b, i);
    CountLess(b, b[i] as int + 1) - 1 - CountEq(b[..i], b[i])
  }

  lemma PlaceRange(b: seq<byte>, i: nat)
    requires i < |b|
    ensures 0 <= CountLess(b, b[i]) <= Place(b, i) < CountLess(b, b[i] as int + 1) <= |b|
  {
    SlotRange(b, i);
    CountNext(b, b[i]);
    CountEqStep(b, i, b[i]);
    CountEqPrefix(b, i + 1, |b|, b[i]);
    assert b[..|b|] == b;
  }

  lemma PlaceDiffers(b: seq<byte>, i: nat, j: nat)
    requires i < j < |b|
    ensures Place(b, i) != Place(b, j)
  {
    PlaceRange(b, i);
    PlaceRange(b, j);
    if b[i] < b[j] {
      CountLessMonotone(b, b[i] as int + 1, b[j]);
    } else if b[j] < b[i] {
      CountLessMonotone(b, b[j] as int + 1, b[i]);
    } else {
      CountEqStep(b, i, b[i]);
      CountEqPrefix(b, i + 1, j, b[i]);
    }
  }

  ghost function Places(b: seq<byte>): (p: seq<nat>)
    ensures |p| == |b| && forall i :: 0 <= i < |b| ==> p[i] == Place(b, i)
    ensures IsPerm(p, |b|)
  {
    var p := seq(|b|, i requires 0 <= i < |b| => Place(b, i));
    assert forall i :: 0 <= i < |b| ==> p[i] < |b| by {
      forall i | 0 <= i < |b| ensures p[i] < |b| { PlaceRange(b, i); }
    }
    assert Injective(p) by {
      forall i, j | 0 <= i < j < |b| ensures p[i] != p[j] { PlaceDiffers(b, i, j); }
    }
    p
  }

  ghost predicate Placed(b: seq<byte>, f: seq<nat>, ftab: seq<int>, i: nat) {
    && |f| == |b| && |ftab| == 257 && i <= |b|
    && (forall c :: 0 <= c < 256 ==> ftab[c] == CountLess(b, c + 1) - CountEq(b[..i], c))
    && (forall t :: 0 <= t < i ==> 0 <= Place(b, t) < |b| && f[Place(b, t)] == t)
  }

  lemma PlaceStep(b: seq<byte>, f: seq<nat>, ftab: seq<int>, i: nat)
    requires Placed(b, f, ftab, i) && i < |b|
    ensures var k := ftab[b[i]] - 1;
            0 <= k < |b| && Placed(b, f[k := i], ftab[b[i] := k], i + 1)
  {
    var k := ftab[b[i]] - 1;
    PlaceRange(b, i);
    var ftab', seen, now := ftab[b[i] := k], b[..i], b[..i + 1];
    forall c | 0 <= c < 256 ensures ftab'[c] == CountLess(b, c + 1) - CountEq(now, c) {
      CountEqStep(b, i, c);
      assert CountEq(now, c) == CountEq(seen, c) + if b[i] == c then 1 else 0;
    }
    forall t | 0 <= t < i ensures f[k := i][Place(b, t)] == t { PlaceDiffers(b, t, i); }
  }

  /** Positions sorted by first character, each bucket where its counts say. */
  ghost predicate Bucketed(b: seq<byte>, f: seq<nat>) {
    && IsPerm(f, |b|)
    && forall x :: 0 <= x < |b| ==> CountLess(b, b[f[x]]) <= x < CountLess(b, b[f[x]] as int + 1)
  }

  lemma PlacedBucketed(b: seq<byte>, f: seq<nat>, ftab: seq<int>)
    requires Placed(b, f, ftab, |b|)
    ensures Bucketed(b, f)
  {
    var p := Places(b);
    Surjective(p, |b|);
    forall x | 0 <= x < |b|
      ensures f[x] < |b| && p[f[x]] == x && CountLess(b, b[f[x]]) <= x < CountLess(b, b[f[x]] as int + 1)
    {
      assert x in p;
      var t :| 0 <= t < |p| && p[t] == x;
      assert f[Place(b, t)] == t;
      PlaceRange(b, t);
    }
    forall x, y | 0 <= x < y < |b| ensures f[x] != f[y] {
      assert p[f[x]] == x && p[f[y]] == y;
    }
  }

  lemma BucketedOrder(b: seq<byte>, f: seq<nat>, x: nat, y: nat)
    requires Bucketed(b, f) && x < y < |b|
    ensures b[f[x]] <= b[f[y]]
    ensures b[f[x]] == b[f[y]] <==> CountLess(b, b[f[y]]) <= x
  {
    if b[f[y]] < b[f[x]] { CountLessMonotone(b, b[f[y]] as int + 1, b[f[x]]); }
    if b[f[x]] < b[f[y]] { CountLessMonotone(b, b[f[x]] as int + 1, b[f[y]]); }
  }

  lemma CmpOne(b: seq<byte>, i: nat, j: nat)
    requires i < |b| && j < |b|
    ensures Cmp(b, i, j, 1) <= 0 <==> b[i] <= b[j]
    ensures Cmp(b, i, j, 1) == 0 <==> b[i] == b[j]
  {
    DivModUnique(i, |b|, 0, i);
    DivModUnique(j, |b|, 0, j);
    assert Cmp(b, i + 1, j + 1, 0) == 0;
  }

  /** z is where one of the first k buckets starts. */
  ghost predicate IsStart(b: seq<byte>, k: nat, z: nat) {
    exists c: nat :: c < k && CountLess(b, c) == z
  }

  lemma HeaderIsStart(b: seq<byte>, f: seq<nat>, i: nat)
    requires Bucketed(b, f) && i < |b|
    ensures HeaderAt(b, f, i, 1) <==> IsStart(b, 256, i)
  {
    CountLessAll(b);
    if i == 0 {
      assert IsStart(b, 256, 0);
    } else {
      BucketedOrder(b, f, i - 1, i);
      CmpOne(b, f[i - 1], f[i]);
      if HeaderAt(b, f, i, 1) {
        assert CountLess(b, b[f[i]]) == i;
      }
      if IsStart(b, 256, i) {
        var c: nat :| c < 256 && CountLess(b, c) == i;
        if c <= b[f[i - 1]] { CountLessMonotone(b, c, b[f[i - 1]]); }
        if b[f[i]] < c { CountLessMonotone(b, b[f[i]] as int + 1, c); }
      }
    }
  }

  lemma InitialState(b: seq<byte>, f: seq<nat>, bh': seq<nat>)
    requires Bucketed(b, f) && |b| > 0 && Table(bh') && (|b| + 63) / 32 < |bh'|
    requires forall z: nat :: z < |b| ==> (IsSet(bh', z) <==> IsStart(b, 256, z))
    requires IsSet(bh', |b|) && !IsSet(bh', |b| + 1)
    ensures Refined(b, f, bh', 1, 0)
  {
    forall x, y | 0 <= x < y < |f| ensures Cmp(b, f[x], f[y], 1) <= 0 {
      BucketedOrder(b, f, x, y);
      CmpOne(b, f[x], f[y]);
    }
    forall i: nat | i < |b| ensures IsSet(bh', i) <==> HeaderAt(b, f, i, 1) {
      hide IsSet, HeaderAt, IsStart;
      HeaderIsStart(b, f, i);
    }
  }

  /** Counts of the characters, kept for the reconstruction, and their running sums. */
  method CountCharacters(eclass8: array<byte>, nblock: nat, ftab: array<int>, ftabCopy: array<int>, ghost b: seq<byte>)
    requires ftab != ftabCopy && ftab.Length == 257 && ftabCopy.Length == 256
    requires eclass8.Length == nblock && eclass8[..] == b
    modifies ftab, ftabCopy
    ensures forall c :: 0 <= c < 256 ==> ftab[c] == CountLess(b, c + 1)
    ensures forall c :: 0 <= c < 256 ==> ftabCopy[c] == CountEq(b, c)
  {
    for i := 0 to 257
      invariant forall c :: 0 <= c < i ==> ftab[c] == 0
    {
      ftab[i] := 0;
    }
    for i := 0 to nblock
      invariant forall c :: 0 <= c < 256 ==> ftab[c] == CountEq(b[..i], c)
      invariant ftab[256] == 0
    {
      forall c | 0 <= c < 256 ensures CountEq(b[..i + 1], c) == CountEq(b[..i], c) + if b[i] == c then 1 else 0 {
        CountEqStep(b, i, c);
      }
      ftab[eclass8[i]] := ftab[eclass8[i]] + 1;
    }
    assert b[..nblock] == b;
    for i := 0 to 256
      invariant forall c :: 0 <= c < 256 ==> ftab[c] == CountEq(b, c)
      invariant forall c :: 0 <= c < i ==> ftabCopy[c] == CountEq(b, c)
    {
      ftabCopy[i] := ftab[i];
    }
    CountLessAll(b);
    CountNext(b, 0);
    for i := 1 to 257
      invariant forall c :: 0 <= c < i && c < 256 ==> ftab[c] == CountLess(b, c + 1)
      invariant forall c :: i <= c < 256 ==> ftab[c] == CountEq(b, c)
      invariant forall c :: 0 <= c < 256 ==> ftabCopy[c] == CountEq(b, c)
    {
      CountNext(b, i);
      ftab[i] := ftab[i] + ftab[i - 1];
    }
  }

  method PlacePositions(fmap: array<nat>, eclass8: array<byte>, nblock: nat, ftab: array<int>, ghost b: seq<byte>)
    requires fmap.Length == nblock && ftab.Length == 257 && eclass8.Length == nblock && eclass8[..] == b
    requires forall c :: 0 <= c < 256 ==> ftab[c] == CountLess(b, c + 1)
    modifies fmap, ftab
    ensures Bucketed(b, fmap[..])
    ensures forall c :: 0 <= c < 256 ==> ftab[c] == CountLess(b, c)
  {
    hide Placed, Bucketed;
    ghost var f, ft := fmap[..], ftab[..];
    PlaceStart(b, f, ft);
    for i := 0 to nblock
      invariant fmap[..] == f && ftab[..] == ft && Placed(b, f, ft, i)
    {
      PlaceStep(b, f, ft, i);
      var j := eclass8[i];
      var k := ftab[j] - 1;
      ftab[j] := k;
      fmap[k] := i;
      f, ft := f[k := i], ft[j := k];
    }
    PlacedBucketed(b, f, ft);
    PlaceEnd(b, f, ft);
  }

  lemma PlaceStart(b: seq<byte>, f: seq<nat>, ftab: seq<int>)
    requires |f| == |b| && |ftab| == 257 && forall c :: 0 <= c < 256 ==> ftab[c] == CountLess(b, c + 1)
    ensures Placed(b, f, ftab, 0)
  {
  }

  lemma PlaceEnd(b: seq<byte>, f: seq<nat>, ftab: seq<int>)
    requires Placed(b, f, ftab, |b|)
    ensures forall c :: 0 <= c < 256 ==> ftab[c] == CountLess(b, c)
  {
    assert b[..|b|] == b;
    forall c | 0 <= c < 256 ensures ftab[c] == CountLess(b, c) { CountNext(b, c); }
  }

  /** Clear the bitmap, mark the bucket starts, and set the block-end sentinels. */
  method InitHeaders(bhtab: array<nat>, ftab: array<int>, nblock: nat, ghost b: seq<byte>)
    requires |b| == nblock && ftab.Length == 257 && bhtab.Length >= nblock / 32 + 3
    requires Table(bhtab[..]) && forall c :: 0 <= c < 256 ==> ftab[c] == CountLess(b, c)
    modifies bhtab
    ensures Table(bhtab[..])
    ensures forall z: nat :: z < nblock ==> (IsSet(bhtab[..], z) <==> IsStart(b, 256, z))
    ensures IsSet(bhtab[..], nblock) && !IsSet(bhtab[..], nblock + 1)
  {
    hide IsStart;
    var nBhtab := 2 + nblock / 32;
    for i := 0 to nBhtab
      invariant Table(bhtab[..])
      invariant forall w :: 0 <= w < i ==> bhtab[w] == 0
    {
      bhtab[i] := 0;
    }
    ZeroTable(bhtab[..], nBhtab);
    hide IsSet, Table;
    StartsNone(b);
    ghost var ft := ftab[..];
    assert forall c :: 0 <= c < 256 ==> ft[c] == CountLess(b, c);
    for i := 0 to 256
      invariant Table(bhtab[..])
      invariant ftab[..] == ft
      invariant forall z: nat :: z < 32 * nBhtab ==> (IsSet(bhtab[..], z) <==> IsStart(b, i, z))
    {
      CountLessMonotone(b, i, 256);
      StartsNext(b, i);
      assert ftab[i] == ft[i] == CountLess(b, i);
      ghost var before := bhtab[..];
      SetBH(bhtab, ftab[i]);
      forall z: nat | z < 32 * nBhtab ensures IsSet(bhtab[..], z) <==> IsStart(b, i + 1, z) {
        assert IsSet(before, z) <==> IsStart(b, i, z);
      }
    }
    for i := 0 to 32
      invariant Table(bhtab[..])
      invariant forall z: nat :: z < nblock ==> (IsSet(bhtab[..], z) <==> IsStart(b, 256, z))
      invariant i > 0 ==> IsSet(bhtab[..], nblock) && !IsSet(bhtab[..], nblock + 1)
    {
      SetBH(bhtab, nblock + 2 * i);
      ClearBH(bhtab, nblock + 2 * i + 1);
    }
  }

  lemma ZeroTable(bh: seq<nat>, m: nat)
    requires m <= |bh| && forall w :: 0 <= w < m ==> bh[w] == 0
    ensures forall z: nat :: z < 32 * m ==> !IsSet(bh, z)
  {
    forall z: nat | z < 32 * m ensures !IsSet(bh, z) { ZeroBit(z % 32); }
  }

  lemma StartsNone(b: seq<byte>)
    ensures forall z: nat :: !IsStart(b, 0, z)
  {
  }

  lemma StartsNext(b: seq<byte>, k: nat)
    ensures forall z: nat :: IsStart(b, k + 1, z) <==> IsStart(b, k, z) || z == CountLess(b, k)
  {
    forall z: nat ensures IsStart(b, k + 1, z) <==> IsStart(b, k, z) || z == CountLess(b, k) {
      if IsStart(b, k, z) {
        var c: nat :| c < k && CountLess(b, c) == z;
        assert c < k + 1;
      }
    }
  }

  // ---------- giving the block back ----------

  /** The class numbers share memory with the block: once they are written, nothing is
      known of the block's bytes. */
  method Overwrite(eclass8: array<byte>)
    modifies eclass8
  {
    for i := 0 to eclass8.Length {
      eclass8[i] := *;
    }
  }

  /** Sorted rows and bucketed rows have the same first characters. */
  lemma SortedFirst(b: seq<byte>, f: seq<nat>, f0: seq<nat>, i: nat)
    requires |b| > 0 && SortsRotations(b, f) && Bucketed(b, f0) && i < |b|
    ensures CountLess(b, b[f[i]]) <= i < CountLess(b, b[f[i]] as int + 1)
  {
    forall x, y | 0 <= x < y < |f| ensures Cmp(b, f[x], f[y], 1) <= 0 {
      CmpPrefix(b, f[x], f[y], 1, |b|);
    }
    forall x, y | 0 <= x < y < |f0| ensures Cmp(b, f0[x], f0[y], 1) <= 0 {
      BucketedOrder(b, f0, x, y);
      CmpOne(b, f0[x], f0[y]);
    }
    SortedUnique(b, f, f0, 1, i);
    CmpOne(b, f[i], f0[i]);
  }

  /** Copies of character j that are still to be handed out when row i is next. */
  ghost predicate Remaining(b: seq<byte>, left: seq<int>, j: nat, i: nat) {
    && |left| == 256 && j < 256 && CountLess(b, j) <= i <= CountLess(b, j + 1)
    && left[j] == CountLess(b, j + 1) - i
    && forall c :: j < c < 256 ==> left[c] == CountEq(b, c)
  }

  lemma RemainingNext(b: seq<byte>, left: seq<int>, j: nat, i: nat)
    requires Remaining(b, left, j, i) && left[j] == 0 && i < |b|
    ensures j + 1 < 256 && Remaining(b, left, j + 1, i)
  {
    CountLessAll(b);
    if j + 1 < 256 {
      CountNext(b, j + 1);
      CountLessMonotone(b, j + 1, j + 2);
    }
  }

  lemma RemainingChar(b: seq<byte>, left: seq<int>, j: nat, i: nat, c: byte)
    requires Remaining(b, left, j, i) && left[j] != 0 && i < |b|
    requires CountLess(b, c) <= i < CountLess(b, c as int + 1)
    ensures c == j
    ensures Remaining(b, left[j := left[j] - 1], j, i + 1)
  {
    if c < j { CountLessMonotone(b, c as int + 1, j); }
    if j < c { CountLessMonotone(b, j + 1, c); }
  }

  /** Rebuild the block: the sorted rows' first characters come out in order, as many of
      each as were counted. Assertion 1005 (j < 256) holds. */
  method Reconstruct(fmap: array<nat>, eclass8: array<byte>, ftabCopy: array<int>, nblock: nat, ghost b: seq<byte>, ghost f0: seq<nat>)
    requires fmap.Length == eclass8.Length == nblock == |b| > 0 && ftabCopy.Length == 256
    requires eclass8 as object != ftabCopy && fmap as object !in {eclass8 as object, ftabCopy as object}
    requires SortsRotations(b, fmap[..]) && Bucketed(b, f0)
    requires forall c :: 0 <= c < 256 ==> ftabCopy[c] == CountEq(b, c)
    modifies eclass8, ftabCopy
    ensures eclass8[..] == b
  {
    hide SortsRotations, Bucketed, Remaining;
    ghost var f, e := fmap[..], eclass8[..];
    var j := 0;
    RemainingStart(b, ftabCopy[..]);
    RowsBound(b, f);
    for i := 0 to nblock
      invariant fmap[..] == f && eclass8[..] == e && j < 256
      invariant Remaining(b, ftabCopy[..], j, i)
      invariant Restored(b, f, e, i)
    {
      while ftabCopy[j] == 0
        invariant eclass8[..] == e && j < 256 && Remaining(b, ftabCopy[..], j, i)
        decreases 256 - j
      {
        RemainingNext(b, ftabCopy[..], j, i);
        j := j + 1;
      }
      SortedFirst(b, f, f0, i);
      RemainingChar(b, ftabCopy[..], j, i, b[f[i]]);
      ghost var left := ftabCopy[..];
      ftabCopy[j] := ftabCopy[j] - 1;
      assert ftabCopy[..] == left[j := left[j] - 1];
      eclass8[fmap[i]] := j;
      e := e[f[i] := j];
    }
    assert j < 256;  // AssertH 1005
    AllRestored(b, f, e);
  }

  /** The bytes under the first i rows are back. */
  ghost predicate Restored(b: seq<byte>, f: seq<nat>, e: seq<byte>, i: nat) {
    && |e| == |b| == |f| && i <= |f|
    && forall t :: 0 <= t < i ==> f[t] < |b| && e[f[t]] == b[f[t]]
  }

  lemma AllRestored(b: seq<byte>, f: seq<nat>, e: seq<byte>)
    requires |b| > 0 && SortsRotations(b, f) && Restored(b, f, e, |b|)
    ensures e == b
  {
    Surjective(f, |b|);
    forall p: nat | p < |b| ensures e[p] == b[p] {
      assert p in f;
      var t :| 0 <= t < |f| && f[t] == p;
      assert e[f[t]] == b[f[t]];
    }
  }

  lemma RemainingStart(b: seq<byte>, left: seq<int>)
    requires |left| == 256 && forall c :: 0 <= c < 256 ==> left[c] == CountEq(b, c)
    ensures Remaining(b, left, 0, 0)
  {
    CountLessAll(b);
    CountNext(b, 0);
  }

  lemma RowsBound(b: seq<byte>, f: seq<nat>)
    requires |b| > 0 && SortsRotations(b, f)
    ensures |f| == |b| && forall t :: 0 <= t < |b| ==> f[t] < |b|
  {
  }

  // ---------- the whole sort ----------

  /** The doubling loop: number the classes at depth h, refine every bucket, double h. */
  method DoublingLoop(fmap: array<nat>, eclass: array<nat>, bhtab: array<nat>, nblock: nat, ghost b: seq<byte>)
    requires fmap != eclass && bhtab != fmap && bhtab != eclass
    requires fmap.Length == nblock == |b| <= eclass.Length && nblock <= 0x8000_0000
    requires Refined(b, fmap[..], bhtab[..], 1, 0)
    modifies fmap, eclass, bhtab
    ensures |b| > 0 && SortsRotations(b, fmap[..])
  {
    hide Refined, Classes, Numbered, IsPerm, AllSingle, SortsRotations;
    var h := 1;
    BoundsOf(b, fmap[..], bhtab[..], h, 0);
    while true
      invariant 0 < h <= nblock && Refined(b, fmap[..], bhtab[..], h, 0)
      decreases nblock - h
    {
      ghost var f, bh := fmap[..], bhtab[..];
      RefinedShape(b, f, bh, h, 0);
      NumberClasses(fmap, eclass, bhtab, nblock, h);
      ClassesHold(b, f, eclass[..], bh, h);
      var nNotDone := RefinePass(fmap, eclass, bhtab, nblock, h, b);
      PassDone(b, fmap[..], bhtab[..], h);
      if nNotDone == 0 { SortedAtEnd(b, f, bh, h); }
      h := h * 2;
      if h > nblock || nNotDone == 0 {
        if nNotDone != 0 { SortedAtEnd(b, fmap[..], bhtab[..], h); }
        break;
      }
    }
  }

  /** `fallbackSort`: fmap lists the rotations in order, and the block, destroyed by the
      class numbers, is put back. */
  method Sort(fmap: array<nat>, eclass: array<nat>, eclass8: array<byte>, bhtab: array<nat>, nblock: nat)
    requires fmap != eclass && bhtab != fmap && bhtab != eclass
    requires 0 < nblock == fmap.Length == eclass8.Length <= eclass.Length && nblock <= 0x8000_0000
    requires bhtab.Length >= nblock / 32 + 3 && Table(bhtab[..])
    modifies fmap, eclass, eclass8, bhtab
    ensures SortsRotations(old(eclass8[..]), fmap[..])
    ensures eclass8[..] == old(eclass8[..])
  {
    hide Refined, SortsRotations, Bucketed, Table, IsSet, IsStart;
    ghost var b := eclass8[..];
    var ftab := new int[257];
    var ftabCopy := new int[256];
    CountCharacters(eclass8, nblock, ftab, ftabCopy, b);
    ghost var counts := ftabCopy[..];
    PlacePositions(fmap, eclass8, nblock, ftab, b);
    InitHeaders(bhtab, ftab, nblock, b);
    ghost var f0 := fmap[..];
    InitialState(b, f0, bhtab[..]);
    DoublingLoop(fmap, eclass, bhtab, nblock, b);
    Overwrite(eclass8);
    assert ftabCopy[..] == counts;
    assert forall c :: 0 <= c < 256 ==> counts[c] == CountEq(b, c);
    Reconstruct(fmap, eclass8, ftabCopy, nblock, b, f0);
  }
}