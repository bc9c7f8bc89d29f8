/** Rearranging part of a sequence: what every step of the two sorts does to its
    pointer array, and keeps of it. */
module Rearrange {
  import opened Permutations

  /** g is f with the entries of [lo..hi] permuted. */
  ghost predicate Rearranged(f: seq<nat>, g: seq<nat>, lo: int, hi: int) {
    && |f| == |g|
    && multiset(f) == multiset(g)
    && forall x :: 0 <= x < |f| && !(lo <= x <= hi) ==> g[x] == f[x]
  }

  lemma RearrangedTrans(f: seq<nat>, g: seq<nat>, h: seq<nat>, lo: int, hi: int)
    requires Rearranged(f, g, lo, hi) && Rearranged(g, h, lo, hi)
    ensures Rearranged(f, h, lo, hi)
  {
  }

  lemma RearrangedSwap(f: seq<nat>, i: int, j: int, lo: int, hi: int)
    requires 0 <= lo <= i <= hi < |f| && lo <= j <= hi
    ensures Rearranged(f, f[i := f[j]][j := f[i]], lo, hi)
  {
  }

  lemma RangeContents(f: seq<nat>, g: seq<nat>, lo: int, hi: int)
    requires Rearranged(f, g, lo, hi) && 0 <= lo <= hi + 1 <= |f|
    ensures multiset(f[lo..hi + 1]) == multiset(g[lo..hi + 1])
  {
    var before, after := f[..lo], f[hi + 1..];
    assert f == before + f[lo..hi + 1] + after;
    assert g == before + g[lo..hi + 1] + after;
    MiddleContents(before, f[lo..hi + 1], g[lo..hi + 1], after);
  }

  lemma MiddleContents(a: seq<nat>, f: seq<nat>, g: seq<nat>, b: seq<nat>)
    requires multiset(a + f + b) == multiset(a + g + b)
    ensures multiset(f) == multiset(g)
  {
    assert multiset(f) == multiset(a + f + b) - multiset(a) - multiset(b);
    assert multiset(g) == multiset(a + g + b) - multiset(a) - multiset(b);
  }

  /** Every entry of the rearranged range was in the range before. */
  lemma RangeSource(f: seq<nat>, g: seq<nat>, lo: int, hi: int, x: int) returns (y: int)
    requires Rearranged(f, g, lo, hi) && 0 <= lo <= x <= hi < |f|
    ensures lo <= y <= hi && f[y] == g[x]
  {
    RangeContents(f, g, lo, hi);
    assert g[lo..hi + 1][x - lo] == g[x];
    assert g[x] in multiset(f[lo..hi + 1]);
    var z :| 0 <= z < |f[lo..hi + 1]| && f[lo..hi + 1][z] == g[x];
    y := lo + z;
  }

  lemma InjectiveMultiset(f: seq<nat>)
    requires Injective(f)
    ensures forall v :: v in multiset(f) ==> multiset(f)[v] == 1
  {
    forall v | v in multiset(f) ensures multiset(f)[v] == 1 {
      var i :| 0 <= i < |f| && f[i] == v;
      assert f == f[..i] + [v] + f[i + 1..];
      assert v !in f[..i] && v !in f[i + 1..];
    }
  }

  lemma RearrangedPerm(f: seq<nat>, g: seq<nat>, lo: int, hi: int, n: nat)
    requires Rearranged(f, g, lo, hi) && IsPerm(f, n)
    ensures IsPerm(g, n)
  {
    forall i | 0 <= i < n ensures g[i] < n {
      assert g[i] in multiset(f);
    }
    InjectiveMultiset(f);
    forall i, j | 0 <= i < j < n ensures g[i] != g[j] {
      if g[i] == g[j] {
        RepeatCounted(g, i, j);
      }
    }
  }

  lemma RepeatCounted(g: seq<nat>, i: int, j: int)
    requires 0 <= i < j < |g| && g[i] == g[j]
    ensures multiset(g)[g[i]] >= 2
  {
    assert g == g[..i] + [g[i]] + g[i + 1..];
    assert g[j] == g[i + 1..][j - i - 1];
  }
}

/** The stack of subranges still to be sorted by a quicksort: what it covers, and why
    pushing the larger part first keeps it shallow. */
module RangeStack {
  import opened Words

  datatype Range = Range(lo: int, hi: int)

  ghost function Size(r: Range): int { r.hi - r.lo + 1 }

  ghost predicate InSame(rs: seq<Range>, x: int, y: int) {
    exists s :: 0 <= s < |rs| && rs[s].lo <= x && y <= rs[s].hi
  }

  ghost predicate Within(r: Range, a: int, b: int) {
    a <= r.lo <= r.hi + 1 <= b + 1
  }

  ghost predicate Disjoint(r: Range, q: Range) {
    r.hi < q.lo || q.hi < r.lo
  }

  /** Pending ranges lie in [a..b] and do not overlap. */
  ghost predicate Apart(rs: seq<Range>, a: int, b: int) {
    && (forall s :: 0 <= s < |rs| ==> Within(rs[s], a, b))
    && (forall s, t :: 0 <= s < t < |rs| ==> Disjoint(rs[s], rs[t]))
  }

  ghost function Min(x: int, y: int): int { if x < y then x else y }

  /** From the bottom up, each range is at least as large as all those above it. */
  ghost predicate Halving(rs: seq<Range>, cap: int) {
    rs == [] ||
    (&& 0 <= Size(rs[0]) <= cap
     && (|rs| > 1 ==> Size(rs[0]) >= 1)
     && Halving(rs[1..], Min(Size(rs[0]), cap - Size(rs[0]))))
  }

  lemma {:induction false} HalvingPop(rs: seq<Range>, r: Range, cap: int)
    requires Halving(rs + [r], cap)
    ensures Halving(rs, cap)
  {
    if rs != [] {
      assert (rs + [r])[1..] == rs[1..] + [r];
      HalvingPop(rs[1..], r, Min(Size(rs[0]), cap - Size(rs[0])));
    }
  }

  lemma {:induction false} HalvingSplit(rs: seq<Range>, r: Range, big: Range, small: Range, cap: int)
    requires Halving(rs + [r], cap)
    requires 1 <= Size(big) && 0 <= Size(small) <= Size(big) && Size(big) + Size(small) <= Size(r)
    ensures Halving(rs + [big, small], cap)
  {
    if rs == [] {
      assert [big, small][1..] == [small];
    } else {
      assert (rs + [r])[1..] == rs[1..] + [r];
      assert (rs + [big, small])[1..] == rs[1..] + [big, small];
      HalvingSplit(rs[1..], r, big, small, Min(Size(rs[0]), cap - Size(rs[0])));
    }
  }

  /** A stack of d pending ranges needs at least 2^(d-2) elements. */
  lemma {:induction false} HalvingDepth(rs: seq<Range>, cap: int)
    requires Halving(rs, cap) && |rs| >= 2
    ensures Pow2(|rs| - 2) <= cap
    decreases |rs|
  {
    if |rs| > 2 {
      HalvingDepth(rs[1..], Min(Size(rs[0]), cap - Size(rs[0])));
    }
  }

  /** Work still pending; every split of a range of several elements reduces it. */
  ghost function Work(rs: seq<Range>): int {
    if rs == [] then 0 else Work(rs[..|rs| - 1]) + 2 * Size(rs[|rs| - 1]) + 1
  }

  lemma {:induction false} WorkNonnegative(rs: seq<Range>, a: int, b: int)
    requires Apart(rs, a, b)
    ensures Work(rs) >= 0
  {
    if rs != [] {
      WorkNonnegative(rs[..|rs| - 1], a, b);
      assert Within(rs[|rs| - 1], a, b);
    }
  }

  lemma WorkPush(rs: seq<Range>, r: Range)
    ensures Work(rs + [r]) == Work(rs) + 2 * Size(r) + 1
  {
    assert (rs + [r])[..|rs|] == rs;
  }

  lemma WorkSplit(rs: seq<Range>, r: Range, p: Range, q: Range)
    requires Size(p) + Size(q) < Size(r)
    ensures Work(rs + [p, q]) < Work(rs + [r])
  {
    WorkPush(rs, r);
    WorkPush(rs, p);
    WorkPush(rs + [p], q);
    assert rs + [p, q] == rs + [p] + [q];
  }

  lemma ApartSplit(rs: seq<Range>, r: Range, p: Range, q: Range, a: int, b: int)
    requires Apart(rs + [r], a, b)
    requires Within(p, r.lo, r.hi) && Within(q, r.lo, r.hi) && Disjoint(p, q)
    ensures Apart(rs, a, b) && Apart(rs + [p, q], a, b)
  {
    var old' := rs + [r];
    assert old'[|rs|] == r;
    forall s | 0 <= s < |rs| ensures Within(rs[s], a, b) && Disjoint(rs[s], r) {
      assert old'[s] == rs[s];
    }
    forall s, t | 0 <= s < t < |rs| ensures Disjoint(rs[s], rs[t]) {
      assert old'[s] == rs[s] && old'[t] == rs[t];
    }
    assert Within(old'[|rs|], a, b);
  }

  lemma ApartPop(rs: seq<Range>, r: Range, a: int, b: int)
    requires Apart(rs + [r], a, b)
    ensures Apart(rs, a, b) && Within(r, a, b)
    ensures forall s :: 0 <= s < |rs| ==> Disjoint(rs[s], r)
  {
    var all := rs + [r];
    assert all[|rs|] == r;
    forall s | 0 <= s < |rs| ensures Within(rs[s], a, b) && Disjoint(rs[s], r) {
      assert all[s] == rs[s];
    }
    forall s, t | 0 <= s < t < |rs| ensures Disjoint(rs[s], rs[t]) {
      assert all[s] == rs[s] && all[t] == rs[t];
    }
  }
}
