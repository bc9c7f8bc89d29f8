/** Permutations of 0..n-1 given as sequences. */
module Permutations {

  ghost predicate Injective(p: seq<nat>) {
    forall i, j :: 0 <= i < j < |p| ==> p[i] != p[j]
  }

  ghost predicate IsPerm(p: seq<nat>, n: nat) {
    && |p| == n
    && (forall i :: 0 <= i < n ==> p[i] < n)
    && Injective(p)
  }

  ghost function Elements(p: seq<nat>): set<nat> {
    set x | x in p
  }

  lemma {:induction false} InjectiveCard(p: seq<nat>)
    requires Injective(p)
    ensures |Elements(p)| == |p|
  {
    if p != [] {
      var init, last := p[..|p| - 1], p[|p| - 1];
      InjectiveCard(init);
      assert p == init + [last];
      assert Elements(p) == Elements(init) + {last};
      assert last !in Elements(init);
    }
  }

  /** The set {0, ..., n-1}. */
  ghost function Below(n: nat): (s: set<nat>)
    ensures |s| == n
    ensures forall x: nat :: x in s <==> x < n
  {
    if n == 0 then {} else Below(n - 1) + {n - 1}
  }

  lemma SubsetCard(s: set<nat>, t: set<nat>)
    requires s <= t
    ensures |s| <= |t|
    ensures |s| == |t| ==> s == t
  {
    assert t == s + (t - s);
    assert |t| == |s| + |t - s|;
  }

  /** An injective sequence of n numbers below n misses none of them. */
  lemma Surjective(p: seq<nat>, n: nat)
    requires IsPerm(p, n)
    ensures forall v: nat :: v < n ==> v in p
  {
    InjectiveCard(p);
    assert Elements(p) <= Below(n);
    SubsetCard(Elements(p), Below(n));
    forall v: nat | v < n ensures v in p {
      assert v in Below(n);
    }
  }

  /** An injective sequence cannot fit into fewer slots. */
  lemma Pigeonhole(p: seq<nat>, q: seq<nat>)
    requires Injective(p)
    requires forall i :: 0 <= i < |p| ==> p[i] in q
    ensures |p| <= |q|
  {
    InjectiveCard(p);
    ElementsBound(q);
    SubsetCard(Elements(p), Elements(q));
  }

  lemma {:induction false} ElementsBound(q: seq<nat>)
    ensures |Elements(q)| <= |q|
  {
    if q != [] {
      var init, last := q[..|q| - 1], q[|q| - 1];
      ElementsBound(init);
      assert q == init + [last];
      assert Elements(q) == Elements(init) + {last};
    }
  }
}

/** The cyclic rotations of a block and their order: what the two sorts of
    blocksort.c compute and what makes the transform invertible. */
module Rotations {
  import opened Words
  import opened Permutations

  /** Position i of the block read cyclically. */
  function At(b: seq<byte>, i: nat): byte
    requires |b| > 0
  {
    b[i % |b|]
  }

  /** Three-way comparison of the k characters that follow i and j cyclically. */
  function Cmp(b: seq<byte>, i: nat, j: nat, k: nat): (c: int)
    requires |b| > 0
    ensures -1 <= c <= 1
    decreases k
  {
    if k == 0 then 0
    else if At(b, i) < At(b, j) then -1
    else if At(b, i) > At(b, j) then 1
    else Cmp(b, i + 1, j + 1, k - 1)
  }

  /** p lists positions in nondecreasing order of their first k cyclic characters. */
  ghost predicate SortedBy(b: seq<byte>, p: seq<nat>, k: nat)
    requires |b| > 0
  {
    forall x, y :: 0 <= x < y < |p| ==> Cmp(b, p[x], p[y], k) <= 0
  }

  /** The specification of block sorting: every rotation once, in nondecreasing order. */
  ghost predicate SortsRotations(b: seq<byte>, p: seq<nat>)
    requires |b| > 0
  {
    IsPerm(p, |b|) && SortedBy(b, p, |b|)
  }

  lemma {:induction false} CmpRefl(b: seq<byte>, i: nat, k: nat)
    requires |b| > 0
    ensures Cmp(b, i, i, k) == 0
    decreases k
  {
    if k > 0 { CmpRefl(b, i + 1, k - 1); }
  }

  lemma {:induction false} CmpSym(b: seq<byte>, i: nat, j: nat, k: nat)
    requires |b| > 0
    ensures Cmp(b, j, i, k) == -Cmp(b, i, j, k)
    decreases k
  {
    if k > 0 { CmpSym(b, i + 1, j + 1, k - 1); }
  }

  lemma {:induction false} CmpTrans(b: seq<byte>, i: nat, j: nat, l: nat, k: nat)
    requires |b| > 0
    requires Cmp(b, i, j, k) <= 0 && Cmp(b, j, l, k) <= 0
    ensures Cmp(b, i, l, k) <= 0
    ensures Cmp(b, i, l, k) == 0 <==> Cmp(b, i, j, k) == 0 && Cmp(b, j, l, k) == 0
    decreases k
  {
    if k > 0 && At(b, i) == At(b, j) == At(b, l) {
      CmpTrans(b, i + 1, j + 1, l + 1, k - 1);
    }
  }

  /** The first k characters decide, and the next m only break their ties. */
  lemma {:induction false} CmpSplit(b: seq<byte>, i: nat, j: nat, k: nat, m: nat)
    requires |b| > 0
    ensures Cmp(b, i, j, k + m) == if Cmp(b, i, j, k) != 0 then Cmp(b, i, j, k) else Cmp(b, i + k, j + k, m)
    decreases k
  {
    if k > 0 {
      assert k + m - 1 == (k - 1) + m;
      CmpSplit(b, i + 1, j + 1, k - 1, m);
      assert i + 1 + (k - 1) == i + k && j + 1 + (k - 1) == j + k;
    }
  }

  lemma CmpPrefix(b: seq<byte>, i: nat, j: nat, k: nat, m: nat)
    requires |b| > 0 && k <= m
    ensures Cmp(b, i, j, m) <= 0 ==> Cmp(b, i, j, k) <= 0
    ensures Cmp(b, i, j, m) == 0 ==> Cmp(b, i, j, k) == 0
    ensures Cmp(b, i, j, k) < 0 ==> Cmp(b, i, j, m) < 0
  {
    CmpSplit(b, i, j, k, m - k);
  }

  lemma {:induction false} EqualAt(b: seq<byte>, i: nat, j: nat, k: nat, t: nat)
    requires |b| > 0 && t < k && Cmp(b, i, j, k) == 0
    ensures At(b, i + t) == At(b, j + t)
    decreases k
  {
    if t > 0 {
      EqualAt(b, i + 1, j + 1, k - 1, t - 1);
      assert i + 1 + (t - 1) == i + t && j + 1 + (t - 1) == j + t;
    }
  }

  lemma ModStep(i: nat, n: nat)
    requires n > 0
    ensures (i % n + 1) % n == (i + 1) % n
  {
    var q, r := i / n, i % n;
    if r + 1 < n {
      DivModUnique(i + 1, n, q, r + 1);
      DivModUnique(r + 1, n, 0, r + 1);
    } else {
      DivModUnique(i + 1, n, q + 1, 0);
      DivModUnique(r + 1, n, 1, 0);
    }
  }

  /** Only residues matter: comparisons wrap around the end of the block. */
  lemma {:induction false} CmpWrap(b: seq<byte>, i: nat, i': nat, j: nat, k: nat)
    requires |b| > 0 && i % |b| == i' % |b|
    ensures Cmp(b, i, j, k) == Cmp(b, i', j, k)
    decreases k
  {
    if k > 0 {
      ModStep(i, |b|);
      ModStep(i', |b|);
      CmpWrap(b, i + 1, i' + 1, j + 1, k - 1);
    }
  }

  lemma CmpWrap2(b: seq<byte>, i: nat, i': nat, j: nat, j': nat, k: nat)
    requires |b| > 0 && i % |b| == i' % |b| && j % |b| == j' % |b|
    ensures Cmp(b, i, j, k) == Cmp(b, i', j', k)
  {
    CmpWrap(b, i, i', j, k);
    CmpSym(b, i', j, k);
    CmpWrap(b, j, j', i', k);
    CmpSym(b, i', j', k);
  }

  /** Comparing one whole turn settles every longer comparison. */
  lemma {:induction false} FullTurn(b: seq<byte>, i: nat, j: nat, k: nat)
    requires |b| > 0 && k >= |b|
    ensures Cmp(b, i, j, k) == Cmp(b, i, j, |b|)
    decreases k
  {
    var n := |b|;
    CmpSplit(b, i, j, n, k - n);
    if Cmp(b, i, j, n) == 0 {
      EqualForever(b, i, j, n, k - n);
    }
  }

  lemma {:induction false} EqualForever(b: seq<byte>, i: nat, j: nat, t: nat, k: nat)
    requires |b| > 0 && Cmp(b, i, j, |b|) == 0
    ensures Cmp(b, i + t, j + t, k) == 0
    decreases k
  {
    if k > 0 {
      var n := |b|;
      var t' := t % n;
      EqualAt(b, i, j, n, t');
      ModAdd(i, t, n);
      ModAdd(j, t, n);
      EqualForever(b, i, j, t + 1, k - 1);
      assert i + (t + 1) == i + t + 1 && j + (t + 1) == j + t + 1;
    }
  }

  lemma ModAdd(i: nat, t: nat, n: nat)
    requires n > 0
    ensures (i + t) % n == (i + t % n) % n
    ensures (i + t) % n == (i % n + t) % n
  {
    var q, r := t / n, t % n;
    var q1, r1 := (i + r) / n, (i + r) % n;
    assert i + t == n * (q + q1) + r1;
    DivModUnique(i + t, n, q + q1, r1);
    var q2, r2 := i / n, i % n;
    var q3, r3 := (r2 + t) / n, (r2 + t) % n;
    assert i + t == n * (q2 + q3) + r3;
    DivModUnique(i + t, n, q2 + q3, r3);
  }

  /** Two listings of the same positions, each sorted, agree rotation by rotation,
      however ties are arranged in either of them. */
  lemma SortedUnique(b: seq<byte>, p: seq<nat>, q: seq<nat>, k: nat, j: nat)
    requires |b| > 0 && IsPerm(p, |b|) && IsPerm(q, |b|) && j < |b|
    requires SortedBy(b, p, k) && SortedBy(b, q, k)
    ensures Cmp(b, p[j], q[j], k) == 0
  {
    if Cmp(b, p[j], q[j], k) < 0 {
      NotAhead(b, p, q, k, j);
    } else if Cmp(b, p[j], q[j], k) > 0 {
      CmpSym(b, p[j], q[j], k);
      NotAhead(b, q, p, k, j);
    }
  }

  lemma NotAhead(b: seq<byte>, p: seq<nat>, q: seq<nat>, k: nat, j: nat)
    requires |b| > 0 && IsPerm(p, |b|) && IsPerm(q, |b|) && j < |b|
    requires SortedBy(b, p, k) && SortedBy(b, q, k)
    ensures Cmp(b, p[j], q[j], k) >= 0
  {
    if Cmp(b, p[j], q[j], k) < 0 {
      // the j + 1 rotations up to p[j] would all have to be among the first j of q
      Surjective(q, |b|);
      forall x | 0 <= x <= j ensures p[x] in q[..j] {
        assert p[x] in q;
        var y :| 0 <= y < |b| && q[y] == p[x];
        CmpRefl(b, p[x], k);
        CmpTrans(b, p[x], p[j], q[j], k);
        CmpRefl(b, q[j], k);
        CmpSym(b, q[j], q[y], k);
        assert q[..j][y] == p[x];
      }
      var ahead, slots := p[..j + 1], q[..j];
      assert forall i :: 0 <= i < |ahead| ==> ahead[i] in slots;
      Pigeonhole(ahead, slots);
    }
  }
}
