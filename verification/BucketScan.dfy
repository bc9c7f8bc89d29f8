/** Step 2 of mainSort (blocksort.c): how scanning a sorted big bucket puts the small buckets
    that end in its character in order. */
module BucketScan {
  import opened Words
  import opened Permutations
  import opened Rotations
  import opened Buckets

  /** The small bucket of the characters t, c. */
  function Small(t: nat, c: nat): (d: nat)
    ensures t < 256 && c < 256 ==> d < 65536
  {
    256 * t + c
  }

  /** The position before p, cyclically. */
  function Pred(n: nat, p: nat): nat
    requires p < n
  {
    if p == 0 then n - 1 else p - 1
  }

  function Succ(n: nat, p: nat): nat
    requires p < n
  {
    if p == n - 1 then 0 else p + 1
  }

  lemma SuccMod(n: nat, p: nat)
    requires p < n
    ensures Succ(n, p) < n && Succ(n, p) == (p + 1) % n && Pred(n, Succ(n, p)) == p
    ensures Pred(n, p) < n && Succ(n, Pred(n, p)) == p
  {
    if p == n - 1 { DivModUnique(p + 1, n, 1, 0); } else { DivModUnique(p + 1, n, 0, p + 1); }
  }

  // ---------- comparing with a run of one character ----------

  /** The first k characters from p on against k times c. */
  function CmpFlat(b: seq<byte>, p: nat, c: byte, k: nat): (r: int)
    requires |b| > 0
    ensures -1 <= r <= 1
    decreases k
  {
    if k == 0 then 0
    else if At(b, p) < c then -1
    else if At(b, p) > c then 1
    else CmpFlat(b, p + 1, c, k - 1)
  }

  /** Below the run and above it: so in this order. */
  lemma {:induction false} FlatBetween(b: seq<byte>, p: nat, q: nat, c: byte, k: nat)
    requires |b| > 0 && CmpFlat(b, p, c, k) <= 0 <= CmpFlat(b, q, c, k)
    ensures if CmpFlat(b, p, c, k) == CmpFlat(b, q, c, k) then Cmp(b, p, q, k) == 0 else Cmp(b, p, q, k) < 0
    decreases k
  {
    if k > 0 && At(b, p) == c == At(b, q) { FlatBetween(b, p + 1, q + 1, c, k - 1); }
  }

  lemma {:induction false} FlatLonger(b: seq<byte>, p: nat, c: byte, k: nat)
    requires |b| > 0
    ensures CmpFlat(b, p, c, k) != 0 ==> CmpFlat(b, p, c, k + 1) == CmpFlat(b, p, c, k)
    decreases k
  {
    if k > 0 { FlatLonger(b, p + 1, c, k - 1); }
  }

  lemma {:induction false} FlatWrap(b: seq<byte>, p: nat, q: nat, c: byte, k: nat)
    requires |b| > 0 && p % |b| == q % |b|
    ensures CmpFlat(b, p, c, k) == CmpFlat(b, q, c, k)
    decreases k
  {
    if k > 0 {
      ModStep(p, |b|);
      ModStep(q, |b|);
      FlatWrap(b, p + 1, q + 1, c, k - 1);
    }
  }

  lemma {:induction false} FlatAt(b: seq<byte>, p: nat, c: byte, k: nat, t: nat)
    requires |b| > 0 && CmpFlat(b, p, c, k) == 0 && t < k
    ensures At(b, p + t) == c
    decreases k
  {
    if t > 0 {
      FlatAt(b, p + 1, c, k - 1, t - 1);
      assert p + 1 + (t - 1) == p + t;
    }
  }

  ghost predicate AllSame(b: seq<byte>, c: byte) {
    forall i :: 0 <= i < |b| ==> b[i] == c
  }

  /** Only a block of nothing but c has a rotation equal to the run. */
  lemma FlatBlock(b: seq<byte>, p: nat, c: byte)
    requires p < |b| && CmpFlat(b, p, c, |b|) == 0
    ensures AllSame(b, c)
  {
    var n := |b|;
    forall i | 0 <= i < n ensures b[i] == c {
      var t := if i >= p then i - p else i + n - p;
      FlatAt(b, p, c, n, t);
      DivModUnique(p + t, n, if i >= p then 0 else 1, i);
    }
  }

  lemma {:induction false} SameFlat(b: seq<byte>, p: nat, c: byte, k: nat)
    requires |b| > 0 && AllSame(b, c)
    ensures CmpFlat(b, p, c, k) == 0
    decreases k
  {
    if k > 0 {
      DivMod(p, |b|);
      SameFlat(b, p + 1, c, k - 1);
    }
  }

  lemma DivMod(p: nat, n: nat)
    requires n > 0
    ensures 0 <= p % n < n
  {
  }

  /** One more c in front does not change the side. */
  lemma FlatPred(b: seq<byte>, p: nat, c: byte)
    requires p < |b| && b[Pred(|b|, p)] == c
    ensures CmpFlat(b, Pred(|b|, p), c, |b|) == CmpFlat(b, p, c, |b|)
  {
    hide CmpFlat;
    var n, v := |b|, Pred(|b|, p);
    if AllSame(b, c) {
      SameFlat(b, p, c, n);
      SameFlat(b, v, c, n);
    } else {
      if CmpFlat(b, v, c, n) == 0 { FlatBlock(b, v, c); }
      FlatLonger(b, v, c, n);
      FlatStep(b, p, c, n);
    }
  }

  lemma FlatStep(b: seq<byte>, p: nat, c: byte, k: nat)
    requires p < |b| && b[Pred(|b|, p)] == c
    ensures CmpFlat(b, Pred(|b|, p), c, k + 1) == CmpFlat(b, p, c, k)
  {
    var v := Pred(|b|, p);
    SuccMod(|b|, p);
    DivModUnique(v, |b|, 0, v);
    DivModUnique(p, |b|, 0, p);
    SuccMod(|b|, v);
    FlatWrap(b, v + 1, p, c, k);
  }

  /** Rotations that share the character before them are ordered alike with it. */
  lemma PredOrder(b: seq<byte>, p: nat, q: nat)
    requires p < |b| && q < |b| && b[Pred(|b|, p)] == b[Pred(|b|, q)]
    ensures Cmp(b, Pred(|b|, p), Pred(|b|, q), |b|) == Cmp(b, p, q, |b|)
  {
    var n, v, w := |b|, Pred(|b|, p), Pred(|b|, q);
    SuccMod(n, v);
    SuccMod(n, w);
    SuccMod(n, p);
    SuccMod(n, q);
    DivModUnique(v, n, 0, v);
    DivModUnique(w, n, 0, w);
    DivModUnique(p, n, 0, p);
    DivModUnique(q, n, 0, q);
    FullTurn(b, v, w, n + 1);
    assert Cmp(b, v, w, n + 1) == Cmp(b, v + 1, w + 1, n);
    CmpWrap2(b, v + 1, p, w + 1, q, n);
  }

  // ---------- the positions before those of a list ----------

  /** Going through s, the predecessors that hold the character t. */
  ghost function Preds(b: seq<byte>, s: seq<nat>, t: nat): (r: seq<nat>)
    requires forall i :: 0 <= i < |s| ==> s[i] < |b|
  {
    if s == [] then []
    else
      var v := Pred(|b|, s[|s| - 1]);
      Preds(b, s[..|s| - 1], t) + if b[v] == t then [v] else []
  }

  lemma {:induction false} PredsConcat(b: seq<byte>, s: seq<nat>, u: seq<nat>, t: nat)
    requires forall i :: 0 <= i < |s| ==> s[i] < |b|
    requires forall i :: 0 <= i < |u| ==> u[i] < |b|
    ensures Preds(b, s + u, t) == Preds(b, s, t) + Preds(b, u, t)
    decreases |u|
  {
    if u == [] {
      assert s + u == s;
    } else {
      assert (s + u)[..|s + u| - 1] == s + u[..|u| - 1];
      PredsConcat(b, s, u[..|u| - 1], t);
    }
  }

  lemma PredsOne(b: seq<byte>, p: nat, t: nat)
    requires p < |b|
    ensures Preds(b, [p], t) == if b[Pred(|b|, p)] == t then [Pred(|b|, p)] else []
  {
    assert [p][..0] == [];
  }

  /** What is in the list of predecessors. */
  lemma {:induction false} PredsAre(b: seq<byte>, s: seq<nat>, t: nat)
    requires forall i :: 0 <= i < |s| ==> s[i] < |b|
    ensures forall v :: v in Preds(b, s, t) ==> v < |b| && b[v] == t && Succ(|b|, v) in s
    ensures forall v: nat :: v < |b| && b[v] == t && Succ(|b|, v) in s ==> v in Preds(b, s, t)
    decreases |s|
  {
    if s != [] {
      var init, p := s[..|s| - 1], s[|s| - 1];
      PredsAre(b, init, t);
      assert s == init + [p];
      SuccMod(|b|, p);
      forall v: nat | v < |b| ensures Succ(|b|, v) == p ==> v == Pred(|b|, p) { SuccMod(|b|, v); }
    }
  }

  lemma {:induction false} PredsInjective(b: seq<byte>, s: seq<nat>, t: nat)
    requires (forall i :: 0 <= i < |s| ==> s[i] < |b|) && Injective(s)
    ensures Injective(Preds(b, s, t))
    decreases |s|
  {
    if s != [] {
      var init, p := s[..|s| - 1], s[|s| - 1];
      PredsInjective(b, init, t);
      PredsAre(b, init, t);
      SuccMod(|b|, p);
      assert p !in init;
    }
  }

  lemma {:induction false} PredsSorted(b: seq<byte>, s: seq<nat>, t: nat)
    requires |b| > 0 && (forall i :: 0 <= i < |s| ==> s[i] < |b|) && SortedBy(b, s, |b|)
    ensures SortedBy(b, Preds(b, s, t), |b|)
    decreases |s|
  {
    hide Cmp;
    if s != [] {
      var init, p := s[..|s| - 1], s[|s| - 1];
      PredsSorted(b, init, t);
      PredsAre(b, init, t);
      var v := Pred(|b|, p);
      if b[v] == t {
        forall x | 0 <= x < |Preds(b, init, t)| ensures Cmp(b, Preds(b, init, t)[x], v, |b|) <= 0 {
          var w := Preds(b, init, t)[x];
          assert w in Preds(b, init, t);
          var i :| 0 <= i < |init| && init[i] == Succ(|b|, w);
          SuccMod(|b|, w);
          PredOrder(b, init[i], p);
          assert s[i] == init[i];
        }
      }
    }
  }

  // ---------- one side of the big bucket ----------

  /** Rotations that begin with c, all on one side of the run of c, in order. */
  ghost predicate Side(b: seq<byte>, s: seq<nat>, c: byte, sign: int)
    requires |b| > 0
  {
    && Injective(s) && SortedBy(b, s, |b|)
    && forall i :: 0 <= i < |s| ==> s[i] < |b| && b[s[i]] == c && CmpFlat(b, s[i], c, |b|) == sign
  }

  lemma SidePrefix(b: seq<byte>, s: seq<nat>, c: byte, sign: int, i: nat, j: nat)
    requires |b| > 0 && Side(b, s, c, sign) && i <= j <= |s|
    ensures Side(b, s[i..j], c, sign)
  {
    hide Cmp, CmpFlat;
  }

  /** The predecessors that begin with t: in order, all of the same small bucket, and, if
      that is c's own, on the same side. */
  lemma SidePreds(b: seq<byte>, s: seq<nat>, c: byte, sign: int, t: byte)
    requires |b| > 0 && Side(b, s, c, sign)
    ensures Injective(Preds(b, s, t)) && SortedBy(b, Preds(b, s, t), |b|)
    ensures forall v :: v in Preds(b, s, t) ==> v < |b| && b[v] == t && Code(b, v) == Small(t, c) && CmpFlat(b, Succ(|b|, v), c, |b|) == sign
    ensures t == c ==> Side(b, Preds(b, s, t), c, sign)
  {
    hide Cmp, CmpFlat, Code;
    PredsInjective(b, s, t);
    PredsSorted(b, s, t);
    PredsAre(b, s, t);
    forall v | v in Preds(b, s, t) ensures Code(b, v) == Small(t, c) && CmpFlat(b, Succ(|b|, v), c, |b|) == sign && (t == c ==> CmpFlat(b, v, c, |b|) == sign) {
      CodeOf(b, v);
      SuccMod(|b|, v);
      if t == c { FlatPred(b, Succ(|b|, v), c); }
    }
    var r := Preds(b, s, t);
    forall i | 0 <= i < |r| ensures r[i] < |b| && b[r[i]] == t && (t == c ==> CmpFlat(b, r[i], c, |b|) == sign) {
      assert r[i] in r;
    }
  }

  lemma CodeOf(b: seq<byte>, v: nat)
    requires v < |b|
    ensures Succ(|b|, v) < |b| && Code(b, v) == Small(b[v], b[Succ(|b|, v)])
  {
    SuccMod(|b|, v);
    DivModUnique(v, |b|, 0, v);
  }

  // ---------- the state of the scan ----------

  /** Slots outside the small buckets [t, c] of big buckets that are not done are as they
      were. */
  ghost predicate Kept(b: seq<byte>, f0: seq<nat>, f: seq<nat>, bigDone: seq<bool>, c: byte)
    requires |b| > 0 && |bigDone| == 256
  {
    |f0| == |f| == |b| &&
    forall d, x :: 0 <= d < 65536 && Start(b, d) <= x < Start(b, d + 1) && x < |f| && (d % 256 != c || bigDone[d / 256]) ==> f[x] == f0[x]
  }

  /** The small bucket in [st..en), scanned as far as left and right: filled from both ends
      with what was found, in between as it was. */
  ghost predicate Scanned(f0: seq<nat>, f: seq<nat>, st: nat, en: nat, left: seq<nat>, right: seq<nat>) {
    && |f0| == |f| && st + |left| + |right| <= en <= |f|
    && f[st..st + |left|] == left && f[en - |right|..en] == right
    && f[st + |left|..en - |right|] == f0[st + |left|..en - |right|]
  }

  /** s has been scanned from the left end of big bucket c, u from its right end. */
  ghost predicate Scan(b: seq<byte>, f0: seq<nat>, f: seq<nat>, bigDone: seq<bool>, c: byte, s: seq<nat>, u: seq<nat>)
    requires |b| > 0 && |bigDone| == 256
  {
    && Side(b, s, c, -1) && Side(b, u, c, 1) && Kept(b, f0, f, bigDone, c)
    && forall t: byte :: !bigDone[t] ==>
         Scanned(f0, f, Start(b, Small(t, c)), Start(b, Small(t, c) + 1), Preds(b, s, t), Preds(b, u, t))
  }

  /** All positions of a small bucket are in its slots. */
  lemma InItsBucket(b: seq<byte>, f: seq<nat>, d: nat, v: nat)
    requires |b| > 0 && InBuckets(b, f) && IsPerm(f, |b|) && v < |b| && Code(b, v) == d
    ensures Start(b, d) <= Start(b, d + 1) <= |f| && v in f[Start(b, d)..Start(b, d + 1)]
  {
    hide Code, Start;
    StartRange(b, d, d + 1);
    Surjective(f, |b|);
    assert v in f;
    var x :| 0 <= x < |f| && f[x] == v;
    SlotOf(b, f, x);
    assert f[Start(b, d)..Start(b, d + 1)][x - Start(b, d)] == v;
  }

  /** Different positions of one small bucket find room in it. */
  lemma FitsBucket(b: seq<byte>, f: seq<nat>, d: nat, s: seq<nat>)
    requires |b| > 0 && InBuckets(b, f) && IsPerm(f, |b|) && Injective(s) && d < 65536
    requires forall v :: v in s ==> v < |b| && Code(b, v) == d
    ensures Start(b, d) + |s| <= Start(b, d + 1) <= |f|
  {
    hide Code, Start;
    StartRange(b, d, d + 1);
    var slots := f[Start(b, d)..Start(b, d + 1)];
    forall i | 0 <= i < |s| ensures s[i] in slots {
      assert s[i] in s;
      InItsBucket(b, f, d, s[i]);
    }
    Pigeonhole(s, slots);
  }

  /** What both scans found for t, put together. */
  lemma BothSides(b: seq<byte>, s: seq<nat>, u: seq<nat>, c: byte, t: byte)
    requires |b| > 0 && Side(b, s, c, -1) && Side(b, u, c, 1)
    ensures var r := Preds(b, s, t) + Preds(b, u, t);
      Injective(r) && SortedBy(b, r, |b|) && forall v :: v in r ==> v < |b| && Code(b, v) == Small(t, c)
  {
    hide Cmp, CmpFlat, Code;
    SidePreds(b, s, c, -1, t);
    SidePreds(b, u, c, 1, t);
    var l, r := Preds(b, s, t), Preds(b, u, t);
    forall x, y | 0 <= x < |l| && 0 <= y < |r| ensures l[x] != r[y] && Cmp(b, l[x], r[y], |b|) <= 0 {
      assert l[x] in l && r[y] in r;
      var p, q := Succ(|b|, l[x]), Succ(|b|, r[y]);
      SuccMod(|b|, l[x]);
      SuccMod(|b|, r[y]);
      FlatBetween(b, p, q, c, |b|);
      PredOrder(b, p, q);
    }
  }

  // ---------- one step ----------

  lemma OtherSlots(b: seq<byte>, d: nat, e: nat, x: nat)
    requires |b| > 0 && d < 65536 && e < 65536 && d != e && Start(b, d) <= x < Start(b, d + 1)
    ensures x < Start(b, e) || x >= Start(b, e + 1)
  {
    hide Start;
    if d < e { StartRange(b, d + 1, e); } else { StartRange(b, e + 1, d); }
  }

  lemma ScannedLeft(f0: seq<nat>, f: seq<nat>, st: nat, en: nat, left: seq<nat>, right: seq<nat>, k: nat)
    requires Scanned(f0, f, st, en, left, right) && st + |left| + |right| < en
    ensures Scanned(f0, f[st + |left| := k], st, en, left + [k], right)
  {
    var x, y := st + |left|, en - |right|;
    var g := f[x := k];
    assert g[st..x + 1] == f[st..x] + [k];
    assert g[y..en] == f[y..en];
    assert f[x..y][1..] == f0[x..y][1..] && g[x + 1..y] == f[x..y][1..] && f0[x + 1..y] == f0[x..y][1..];
  }

  lemma ScannedRight(f0: seq<nat>, f: seq<nat>, st: nat, en: nat, left: seq<nat>, right: seq<nat>, k: nat)
    requires Scanned(f0, f, st, en, left, right) && st + |left| + |right| < en
    ensures Scanned(f0, f[en - |right| - 1 := k], st, en, left, [k] + right)
  {
    var x, y := st + |left|, en - |right|;
    var g := f[y - 1 := k];
    assert g[y - 1..en] == [k] + f[y..en];
    assert g[st..x] == f[st..x];
    assert f[x..y][..y - 1 - x] == f0[x..y][..y - 1 - x] && g[x..y - 1] == f[x..y][..y - 1 - x] && f0[x..y - 1] == f0[x..y][..y - 1 - x];
  }

  lemma ScannedOther(f0: seq<nat>, f: seq<nat>, st: nat, en: nat, left: seq<nat>, right: seq<nat>, x: nat, k: nat)
    requires Scanned(f0, f, st, en, left, right) && x < |f| && (x < st || x >= en)
    ensures Scanned(f0, f[x := k], st, en, left, right)
  {
    var g := f[x := k];
    SameSlice(f, g, st, st + |left|);
    SameSlice(f, g, en - |right|, en);
    SameSlice(f, g, st + |left|, en - |right|);
  }

  lemma SameSlice(f: seq<nat>, g: seq<nat>, i: nat, j: nat)
    requires |f| == |g| && i <= j <= |f| && forall x :: i <= x < j ==> f[x] == g[x]
    ensures f[i..j] == g[i..j]
  {
  }

  lemma KeptWrite(b: seq<byte>, f0: seq<nat>, f: seq<nat>, bigDone: seq<bool>, c: byte, t: byte, x: nat, k: nat)
    requires |b| > 0 && |bigDone| == 256 && Kept(b, f0, f, bigDone, c) && !bigDone[t] && x < |f|
    requires Start(b, Small(t, c)) <= x < Start(b, Small(t, c) + 1)
    ensures Kept(b, f0, f[x := k], bigDone, c)
  {
    hide Start;
    var g := f[x := k];
    forall d, y | 0 <= d < 65536 && Start(b, d) <= y < Start(b, d + 1) && y < |g| && (d % 256 != c || bigDone[d / 256]) ensures g[y] == f0[y] {
      if d != Small(t, c) { OtherSlots(b, Small(t, c), d, x); }
    }
  }

  /** A slot of a small bucket [t, c] of a big bucket that is not done is written. */
  lemma OthersScanned(b: seq<byte>, f0: seq<nat>, f: seq<nat>, bigDone: seq<bool>, c: byte, t: byte, x: nat, k: nat, t2: byte, left: seq<nat>, right: seq<nat>)
    requires |b| > 0 && t != t2 && x < |f| && Start(b, Small(t, c)) <= x < Start(b, Small(t, c) + 1)
    requires Scanned(f0, f, Start(b, Small(t2, c)), Start(b, Small(t2, c) + 1), left, right)
    ensures Scanned(f0, f[x := k], Start(b, Small(t2, c)), Start(b, Small(t2, c) + 1), left, right)
  {
    hide Start, Scanned;
    OtherSlots(b, Small(t, c), Small(t2, c), x);
    ScannedOther(f0, f, Start(b, Small(t2, c)), Start(b, Small(t2, c) + 1), left, right, x, k);
  }

  lemma ScanOf(b: seq<byte>, f0: seq<nat>, f: seq<nat>, bigDone: seq<bool>, c: byte, s: seq<nat>, u: seq<nat>, t: byte)
    requires |b| > 0 && |bigDone| == 256 && Scan(b, f0, f, bigDone, c, s, u) && !bigDone[t]
    ensures Side(b, s, c, -1) && Side(b, u, c, 1)
    ensures Scanned(f0, f, Start(b, Small(t, c)), Start(b, Small(t, c) + 1), Preds(b, s, t), Preds(b, u, t))
  {
    hide Start, Scanned, Side, Preds;
  }

  lemma KeptLength(b: seq<byte>, f0: seq<nat>, f: seq<nat>, bigDone: seq<bool>, c: byte)
    requires |b| > 0 && |bigDone| == 256 && Kept(b, f0, f, bigDone, c)
    ensures |f0| == |f| == |b|
  {
  }

  lemma PredsLonger(b: seq<byte>, s: seq<nat>, p: nat, t: byte)
    requires (forall i :: 0 <= i < |s| ==> s[i] < |b|) && p < |b|
    ensures Preds(b, s + [p], t) == if t == b[Pred(|b|, p)] then Preds(b, s, t) + [Pred(|b|, p)] else Preds(b, s, t)
    ensures Preds(b, [p] + s, t) == if t == b[Pred(|b|, p)] then [Pred(|b|, p)] + Preds(b, s, t) else Preds(b, s, t)
  {
    PredsConcat(b, s, [p], t);
    PredsConcat(b, [p], s, t);
    PredsOne(b, p, t);
  }

  lemma LeftSkipped(b: seq<byte>, f0: seq<nat>, f: seq<nat>, bigDone: seq<bool>, c: byte, s: seq<nat>, u: seq<nat>, p: nat)
    requires |b| > 0 && |bigDone| == 256 && Scan(b, f0, f, bigDone, c, s, u) && Side(b, s + [p], c, -1)
    requires p < |b| && bigDone[b[Pred(|b|, p)]]
    ensures Scan(b, f0, f, bigDone, c, s + [p], u)
  {
    hide Start, Scanned, Kept, Cmp, CmpFlat, Injective, Preds, SortedBy, Small;
    forall t: byte | !bigDone[t] ensures Scanned(f0, f, Start(b, Small(t, c)), Start(b, Small(t, c) + 1), Preds(b, s + [p], t), Preds(b, u, t)) {
      PredsLonger(b, s, p, t);
    }
  }

  lemma LeftWritten(b: seq<byte>, f0: seq<nat>, f: seq<nat>, bigDone: seq<bool>, c: byte, s: seq<nat>, u: seq<nat>, p: nat)
    requires |b| > 0 && |bigDone| == 256 && InBuckets(b, f0) && IsPerm(f0, |b|)
    requires Scan(b, f0, f, bigDone, c, s, u) && Side(b, s + [p], c, -1)
    requires p < |b| && !bigDone[b[Pred(|b|, p)]]
    ensures var k := Pred(|b|, p); var t := b[k];
      var x := Start(b, Small(t, c)) + |Preds(b, s, t)|;
      x + |Preds(b, u, t)| < Start(b, Small(t, c) + 1) <= |f| && Scan(b, f0, f[x := k], bigDone, c, s + [p], u)
  {
    hide Start, Scanned, Kept, Cmp, CmpFlat, Code, InBuckets, Injective, Preds, SortedBy, Small;
    var k := Pred(|b|, p);
    var t := b[k];
    var st, l, r := Start(b, Small(t, c)), Preds(b, s, t), Preds(b, u, t);
    PredsLonger(b, s, p, t);
    BothSides(b, s + [p], u, c, t);
    FitsBucket(b, f0, Small(t, c), l + [k] + r);
    KeptLength(b, f0, f, bigDone, c);
    ScannedLeft(f0, f, st, Start(b, Small(t, c) + 1), l, r, k);
    KeptWrite(b, f0, f, bigDone, c, t, st + |l|, k);
    forall t2: byte | !bigDone[t2]
      ensures Scanned(f0, f[st + |l| := k], Start(b, Small(t2, c)), Start(b, Small(t2, c) + 1), Preds(b, s + [p], t2), Preds(b, u, t2))
    {
      if t2 != t {
        PredsLonger(b, s, p, t2);
        OthersScanned(b, f0, f, bigDone, c, t, st + |l|, k, t2, Preds(b, s, t2), Preds(b, u, t2));
      }
    }
  }

  /** The next slot on the left holds p. */
  lemma AddLeft(b: seq<byte>, f0: seq<nat>, f: seq<nat>, bigDone: seq<bool>, c: byte, s: seq<nat>, u: seq<nat>, p: nat)
    requires |b| > 0 && |bigDone| == 256 && InBuckets(b, f0) && IsPerm(f0, |b|)
    requires Scan(b, f0, f, bigDone, c, s, u) && Side(b, s + [p], c, -1)
    ensures p < |b|
    ensures var k := Pred(|b|, p); var t := b[k];
      if bigDone[t] then Scan(b, f0, f, bigDone, c, s + [p], u)
      else var x := Start(b, Small(t, c)) + |Preds(b, s, t)|;
           x + |Preds(b, u, t)| < Start(b, Small(t, c) + 1) <= |f| && Scan(b, f0, f[x := k], bigDone, c, s + [p], u)
  {
    hide Start, Scanned, Kept, Cmp, CmpFlat, Code, InBuckets, Injective, Preds, SortedBy, Small;
    assert (s + [p])[|s|] == p;
    if bigDone[b[Pred(|b|, p)]] { LeftSkipped(b, f0, f, bigDone, c, s, u, p); } else { LeftWritten(b, f0, f, bigDone, c, s, u, p); }
  }

  lemma RightSkipped(b: seq<byte>, f0: seq<nat>, f: seq<nat>, bigDone: seq<bool>, c: byte, s: seq<nat>, u: seq<nat>, p: nat)
    requires |b| > 0 && |bigDone| == 256 && Scan(b, f0, f, bigDone, c, s, u) && Side(b, [p] + u, c, 1)
    requires p < |b| && bigDone[b[Pred(|b|, p)]]
    ensures Scan(b, f0, f, bigDone, c, s, [p] + u)
  {
    hide Start, Scanned, Kept, Cmp, CmpFlat, Injective, Preds, SortedBy, Small;
    forall t: byte | !bigDone[t] ensures Scanned(f0, f, Start(b, Small(t, c)), Start(b, Small(t, c) + 1), Preds(b, s, t), Preds(b, [p] + u, t)) {
      PredsLonger(b, u, p, t);
    }
  }

  lemma RightWritten(b: seq<byte>, f0: seq<nat>, f: seq<nat>, bigDone: seq<bool>, c: byte, s: seq<nat>, u: seq<nat>, p: nat)
    requires |b| > 0 && |bigDone| == 256 && InBuckets(b, f0) && IsPerm(f0, |b|)
    requires Scan(b, f0, f, bigDone, c, s, u) && Side(b, [p] + u, c, 1)
    requires p < |b| && !bigDone[b[Pred(|b|, p)]]
    ensures var k := Pred(|b|, p); var t := b[k];
      var x := Start(b, Small(t, c) + 1) - |Preds(b, u, t)| - 1;
      Start(b, Small(t, c)) + |Preds(b, s, t)| <= x < |f| && Scan(b, f0, f[x := k], bigDone, c, s, [p] + u)
  {
    hide Start, Scanned, Kept, Cmp, CmpFlat, Code, InBuckets, Injective, Preds, SortedBy, Small;
    var k := Pred(|b|, p);
    var t := b[k];
    var en, l, r := Start(b, Small(t, c) + 1), Preds(b, s, t), Preds(b, u, t);
    PredsLonger(b, u, p, t);
    BothSides(b, s, [p] + u, c, t);
    FitsBucket(b, f0, Small(t, c), l + ([k] + r));
    KeptLength(b, f0, f, bigDone, c);
    ScannedRight(f0, f, Start(b, Small(t, c)), en, l, r, k);
    KeptWrite(b, f0, f, bigDone, c, t, en - |r| - 1, k);
    forall t2: byte | !bigDone[t2]
      ensures Scanned(f0, f[en - |r| - 1 := k], Start(b, Small(t2, c)), Start(b, Small(t2, c) + 1), Preds(b, s, t2), Preds(b, [p] + u, t2))
    {
      if t2 != t {
        PredsLonger(b, u, p, t2);
        OthersScanned(b, f0, f, bigDone, c, t, en - |r| - 1, k, t2, Preds(b, s, t2), Preds(b, u, t2));
      }
    }
  }

  /** The next slot on the right holds p. */
  lemma AddRight(b: seq<byte>, f0: seq<nat>, f: seq<nat>, bigDone: seq<bool>, c: byte, s: seq<nat>, u: seq<nat>, p: nat)
    requires |b| > 0 && |bigDone| == 256 && InBuckets(b, f0) && IsPerm(f0, |b|)
    requires Scan(b, f0, f, bigDone, c, s, u) && Side(b, [p] + u, c, 1)
    ensures p < |b|
    ensures var k := Pred(|b|, p); var t := b[k];
      if bigDone[t] then Scan(b, f0, f, bigDone, c, s, [p] + u)
      else var x := Start(b, Small(t, c) + 1) - |Preds(b, u, t)| - 1;
           Start(b, Small(t, c)) + |Preds(b, s, t)| <= x < |f| && Scan(b, f0, f[x := k], bigDone, c, s, [p] + u)
  {
    hide Start, Scanned, Kept, Cmp, CmpFlat, Code, InBuckets, Injective, Preds, SortedBy, Small;
    assert ([p] + u)[0] == p;
    if bigDone[b[Pred(|b|, p)]] { RightSkipped(b, f0, f, bigDone, c, s, u, p); } else { RightWritten(b, f0, f, bigDone, c, s, u, p); }
  }

  // ---------- the sorted part of the big bucket ----------

  /** A small bucket is in order. */
  ghost predicate InOrder(b: seq<byte>, f: seq<nat>, d: nat)
    requires |b| > 0
  {
    Start(b, d) <= Start(b, d + 1) <= |f| && SortedBy(b, f[Start(b, d)..Start(b, d + 1)], |b|)
  }

  /** Step 1 has been done: all small buckets [c, j] but [c, c] are in order. */
  ghost predicate Ready(b: seq<byte>, f: seq<nat>, c: byte)
    requires |b| > 0
  {
    && |b| >= 2 && InBuckets(b, f) && IsPerm(f, |b|)
    && forall j :: 0 <= j < 256 && j != c ==> InOrder(b, f, Small(c, j))
  }

  lemma CodeRange(b: seq<byte>, f: seq<nat>, x: nat, lo: nat, hi: nat)
    requires |b| > 0 && InBuckets(b, f) && lo <= hi <= 65536 && Start(b, lo) <= x < Start(b, hi)
    ensures x < |f| && f[x] < |b| && lo <= Code(b, f[x]) < hi
    ensures Start(b, Code(b, f[x])) <= x < Start(b, Code(b, f[x]) + 1)
  {
    hide Code, Start;
    StartRange(b, hi, 65536);
    SlotOf(b, f, x);
    var d := Code(b, f[x]);
    if d < lo { StartRange(b, d + 1, lo); }
    if d >= hi { StartRange(b, hi, d); }
  }

  lemma CodeOrder(b: seq<byte>, p: nat, q: nat)
    requires |b| >= 2 && p < |b| && q < |b| && Code(b, p) < Code(b, q)
    ensures Cmp(b, p, q, |b|) < 0 && p != q
  {
    CmpSplit(b, p, q, 2, |b| - 2);
    assert Cmp(b, p, q, 2) == if At(b, p) < At(b, q) then -1 else if At(b, p) > At(b, q) then 1 else Cmp(b, p + 1, q + 1, 1);
  }

  /** Slots of consecutive small buckets that are all in order. */
  lemma PairOrder(b: seq<byte>, f: seq<nat>, lo: nat, hi: nat, x: nat, y: nat)
    requires |b| >= 2 && InBuckets(b, f) && lo <= hi <= 65536 && forall d :: lo <= d < hi ==> InOrder(b, f, d)
    requires Start(b, lo) <= x < y < Start(b, hi)
    ensures y < |f| && Cmp(b, f[x], f[y], |b|) <= 0
  {
    hide Code, Start, Cmp;
    CodeRange(b, f, x, lo, hi);
    CodeRange(b, f, y, lo, hi);
    var d, e := Code(b, f[x]), Code(b, f[y]);
    if d == e {
      assert InOrder(b, f, d);
      var g := f[Start(b, d)..Start(b, d + 1)];
      assert g[x - Start(b, d)] == f[x] && g[y - Start(b, d)] == f[y];
    } else if d < e {
      CodeOrder(b, f[x], f[y]);
    } else {
      StartRange(b, e + 1, d);
    }
  }

  lemma RangeSorted(b: seq<byte>, f: seq<nat>, lo: nat, hi: nat)
    requires |b| >= 2 && InBuckets(b, f) && lo <= hi <= 65536 && forall d :: lo <= d < hi ==> InOrder(b, f, d)
    ensures Start(b, lo) <= Start(b, hi) <= |f| && SortedBy(b, f[Start(b, lo)..Start(b, hi)], |b|)
  {
    hide Start, Cmp, InOrder;
    StartRange(b, lo, hi);
    StartRange(b, hi, 65536);
    var g := f[Start(b, lo)..Start(b, hi)];
    forall x, y | 0 <= x < y < |g| ensures Cmp(b, g[x], g[y], |b|) <= 0 {
      PairOrder(b, f, lo, hi, Start(b, lo) + x, Start(b, lo) + y);
    }
  }

  lemma CodeSide(b: seq<byte>, p: nat, c: byte)
    requires |b| >= 2 && p < |b| && b[p] == c
    ensures Code(b, p) < Small(c, c) ==> CmpFlat(b, p, c, |b|) == -1
    ensures Code(b, p) > Small(c, c) ==> CmpFlat(b, p, c, |b|) == 1
  {
    DivModUnique(p, |b|, 0, p);
    assert CmpFlat(b, p, c, |b|) == CmpFlat(b, p + 1, c, |b| - 1);
  }

  lemma FirstChar(b: seq<byte>, p: nat, c: nat)
    requires |b| > 0 && p < |b| && c < 256 && Small(c, 0) <= Code(b, p) < Small(c, 0) + 256
    ensures b[p] == c
  {
    DivModUnique(p, |b|, 0, p);
  }

  /** Small buckets of c, all on one side of [c, c]. */
  lemma PartSide(b: seq<byte>, f: seq<nat>, c: byte, lo: nat, hi: nat, sign: int)
    requires |b| > 0 && Ready(b, f, c) && Small(c, 0) <= lo <= hi <= Small(c, 0) + 256
    requires (hi <= Small(c, c) && sign == -1) || (lo > Small(c, c) && sign == 1)
    ensures Start(b, lo) <= Start(b, hi) <= |f| && Side(b, f[Start(b, lo)..Start(b, hi)], c, sign)
    ensures forall v :: v in f[Start(b, lo)..Start(b, hi)] ==> v < |b| && lo <= Code(b, v) < hi
  {
    hide Start, Cmp, CmpFlat, InOrder, Code;
    forall d | lo <= d < hi ensures InOrder(b, f, d) {
      assert d == Small(c, d - Small(c, 0));
    }
    RangeSorted(b, f, lo, hi);
    var g := f[Start(b, lo)..Start(b, hi)];
    forall i | 0 <= i < |g| ensures g[i] < |b| && b[g[i]] == c && CmpFlat(b, g[i], c, |b|) == sign && lo <= Code(b, g[i]) < hi {
      CodeRange(b, f, Start(b, lo) + i, lo, hi);
      FirstChar(b, g[i], c);
      CodeSide(b, g[i], c);
    }
  }

  lemma JoinSides(b: seq<byte>, s: seq<nat>, u: seq<nat>, c: byte, sign: int)
    requires |b| >= 2 && Side(b, s, c, sign) && Side(b, u, c, sign)
    requires forall v, w :: v in s && w in u ==> v < |b| && w < |b| && Code(b, v) < Code(b, w)
    ensures Side(b, s + u, c, sign)
  {
    hide Cmp, CmpFlat, Code;
    forall x, y | 0 <= x < |s| && 0 <= y < |u| ensures s[x] != u[y] && Cmp(b, s[x], u[y], |b|) <= 0 {
      assert s[x] in s && u[y] in u;
      CodeOrder(b, s[x], u[y]);
    }
  }

  ghost function LowPart(b: seq<byte>, f: seq<nat>, c: byte): seq<nat>
    requires |b| > 0 && |f| == |b|
  {
    StartRange(b, Small(c, 0), Small(c, c));
    f[Start(b, Small(c, 0))..Start(b, Small(c, c))]
  }

  ghost function HighPart(b: seq<byte>, f: seq<nat>, c: byte): seq<nat>
    requires |b| > 0 && |f| == |b|
  {
    StartRange(b, Small(c, c) + 1, Small(c, 0) + 256);
    f[Start(b, Small(c, c) + 1)..Start(b, Small(c, 0) + 256)]
  }

  /** What the left scan runs over, as far as it is known: in order, and below the run. */
  lemma LeftEdge(b: seq<byte>, f0: seq<nat>, c: byte, s: seq<nat>)
    requires |b| > 0 && Ready(b, f0, c) && Side(b, s, c, -1)
    ensures Side(b, LowPart(b, f0, c) + Preds(b, s, c), c, -1)
  {
    hide Start, Cmp, CmpFlat, InOrder, Code, Preds;
    PartSide(b, f0, c, Small(c, 0), Small(c, c), -1);
    SidePreds(b, s, c, -1, c);
    JoinSides(b, LowPart(b, f0, c), Preds(b, s, c), c, -1);
  }

  lemma RightEdge(b: seq<byte>, f0: seq<nat>, c: byte, u: seq<nat>)
    requires |b| > 0 && Ready(b, f0, c) && Side(b, u, c, 1)
    ensures Side(b, Preds(b, u, c) + HighPart(b, f0, c), c, 1)
  {
    hide Start, Cmp, CmpFlat, InOrder, Code, Preds;
    PartSide(b, f0, c, Small(c, c) + 1, Small(c, 0) + 256, 1);
    SidePreds(b, u, c, 1, c);
    JoinSides(b, Preds(b, u, c), HighPart(b, f0, c), c, 1);
  }

  // ---------- nothing is missed ----------

  /** A left scan that has caught up with what it writes has met every rotation below the
      run. */
  lemma {:induction false} LowReached(b: seq<byte>, f0: seq<nat>, c: byte, s: seq<nat>, p: nat, m: nat)
    requires |b| > 0 && Ready(b, f0, c) && Side(b, s, c, -1) && s == LowPart(b, f0, c) + Preds(b, s, c)
    requires p < |b| && b[p] == c && CmpFlat(b, p, c, m) < 0
    ensures p in s
    decreases m
  {
    hide Start, Cmp, InOrder, Code, Preds, Side;
    var q := Succ(|b|, p);
    SuccMod(|b|, p);
    FlatNext(b, p, c, m);
    CodeOf(b, p);
    if b[q] < c {
      InItsBucket(b, f0, Small(c, b[q]), p);
      InPart(b, f0, Small(c, b[q]), Small(c, 0), Small(c, c), p);
    } else {
      LowReached(b, f0, c, s, q, m - 1);
      SideElements(b, s, c, -1);
      PredsAre(b, s, c);
    }
  }

  lemma SideElements(b: seq<byte>, s: seq<nat>, c: byte, sign: int)
    requires |b| > 0 && Side(b, s, c, sign)
    ensures forall i :: 0 <= i < |s| ==> s[i] < |b|
  {
  }

  lemma FlatNext(b: seq<byte>, p: nat, c: byte, m: nat)
    requires p < |b| && b[p] == c && CmpFlat(b, p, c, m) != 0
    ensures m > 0 && Succ(|b|, p) < |b| && CmpFlat(b, Succ(|b|, p), c, m - 1) == CmpFlat(b, p, c, m)
    ensures CmpFlat(b, p, c, m) < 0 ==> b[Succ(|b|, p)] <= c
    ensures CmpFlat(b, p, c, m) > 0 ==> b[Succ(|b|, p)] >= c
  {
    SuccMod(|b|, p);
    DivModUnique(p, |b|, 0, p);
    var q := Succ(|b|, p);
    DivModUnique(q, |b|, 0, q);
    FlatWrap(b, p + 1, q, c, m - 1);
  }

  lemma InPart(b: seq<byte>, f: seq<nat>, d: nat, lo: nat, hi: nat, v: nat)
    requires |b| > 0 && |f| == |b| && lo <= d < hi <= 65536 && Start(b, d) <= Start(b, d + 1) <= |f| && v in f[Start(b, d)..Start(b, d + 1)]
    ensures Start(b, lo) <= Start(b, hi) <= |f| && v in f[Start(b, lo)..Start(b, hi)]
  {
    hide Start;
    StartRange(b, lo, d);
    StartRange(b, d + 1, hi);
    var i :| 0 <= i < Start(b, d + 1) - Start(b, d) && f[Start(b, d)..Start(b, d + 1)][i] == v;
    assert f[Start(b, lo)..Start(b, hi)][Start(b, d) + i - Start(b, lo)] == v;
  }

  lemma {:induction false} HighReached(b: seq<byte>, f0: seq<nat>, c: byte, u: seq<nat>, p: nat, m: nat)
    requires |b| > 0 && Ready(b, f0, c) && Side(b, u, c, 1) && u == Preds(b, u, c) + HighPart(b, f0, c)
    requires p < |b| && b[p] == c && CmpFlat(b, p, c, m) > 0
    ensures p in u
    decreases m
  {
    hide Start, Cmp, InOrder, Code, Preds, Side;
    var q := Succ(|b|, p);
    SuccMod(|b|, p);
    FlatNext(b, p, c, m);
    CodeOf(b, p);
    if b[q] > c {
      InItsBucket(b, f0, Small(c, b[q]), p);
      InPart(b, f0, Small(c, b[q]), Small(c, c) + 1, Small(c, 0) + 256, p);
    } else {
      HighReached(b, f0, c, u, q, m - 1);
      SideElements(b, u, c, 1);
      PredsAre(b, u, c);
    }
  }

  /** Both scans together find every position of every small bucket [t, c]. */
  lemma AllFound(b: seq<byte>, f0: seq<nat>, c: byte, s: seq<nat>, u: seq<nat>, t: byte, v: nat)
    requires |b| > 0 && Ready(b, f0, c) && !AllSame(b, c)
    requires Side(b, s, c, -1) && s == LowPart(b, f0, c) + Preds(b, s, c)
    requires Side(b, u, c, 1) && u == Preds(b, u, c) + HighPart(b, f0, c)
    requires v < |b| && Code(b, v) == Small(t, c)
    ensures v in Preds(b, s, t) + Preds(b, u, t)
  {
    hide Start, Cmp, CmpFlat, InOrder, Preds, Side, Code, LowPart, HighPart, AllSame, Ready;
    CodeOf(b, v);
    SuccMod(|b|, v);
    SideElements(b, s, c, -1);
    SideElements(b, u, c, 1);
    var p := Succ(|b|, v);
    if CmpFlat(b, p, c, |b|) < 0 {
      LowReached(b, f0, c, s, p, |b|);
      PredsAre(b, s, t);
    } else if CmpFlat(b, p, c, |b|) > 0 {
      HighReached(b, f0, c, u, p, |b|);
      PredsAre(b, u, t);
    } else {
      FlatBlock(b, p, c);
    }
  }

  /** So it is full, and holds them in order. */
  lemma BucketFull(b: seq<byte>, f0: seq<nat>, f: seq<nat>, bigDone: seq<bool>, c: byte, s: seq<nat>, u: seq<nat>, t: byte)
    requires |b| > 0 && |bigDone| == 256 && Ready(b, f0, c) && !AllSame(b, c) && !bigDone[t]
    requires Scan(b, f0, f, bigDone, c, s, u)
    requires s == LowPart(b, f0, c) + Preds(b, s, c) && u == Preds(b, u, c) + HighPart(b, f0, c)
    ensures var d := Small(t, c); Start(b, d) + |Preds(b, s, t)| + |Preds(b, u, t)| == Start(b, d + 1) <= |f|
    ensures var d := Small(t, c); f[Start(b, d)..Start(b, d + 1)] == Preds(b, s, t) + Preds(b, u, t)
  {
    hide Start, Cmp, CmpFlat, InOrder, Preds, Side, LowPart, HighPart, Kept;
    ScanOf(b, f0, f, bigDone, c, s, u, t);
    SidesLength(b, s, u, c);
    var d := Small(t, c);
    var slots, r := f0[Start(b, d)..Start(b, d + 1)], Preds(b, s, t) + Preds(b, u, t);
    forall i | 0 <= i < |slots| ensures slots[i] in r {
      CodeRange(b, f0, Start(b, d) + i, d, d + 1);
      AllFound(b, f0, c, s, u, t, slots[i]);
    }
    Pigeonhole(slots, r);
    var st, en := Start(b, d), Start(b, d + 1);
    assert f[st..en] == f[st..st + |Preds(b, s, t)|] + f[st + |Preds(b, s, t)|..en];
  }

  lemma SidesLength(b: seq<byte>, s: seq<nat>, u: seq<nat>, c: byte)
    requires |b| > 0 && Side(b, s, c, -1) && Side(b, u, c, 1)
    ensures (forall i :: 0 <= i < |s| ==> s[i] < |b|) && forall i :: 0 <= i < |u| ==> u[i] < |b|
  {
  }

  // ---------- after the scan ----------

  ghost predicate AllIn(b: seq<byte>, s: seq<nat>, d: nat)
    requires |b| > 0
  {
    forall i :: 0 <= i < |s| ==> s[i] < |b| && Code(b, s[i]) == d
  }

  /** A small bucket's slots hold different positions that belong there. */
  ghost predicate Slice(b: seq<byte>, f: seq<nat>, d: nat)
    requires |b| > 0
  {
    && Start(b, d) <= Start(b, d + 1) <= |f| && Injective(f[Start(b, d)..Start(b, d + 1)])
    && AllIn(b, f[Start(b, d)..Start(b, d + 1)], d)
  }

  lemma SliceOf(b: seq<byte>, f: seq<nat>, d: nat)
    requires |b| > 0 && InBuckets(b, f) && IsPerm(f, |b|) && d < 65536
    ensures Slice(b, f, d)
  {
    hide Start, Code;
    StartRange(b, d, d + 1);
    StartRange(b, d + 1, 65536);
    var g := f[Start(b, d)..Start(b, d + 1)];
    forall i | 0 <= i < |g| ensures g[i] < |b| && Code(b, g[i]) == d {
      CodeRange(b, f, Start(b, d) + i, d, d + 1);
    }
  }

  lemma FromSlices(b: seq<byte>, f: seq<nat>)
    requires |b| > 0 && |f| == |b| && forall d :: 0 <= d < 65536 ==> Slice(b, f, d)
    ensures InBuckets(b, f) && IsPerm(f, |b|)
  {
    hide Start, Code, Slice;
    StartRange(b, 0, 65536);
    forall d, x | 0 <= d < 65536 && Start(b, d) <= x < Start(b, d + 1) && x < |f| ensures f[x] < |b| && Code(b, f[x]) == d {
      SliceAt(b, f, d, x);
    }
    forall x | 0 <= x < |f| ensures f[x] < |b| {
      var d := BucketOf(b, x, 65536);
      SliceAt(b, f, d, x);
    }
    forall x, y | 0 <= x < y < |f| ensures f[x] != f[y] {
      var d := BucketOf(b, x, 65536);
      var e := BucketOf(b, y, 65536);
      SliceAt(b, f, d, x);
      SliceAt(b, f, e, y);
      if d == e { SliceDiffers(b, f, d, x, y); }
    }
  }

  lemma SliceAt(b: seq<byte>, f: seq<nat>, d: nat, x: nat)
    requires |b| > 0 && Slice(b, f, d) && Start(b, d) <= x < Start(b, d + 1)
    ensures x < |f| && f[x] < |b| && Code(b, f[x]) == d
  {
    hide Start, Code;
    var g := f[Start(b, d)..Start(b, d + 1)];
    assert g[x - Start(b, d)] == f[x];
  }

  lemma SliceDiffers(b: seq<byte>, f: seq<nat>, d: nat, x: nat, y: nat)
    requires |b| > 0 && Slice(b, f, d) && Start(b, d) <= x < y < Start(b, d + 1)
    ensures y < |f| && f[x] != f[y]
  {
    hide Start, Code;
    var g := f[Start(b, d)..Start(b, d + 1)];
    assert g[x - Start(b, d)] == f[x] && g[y - Start(b, d)] == f[y];
  }

  /** Each scan has caught up with what it writes. */
  ghost predicate CaughtUp(b: seq<byte>, f0: seq<nat>, c: byte, s: seq<nat>, u: seq<nat>)
    requires |b| > 0 && |f0| == |b| && Side(b, s, c, -1) && Side(b, u, c, 1)
  {
    s == LowPart(b, f0, c) + Preds(b, s, c) && u == Preds(b, u, c) + HighPart(b, f0, c)
  }

  lemma NothingScanned(b: seq<byte>, c: byte, s: seq<nat>, sign: int)
    requires |b| > 0 && AllSame(b, c) && Side(b, s, c, sign) && sign != 0
    ensures s == []
  {
    hide Cmp;
    if s != [] { SameFlat(b, s[0], c, |b|); }
  }

  lemma SameOrder(b: seq<byte>, c: byte, f: seq<nat>)
    requires |b| > 0 && AllSame(b, c)
    ensures SortedBy(b, f, |b|)
  {
    hide CmpFlat;
    forall x, y | 0 <= x < y < |f| ensures Cmp(b, f[x], f[y], |b|) <= 0 {
      SameFlat(b, f[x], c, |b|);
      SameFlat(b, f[y], c, |b|);
      FlatBetween(b, f[x], f[y], c, |b|);
    }
  }

  lemma SameBucket(b: seq<byte>, f0: seq<nat>, f: seq<nat>, bigDone: seq<bool>, c: byte, s: seq<nat>, u: seq<nat>, t: byte)
    requires |b| > 0 && |bigDone| == 256 && Ready(b, f0, c) && !bigDone[t] && AllSame(b, c)
    requires Scan(b, f0, f, bigDone, c, s, u)
    ensures Slice(b, f, Small(t, c)) && InOrder(b, f, Small(t, c))
  {
    hide Start, Cmp, CmpFlat, Preds, Kept, Code, Side, InBuckets, IsPerm;
    var d := Small(t, c);
    ScanOf(b, f0, f, bigDone, c, s, u, t);
    NothingScanned(b, c, s, -1);
    NothingScanned(b, c, u, 1);
    NoPreds(b, t);
    SliceOf(b, f0, d);
    assert f[Start(b, d)..Start(b, d + 1)] == f0[Start(b, d)..Start(b, d + 1)];
    SameOrder(b, c, f[Start(b, d)..Start(b, d + 1)]);
  }

  lemma MixedBucket(b: seq<byte>, f0: seq<nat>, f: seq<nat>, bigDone: seq<bool>, c: byte, s: seq<nat>, u: seq<nat>, t: byte)
    requires |b| > 0 && |bigDone| == 256 && Ready(b, f0, c) && !bigDone[t] && !AllSame(b, c)
    requires Scan(b, f0, f, bigDone, c, s, u) && CaughtUp(b, f0, c, s, u)
    ensures Slice(b, f, Small(t, c)) && InOrder(b, f, Small(t, c))
  {
    hide Start, Cmp, CmpFlat, Preds, LowPart, HighPart, Kept, Code, Side, Injective, SortedBy, InBuckets, IsPerm, Scanned;
    BucketFull(b, f0, f, bigDone, c, s, u, t);
    BothSides(b, s, u, c, t);
    SidesLength(b, s, u, c);
    var r := Preds(b, s, t) + Preds(b, u, t);
    forall i | 0 <= i < |r| ensures r[i] < |b| && Code(b, r[i]) == Small(t, c) { assert r[i] in r; }
  }

  lemma SortedBucket(b: seq<byte>, f0: seq<nat>, f: seq<nat>, bigDone: seq<bool>, c: byte, s: seq<nat>, u: seq<nat>, t: byte)
    requires |b| > 0 && |bigDone| == 256 && Ready(b, f0, c) && !bigDone[t]
    requires Scan(b, f0, f, bigDone, c, s, u) && CaughtUp(b, f0, c, s, u)
    ensures Slice(b, f, Small(t, c)) && InOrder(b, f, Small(t, c))
  {
    hide AllSame, Slice, InOrder, Scan, CaughtUp, Ready;
    if AllSame(b, c) { SameBucket(b, f0, f, bigDone, c, s, u, t); } else { MixedBucket(b, f0, f, bigDone, c, s, u, t); }
  }

  lemma NoPreds(b: seq<byte>, t: byte)
    ensures Preds(b, [], t) == []
  {
  }

  lemma KeptBucket(b: seq<byte>, f0: seq<nat>, f: seq<nat>, bigDone: seq<bool>, c: byte, d: nat)
    requires |b| > 0 && |bigDone| == 256 && InBuckets(b, f0) && IsPerm(f0, |b|) && Kept(b, f0, f, bigDone, c)
    requires d < 65536 && (d % 256 != c || bigDone[d / 256])
    ensures Slice(b, f, d) && (InOrder(b, f0, d) ==> InOrder(b, f, d))
  {
    hide Start, Cmp, Code;
    SliceOf(b, f0, d);
    SameSlice(f, f0, Start(b, d), Start(b, d + 1));
  }

  /** After both scans the order is a permutation again, every small bucket is in place, and
      those that end in c are in order, [c, c] included. */
  lemma AfterScan(b: seq<byte>, f0: seq<nat>, f: seq<nat>, bigDone: seq<bool>, c: byte, s: seq<nat>, u: seq<nat>)
    requires |b| > 0 && |bigDone| == 256 && Ready(b, f0, c) && Scan(b, f0, f, bigDone, c, s, u) && CaughtUp(b, f0, c, s, u)
    ensures InBuckets(b, f) && IsPerm(f, |b|)
    ensures forall d :: 0 <= d < 65536 && (InOrder(b, f0, d) || (d % 256 == c && !bigDone[d / 256])) ==> InOrder(b, f, d)
  {
    hide Start, Cmp, CmpFlat, Preds, LowPart, HighPart, Code, Slice, InOrder, Kept, Side, Scanned, CaughtUp;
    KeptLength(b, f0, f, bigDone, c);
    forall d | 0 <= d < 65536
      ensures Slice(b, f, d) && (InOrder(b, f0, d) || (d % 256 == c && !bigDone[d / 256]) ==> InOrder(b, f, d))
    {
      if d % 256 == c && !bigDone[d / 256] {
        assert d == Small(d / 256, c);
        SortedBucket(b, f0, f, bigDone, c, s, u, d / 256);
      } else {
        KeptBucket(b, f0, f, bigDone, c, d);
      }
    }
    FromSlices(b, f);
  }

  /** Assertion 1007: the two scans meet in [c, c], or the block is nothing but c. */
  lemma ScansMeet(b: seq<byte>, f0: seq<nat>, f: seq<nat>, bigDone: seq<bool>, c: byte, s: seq<nat>, u: seq<nat>)
    requires |b| > 0 && |bigDone| == 256 && Ready(b, f0, c) && Scan(b, f0, f, bigDone, c, s, u) && CaughtUp(b, f0, c, s, u) && !bigDone[c]
    ensures var d := Small(c, c);
      var copyStart, copyEnd := Start(b, d) + |Preds(b, s, c)|, Start(b, d + 1) - |Preds(b, u, c)| - 1;
      copyStart - 1 == copyEnd || (copyStart == 0 && copyEnd == |b| - 1)
  {
    hide Start, Cmp, CmpFlat, Preds, LowPart, HighPart, Kept, Scanned;
    var d := Small(c, c);
    if AllSame(b, c) {
      NothingScanned(b, c, s, -1);
      NothingScanned(b, c, u, 1);
      NoPreds(b, c);
      OnlyBucket(b, f0, c);
    } else {
      BucketFull(b, f0, f, bigDone, c, s, u, c);
    }
  }

  lemma OnlyBucket(b: seq<byte>, f: seq<nat>, c: byte)
    requires |b| > 0 && AllSame(b, c) && InBuckets(b, f)
    ensures Start(b, Small(c, c)) == 0 && Start(b, Small(c, c) + 1) == |b|
  {
    hide Start;
    StartRange(b, 0, Small(c, c));
    StartRange(b, Small(c, c) + 1, 65536);
    SlotOf(b, f, 0);
    SlotOf(b, f, |b| - 1);
    CodeOf(b, f[0]);
    CodeOf(b, f[|b| - 1]);
  }
}
