/** Joining the two lightest is best: no code for the same weights, built in any way, is
    cheaper than the one that huffman.c reads off its first tree. */
module HuffmanOptimal {
  import opened Words
  import opened HuffmanTrees

  // ---------- codes as weights with lengths ----------

  datatype Item = Item(w: nat, len: nat)

  /** The weights, the code space taken up in units of 2^-m, and the cost. */
  function Weights(s: seq<Item>): multiset<nat> {
    if s == [] then multiset{} else Weights(s[..|s| - 1]) + multiset{s[|s| - 1].w}
  }

  function Short(s: seq<Item>, m: nat): bool { forall i :: 0 <= i < |s| ==> s[i].len <= m }

  function Space(s: seq<Item>, m: nat): nat
    requires Short(s, m)
  {
    if s == [] then 0 else Space(s[..|s| - 1], m) + Pow2(m - s[|s| - 1].len)
  }

  function Cost(s: seq<Item>): nat {
    if s == [] then 0 else Cost(s[..|s| - 1]) + s[|s| - 1].w * s[|s| - 1].len
  }

  /** A code: it takes up no more than all of the code space. */
  ghost predicate Fits(s: seq<Item>, m: nat) {
    Short(s, m) && Space(s, m) <= Pow2(m)
  }

  function Without<T>(s: seq<T>, i: nat): (r: seq<T>)
    requires i < |s|
    ensures |r| == |s| - 1
  {
    s[..i] + s[i + 1..]
  }

  function WithoutTwo<T>(s: seq<T>, i: nat, j: nat): (r: seq<T>)
    requires i < |s| && j < |s| && i != j
    ensures |r| == |s| - 2
  {
    Without<T>(Without<T>(s, i), if j < i then j else j - 1)
  }

  /** Where an entry that is left comes from. */
  function Source(i: nat, j: nat, x: nat): nat {
    var k := if j < i then j else if j > 0 then j - 1 else 0;
    var y := if x < k then x else x + 1;
    if y < i then y else y + 1
  }

  lemma LeftAt<T>(s: seq<T>, i: nat, j: nat, x: nat)
    requires i < |s| && j < |s| && i != j && x < |s| - 2
    ensures var z := Source(i, j, x); z < |s| && z != i && z != j && WithoutTwo<T>(s, i, j)[x] == s[z]
  {
    var k, r := if j < i then j else j - 1, Without<T>(s, i);
    var y := if x < k then x else x + 1;
    assert Without<T>(r, k)[x] == r[y];
  }

  lemma PutIn(s: seq<Item>, x: Item, m: nat)
    requires Short(s, m) && x.len <= m
    ensures Weights(s + [x]) == Weights(s) + multiset{x.w} && Short(s + [x], m)
    ensures Space(s + [x], m) == Space(s, m) + Pow2(m - x.len) && Cost(s + [x]) == Cost(s) + x.w * x.len
  {
    assert (s + [x])[..|s|] == s;
  }

  lemma {:induction false} TakeOut(s: seq<Item>, i: nat, m: nat)
    requires i < |s| && Short(s, m)
    ensures Weights(s) == Weights(Without<Item>(s, i)) + multiset{s[i].w}
    ensures Short(Without<Item>(s, i), m) && Space(s, m) == Space(Without<Item>(s, i), m) + Pow2(m - s[i].len)
    ensures Cost(s) == Cost(Without<Item>(s, i)) + s[i].w * s[i].len
    decreases |s|
  {
    hide Pow2, Weights, Space, Cost;
    var n := |s| - 1;
    var init, last := s[..n], s[n];
    assert s == init + [last];
    PutIn(init, last, m);
    if i == n {
      assert Without<Item>(s, i) == init;
    } else {
      TakeOut(init, i, m);
      assert Without<Item>(s, i) == Without<Item>(init, i) + [last];
      PutIn(Without<Item>(init, i), last, m);
    }
  }

  lemma {:induction false} FindWeight(s: seq<Item>, w: nat) returns (i: nat)
    requires w in Weights(s)
    ensures i < |s| && s[i].w == w
  {
    if s[|s| - 1].w == w {
      i := |s| - 1;
    } else {
      i := FindWeight(s[..|s| - 1], w);
    }
  }

  lemma SameRest(p: multiset<nat>, q: multiset<nat>, w: nat)
    requires p + multiset{w} == q + multiset{w}
    ensures p == q
  {
    forall x: nat ensures p[x] == q[x] {
      assert (p + multiset{w})[x] == (q + multiset{w})[x];
    }
  }

  /** A heavier weight in place of a lighter one: no code is longer than m. */
  lemma Replace(s: seq<Item>, q: multiset<nat>, v: nat, w: nat, m: nat) returns (r: seq<Item>)
    requires Fits(s, m) && Weights(s) == q + multiset{v} && v <= w
    ensures Fits(r, m) && |r| == |s| && Weights(r) == q + multiset{w}
    ensures Cost(r) <= Cost(s) + (w - v) * m
  {
    hide Pow2, Weights, Space, Cost;
    assert v in Weights(s);
    var i := FindWeight(s, v);
    TakeOut(s, i, m);
    SameRest(Weights(Without<Item>(s, i)), q, v);
    var x := Item(w, s[i].len);
    r := Without<Item>(s, i) + [x];
    PutIn(Without<Item>(s, i), x, m);
    CostMore(v, w, x.len, m);
  }

  lemma CostMore(v: nat, w: nat, len: nat, m: nat)
    requires v <= w && len <= m
    ensures w * len <= v * len + (w - v) * m
  {
    var d := w - v;
    assert w * len == v * len + d * len by { Distribute(v, d, len); }
    MulLe(d, len, m);
  }

  lemma Distribute(x: nat, y: nat, z: nat)
    ensures (x + y) * z == x * z + y * z
  {
  }

  lemma MulLe(x: nat, y: nat, z: nat)
    requires y <= z
    ensures x * y <= x * z
  {
  }

  // ---------- joining the two lightest ----------

  /** Beside a and b the weights are those of rest, none of which is less than either. */
  ghost predicate TwoLightest(ws: multiset<nat>, rest: multiset<nat>, a: nat, b: nat) {
    ws == rest + multiset{a} + multiset{b} && forall w :: w in rest ==> a <= w && b <= w
  }

  /** t is a code for the rest and the sum of a and b, cheaper by at least that sum. */
  ghost predicate Joins(s: seq<Item>, t: seq<Item>, rest: multiset<nat>, a: nat, b: nat, m: nat) {
    Fits(t, m) && Weights(t) == rest + multiset{a + b} && Cost(t) + a + b <= Cost(s)
  }

  lemma CostOfJoin(a: nat, b: nat, x: nat, y: nat, m: nat)
    requires a <= x && b <= y && m > 0
    ensures (a + b) * (m - 1) + (x - a) * m + (y - b) * m + a + b == x * m + y * m
  {
    var d, e := x - a, y - b;
    assert x * m == a * m + d * m by { Distribute(a, d, m); }
    assert y * m == b * m + e * m by { Distribute(b, e, m); }
    assert (a + b) * m == a * m + b * m by { Distribute(a, b, m); }
    assert (a + b) * m == (a + b) * (m - 1) + (a + b) by { OneLess(a + b, m); }
  }

  lemma OneLess(x: nat, m: nat)
    requires m > 0
    ensures x * m == x * (m - 1) + x
  {
  }

  /** Two words of greatest length give way to one that is shorter by one. */
  lemma MergeWords(s: seq<Item>, i: nat, j: nat, w: nat, m: nat) returns (t: seq<Item>, q: multiset<nat>)
    requires Fits(s, m) && i < |s| && j < |s| && i != j && s[i].len == s[j].len == m > 0
    ensures Fits(t, m) && |t| == |s| - 1
    ensures Weights(s) == q + multiset{s[j].w} + multiset{s[i].w} && Weights(t) == q + multiset{w}
    ensures Cost(t) + s[i].w * m + s[j].w * m == Cost(s) + w * (m - 1)
  {
    hide Weights, Space, Cost;
    TakeOut(s, i, m);
    var r := Without<Item>(s, i);
    var k := if j < i then j else j - 1;
    assert r[k] == s[j];
    TakeOut(r, k, m);
    q := Weights(Without<Item>(r, k));
    t := Without<Item>(r, k) + [Item(w, m - 1)];
    PutIn(Without<Item>(r, k), Item(w, m - 1), m);
    assert Pow2(0) == 1 && Pow2(1) == 2;
  }

  /** What has been gained in the end, by x and y giving their places up to a and b. */
  lemma MakeJoin(s: seq<Item>, t0: seq<Item>, t: seq<Item>, rest: multiset<nat>, a: nat, b: nat, x: nat, y: nat, m: nat)
    requires a <= x && b <= y && m > 0
    requires Cost(t0) + x * m + y * m == Cost(s) + (a + b) * (m - 1) && Cost(t) <= Cost(t0) + (x - a) * m + (y - b) * m
    requires Fits(t, m) && Weights(t) == rest + multiset{a + b}
    ensures Joins(s, t, rest, a, b, m)
  {
    hide Weights, Cost, Fits;
    CostOfJoin(a, b, x, y, m);
  }

  lemma NotLess(ws: multiset<nat>, rest: multiset<nat>, a: nat, b: nat, w: nat)
    requires TwoLightest(ws, rest, a, b) && w in rest
    ensures a <= w && b <= w
  {
  }

  lemma LightestParts(ws: multiset<nat>, rest: multiset<nat>, a: nat, b: nat)
    requires TwoLightest(ws, rest, a, b)
    ensures ws == rest + multiset{a} + multiset{b}
  {
  }

  /** Of two words of greatest length one has weight a. */
  lemma JoinWith(s: seq<Item>, i: nat, j: nat, rest: multiset<nat>, a: nat, b: nat, m: nat) returns (t: seq<Item>)
    requires Fits(s, m) && i < |s| && j < |s| && i != j && s[i].len == s[j].len == m > 0
    requires TwoLightest(Weights(s), rest, a, b) && s[i].w == a
    ensures Joins(s, t, rest, a, b, m)
  {
    hide *;
    var y := s[j].w;
    var t0, q := MergeWords(s, i, j, a + b, m);
    LightestParts(Weights(s), rest, a, b);
    OneLeft(q, rest, a, b, y);
    if y == b {
      t := t0;
      MakeJoin(s, t0, t, rest, a, b, a, b, m);
    } else {
      NotLess(Weights(s), rest, a, b, y);
      var q' := OneOther(q, rest, b, y);
      AddLast(q', b, a + b);
      t := Replace(t0, q' + multiset{a + b}, b, y, m);
      AddLast(q', y, a + b);
      MakeJoin(s, t0, t, rest, a, b, a, y, m);
    }
  }

  /** The order of additions. */
  lemma AddLast(q: multiset<nat>, x: nat, y: nat)
    ensures q + multiset{x} + multiset{y} == q + multiset{y} + multiset{x}
  {
  }

  lemma OneLeft(q: multiset<nat>, rest: multiset<nat>, a: nat, b: nat, y: nat)
    requires q + multiset{y} + multiset{a} == rest + multiset{a} + multiset{b}
    ensures q + multiset{y} == rest + multiset{b} && (y == b ==> q == rest) && (y != b ==> y in rest)
  {
    AddLast(rest, a, b);
    SameRest(q + multiset{y}, rest + multiset{b}, a);
    if y == b {
      SameRest(q, rest, b);
    } else {
      assert (q + multiset{y})[y] == (rest + multiset{b})[y];
    }
  }

  lemma OneOther(q: multiset<nat>, rest: multiset<nat>, b: nat, y: nat) returns (q': multiset<nat>)
    requires q + multiset{y} == rest + multiset{b} && y != b
    ensures q == q' + multiset{b} && rest == q' + multiset{y}
  {
    assert (q + multiset{y})[b] == (rest + multiset{b})[b];
    q' := q - multiset{b};
    assert q == q' + multiset{b};
    AddLast(q', b, y);
    SameRest(q' + multiset{y}, rest, b);
  }

  /** Neither word of greatest length is one of the lightest. */
  lemma JoinOthers(s: seq<Item>, i: nat, j: nat, rest: multiset<nat>, a: nat, b: nat, m: nat) returns (t: seq<Item>)
    requires Fits(s, m) && i < |s| && j < |s| && i != j && s[i].len == s[j].len == m > 0
    requires TwoLightest(Weights(s), rest, a, b) && s[i].w != a && s[i].w != b && s[j].w != a && s[j].w != b
    ensures Joins(s, t, rest, a, b, m)
  {
    hide *;
    var x, y := s[i].w, s[j].w;
    var t0, q := MergeWords(s, i, j, a + b, m);
    LightestParts(Weights(s), rest, a, b);
    var q' := TwoOthers(q, rest, a, b, x, y);
    NotLess(Weights(s), rest, a, b, x);
    NotLess(Weights(s), rest, a, b, y);
    t := ReplaceTwo(t0, q', a, b, x, y, m);
    MakeJoin(s, t0, t, rest, a, b, x, y, m);
  }

  /** Both of the lightest weights become those that were merged. */
  lemma ReplaceTwo(t0: seq<Item>, q: multiset<nat>, a: nat, b: nat, x: nat, y: nat, m: nat) returns (t: seq<Item>)
    requires Fits(t0, m) && Weights(t0) == q + multiset{a} + multiset{b} + multiset{a + b} && a <= x && b <= y
    ensures Fits(t, m) && |t| == |t0| && Weights(t) == q + multiset{y} + multiset{x} + multiset{a + b}
    ensures Cost(t) <= Cost(t0) + (x - a) * m + (y - b) * m
  {
    hide *;
    AddLast(q + multiset{a}, b, a + b);
    var t1 := Replace(t0, q + multiset{a} + multiset{a + b}, b, y, m);
    Rotate(q, a, a + b, y);
    t := Replace(t1, q + multiset{y} + multiset{a + b}, a, x, m);
    AddLast(q + multiset{y}, x, a + b);
  }

  lemma Rotate(q: multiset<nat>, x: nat, y: nat, z: nat)
    ensures q + multiset{x} + multiset{y} + multiset{z} == q + multiset{z} + multiset{y} + multiset{x}
  {
  }

  lemma TwoOthers(q: multiset<nat>, rest: multiset<nat>, a: nat, b: nat, x: nat, y: nat) returns (q': multiset<nat>)
    requires q + multiset{y} + multiset{x} == rest + multiset{a} + multiset{b} && x != a && x != b && y != a && y != b
    ensures x in rest && y in rest && q == q' + multiset{a} + multiset{b} && rest == q' + multiset{y} + multiset{x}
  {
    var r := OneOther(q + multiset{y}, rest + multiset{a}, b, x);
    var p := OneOther(q, r, b, y);
    AddLast(p, y, x);
    q' := OtherTwo(p, rest, a, x, y);
  }

  lemma OtherTwo(p: multiset<nat>, rest: multiset<nat>, a: nat, x: nat, y: nat) returns (q': multiset<nat>)
    requires p + multiset{y} + multiset{x} == rest + multiset{a} && x != a && y != a
    ensures p == q' + multiset{a} && rest == q' + multiset{y} + multiset{x} && x in rest && y in rest
  {
    assert (p + multiset{y} + multiset{x})[a] == (rest + multiset{a})[a];
    q' := p - multiset{a};
    assert p == q' + multiset{a};
    Rotate(q', a, y, x);
    AddLast(q', y, x);
    SameRest(q' + multiset{y} + multiset{x}, rest, a);
  }

  lemma JoinLongest(s: seq<Item>, i: nat, j: nat, rest: multiset<nat>, a: nat, b: nat, m: nat) returns (t: seq<Item>)
    requires Fits(s, m) && i < |s| && j < |s| && i != j && s[i].len == s[j].len == m > 0
    requires TwoLightest(Weights(s), rest, a, b)
    ensures Joins(s, t, rest, a, b, m)
  {
    hide Weights, Cost, Fits, Joins, TwoLightest;
    Swapped(Weights(s), rest, a, b);
    if s[i].w == a {
      t := JoinWith(s, i, j, rest, a, b, m);
    } else if s[j].w == a {
      t := JoinWith(s, j, i, rest, a, b, m);
    } else if s[i].w == b {
      t := JoinWith(s, i, j, rest, b, a, m);
      JoinsEither(s, t, rest, a, b, m);
    } else if s[j].w == b {
      t := JoinWith(s, j, i, rest, b, a, m);
      JoinsEither(s, t, rest, a, b, m);
    } else {
      t := JoinOthers(s, i, j, rest, a, b, m);
    }
  }

  lemma JoinsEither(s: seq<Item>, t: seq<Item>, rest: multiset<nat>, a: nat, b: nat, m: nat)
    requires Joins(s, t, rest, b, a, m)
    ensures Joins(s, t, rest, a, b, m)
  {
  }

  lemma Swapped(ws: multiset<nat>, rest: multiset<nat>, a: nat, b: nat)
    requires TwoLightest(ws, rest, a, b)
    ensures TwoLightest(ws, rest, b, a)
  {
    AddLast(rest, a, b);
  }

  // ---------- down to words of greatest length ----------

  /** No word is as long as m. */
  lemma {:induction false} Shorter(s: seq<Item>, m: nat)
    requires Short(s, m) && m > 0 && forall i :: 0 <= i < |s| ==> s[i].len != m
    ensures Short(s, m - 1) && Space(s, m) == 2 * Space(s, m - 1)
  {
    if s != [] { Shorter(s[..|s| - 1], m); }
  }

  /** A single longest word can be shortened. */
  lemma ShortenOne(s: seq<Item>, i: nat, m: nat) returns (t: seq<Item>)
    requires Fits(s, m) && m > 0 && i < |s| && s[i].len == m && forall k :: 0 <= k < |s| && k != i ==> s[k].len != m
    ensures Fits(t, m - 1) && |t| == |s| && Weights(t) == Weights(s) && Cost(t) <= Cost(s)
  {
    hide Weights, Space, Cost;
    TakeOut(s, i, m);
    var r := Without<Item>(s, i);
    forall k | 0 <= k < |r| ensures r[k].len != m {
      assert r[k] == if k < i then s[k] else s[k + 1];
    }
    Shorter(r, m);
    var x := Item(s[i].w, m - 1);
    t := r + [x];
    PutIn(r, x, m - 1);
    assert Pow2(0) == 1;
    MulLe(s[i].w, m - 1, m);
  }

  /** However a code is made, one for the weights with the two lightest joined is cheaper by at
      least their sum. */
  lemma {:induction false} Contract(s: seq<Item>, rest: multiset<nat>, a: nat, b: nat, m: nat) returns (t: seq<Item>)
    requires Fits(s, m) && |s| >= 2 && TwoLightest(Weights(s), rest, a, b)
    ensures Joins(s, t, rest, a, b, m)
    decreases m
  {
    if m == 0 {
      TwoWords(s);
      assert false;
    } else if i, j :| 0 <= i < |s| && 0 <= j < |s| && i != j && s[i].len == m && s[j].len == m {
      t := JoinLongest(s, i, j, rest, a, b, m);
    } else {
      hide Weights, Cost, Fits, TwoLightest;
      var u := ShortenAll(s, m);
      t := Contract(u, rest, a, b, m - 1);
      Longer(t, m);
    }
  }

  lemma TwoWords(s: seq<Item>)
    requires Short(s, 0) && |s| >= 2
    ensures Space(s, 0) >= 2
  {
    var r := s[..|s| - 1];
    assert Space(s, 0) == Space(r, 0) + Pow2(0);
    assert Space(r, 0) == Space(r[..|r| - 1], 0) + Pow2(0);
  }

  lemma ShortenAll(s: seq<Item>, m: nat) returns (t: seq<Item>)
    requires Fits(s, m) && m > 0
    requires forall i, j :: 0 <= i < |s| && 0 <= j < |s| && i != j ==> s[i].len != m || s[j].len != m
    ensures Fits(t, m - 1) && |t| == |s| && Weights(t) == Weights(s) && Cost(t) <= Cost(s)
  {
    if i :| 0 <= i < |s| && s[i].len == m {
      t := ShortenOne(s, i, m);
    } else {
      Shorter(s, m);
      t := s;
    }
  }

  lemma Longer(s: seq<Item>, m: nat)
    requires m > 0 && Fits(s, m - 1)
    ensures Fits(s, m)
  {
    Shorter(s, m);
  }

  // ---------- trees ----------

  /** The cost of a tree: every join costs the weight of what is joined. */
  function TreeCost(t: Tree, ws: seq<nat>): nat {
    match t
    case Leaf(_) => 0
    case Node(l, r) => TreeCost(l, ws) + TreeCost(r, ws) + (Weight(l, ws) + Weight(r, ws))
  }

  function RootWeights(rs: seq<Tree>, ws: seq<nat>): multiset<nat> {
    if rs == [] then multiset{} else RootWeights(rs[..|rs| - 1], ws) + multiset{Weight(rs[|rs| - 1], ws)}
  }

  function RootCost(rs: seq<Tree>, ws: seq<nat>): nat {
    if rs == [] then 0 else RootCost(rs[..|rs| - 1], ws) + TreeCost(rs[|rs| - 1], ws)
  }

  lemma PutRoot(rs: seq<Tree>, t: Tree, ws: seq<nat>)
    ensures RootWeights(rs + [t], ws) == RootWeights(rs, ws) + multiset{Weight(t, ws)}
    ensures RootCost(rs + [t], ws) == RootCost(rs, ws) + TreeCost(t, ws)
  {
    assert (rs + [t])[..|rs|] == rs;
  }

  lemma {:induction false} TakeRoot(rs: seq<Tree>, i: nat, ws: seq<nat>)
    requires i < |rs|
    ensures RootWeights(rs, ws) == RootWeights(Without<Tree>(rs, i), ws) + multiset{Weight(rs[i], ws)}
    ensures RootCost(rs, ws) == RootCost(Without<Tree>(rs, i), ws) + TreeCost(rs[i], ws)
    decreases |rs|
  {
    hide RootWeights, RootCost;
    var n := |rs| - 1;
    var init, last := rs[..n], rs[n];
    assert rs == init + [last];
    PutRoot(init, last, ws);
    if i == n {
      assert Without<Tree>(rs, i) == init;
    } else {
      TakeRoot(init, i, ws);
      assert Without<Tree>(rs, i) == Without<Tree>(init, i) + [last];
      PutRoot(Without<Tree>(init, i), last, ws);
    }
  }

  lemma {:induction false} RootSize(rs: seq<Tree>, ws: seq<nat>)
    ensures |RootWeights(rs, ws)| == |rs|
  {
    if rs != [] { RootSize(rs[..|rs| - 1], ws); }
  }

  lemma {:induction false} WeightsSize(s: seq<Item>)
    ensures |Weights(s)| == |s|
  {
    if s != [] { WeightsSize(s[..|s| - 1]); }
  }

  lemma {:induction false} WeightOfRoot(rs: seq<Tree>, ws: seq<nat>, w: nat) returns (i: nat)
    requires w in RootWeights(rs, ws)
    ensures i < |rs| && Weight(rs[i], ws) == w
  {
    if Weight(rs[|rs| - 1], ws) == w {
      i := |rs| - 1;
    } else {
      i := WeightOfRoot(rs[..|rs| - 1], ws, w);
    }
  }

  // ---------- what every code costs ----------

  /** The code s costs at least what the trees rs do and some code for their weights. */
  ghost predicate Above(s: seq<Item>, m: nat, rs: seq<Tree>, ws: seq<nat>) {
    exists t :: Fits(t, m) && Weights(t) == RootWeights(rs, ws) && RootCost(rs, ws) + Cost(t) <= Cost(s)
  }

  /** Whatever the code for the weights w0. */
  ghost predicate Best(w0: multiset<nat>, rs: seq<Tree>, ws: seq<nat>) {
    forall s, m: nat :: Fits(s, m) && Weights(s) == w0 ==> Above(s, m, rs, ws)
  }

  lemma BestStart(rs: seq<Tree>, ws: seq<nat>)
    requires RootCost(rs, ws) == 0
    ensures Best(RootWeights(rs, ws), rs, ws)
  {
  }

  function Joining(rs: seq<Tree>, i: nat, j: nat): seq<Tree>
    requires i < |rs| && j < |rs| && i != j
  {
    WithoutTwo<Tree>(rs, i, j) + [Node(rs[i], rs[j])]
  }

  lemma RootsOfJoining(rs: seq<Tree>, i: nat, j: nat, ws: seq<nat>) returns (rest: multiset<nat>)
    requires i < |rs| && j < |rs| && i != j
    requires forall k :: 0 <= k < |rs| && k != i && k != j ==> Weight(rs[i], ws) <= Weight(rs[k], ws) && Weight(rs[j], ws) <= Weight(rs[k], ws)
    ensures var a, b := Weight(rs[i], ws), Weight(rs[j], ws);
            && TwoLightest(RootWeights(rs, ws), rest, a, b)
            && RootWeights(Joining(rs, i, j), ws) == rest + multiset{a + b}
            && RootCost(Joining(rs, i, j), ws) == RootCost(rs, ws) + (a + b)
  {
    hide RootWeights, RootCost;
    var r, k := Without<Tree>(rs, i), if j < i then j else j - 1;
    assert r[k] == rs[j];
    TakeRoot(rs, i, ws);
    TakeRoot(r, k, ws);
    var q := Without<Tree>(r, k);
    rest := RootWeights(q, ws);
    PutRoot(q, Node(rs[i], rs[j]), ws);
    AddLast(rest, Weight(rs[i], ws), Weight(rs[j], ws));
    forall w | w in rest ensures Weight(rs[i], ws) <= w && Weight(rs[j], ws) <= w {
      var x := WeightOfRoot(q, ws, w);
      LeftAt<Tree>(rs, i, j, x);
    }
  }

  /** Joining the two lightest keeps that. */
  lemma BestStep(w0: multiset<nat>, rs: seq<Tree>, ws: seq<nat>, i: nat, j: nat)
    requires Best(w0, rs, ws) && i < |rs| && j < |rs| && i != j
    requires forall k :: 0 <= k < |rs| && k != i && k != j ==> Weight(rs[i], ws) <= Weight(rs[k], ws) && Weight(rs[j], ws) <= Weight(rs[k], ws)
    ensures Best(w0, Joining(rs, i, j), ws)
  {
    hide Fits, Weights, Cost, RootWeights, RootCost, TwoLightest, Joining;
    var a, b := Weight(rs[i], ws), Weight(rs[j], ws);
    var rest := RootsOfJoining(rs, i, j, ws);
    forall s, m: nat | Fits(s, m) && Weights(s) == w0 ensures Above(s, m, Joining(rs, i, j), ws) {
      assert Above(s, m, rs, ws);
      var t :| Fits(t, m) && Weights(t) == RootWeights(rs, ws) && RootCost(rs, ws) + Cost(t) <= Cost(s);
      RootSize(rs, ws);
      WeightsSize(t);
      var u := Contract(t, rest, a, b, m);
    }
  }

  /** One tree left: no code is cheaper. */
  lemma BestAtEnd(w0: multiset<nat>, t: Tree, ws: seq<nat>, s: seq<Item>, m: nat)
    requires Best(w0, [t], ws) && Fits(s, m) && Weights(s) == w0
    ensures TreeCost(t, ws) <= Cost(s)
  {
    hide Fits, Weights, Cost;
    assert Above(s, m, [t], ws);
    assert RootCost([t], ws) == TreeCost(t, ws) by { PutRoot([], t, ws); assert [] + [t] == [t]; }
  }

  // ---------- a forest whose trees are nodes ----------

  function Picked(nodes: seq<Tree>, ix: seq<nat>): (rs: seq<Tree>)
    requires forall k :: 0 <= k < |ix| ==> ix[k] < |nodes|
    ensures |rs| == |ix| && forall k :: 0 <= k < |ix| ==> rs[k] == nodes[ix[k]]
  {
    seq(|ix|, k requires 0 <= k < |ix| => nodes[ix[k]])
  }

  ghost predicate BestRoots(w0: multiset<nat>, nodes: seq<Tree>, ix: seq<nat>, ws: seq<nat>) {
    (forall k :: 0 <= k < |ix| ==> ix[k] < |nodes|) && Best(w0, Picked(nodes, ix), ws)
  }

  /** The trees still to be joined, in some order, are part of a best code. */
  ghost predicate Optimal(w0: multiset<nat>, nodes: seq<Tree>, roots: multiset<nat>, ws: seq<nat>) {
    exists ix: seq<nat> :: multiset(ix) == roots && BestRoots(w0, nodes, ix, ws)
  }

  lemma WithoutOne(ix: seq<nat>, i: nat)
    requires i < |ix|
    ensures multiset(ix) == multiset(Without<nat>(ix, i)) + multiset{ix[i]}
  {
    assert ix == ix[..i] + [ix[i]] + ix[i + 1..];
  }

  lemma OptimalStep(w0: multiset<nat>, nodes: seq<Tree>, roots: multiset<nat>, ws: seq<nat>, n1: nat, n2: nat)
    requires Optimal(w0, nodes, roots, ws) && n1 in roots && n2 in roots && n1 != n2
    requires forall x :: x in roots ==> x < |nodes| && roots[x] == 1
    requires forall x :: x in roots && x != n1 && x != n2 ==> Weight(nodes[n1], ws) <= Weight(nodes[x], ws) && Weight(nodes[n2], ws) <= Weight(nodes[x], ws)
    ensures Optimal(w0, nodes + [Node(nodes[n1], nodes[n2])], roots - multiset{n1} - multiset{n2} + multiset{|nodes|}, ws)
  {
    hide Best, BestRoots, Weight, Without;
    var ix: seq<nat> :| multiset(ix) == roots && BestRoots(w0, nodes, ix, ws);
    var i, j, ix' := PickTwo(ix, roots, n1, n2, |nodes|);
    JoinRoots(w0, nodes, ix, ws, i, j, ix');
  }

  /** Where the two are, and what is left with the new one. */
  lemma PickTwo(ix: seq<nat>, roots: multiset<nat>, n1: nat, n2: nat, k: nat) returns (i: nat, j: nat, ix': seq<nat>)
    requires multiset(ix) == roots && n1 in roots && n2 in roots && n1 != n2 && forall x :: x in roots ==> roots[x] == 1
    ensures i < |ix| && j < |ix| && i != j && ix[i] == n1 && ix[j] == n2
    ensures ix' == WithoutTwo<nat>(ix, i, j) + [k]
    ensures multiset(ix') == roots - multiset{n1} - multiset{n2} + multiset{k}
    ensures forall x :: 0 <= x < |ix| && x != i && x != j ==> ix[x] in roots && ix[x] != n1 && ix[x] != n2
  {
    hide WithoutTwo;
    i := PlaceOf(ix, n1);
    j := PlaceOf(ix, n2);
    forall x | 0 <= x < |ix| && x != i && x != j ensures ix[x] in roots && ix[x] != n1 && ix[x] != n2 {
      OtherIndex(ix, i, x);
      OtherIndex(ix, j, x);
    }
    LeftOver(ix, i, j);
    ix' := WithoutTwo<nat>(ix, i, j) + [k];
  }

  lemma PlaceOf(ix: seq<nat>, n: nat) returns (i: nat)
    requires n in multiset(ix)
    ensures i < |ix| && ix[i] == n
  {
    i :| 0 <= i < |ix| && ix[i] == n;
  }

  lemma LeftOver(ix: seq<nat>, i: nat, j: nat)
    requires i < |ix| && j < |ix| && i != j
    ensures multiset(WithoutTwo<nat>(ix, i, j)) == multiset(ix) - multiset{ix[i]} - multiset{ix[j]}
  {
    var k, r := if j < i then j else j - 1, Without<nat>(ix, i);
    assert r[k] == ix[j];
    WithoutOne(ix, i);
    hide Without;
    WithoutOne(r, k);
    assert multiset(ix) - multiset{ix[i]} == multiset(r);
  }

  lemma OtherIndex(ix: seq<nat>, i: nat, x: nat)
    requires i < |ix| && x < |ix| && x != i && multiset(ix)[ix[i]] == 1
    ensures ix[x] != ix[i] && ix[x] in multiset(ix)
  {
    WithoutOne(ix, i);
    var r := Without<nat>(ix, i);
    assert r[if x < i then x else x - 1] == ix[x];
    assert ix[x] in multiset(r);
  }

  lemma JoinRoots(w0: multiset<nat>, nodes: seq<Tree>, ix: seq<nat>, ws: seq<nat>, i: nat, j: nat, ix': seq<nat>)
    requires BestRoots(w0, nodes, ix, ws) && i < |ix| && j < |ix| && i != j
    requires ix' == WithoutTwo<nat>(ix, i, j) + [|nodes|]
    requires forall x :: 0 <= x < |ix| && x != i && x != j ==>
               Weight(nodes[ix[i]], ws) <= Weight(nodes[ix[x]], ws) && Weight(nodes[ix[j]], ws) <= Weight(nodes[ix[x]], ws)
    ensures BestRoots(w0, nodes + [Node(nodes[ix[i]], nodes[ix[j]])], ix', ws)
  {
    var rs, nodes' := Picked(nodes, ix), nodes + [Node(nodes[ix[i]], nodes[ix[j]])];
    hide Best, Weight, Joining, WithoutTwo, Source;
    BestStep(w0, rs, ws, i, j);
    var n := |ix| - 2;
    forall x: nat | x < n ensures ix'[x] < |nodes| && nodes'[ix'[x]] == WithoutTwo<Tree>(rs, i, j)[x] {
      LeftAt<nat>(ix, i, j, x);
      LeftAt<Tree>(rs, i, j, x);
    }
    JoiningIs(rs, i, j);
    assert Picked(nodes', ix') == Joining(rs, i, j);
  }

  lemma JoiningIs(rs: seq<Tree>, i: nat, j: nat)
    requires i < |rs| && j < |rs| && i != j
    ensures Joining(rs, i, j) == WithoutTwo<Tree>(rs, i, j) + [Node(rs[i], rs[j])]
  {
  }

  // ---------- the cost of a table of lengths ----------

  function SymbolWeights(ws: seq<nat>, n: nat): multiset<nat>
    requires n < |ws|
  {
    if n == 0 then multiset{} else SymbolWeights(ws, n - 1) + multiset{ws[n]}
  }

  /** The length of a text in which every symbol occurs as often as it weighs. */
  function CodeCost(ws: seq<nat>, lens: seq<nat>): nat
    requires |lens| < |ws|
  {
    if lens == [] then 0 else CodeCost(ws, lens[..|lens| - 1]) + ws[|lens|] * lens[|lens| - 1]
  }

  function CodeSpace(lens: seq<nat>, m: nat): nat
    requires forall i :: 0 <= i < |lens| ==> lens[i] <= m
  {
    if lens == [] then 0 else CodeSpace(lens[..|lens| - 1], m) + Pow2(m - lens[|lens| - 1])
  }

  /** Lengths that a prefix code can have: those that satisfy Kraft's inequality. */
  ghost predicate PrefixLengths(lens: seq<nat>, m: nat) {
    (forall i :: 0 <= i < |lens| ==> lens[i] <= m) && CodeSpace(lens, m) <= Pow2(m)
  }

  /** No prefix code for these weights is cheaper. */
  ghost predicate Minimal(ws: seq<nat>, lens: seq<nat>) {
    |lens| < |ws| &&
    forall other: seq<nat>, m: nat :: |other| == |lens| && PrefixLengths(other, m) ==> CodeCost(ws, lens) <= CodeCost(ws, other)
  }

  ghost function ItemsOf(ws: seq<nat>, lens: seq<nat>): (s: seq<Item>)
    requires |lens| < |ws|
    ensures |s| == |lens| && forall i :: 0 <= i < |s| ==> s[i] == Item(ws[i + 1], lens[i])
  {
    seq(|lens|, i requires 0 <= i < |lens| => Item(ws[i + 1], lens[i]))
  }

  lemma {:induction false} ItemsAre(ws: seq<nat>, lens: seq<nat>, m: nat)
    requires |lens| < |ws| && forall i :: 0 <= i < |lens| ==> lens[i] <= m
    ensures var s := ItemsOf(ws, lens);
            Weights(s) == SymbolWeights(ws, |lens|) && Cost(s) == CodeCost(ws, lens) && Short(s, m) && Space(s, m) == CodeSpace(lens, m)
  {
    hide Pow2, ItemsOf;
    ItemsFrom(ws, lens);
    if lens != [] {
      ItemsAre(ws, lens[..|lens| - 1], m);
    }
  }

  lemma ItemsFrom(ws: seq<nat>, lens: seq<nat>)
    requires |lens| < |ws|
    ensures var n, s := |lens|, ItemsOf(ws, lens);
            if n == 0 then s == [] else s[..n - 1] == ItemsOf(ws, lens[..n - 1]) && s[n - 1] == Item(ws[n], lens[n - 1])
  {
  }

  /** The trees of one leaf each. */
  ghost function FirstIndexes(n: nat): (ix: seq<nat>)
    ensures |ix| == n && forall k :: 0 <= k < n ==> ix[k] == k + 1
  {
    seq(n, k => k + 1)
  }

  lemma {:induction false} LeafRoots(nodes: seq<Tree>, ws: seq<nat>, n: nat)
    requires n < |ws| && n < |nodes| && forall k :: 1 <= k <= n ==> nodes[k] == Leaf(k)
    ensures RootWeights(Picked(nodes, FirstIndexes(n)), ws) == SymbolWeights(ws, n) && RootCost(Picked(nodes, FirstIndexes(n)), ws) == 0
  {
    var rs := Picked(nodes, FirstIndexes(n));
    if n > 0 {
      LeafRoots(nodes, ws, n - 1);
      assert rs[..n - 1] == Picked(nodes, FirstIndexes(n - 1)) && rs[n - 1] == Leaf(n);
    }
  }

  /** Before anything is joined. */
  lemma OptimalStart(nodes: seq<Tree>, ws: seq<nat>, n: nat, roots: multiset<nat>)
    requires n < |ws| && n < |nodes| && forall k :: 1 <= k <= n ==> nodes[k] == Leaf(k)
    requires roots == multiset(FirstIndexes(n))
    ensures Optimal(SymbolWeights(ws, n), nodes, roots, ws)
  {
    hide Best;
    LeafRoots(nodes, ws, n);
    BestStart(Picked(nodes, FirstIndexes(n)), ws);
    assert BestRoots(SymbolWeights(ws, n), nodes, FirstIndexes(n), ws);
  }

  // ---------- the cost of a tree is that of its depths ----------

  /** The cost of the symbols 1..n that t contains, when it hangs at depth d. */
  ghost function DepthCost(t: Tree, d: nat, ws: seq<nat>, n: nat): nat
    requires n < |ws|
  {
    if n == 0 then 0 else DepthCost(t, d, ws, n - 1) + if n in Leaves(t) then ws[n] * (d + Depth(t, n)) else 0
  }

  lemma {:induction false} DepthCostOfNode(t: Tree, d: nat, ws: seq<nat>, n: nat)
    requires t.Node? && Distinct(t) && n < |ws|
    ensures DepthCost(t, d, ws, n) == DepthCost(t.l, d + 1, ws, n) + DepthCost(t.r, d + 1, ws, n)
  {
    if n > 0 {
      DepthCostOfNode(t, d, ws, n - 1);
      if n in Leaves(t) {
        var c := if n in Leaves(t.l) then t.l else t.r;
        assert d + Depth(t, n) == d + 1 + Depth(c, n);
      }
    }
  }

  lemma {:induction false} DepthCostOfLeaf(t: Tree, d: nat, ws: seq<nat>, n: nat)
    requires t.Leaf? && 1 <= t.sym && n < |ws|
    ensures DepthCost(t, d, ws, n) == if t.sym <= n then ws[t.sym] * d else 0
  {
    if n > 0 { DepthCostOfLeaf(t, d, ws, n - 1); }
  }

  lemma {:induction false} DepthCostIs(t: Tree, d: nat, ws: seq<nat>, n: nat)
    requires Distinct(t) && Within(t, n) && n < |ws|
    ensures DepthCost(t, d, ws, n) == TreeCost(t, ws) + Weight(t, ws) * d
    decreases t
  {
    match t
    case Leaf(_) => DepthCostOfLeaf(t, d, ws, n);
    case Node(l, r) =>
      DepthCostOfNode(t, d, ws, n);
      DepthCostIs(l, d + 1, ws, n);
      DepthCostIs(r, d + 1, ws, n);
      var x, y := Weight(l, ws), Weight(r, ws);
      OneLess(x, d + 1);
      OneLess(y, d + 1);
      Distribute(x, y, d);
  }

  lemma {:induction false} CostOfDepths(t: Tree, ws: seq<nat>, lens: seq<nat>, n: nat)
    requires n <= |lens| < |ws| && forall i: nat :: 1 <= i <= n ==> i in Leaves(t) && lens[i - 1] == Depth(t, i)
    ensures DepthCost(t, 0, ws, n) == CodeCost(ws, lens[..n])
  {
    if n > 0 {
      CostOfDepths(t, ws, lens, n - 1);
      assert lens[..n][..n - 1] == lens[..n - 1];
      assert lens[n - 1] == Depth(t, n);
    }
  }

  /** The depths of the last tree are minimal. */
  lemma DepthsMinimal(nodes: seq<Tree>, root: nat, ws: seq<nat>, lens: seq<nat>)
    requires |lens| < |ws| && root < |nodes| && Optimal(SymbolWeights(ws, |lens|), nodes, multiset{root}, ws)
    requires var t := nodes[root]; Distinct(t) && Within(t, |lens|) && forall i: nat :: 1 <= i <= |lens| ==> i in Leaves(t) && lens[i - 1] == Depth(t, i)
    ensures Minimal(ws, lens)
  {
    hide Best, Cost, Weights, Space, Distinct, Within, Leaves, Depth;
    var n, t := |lens|, nodes[root];
    var ix: seq<nat> :| multiset(ix) == multiset{root} && BestRoots(SymbolWeights(ws, n), nodes, ix, ws);
    assert |ix| == |multiset(ix)| == 1 && ix[0] in multiset(ix);
    assert Picked(nodes, ix) == [t];
    CostOfDepths(t, ws, lens, n);
    DepthCostIs(t, 0, ws, n);
    assert lens[..n] == lens;
    forall other: seq<nat>, m: nat | |other| == n && PrefixLengths(other, m) ensures CodeCost(ws, lens) <= CodeCost(ws, other) {
      ItemsAre(ws, other, m);
      BestAtEnd(SymbolWeights(ws, n), t, ws, ItemsOf(ws, other), m);
    }
  }
}
