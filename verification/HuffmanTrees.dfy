/** Code trees: what the parent pointers of huffman.c describe. Their leaves' depths
    exhaust the code space exactly, and a tree built by always joining the two lightest
    has a weight that grows like the Fibonacci numbers with its height. */
module HuffmanTrees {
  import opened Words

  datatype Tree = Leaf(sym: nat) | Node(l: Tree, r: Tree)

  function Max(x: nat, y: nat): nat { if x > y then x else y }

  function Height(t: Tree): nat {
    match t
    case Leaf(_) => 0
    case Node(l, r) => 1 + Max(Height(l), Height(r))
  }

  function Leaves(t: Tree): set<nat> {
    match t
    case Leaf(i) => {i}
    case Node(l, r) => Leaves(l) + Leaves(r)
  }

  /** No symbol occurs twice. */
  ghost predicate Distinct(t: Tree) {
    t.Node? ==> Distinct(t.l) && Distinct(t.r) && Leaves(t.l) !! Leaves(t.r)
  }

  /** Every symbol is one of 1..n. */
  ghost predicate Within(t: Tree, n: nat) {
    match t
    case Leaf(i) => 1 <= i <= n
    case Node(l, r) => Within(l, n) && Within(r, n)
  }

  lemma {:induction false} WithinLeaves(t: Tree, n: nat)
    requires Within(t, n)
    ensures forall i :: i in Leaves(t) ==> 1 <= i <= n
  {
    if t.Node? {
      WithinLeaves(t.l, n);
      WithinLeaves(t.r, n);
    }
  }

  /** The depth of leaf i. */
  function Depth(t: Tree, i: nat): nat
    requires i in Leaves(t)
  {
    match t
    case Leaf(_) => 0
    case Node(l, r) => 1 + if i in Leaves(l) then Depth(l, i) else Depth(r, i)
  }

  lemma {:induction false} DepthBound(t: Tree, i: nat)
    requires i in Leaves(t)
    ensures Depth(t, i) <= Height(t)
    ensures t.Node? ==> Depth(t, i) >= 1
  {
    if t.Node? {
      if i in Leaves(t.l) { DepthBound(t.l, i); } else { DepthBound(t.r, i); }
    }
  }

  lemma {:induction false} DeepestLeaf(t: Tree) returns (i: nat)
    requires Distinct(t)
    ensures i in Leaves(t) && Depth(t, i) == Height(t)
  {
    match t
    case Leaf(s) => i := s;
    case Node(l, r) =>
      if Height(l) >= Height(r) {
        i := DeepestLeaf(l);
      } else {
        i := DeepestLeaf(r);
      }
  }

  // ---------- the code space ----------

  /** The share of symbol i in the code space, in units of 2^-m, when t hangs at depth d. */
  ghost function Part(t: Tree, d: nat, m: nat, i: nat): nat
    requires d + Height(t) <= m
  {
    if i in Leaves(t) then DepthBound(t, i); Pow2(m - d - Depth(t, i)) else 0
  }

  /** The shares of symbols 1..n together. */
  ghost function Parts(t: Tree, d: nat, m: nat, n: nat): nat
    requires d + Height(t) <= m
  {
    if n == 0 then 0 else Parts(t, d, m, n - 1) + Part(t, d, m, n)
  }

  lemma {:induction false} PartsOfNode(t: Tree, d: nat, m: nat, n: nat)
    requires t.Node? && Distinct(t) && d + Height(t) <= m
    ensures Parts(t, d, m, n) == Parts(t.l, d + 1, m, n) + Parts(t.r, d + 1, m, n)
  {
    if n > 0 {
      PartsOfNode(t, d, m, n - 1);
      assert Part(t, d, m, n) == Part(t.l, d + 1, m, n) + Part(t.r, d + 1, m, n) by {
        if n in Leaves(t) { DepthBound(t, n); }
      }
    }
  }

  lemma {:induction false} PartsOfLeaf(t: Tree, d: nat, m: nat, n: nat)
    requires t.Leaf? && d <= m && t.sym >= 1
    ensures Parts(t, d, m, n) == if t.sym <= n then Pow2(m - d) else 0
  {
    if n > 0 { PartsOfLeaf(t, d, m, n - 1); }
  }

  /** The leaves of a tree fill its part of the code space exactly. */
  lemma {:induction false} PartsFill(t: Tree, d: nat, m: nat, n: nat)
    requires Distinct(t) && d + Height(t) <= m && Within(t, n)
    ensures Parts(t, d, m, n) == Pow2(m - d)
    decreases t
  {
    match t
    case Leaf(_) => PartsOfLeaf(t, d, m, n);
    case Node(l, r) =>
      PartsOfNode(t, d, m, n);
      PartsFill(l, d + 1, m, n);
      PartsFill(r, d + 1, m, n);
  }

  // ---------- weights ----------

  /** ws[i] is the weight of symbol i; entry 0 is unused. */
  function Weight(t: Tree, ws: seq<nat>): nat {
    match t
    case Leaf(i) => if i < |ws| then ws[i] else 0
    case Node(l, r) => Weight(l, ws) + Weight(r, ws)
  }

  function Total(ws: seq<nat>, n: nat): nat
    requires n < |ws|
  {
    if n == 0 then 0 else Total(ws, n - 1) + ws[n]
  }

  /** The weight of the symbols among 1..n that t contains. */
  ghost function WeightUpTo(t: Tree, ws: seq<nat>, n: nat): nat
    requires n < |ws|
  {
    if n == 0 then 0 else WeightUpTo(t, ws, n - 1) + if n in Leaves(t) then ws[n] else 0
  }

  lemma {:induction false} WeightOfNode(t: Tree, ws: seq<nat>, n: nat)
    requires t.Node? && Distinct(t) && n < |ws|
    ensures WeightUpTo(t, ws, n) == WeightUpTo(t.l, ws, n) + WeightUpTo(t.r, ws, n)
  {
    if n > 0 { WeightOfNode(t, ws, n - 1); }
  }

  lemma {:induction false} WeightOfLeaf(t: Tree, ws: seq<nat>, n: nat)
    requires t.Leaf? && 1 <= t.sym && n < |ws|
    ensures WeightUpTo(t, ws, n) == if t.sym <= n then ws[t.sym] else 0
  {
    if n > 0 { WeightOfLeaf(t, ws, n - 1); }
  }

  lemma {:induction false} WeightIsSum(t: Tree, ws: seq<nat>, n: nat)
    requires Distinct(t) && n < |ws| && Within(t, n)
    ensures Weight(t, ws) == WeightUpTo(t, ws, n)
    decreases t
  {
    match t
    case Leaf(_) => WeightOfLeaf(t, ws, n);
    case Node(l, r) =>
      WeightOfNode(t, ws, n);
      WeightIsSum(l, ws, n);
      WeightIsSum(r, ws, n);
  }

  lemma {:induction false} WeightUpToTotal(t: Tree, ws: seq<nat>, n: nat)
    requires n < |ws|
    ensures WeightUpTo(t, ws, n) <= Total(ws, n)
  {
    if n > 0 { WeightUpToTotal(t, ws, n - 1); }
  }

  /** A tree over distinct symbols weighs at most all symbols together. */
  lemma WeightAtMostTotal(t: Tree, ws: seq<nat>, n: nat)
    requires Distinct(t) && n < |ws| && Within(t, n)
    ensures Weight(t, ws) <= Total(ws, n)
  {
    WeightIsSum(t, ws, n);
    WeightUpToTotal(t, ws, n);
  }

  // ---------- the Fibonacci bound ----------

  function Fib(n: nat): nat {
    if n < 2 then n else Fib(n - 1) + Fib(n - 2)
  }

  /** Neither child of t weighs more than w. */
  ghost predicate ChildrenAtMost(t: Tree, ws: seq<nat>, w: nat)
  {
    t.Node? ==> Weight(t.l, ws) <= w && Weight(t.r, ws) <= w
  }

  /** The order of the merges: what was joined earlier is no heavier than what was still
      to be joined. */
  ghost predicate Greedy(t: Tree, ws: seq<nat>)
  {
    t.Node? ==>
      && Greedy(t.l, ws) && Greedy(t.r, ws)
      && ChildrenAtMost(t.l, ws, Weight(t.r, ws)) && ChildrenAtMost(t.r, ws, Weight(t.l, ws))
  }

  ghost predicate Positive(t: Tree, ws: seq<nat>) {
    match t
    case Leaf(i) => i < |ws| && ws[i] >= 1
    case Node(l, r) => Positive(l, ws) && Positive(r, ws)
  }

  lemma {:induction false} WeightPositive(t: Tree, ws: seq<nat>)
    requires Positive(t, ws)
    ensures Weight(t, ws) >= 1
  {
    if t.Node? {
      WeightPositive(t.l, ws);
      WeightPositive(t.r, ws);
    }
  }

  lemma {:induction false} FibonacciBound(t: Tree, ws: seq<nat>)
    requires Positive(t, ws) && Greedy(t, ws)
    ensures Weight(t, ws) >= Fib(Height(t) + 2)
    decreases t, 1
  {
    match t
    case Leaf(_) => assert Fib(2) == 1;
    case Node(l, r) =>
      if Height(l) >= Height(r) {
        TallerSide(l, r, ws);
      } else {
        TallerSide(r, l, ws);
      }
  }

  lemma {:induction false} TallerSide(l: Tree, r: Tree, ws: seq<nat>)
    requires Positive(l, ws) && Positive(r, ws)
    requires Greedy(l, ws) && ChildrenAtMost(l, ws, Weight(r, ws))
    ensures Weight(l, ws) + Weight(r, ws) >= Fib(Height(l) + 3)
    decreases l, 2
  {
    FibonacciBound(l, ws);
    WeightPositive(r, ws);
    match l
    case Leaf(_) => assert Fib(3) == 2;
    case Node(a, b) =>
      assert Fib(Height(l) + 3) == Fib(Height(l) + 2) + Fib(Height(l) + 1);
      if Height(a) >= Height(b) {
        FibonacciBound(a, ws);
      } else {
        FibonacciBound(b, ws);
      }
  }

  lemma {:induction false} FibMonotone(m: nat, n: nat)
    requires m <= n
    ensures Fib(m) <= Fib(n)
    decreases n - m
  {
    if m < n {
      FibMonotone(m + 1, n);
    }
  }

  lemma FibValues()
    ensures Fib(15) == 610 && Fib(35) == 9227465
  {
    assert Fib(5) == 5 && Fib(6) == 8;
    assert Fib(7) == 13 && Fib(8) == 21;
    assert Fib(9) == 34 && Fib(10) == 55;
    assert Fib(11) == 89 && Fib(12) == 144;
    assert Fib(13) == 233 && Fib(14) == 377;
    assert Fib(15) == 610 && Fib(16) == 987;
    assert Fib(17) == 1597 && Fib(18) == 2584;
    assert Fib(19) == 4181 && Fib(20) == 6765;
    assert Fib(21) == 10946 && Fib(22) == 17711;
    assert Fib(23) == 28657 && Fib(24) == 46368;
    assert Fib(25) == 75025 && Fib(26) == 121393;
    assert Fib(27) == 196418 && Fib(28) == 317811;
    assert Fib(29) == 514229 && Fib(30) == 832040;
    assert Fib(31) == 1346269 && Fib(32) == 2178309;
    assert Fib(33) == 3524578 && Fib(34) == 5702887;
  }
}
