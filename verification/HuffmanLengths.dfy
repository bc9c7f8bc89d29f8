/** Length-limited Huffman code lengths (huffman.c): join the two lightest trees until one
    is left, read the depths off the parent links, and if some depth is too large scale
    the weights down and start again. */
module HuffmanLengths {
  import opened Words
  import opened HuffmanTrees
  import opened HuffmanHeap
  import opened Transform
  import Codes = HuffmanCodes
  import Optimal = HuffmanOptimal

  /** Packed weights stay below 2^31, so their sum never overflows an Int32. */
  const MAX_TOTAL := 0x80_0000

  /** A weight with the height of its tree in the low byte. */
  ghost predicate NodeOk(t: Tree, ws: seq<nat>, alpha: nat, packed: nat) {
    && Distinct(t) && Within(t, alpha) && Positive(t, ws) && Greedy(t, ws)
    && packed == 256 * Weight(t, ws) + Height(t)
  }

  ghost predicate Linked(nodes: seq<Tree>, parent: seq<int>, k: nat)
    requires k < |nodes| <= |parent|
  {
    parent[k] != -1 ==>
      && k < parent[k] < |nodes| && nodes[parent[k]].Node?
      && (nodes[k] == nodes[parent[k]].l || nodes[k] == nodes[parent[k]].r)
  }

  /** Node k stands for nodes[k], and no tree joined so far weighs more than m. */
  ghost predicate Trees(ws: seq<nat>, alpha: nat, nodes: seq<Tree>, weight: seq<nat>, m: nat) {
    && |ws| == alpha + 1 <= |nodes| <= |weight|
    && (forall k :: 1 <= k <= alpha ==> nodes[k] == Leaf(k))
    && (forall k :: 1 <= k < |nodes| ==> NodeOk(nodes[k], ws, alpha, weight[k]))
    && (forall k :: 1 <= k < |nodes| ==> ChildrenAtMost(nodes[k], ws, m))
  }

  /** Parent links lead to the node a tree was joined into; roots have none. */
  ghost predicate Links(nodes: seq<Tree>, parent: seq<int>, roots: multiset<nat>) {
    && 0 < |nodes| <= |parent|
    && (forall k :: 1 <= k < |nodes| ==> (parent[k] == -1 <==> k in roots))
    && (forall k :: 1 <= k < |nodes| ==> Linked(nodes, parent, k))
  }

  /** The trees still to be joined: distinct, over disjoint symbols, none lighter than m. */
  ghost predicate Roots(ws: seq<nat>, nodes: seq<Tree>, roots: multiset<nat>, m: nat) {
    && (forall x :: x in roots ==> 1 <= x < |nodes| && roots[x] == 1 && m <= Weight(nodes[x], ws))
    && (forall x, y :: x in roots && y in roots && x != y ==> Leaves(nodes[x]) !! Leaves(nodes[y]))
  }

  ghost predicate Forest(ws: seq<nat>, alpha: nat, nodes: seq<Tree>, weight: seq<nat>, parent: seq<int>, roots: multiset<nat>, m: nat) {
    Trees(ws, alpha, nodes, weight, m) && Links(nodes, parent, roots) && Roots(ws, nodes, roots, m)
  }

  /** Heights stay far below what the low byte of a packed weight can hold. */
  lemma HeightFits(t: Tree, ws: seq<nat>, alpha: nat, packed: nat)
    requires NodeOk(t, ws, alpha, packed) && alpha < |ws| && Total(ws, alpha) < MAX_TOTAL
    ensures Height(t) <= 32 && Weight(t, ws) < MAX_TOTAL
  {
    WeightAtMostTotal(t, ws, alpha);
    if Height(t) > 32 {
      FibonacciBound(t, ws);
      FibMonotone(35, Height(t) + 2);
      FibValues();
    }
  }

  lemma PackedOrder(t: Tree, u: Tree, ws: seq<nat>, alpha: nat, p: nat, q: nat)
    requires NodeOk(t, ws, alpha, p) && NodeOk(u, ws, alpha, q) && alpha < |ws| && Total(ws, alpha) < MAX_TOTAL
    requires p <= q
    ensures Weight(t, ws) <= Weight(u, ws)
  {
    HeightFits(t, ws, alpha, p);
    HeightFits(u, ws, alpha, q);
  }

  /** `ADDWEIGHTS`. */
  function WeightOf(z: nat): nat { And(z, 0xffff_ff00) }

  function DepthOf(z: nat): nat { And(z, 0xff) }

  function AddWeights(x: nat, y: nat): nat {
    Or(WeightOf(x) + WeightOf(y), 1 + Max(DepthOf(x), DepthOf(y)))
  }

  lemma HighBits(z: nat)
    ensures And(z, 0xffff_ff00) == 256 * And(z / 256, 0xff_ffff)
  {
    hide And;
    AndEven(z, 0x7fff_ff80);
    AndEven(z / 2, 0x3fff_ffc0);
    AndEven(z / 2 / 2, 0x1fff_ffe0);
    AndEven(z / 2 / 2 / 2, 0xfff_fff0);
    assert z / 2 / 2 / 2 / 2 == z / 16;
    AndEven(z / 16, 0x7ff_fff8);
    AndEven(z / 16 / 2, 0x3ff_fffc);
    AndEven(z / 16 / 2 / 2, 0x1ff_fffe);
    AndEven(z / 16 / 2 / 2 / 2, 0xff_ffff);
    assert z / 16 / 2 / 2 / 2 / 2 == z / 256;
  }

  lemma PackedFields(z: nat)
    requires z < 0x1_0000_0000
    ensures WeightOf(z) == 256 * (z / 256) && DepthOf(z) == z % 256
  {
    hide And;
    Pow2Values();
    Pow2Add(16, 8);
    AndMask(z, 8);
    HighBits(z);
    AndMask(z / 256, 24);
  }

  lemma AddedWeights(w1: nat, h1: nat, w2: nat, h2: nat)
    requires w1 < MAX_TOTAL && w2 < MAX_TOTAL && h1 <= 32 && h2 <= 32
    ensures AddWeights(256 * w1 + h1, 256 * w2 + h2) == 256 * (w1 + w2) + (1 + Max(h1, h2))
  {
    hide Or, WeightOf, DepthOf, Pow2;
    PackedFields(256 * w1 + h1);
    PackedFields(256 * w2 + h2);
    Pow2Values();
    OrDisjoint(w1 + w2, 8, 1 + Max(h1, h2));
  }

  // ---------- one merge ----------

  ghost predicate Lightest(nodes: seq<Tree>, ws: seq<nat>, roots: multiset<nat>, x: nat)
    requires forall y :: y in roots ==> y < |nodes|
  {
    x in roots && forall y :: y in roots ==> Weight(nodes[x], ws) <= Weight(nodes[y], ws)
  }

  lemma JoinedNode(ws: seq<nat>, alpha: nat, t: Tree, u: Tree, p: nat, q: nat, m: nat)
    requires NodeOk(t, ws, alpha, p) && NodeOk(u, ws, alpha, q) && Leaves(t) !! Leaves(u)
    requires ChildrenAtMost(t, ws, m) && ChildrenAtMost(u, ws, m) && m <= Weight(t, ws) && m <= Weight(u, ws)
    requires alpha < |ws| && Total(ws, alpha) < MAX_TOTAL
    ensures NodeOk(Node(t, u), ws, alpha, AddWeights(p, q))
  {
    hide *;
    NodeParts(t, ws, alpha, p);
    NodeParts(u, ws, alpha, q);
    AddedWeights(Weight(t, ws), Height(t), Weight(u, ws), Height(u));
    JoinedShape(ws, alpha, t, u, m);
    MakeNode(Node(t, u), ws, alpha, AddWeights(p, q));
  }

  lemma NodeParts(t: Tree, ws: seq<nat>, alpha: nat, packed: nat)
    requires NodeOk(t, ws, alpha, packed) && alpha < |ws| && Total(ws, alpha) < MAX_TOTAL
    ensures Distinct(t) && Within(t, alpha) && Positive(t, ws) && Greedy(t, ws)
    ensures packed == 256 * Weight(t, ws) + Height(t) && Height(t) <= 32 && Weight(t, ws) < MAX_TOTAL
  {
    HeightFits(t, ws, alpha, packed);
  }

  lemma MakeNode(t: Tree, ws: seq<nat>, alpha: nat, packed: nat)
    requires Distinct(t) && Within(t, alpha) && Positive(t, ws) && Greedy(t, ws)
    requires packed == 256 * Weight(t, ws) + Height(t)
    ensures NodeOk(t, ws, alpha, packed)
  {
  }

  lemma JoinedShape(ws: seq<nat>, alpha: nat, t: Tree, u: Tree, m: nat)
    requires Distinct(t) && Within(t, alpha) && Positive(t, ws) && Greedy(t, ws)
    requires Distinct(u) && Within(u, alpha) && Positive(u, ws) && Greedy(u, ws) && Leaves(t) !! Leaves(u)
    requires ChildrenAtMost(t, ws, m) && ChildrenAtMost(u, ws, m) && m <= Weight(t, ws) && m <= Weight(u, ws)
    ensures var n := Node(t, u); Distinct(n) && Within(n, alpha) && Positive(n, ws) && Greedy(n, ws)
    ensures var n := Node(t, u); Weight(n, ws) == Weight(t, ws) + Weight(u, ws) && Height(n) == 1 + Max(Height(t), Height(u))
  {
  }

  lemma JoinedTrees(ws: seq<nat>, alpha: nat, nodes: seq<Tree>, weight: seq<nat>, m: nat, t: Tree, packed: nat, m': nat)
    requires Trees(ws, alpha, nodes, weight, m) && |nodes| < |weight| && m <= m'
    requires NodeOk(t, ws, alpha, packed) && ChildrenAtMost(t, ws, m')
    ensures Trees(ws, alpha, nodes + [t], weight[|nodes| := packed], m')
  {
    hide NodeOk;
    forall j | 1 <= j < |nodes| ensures ChildrenAtMost(nodes[j], ws, m') {
      assert ChildrenAtMost(nodes[j], ws, m);
    }
  }

  lemma JoinedLinks(nodes: seq<Tree>, parent: seq<int>, roots: multiset<nat>, n1: nat, n2: nat)
    requires Links(nodes, parent, roots) && |nodes| < |parent| && n1 != n2
    requires 1 <= n1 < |nodes| && 1 <= n2 < |nodes| && roots[n1] == 1 && roots[n2] == 1 && |nodes| !in roots
    ensures var k := |nodes|;
            Links(nodes + [Node(nodes[n1], nodes[n2])], parent[n1 := k][n2 := k][k := -1], roots - multiset{n1} - multiset{n2} + multiset{k})
  {
    var k := |nodes|;
    var nodes', parent' := nodes + [Node(nodes[n1], nodes[n2])], parent[n1 := k][n2 := k][k := -1];
    forall j | 1 <= j < |nodes'| ensures Linked(nodes', parent', j) {
      if j < k { assert Linked(nodes, parent, j); }
    }
  }

  lemma JoinedRoots(ws: seq<nat>, nodes: seq<Tree>, roots: multiset<nat>, m: nat, n1: nat, n2: nat, t: Tree)
    requires Roots(ws, nodes, roots, m) && n1 != n2 && n1 in roots && n2 in roots
    requires Lightest(nodes, ws, roots - multiset{n1}, n2) && t == Node(nodes[n1], nodes[n2])
    ensures Roots(ws, nodes + [t], roots - multiset{n1} - multiset{n2} + multiset{|nodes|}, Weight(nodes[n2], ws))
  {
    var k, nodes', rest := |nodes|, nodes + [t], roots - multiset{n1} - multiset{n2};
    var roots' := rest + multiset{k};
    forall x | x in rest ensures x in roots && x != n1 && x != n2 && x < k && nodes'[x] == nodes[x] && x in roots - multiset{n1} {
    }
    forall x | x in roots' ensures 1 <= x < |nodes'| && roots'[x] == 1 && Weight(nodes[n2], ws) <= Weight(nodes'[x], ws) {
      assert x in rest || x == k;
    }
    forall x, y | x in roots' && y in roots' && x != y ensures Leaves(nodes'[x]) !! Leaves(nodes'[y]) {
      assert (x in rest || x == k) && (y in rest || y == k);
    }
  }

  lemma Joined(ws: seq<nat>, alpha: nat, nodes: seq<Tree>, weight: seq<nat>, parent: seq<int>, roots: multiset<nat>, m: nat, n1: nat, n2: nat)
    requires Forest(ws, alpha, nodes, weight, parent, roots, m) && Total(ws, alpha) < MAX_TOTAL
    requires |nodes| < |weight| && |nodes| < |parent|
    requires n1 != n2 && Lightest(nodes, ws, roots, n1) && Lightest(nodes, ws, roots - multiset{n1}, n2)
    ensures var k := |nodes|;
            Forest(ws, alpha, nodes + [Node(nodes[n1], nodes[n2])], weight[k := AddWeights(weight[n1], weight[n2])],
                   parent[n1 := k][n2 := k][k := -1], roots - multiset{n1} - multiset{n2} + multiset{k}, Weight(nodes[n2], ws))
  {
    var t := Node(nodes[n1], nodes[n2]);
    assert n2 in roots && m <= Weight(nodes[n1], ws) <= Weight(nodes[n2], ws);
    assert NodeOk(nodes[n1], ws, alpha, weight[n1]) && NodeOk(nodes[n2], ws, alpha, weight[n2]);
    assert ChildrenAtMost(nodes[n1], ws, m) && ChildrenAtMost(nodes[n2], ws, m);
    hide Trees, Links, Roots, NodeOk, ChildrenAtMost;
    JoinedNode(ws, alpha, nodes[n1], nodes[n2], weight[n1], weight[n2], m);
    LighterChildren(nodes[n1], nodes[n2], ws);
    JoinedTrees(ws, alpha, nodes, weight, m, t, AddWeights(weight[n1], weight[n2]), Weight(nodes[n2], ws));
    RootsBound(ws, nodes, roots, m);
    JoinedLinks(nodes, parent, roots, n1, n2);
    JoinedRoots(ws, nodes, roots, m, n1, n2, t);
  }

  lemma LighterChildren(t: Tree, u: Tree, ws: seq<nat>)
    requires Weight(t, ws) <= Weight(u, ws)
    ensures ChildrenAtMost(Node(t, u), ws, Weight(u, ws))
  {
  }

  lemma RootsBound(ws: seq<nat>, nodes: seq<Tree>, roots: multiset<nat>, m: nat)
    requires Roots(ws, nodes, roots, m)
    ensures forall x :: x in roots ==> 1 <= x < |nodes| && roots[x] == 1
  {
  }

  // ---------- building the tree ----------

  /** Heap and forest agree: entries 1..nHeap are the roots, in heap order. */
  ghost predicate HeapOf(heap: seq<nat>, weight: seq<nat>, nHeap: nat, roots: multiset<nat>) {
    && Ordered(heap, weight, nHeap) && Content(heap, nHeap) == roots && |roots| == nHeap
    && heap[0] == 0 && |weight| > 0 && weight[0] == 0
  }

  lemma RemoveFirst(h: seq<nat>, w: seq<nat>, n: nat)
    requires Ordered(h, w, n) && n >= 1
    ensures var g := h[1 := h[n]]; InBounds(g, w, n - 1) && Gap(g, w, n - 1, 1) && Content(g, n - 1) == Content(h, n) - multiset{h[1]}
  {
    var g := h[1 := h[n]];
    var s := h[1..n + 1];
    assert s == [h[1]] + s[1..];
    if n > 1 {
      assert s[1..] == s[1..n - 1] + [h[n]];
      assert g[1..n] == [h[n]] + h[2..n];
      assert s[1..n - 1] == h[2..n];
    } else {
      assert g[1..n] == [];
    }
  }

  /** Take the lightest root off the heap. */
  method ExtractMin(heap: array<nat>, weight: array<nat>, nHeap: nat, ghost roots: multiset<nat>) returns (x: nat)
    requires heap != weight && nHeap >= 1 && heap.Length > 1 && HeapOf(heap[..], weight[..], nHeap, roots)
    modifies heap
    ensures x in roots && HeapOf(heap[..], weight[..], nHeap - 1, roots - multiset{x})
    ensures forall y :: y in roots ==> y < weight.Length && weight[x] <= weight[y]
  {
    hide Ordered, Content, Gap;
    ghost var h, w := heap[..], weight[..];
    HeapBounds(h, w, nHeap);
    LeastOfContent(h, w, nHeap);
    RemoveFirst(h, w, nHeap);
    x := heap[1];
    heap[1] := heap[nHeap];
    assert heap[..] == h[1 := h[nHeap]];
    DownHeap(heap, weight, nHeap - 1);
  }

  lemma HeapBounds(h: seq<nat>, w: seq<nat>, n: nat)
    requires Ordered(h, w, n)
    ensures InBounds(h, w, n)
  {
  }

  /** Put node x, whose weight has been set, on the heap. */
  method Insert(heap: array<nat>, weight: array<nat>, nHeap: nat, x: nat, ghost roots: multiset<nat>)
    requires heap != weight && nHeap + 1 < heap.Length && x < weight.Length
    requires HeapOf(heap[..], weight[..], nHeap, roots)
    modifies heap
    ensures HeapOf(heap[..], weight[..], nHeap + 1, roots + multiset{x})
  {
    ghost var h := heap[..];
    heap[nHeap + 1] := x;
    ghost var g := heap[..];
    assert g == h[nHeap + 1 := x];
    assert g[1..nHeap + 2] == h[1..nHeap + 1] + [x];
    assert g[1..nHeap + 1] == h[1..nHeap + 1];
    UpHeap(heap, weight, nHeap + 1);
  }

  lemma NodeWeights(ws: seq<nat>, alpha: nat, nodes: seq<Tree>, weight: seq<nat>, parent: seq<int>, roots: multiset<nat>, m: nat, rs: multiset<nat>, x: nat)
    requires Forest(ws, alpha, nodes, weight, parent, roots, m) && Total(ws, alpha) < MAX_TOTAL
    requires rs <= roots && x in rs && forall y :: y in rs ==> y < |weight| && weight[x] <= weight[y]
    ensures forall y :: y in rs ==> y < |nodes|
    ensures Lightest(nodes, ws, rs, x)
  {
    forall y | y in rs ensures y < |nodes| && Weight(nodes[x], ws) <= Weight(nodes[y], ws) {
      assert x in roots && y in roots;
      PackedOrder(nodes[x], nodes[y], ws, alpha, weight[x], weight[y]);
    }
  }

  /** Changing the weight of a node that is not in the heap leaves the heap alone. */
  lemma NewWeight(h: seq<nat>, w: seq<nat>, n: nat, roots: multiset<nat>, k: nat, v: nat)
    requires HeapOf(h, w, n, roots) && 0 < k < |w| && k !in roots
    ensures HeapOf(h, w[k := v], n, roots)
  {
    var s := h[1..n + 1];
    forall j | 0 <= j <= n ensures h[j] != k {
      if j >= 1 {
        assert s[j - 1] == h[j];
        assert h[j] in multiset(s);
      }
    }
  }

  /** The two lightest roots. */
  method TakeTwo(heap: array<nat>, weight: array<nat>, nHeap: nat,
                 ghost ws: seq<nat>, ghost alpha: nat, ghost nodes: seq<Tree>, ghost parent: seq<int>, ghost roots: multiset<nat>, ghost m: nat)
    returns (n1: nat, n2: nat)
    requires heap != weight && 2 <= nHeap < heap.Length
    requires Forest(ws, alpha, nodes, weight[..], parent, roots, m) && Total(ws, alpha) < MAX_TOTAL
    requires HeapOf(heap[..], weight[..], nHeap, roots)
    modifies heap
    ensures forall x :: x in roots ==> 1 <= x < |nodes| && roots[x] == 1
    ensures Lightest(nodes, ws, roots, n1) && Lightest(nodes, ws, roots - multiset{n1}, n2)
    ensures HeapOf(heap[..], weight[..], nHeap - 2, roots - multiset{n1} - multiset{n2})
  {
    hide Forest, HeapOf, Total;
    ForestBounds(ws, alpha, nodes, weight[..], parent, roots, m);
    n1 := ExtractMin(heap, weight, nHeap, roots);
    NodeWeights(ws, alpha, nodes, weight[..], parent, roots, m, roots, n1);
    n2 := ExtractMin(heap, weight, nHeap - 1, roots - multiset{n1});
    NodeWeights(ws, alpha, nodes, weight[..], parent, roots, m, roots - multiset{n1}, n2);
  }

  /** Join the two lightest trees. */
  method JoinTwo(heap: array<nat>, weight: array<nat>, parent: array<int>, nHeap: nat, nNodes: nat,
                 ghost ws: seq<nat>, ghost alpha: nat, ghost nodes: seq<Tree>, ghost roots: multiset<nat>, ghost m: nat, ghost w0: multiset<nat>)
    returns (ghost nodes': seq<Tree>, ghost roots': multiset<nat>, ghost m': nat)
    requires heap != weight && 2 <= nHeap < heap.Length
    requires nNodes == |nodes| - 1 && nNodes + 1 < weight.Length && nNodes + 1 < parent.Length
    requires Forest(ws, alpha, nodes, weight[..], parent[..], roots, m) && Total(ws, alpha) < MAX_TOTAL
    requires HeapOf(heap[..], weight[..], nHeap, roots) && Optimal.Optimal(w0, nodes, roots, ws)
    modifies heap, weight, parent
    ensures |nodes'| == |nodes| + 1 && |nodes| in roots' && Optimal.Optimal(w0, nodes', roots', ws)
    ensures Forest(ws, alpha, nodes', weight[..], parent[..], roots', m')
    ensures HeapOf(heap[..], weight[..], nHeap - 1, roots')
  {
    hide *;
    ForestBounds(ws, alpha, nodes, weight[..], parent[..], roots, m);
    ghost var w, p, k := weight[..], parent[..], |nodes|;
    var n1, n2 := TakeTwo(heap, weight, nHeap, ws, alpha, nodes, parent[..], roots, m);
    TwoRoots(nodes, ws, roots, n1, n2);
    JoinedOptimal(w0, nodes, ws, roots, n1, n2);
    Joined(ws, alpha, nodes, w, p, roots, m, n1, n2);
    ghost var rest := roots - multiset{n1} - multiset{n2};
    NewWeight(heap[..], w, nHeap - 2, rest, k, AddWeights(w[n1], w[n2]));
    parent[n1] := nNodes + 1;
    parent[n2] := nNodes + 1;
    weight[nNodes + 1] := AddWeights(weight[n1], weight[n2]);
    parent[nNodes + 1] := -1;
    assert parent[..] == p[n1 := k][n2 := k][k := -1];
    assert weight[..] == w[k := AddWeights(w[n1], w[n2])];
    Insert(heap, weight, nHeap - 2, nNodes + 1, rest);
    nodes' := nodes + [Node(nodes[n1], nodes[n2])];
    roots' := rest + multiset{k};
    m' := Weight(nodes[n2], ws);
  }

  lemma TwoRoots(nodes: seq<Tree>, ws: seq<nat>, roots: multiset<nat>, n1: nat, n2: nat)
    requires forall x :: x in roots ==> 1 <= x < |nodes| && roots[x] == 1
    requires Lightest(nodes, ws, roots, n1) && Lightest(nodes, ws, roots - multiset{n1}, n2)
    ensures n1 != n2 && 1 <= n1 < |nodes| && 1 <= n2 < |nodes| && |nodes| !in roots
  {
  }

  lemma JoinedOptimal(w0: multiset<nat>, nodes: seq<Tree>, ws: seq<nat>, roots: multiset<nat>, n1: nat, n2: nat)
    requires forall x :: x in roots ==> 1 <= x < |nodes| && roots[x] == 1
    requires Lightest(nodes, ws, roots, n1) && Lightest(nodes, ws, roots - multiset{n1}, n2) && Optimal.Optimal(w0, nodes, roots, ws)
    ensures n1 < |nodes| && n2 < |nodes|
    ensures Optimal.Optimal(w0, nodes + [Node(nodes[n1], nodes[n2])], roots - multiset{n1} - multiset{n2} + multiset{|nodes|}, ws)
  {
    hide Optimal.Optimal, Weight;
    assert n2 in roots - multiset{n1} && n2 in roots && n1 != n2;
    forall x | x in roots && x != n1 && x != n2
      ensures Weight(nodes[n1], ws) <= Weight(nodes[x], ws) && Weight(nodes[n2], ws) <= Weight(nodes[x], ws)
    {
      assert x in roots - multiset{n1};
    }
    Optimal.OptimalStep(w0, nodes, roots, ws, n1, n2);
  }

  lemma ForestBounds(ws: seq<nat>, alpha: nat, nodes: seq<Tree>, weight: seq<nat>, parent: seq<int>, roots: multiset<nat>, m: nat)
    requires Forest(ws, alpha, nodes, weight, parent, roots, m)
    ensures alpha + 1 == |ws| <= |nodes| <= |weight| && |nodes| <= |parent|
    ensures forall x :: x in roots ==> 1 <= x < |nodes| && roots[x] == 1
  {
  }

  /** The leaf nodes and their packed weights. */
  ghost predicate LeafWeights(ws: seq<nat>, alpha: nat, weight: seq<nat>) {
    && |ws| == alpha + 1 <= |weight|
    && forall k :: 1 <= k <= alpha ==> ws[k] >= 1 && weight[k] == 256 * ws[k]
  }

  ghost function LeafNodes(n: nat): (s: seq<Tree>)
    ensures |s| == n + 1 && forall k :: 0 <= k <= n ==> s[k] == Leaf(k)
  {
    seq(n + 1, k requires 0 <= k => Leaf(k))
  }

  /** The first i leaves as one-node trees. */
  ghost function FirstLeaves(i: nat): (r: multiset<nat>)
    ensures forall x :: r[x] == if 1 <= x <= i then 1 else 0
    ensures |r| == i
  {
    if i == 0 then multiset{} else FirstLeaves(i - 1) + multiset{i}
  }

  lemma LeafForest(ws: seq<nat>, alpha: nat, weight: seq<nat>, parent: seq<int>)
    requires LeafWeights(ws, alpha, weight) && alpha < |parent| && forall k :: 1 <= k <= alpha ==> parent[k] == -1
    ensures Forest(ws, alpha, LeafNodes(alpha), weight, parent, FirstLeaves(alpha), 0)
  {
    var nodes := LeafNodes(alpha);
    forall k | 1 <= k < |nodes| ensures NodeOk(nodes[k], ws, alpha, weight[k]) {
      assert nodes[k] == Leaf(k);
    }
  }

  method StartForest(heap: array<nat>, weight: array<nat>, parent: array<int>, alphaSize: nat, ghost ws: seq<nat>)
    requires heap != weight && alphaSize + 1 < heap.Length && alphaSize < parent.Length
    requires LeafWeights(ws, alphaSize, weight[..])
    modifies heap, weight, parent
    ensures LeafWeights(ws, alphaSize, weight[..])
    ensures HeapOf(heap[..], weight[..], alphaSize, FirstLeaves(alphaSize))
    ensures Forest(ws, alphaSize, LeafNodes(alphaSize), weight[..], parent[..], FirstLeaves(alphaSize), 0)
  {
    hide HeapOf, FirstLeaves;
    heap[0] := 0;
    weight[0] := 0;
    parent[0] := -2;
    EmptyHeap(heap[..], weight[..]);
    for i := 1 to alphaSize + 1
      invariant LeafWeights(ws, alphaSize, weight[..])
      invariant HeapOf(heap[..], weight[..], i - 1, FirstLeaves(i - 1))
      invariant forall k :: 1 <= k < i ==> parent[k] == -1
    {
      parent[i] := -1;
      Insert(heap, weight, i - 1, i, FirstLeaves(i - 1));
      OneMoreLeaf(i);
    }
    LeafForest(ws, alphaSize, weight[..], parent[..]);
  }

  lemma EmptyHeap(h: seq<nat>, w: seq<nat>)
    requires |h| > 0 && |w| > 0 && h[0] == 0 && w[0] == 0
    ensures HeapOf(h, w, 0, FirstLeaves(0))
  {
    assert h[1..1] == [];
  }

  lemma OneMoreLeaf(i: nat)
    requires i > 0
    ensures FirstLeaves(i) == FirstLeaves(i - 1) + multiset{i}
  {
  }

  /** Join until one tree is left. Assertions 2001 and 2002 (room for the heap and the nodes)
      hold. */
  method BuildTree(heap: array<nat>, weight: array<nat>, parent: array<int>, alphaSize: nat, ghost ws: seq<nat>)
    returns (ghost nodes: seq<Tree>, ghost m: nat)
    requires heap != weight && 2 <= alphaSize <= Codes.BZ_MAX_ALPHA_SIZE && alphaSize + 1 < heap.Length
    requires weight.Length >= 2 * alphaSize && parent.Length >= 2 * alphaSize
    requires LeafWeights(ws, alphaSize, weight[..]) && Total(ws, alphaSize) < MAX_TOTAL
    modifies heap, weight, parent
    ensures |nodes| == 2 * alphaSize
    ensures Forest(ws, alphaSize, nodes, weight[..], parent[..], multiset{(2 * alphaSize - 1) as nat}, m)
    ensures |ws| == alphaSize + 1 && Optimal.Optimal(Optimal.SymbolWeights(ws, alphaSize), nodes, multiset{(2 * alphaSize - 1) as nat}, ws)
  {
    hide Forest, HeapOf, LeafWeights, Total, FirstLeaves, Optimal.Optimal;
    StartForest(heap, weight, parent, alphaSize, ws);
    var nNodes, nHeap := alphaSize, alphaSize;
    assert nHeap < Codes.BZ_MAX_ALPHA_SIZE + 2;  // AssertH 2001
    nodes, m := LeafNodes(alphaSize), 0;
    ghost var roots := FirstLeaves(alphaSize);
    SymbolCount(ws, alphaSize, weight[..]);
    ghost var w0 := Optimal.SymbolWeights(ws, alphaSize);
    FirstRoots(alphaSize);
    Optimal.OptimalStart(nodes, ws, alphaSize, roots);
    while nHeap > 1
      invariant 1 <= nHeap <= alphaSize && nNodes + nHeap == 2 * alphaSize && |nodes| == nNodes + 1
      invariant Forest(ws, alphaSize, nodes, weight[..], parent[..], roots, m)
      invariant HeapOf(heap[..], weight[..], nHeap, roots) && Optimal.Optimal(w0, nodes, roots, ws)
      invariant nHeap < alphaSize ==> nNodes in roots
    {
      nodes, roots, m := JoinTwo(heap, weight, parent, nHeap, nNodes, ws, alphaSize, nodes, roots, m, w0);
      nNodes := nNodes + 1;
      nHeap := nHeap - 1;
    }
    assert nNodes < 2 * Codes.BZ_MAX_ALPHA_SIZE;  // AssertH 2002
    OneRoot(heap[..], weight[..], roots, nNodes);
  }

  lemma SymbolCount(ws: seq<nat>, alpha: nat, weight: seq<nat>)
    requires LeafWeights(ws, alpha, weight)
    ensures |ws| == alpha + 1
  {
  }

  lemma {:induction false} FirstRoots(n: nat)
    ensures FirstLeaves(n) == multiset(Optimal.FirstIndexes(n))
  {
    var ix := Optimal.FirstIndexes(n);
    if n > 0 {
      FirstRoots(n - 1);
      assert ix == Optimal.FirstIndexes(n - 1) + [n];
    }
  }

  lemma OneRoot(h: seq<nat>, w: seq<nat>, roots: multiset<nat>, x: nat)
    requires HeapOf(h, w, 1, roots) && x in roots
    ensures roots == multiset{x}
  {
    assert roots == multiset{x} + (roots - multiset{x});
    assert |roots - multiset{x}| == 0;
  }

  // ---------- reading the lengths ----------

  /** A single tree over all symbols: what the lengths are read from. */
  ghost predicate CodeTree(ws: seq<nat>, alpha: nat, t: Tree) {
    && |ws| == alpha + 1 && Distinct(t) && Within(t, alpha) && Positive(t, ws) && Greedy(t, ws)
    && forall i: nat :: 1 <= i <= alpha ==> i in Leaves(t)
  }

  ghost predicate ChildOf(nodes: seq<Tree>, k: nat, p: int)
    requires k < |nodes|
  {
    k < p < |nodes| && nodes[p].Node? && (nodes[k] == nodes[p].l || nodes[k] == nodes[p].r)
  }

  lemma ParentOf(ws: seq<nat>, alpha: nat, nodes: seq<Tree>, weight: seq<nat>, parent: seq<int>, root: nat, m: nat, k: nat)
    requires Forest(ws, alpha, nodes, weight, parent, multiset{root}, m) && 1 <= k < |nodes|
    ensures k < |parent| && |nodes| <= |parent|
    ensures parent[k] < 0 <==> k == root
    ensures parent[k] >= 0 ==> ChildOf(nodes, k, parent[k]) && Distinct(nodes[parent[k]])
  {
    assert Linked(nodes, parent, k);
    if parent[k] >= 0 { assert NodeOk(nodes[parent[k]], ws, alpha, weight[parent[k]]); }
  }

  lemma UpOne(nodes: seq<Tree>, k: nat, p: nat, i: nat)
    requires k < |nodes| && ChildOf(nodes, k, p) && Distinct(nodes[p]) && i in Leaves(nodes[k])
    ensures i in Leaves(nodes[p]) && Depth(nodes[p], i) == Depth(nodes[k], i) + 1
  {
  }

  /** Count the parent links above leaf i. */
  method CodeLength(parent: array<int>, i: nat, ghost ws: seq<nat>, ghost alpha: nat, ghost nodes: seq<Tree>, ghost weight: seq<nat>, ghost root: nat, ghost m: nat)
    returns (j: nat)
    requires Forest(ws, alpha, nodes, weight, parent[..], multiset{root}, m) && 1 <= i <= alpha
    ensures root < |nodes| && i in Leaves(nodes[root]) && j == Depth(nodes[root], i)
  {
    ForestBounds(ws, alpha, nodes, weight, parent[..], multiset{root}, m);
    assert nodes[i] == Leaf(i);
    hide Forest, ChildOf, Depth, Leaves, Distinct;
    j := 0;
    var k := i;
    OwnLeaf(i);
    ParentOf(ws, alpha, nodes, weight, parent[..], root, m, k);
    while parent[k] >= 0
      invariant 1 <= k < |nodes| && i in Leaves(nodes[k]) && j == Depth(nodes[k], i)
      invariant k < parent.Length && (parent[k] < 0 <==> k == root)
      invariant parent[k] >= 0 ==> ChildOf(nodes, k, parent[k]) && Distinct(nodes[parent[k]])
      decreases |nodes| - k
    {
      UpOne(nodes, k, parent[k], i);
      ChildBounds(nodes, k, parent[k]);
      k := parent[k];
      j := j + 1;
      ParentOf(ws, alpha, nodes, weight, parent[..], root, m, k);
    }
  }

  lemma OwnLeaf(i: nat)
    ensures i in Leaves(Leaf(i)) && Depth(Leaf(i), i) == 0
  {
  }

  lemma ChildBounds(nodes: seq<Tree>, k: nat, p: int)
    requires k < |nodes| && ChildOf(nodes, k, p)
    ensures k < p < |nodes|
  {
  }

  lemma RootTree(ws: seq<nat>, alpha: nat, nodes: seq<Tree>, weight: seq<nat>, parent: seq<int>, root: nat, m: nat)
    requires Forest(ws, alpha, nodes, weight, parent, multiset{root}, m)
    requires root < |nodes| && forall i: nat :: 1 <= i <= alpha ==> i in Leaves(nodes[root])
    ensures CodeTree(ws, alpha, nodes[root])
  {
    assert root in multiset{root};
    assert NodeOk(nodes[root], ws, alpha, weight[root]);
  }

  /** The depths of all symbols, and whether any is too large. */
  method ReadLengths(len: array<byte>, parent: array<int>, alphaSize: nat, maxLen: nat,
                     ghost ws: seq<nat>, ghost nodes: seq<Tree>, ghost weight: seq<nat>, ghost root: nat, ghost m: nat)
    returns (tooLong: bool)
    requires len.Length >= alphaSize && 1 <= alphaSize && len as object != parent
    requires Forest(ws, alphaSize, nodes, weight, parent[..], multiset{root}, m) && Total(ws, alphaSize) < MAX_TOTAL
    modifies len
    ensures root < |nodes| && CodeTree(ws, alphaSize, nodes[root])
    ensures tooLong <==> exists i: nat :: 1 <= i <= alphaSize && Depth(nodes[root], i) > maxLen
    ensures forall i: nat :: 1 <= i <= alphaSize ==> len[i - 1] == Depth(nodes[root], i)
  {
    hide Forest, CodeTree, Total, Depth, Leaves;
    ghost var p := parent[..];
    tooLong := false;
    for i := 1 to alphaSize + 1
      invariant parent[..] == p
      invariant i > 1 ==> root < |nodes|
      invariant forall k: nat :: 1 <= k < i ==> k in Leaves(nodes[root]) && len[k - 1] == Depth(nodes[root], k)
      invariant tooLong <==> exists k: nat :: 1 <= k < i && Depth(nodes[root], k) > maxLen
    {
      var j := CodeLength(parent, i, ws, alphaSize, nodes, weight, root, m);
      DepthFits(ws, alphaSize, nodes, weight, parent[..], root, m, i);
      len[i - 1] := j;
      if j > maxLen { tooLong := true; }
    }
    RootTree(ws, alphaSize, nodes, weight, parent[..], root, m);
  }

  lemma DepthFits(ws: seq<nat>, alpha: nat, nodes: seq<Tree>, weight: seq<nat>, parent: seq<int>, root: nat, m: nat, i: nat)
    requires Forest(ws, alpha, nodes, weight, parent, multiset{root}, m) && Total(ws, alpha) < MAX_TOTAL
    requires root < |nodes| && i in Leaves(nodes[root])
    ensures Depth(nodes[root], i) <= 32
  {
    assert root in multiset{root};
    HeightFits(nodes[root], ws, alpha, weight[root]);
    DepthBound(nodes[root], i);
  }

  // ---------- the code is complete ----------

  lemma {:induction false} ShareOfTree(t: Tree, lens: seq<byte>, n: nat)
    requires Distinct(t) && Height(t) <= Codes.LONGEST && n <= |lens|
    requires forall i: nat :: 1 <= i <= n ==> i in Leaves(t) && lens[i - 1] == Depth(t, i)
    ensures Codes.Share(lens[..n], Codes.LONGEST) == Parts(t, 0, Codes.LONGEST, n)
  {
    hide Distinct, Height, Leaves, Depth, Pow2;
    if n > 0 {
      ShareOfTree(t, lens, n - 1);
      assert lens[..n][..n - 1] == lens[..n - 1];
      DepthBound(t, n);
      assert lens[n - 1] == Depth(t, n);
    }
  }

  /** Every length is in range and the lengths use up the code space exactly. */
  lemma LengthsComplete(ws: seq<nat>, alpha: nat, t: Tree, lens: seq<byte>, maxLen: nat)
    requires CodeTree(ws, alpha, t) && 2 <= alpha == |lens| && maxLen <= Codes.LONGEST
    requires forall i: nat :: 1 <= i <= alpha ==> lens[i - 1] == Depth(t, i) <= maxLen
    ensures forall i :: 0 <= i < alpha ==> 1 <= lens[i] <= maxLen
    ensures Codes.Share(lens, Codes.LONGEST) == Pow2(Codes.LONGEST)
  {
    hide *;
    CodeTreeParts(ws, alpha, t);
    forall i | 0 <= i < alpha ensures 1 <= lens[i] <= maxLen {
      var k := i + 1;
      DepthBound(t, k);
      assert lens[k - 1] == Depth(t, k);
    }
    HeightAtMost(t, alpha, lens, maxLen);
    ShareOfTree(t, lens, alpha);
    PartsFill(t, 0, Codes.LONGEST, alpha);
    assert lens[..alpha] == lens;
  }

  lemma CodeTreeParts(ws: seq<nat>, alpha: nat, t: Tree)
    requires CodeTree(ws, alpha, t) && 2 <= alpha
    ensures t.Node? && Distinct(t) && Within(t, alpha) && forall i: nat :: 1 <= i <= alpha ==> i in Leaves(t)
  {
    assert 1 in Leaves(t) && 2 in Leaves(t);
  }

  lemma HeightAtMost(t: Tree, alpha: nat, lens: seq<byte>, maxLen: nat)
    requires Distinct(t) && Within(t, alpha) && alpha == |lens|
    requires forall i: nat :: 1 <= i <= alpha ==> i in Leaves(t) && lens[i - 1] == Depth(t, i) <= maxLen
    ensures Height(t) <= maxLen
  {
    hide Distinct, Within, Leaves, Depth, Height;
    var deep := DeepestLeaf(t);
    WithinLeaves(t, alpha);
  }

  // ---------- scaling down ----------

  ghost function Halved(ws: seq<nat>): (r: seq<nat>)
    ensures |r| == |ws| && forall k :: 0 <= k < |ws| ==> r[k] == 1 + ws[k] / 2
  {
    seq(|ws|, k requires 0 <= k < |ws| => 1 + ws[k] / 2)
  }

  lemma {:induction false} HalvedTotal(ws: seq<nat>, n: nat)
    requires n < |ws| && forall k :: 1 <= k <= n ==> ws[k] >= 1
    ensures Total(Halved(ws), n) <= Total(ws, n)
    ensures Total(ws, n) > 2 * n ==> Total(Halved(ws), n) < Total(ws, n)
  {
    if n > 0 { HalvedTotal(ws, n - 1); }
  }

  /** A code that is too long means a total too large for all weights to be small
      already, so scaling makes progress. */
  lemma ScalingHelps(ws: seq<nat>, alpha: nat, t: Tree, maxLen: nat, i: nat)
    requires CodeTree(ws, alpha, t) && alpha <= Codes.BZ_MAX_ALPHA_SIZE && 12 <= maxLen
    requires 1 <= i <= alpha && i in Leaves(t) && Depth(t, i) > maxLen
    requires forall k :: 1 <= k <= alpha ==> ws[k] >= 1
    ensures Total(Halved(ws), alpha) < Total(ws, alpha)
  {
    DepthBound(t, i);
    FibonacciBound(t, ws);
    FibMonotone(15, Height(t) + 2);
    FibValues();
    WeightAtMostTotal(t, ws, alpha);
    HalvedTotal(ws, alpha);
  }

  method ScaleWeights(weight: array<nat>, alphaSize: nat, ghost ws: seq<nat>)
    requires LeafWeights(ws, alphaSize, weight[..])
    modifies weight
    ensures LeafWeights(Halved(ws), alphaSize, weight[..])
  {
    Pow2Values();
    for i := 1 to alphaSize + 1
      invariant forall k :: 1 <= k < i ==> weight[k] == 256 * (1 + ws[k] / 2)
      invariant forall k :: i <= k <= alphaSize ==> weight[k] == 256 * ws[k]
    {
      var j := Shr(weight[i], 8);
      j := 1 + j / 2;
      weight[i] := Shl(j, 8);
    }
  }

  /** The frequencies as weights: a symbol that does not occur counts once. */
  ghost function Weights(freq: seq<nat>): (ws: seq<nat>)
    ensures |ws| == |freq| + 1 && forall k :: 1 <= k <= |freq| ==> ws[k] == if freq[k - 1] == 0 then 1 else freq[k - 1]
  {
    [0] + seq(|freq|, k requires 0 <= k < |freq| => if freq[k] == 0 then 1 else freq[k])
  }

  method InitWeights(weight: array<nat>, freq: array<nat>, alphaSize: nat)
    requires weight != freq && alphaSize == freq.Length < weight.Length
    modifies weight
    ensures LeafWeights(Weights(freq[..]), alphaSize, weight[..])
  {
    Pow2Values();
    ghost var ws := Weights(freq[..]);
    for i := 0 to alphaSize
      invariant forall k :: 1 <= k <= i ==> weight[k] == 256 * ws[k]
    {
      assert ws[i + 1] == if freq[i] == 0 then 1 else freq[i];
      weight[i + 1] := Shl(if freq[i] == 0 then 1 else freq[i], 8);
    }
  }

  lemma TreeLeaves(ws: seq<nat>, alpha: nat, weight: seq<nat>, nodes: seq<Tree>, parent: seq<int>, roots: multiset<nat>, m: nat)
    requires Forest(ws, alpha, nodes, weight, parent, roots, m)
    ensures LeafWeights(ws, alpha, weight)
  {
    forall k | 1 <= k <= alpha ensures ws[k] >= 1 && weight[k] == 256 * ws[k] {
      assert nodes[k] == Leaf(k) && NodeOk(nodes[k], ws, alpha, weight[k]);
    }
  }

  ghost function HalvedTimes(ws: seq<nat>, k: nat): (r: seq<nat>)
    ensures |r| == |ws|
  {
    if k == 0 then ws else Halved(HalvedTimes(ws, k - 1))
  }

  /** The lengths are those of a cheapest code, once the weights have been halved k times. */
  ghost predicate MinimalAfter(ws: seq<nat>, k: nat, lens: seq<nat>) {
    Optimal.Minimal(HalvedTimes(ws, k), lens)
  }

  /** A cheapest prefix code for the weights, halved k times, that has a length above maxLen. */
  ghost predicate TooLong(ws: seq<nat>, k: nat, lens: seq<nat>, maxLen: nat) {
    && MinimalAfter(ws, k, lens) && (exists m: nat :: Optimal.PrefixLengths(lens, m))
    && exists i :: 0 <= i < |lens| && lens[i] > maxLen
  }

  ghost predicate TooLongAfter(ws: seq<nat>, k: nat, alpha: nat, maxLen: nat) {
    exists lens: seq<nat> :: |lens| == alpha && TooLong(ws, k, lens, maxLen)
  }

  /** Every halving had its reason: with the weights as they were before it, a cheapest code was
      too long. */
  ghost predicate Needed(ws: seq<nat>, k: nat, alpha: nat, maxLen: nat) {
    forall j: nat :: j < k ==> TooLongAfter(ws, j, alpha, maxLen)
  }

  /** The lengths are those of a cheapest prefix code, for weights halved no more often than
      needed; not at all, if their total is below a Fibonacci number. */
  ghost predicate HalvedAsNeeded(ws: seq<nat>, k: nat, lens: seq<nat>, maxLen: nat) {
    && MinimalAfter(ws, k, lens) && Needed(ws, k, |lens|, maxLen) && |lens| < |ws|
    && (Total(ws, |lens|) < Fib(maxLen + 3) ==> k == 0)
  }

  lemma {:induction false} SpaceOfTree(t: Tree, lens: seq<nat>, m: nat, n: nat)
    requires Distinct(t) && Height(t) <= m && n <= |lens| && forall i :: 0 <= i < n ==> lens[i] <= m
    requires forall i: nat :: 1 <= i <= n ==> i in Leaves(t) && lens[i - 1] == Depth(t, i)
    ensures Optimal.CodeSpace(lens[..n], m) == Parts(t, 0, m, n)
  {
    hide Distinct, Height, Leaves, Depth, Pow2;
    if n > 0 {
      SpaceOfTree(t, lens, m, n - 1);
      assert lens[..n][..n - 1] == lens[..n - 1];
      assert lens[n - 1] == Depth(t, n);
    }
  }

  /** The depths in one tree are the lengths of a prefix code. */
  lemma DepthsArePrefix(ws: seq<nat>, alpha: nat, t: Tree, lens: seq<nat>)
    requires CodeTree(ws, alpha, t) && 2 <= alpha == |lens|
    requires forall i: nat :: 1 <= i <= alpha ==> lens[i - 1] == Depth(t, i)
    ensures exists m: nat :: Optimal.PrefixLengths(lens, m)
  {
    hide *;
    CodeTreeParts(ws, alpha, t);
    var m := Height(t);
    forall i | 0 <= i < alpha ensures lens[i] <= m {
      var k := i + 1;
      DepthBound(t, k);
      assert lens[k - 1] == Depth(t, k);
    }
    SpaceOfTree(t, lens, m, alpha);
    PartsFill(t, 0, m, alpha);
    assert lens[..alpha] == lens;
    PrefixIs(lens, m);
  }

  lemma PrefixIs(lens: seq<nat>, m: nat)
    requires (forall i :: 0 <= i < |lens| ==> lens[i] <= m) && Optimal.CodeSpace(lens, m) <= Pow2(m)
    ensures Optimal.PrefixLengths(lens, m)
  {
    hide Optimal.CodeSpace, Pow2;
  }

  lemma NeededOnce(ws0: seq<nat>, k: nat, ws: seq<nat>, alpha: nat, t: Tree, lens: seq<nat>, maxLen: nat)
    requires ws == HalvedTimes(ws0, k) && Needed(ws0, k, alpha, maxLen)
    requires CodeTree(ws, alpha, t) && 2 <= alpha == |lens| && Optimal.Minimal(ws, lens)
    requires forall i: nat :: 1 <= i <= alpha ==> lens[i - 1] == Depth(t, i)
    requires exists i: nat :: 1 <= i <= alpha && Depth(t, i) > maxLen
    ensures Needed(ws0, k + 1, alpha, maxLen)
  {
    hide CodeTree, Optimal.Minimal, HalvedTimes, Depth, Optimal.PrefixLengths, TooLongAfter;
    DepthsArePrefix(ws, alpha, t, lens);
    CodeTreeParts(ws, alpha, t);
    var i: nat :| 1 <= i <= alpha && Depth(t, i) > maxLen;
    var x := i - 1;
    assert lens[x] > maxLen;
    TooLongIs(ws0, k, lens, maxLen);
    forall j: nat | j < k + 1 ensures TooLongAfter(ws0, j, alpha, maxLen) { }
  }

  lemma TooLongIs(ws0: seq<nat>, k: nat, lens: seq<nat>, maxLen: nat)
    requires TooLong(ws0, k, lens, maxLen)
    ensures TooLongAfter(ws0, k, |lens|, maxLen)
  {
    hide TooLong;
  }

  /** A code that is too long weighs at least a Fibonacci number. */
  lemma HeavyIfLong(ws: seq<nat>, alpha: nat, t: Tree, maxLen: nat)
    requires CodeTree(ws, alpha, t)
    requires exists i: nat :: 1 <= i <= alpha && Depth(t, i) > maxLen
    ensures Total(ws, alpha) >= Fib(maxLen + 3)
  {
    var i: nat :| 1 <= i <= alpha && Depth(t, i) > maxLen;
    DepthBound(t, i);
    FibonacciBound(t, ws);
    FibMonotone(maxLen + 3, Height(t) + 2);
    WeightAtMostTotal(t, ws, alpha);
  }

  lemma FirstIsMinimal(ws: seq<nat>, alpha: nat, nodes: seq<Tree>, root: nat, lens: seq<nat>)
    requires root < |nodes| && CodeTree(ws, alpha, nodes[root]) && |lens| == alpha
    requires |ws| == alpha + 1 && Optimal.Optimal(Optimal.SymbolWeights(ws, alpha), nodes, multiset{root}, ws)
    requires forall i: nat :: 1 <= i <= alpha ==> lens[i - 1] == Depth(nodes[root], i)
    ensures Optimal.Minimal(ws, lens)
  {
    hide Optimal.Optimal, Optimal.Minimal, Optimal.SymbolWeights;
    Optimal.DepthsMinimal(nodes, root, ws, lens);
  }

  /** `BZ2_hbMakeCodeLengths`: for any frequencies whose total fits, it ends, and the
      lengths it leaves form a complete prefix code within the limit. No prefix code is cheaper
      for the frequencies, scaled down as often as a cheapest code was too long; with a total
      below a Fibonacci number that is not at all. */
  method MakeCodeLengths(len: array<byte>, freq: array<nat>, alphaSize: nat, maxLen: nat)
    requires 2 <= alphaSize <= Codes.BZ_MAX_ALPHA_SIZE && len.Length >= alphaSize && freq.Length == alphaSize
    requires 12 <= maxLen <= Codes.LONGEST && Total(Weights(freq[..]), alphaSize) < MAX_TOTAL
    modifies len
    ensures forall i :: 0 <= i < alphaSize ==> 1 <= len[i] <= maxLen
    ensures Codes.Share(len[..alphaSize], Codes.LONGEST) == Pow2(Codes.LONGEST)
    ensures exists k: nat :: HalvedAsNeeded(Weights(freq[..]), k, len[..alphaSize], maxLen)
  {
    hide Needed, HalvedAsNeeded, Forest, LeafWeights, Total, CodeTree, Depth, Optimal.Optimal, Optimal.Minimal, Optimal.SymbolWeights, Fib, HalvedTimes, MinimalAfter, Halved, Codes.Share, Pow2, Leaves;
    var heap := new nat[Codes.BZ_MAX_ALPHA_SIZE + 2];
    var weight := new nat[Codes.BZ_MAX_ALPHA_SIZE * 2];
    var parent := new int[Codes.BZ_MAX_ALPHA_SIZE * 2];
    InitWeights(weight, freq, alphaSize);
    ghost var ws, k := Weights(freq[..]), 0;
    NotHalved(ws);
    NotNeeded(ws, alphaSize, maxLen);
    while true
      invariant Needed(Weights(freq[..]), k, alphaSize, maxLen)
      invariant ws == HalvedTimes(Weights(freq[..]), k) && (Total(Weights(freq[..]), alphaSize) < Fib(maxLen + 3) ==> k == 0)
      invariant LeafWeights(ws, alphaSize, weight[..]) && |ws| == alphaSize + 1 && Total(ws, alphaSize) < MAX_TOTAL
      decreases Total(ws, alphaSize)
    {
      ghost var nodes, m := BuildTree(heap, weight, parent, alphaSize, ws);
      ghost var root: nat := 2 * alphaSize - 1;
      var tooLong := ReadLengths(len, parent, alphaSize, maxLen, ws, nodes, weight[..], root, m);
      FirstIsMinimal(ws, alphaSize, nodes, root, len[..alphaSize]);
      if !tooLong {
        LengthsComplete(ws, alphaSize, nodes[root], len[..alphaSize], maxLen);
        MinimalIs(Weights(freq[..]), k, ws, len[..alphaSize], maxLen);
        break;
      }
      NeededOnce(Weights(freq[..]), k, ws, alphaSize, nodes[root], len[..alphaSize], maxLen);
      TreeLeaves(ws, alphaSize, weight[..], nodes, parent[..], multiset{root}, m);
      Progress(ws, alphaSize, weight[..], nodes[root], maxLen);
      HeavyIfLong(ws, alphaSize, nodes[root], maxLen);
      HalvedOnce(Weights(freq[..]), k);
      NotHalved(Weights(freq[..]));
      ScaleWeights(weight, alphaSize, ws);
      ws, k := Halved(ws), k + 1;
    }
  }

  lemma MinimalIs(ws0: seq<nat>, k: nat, ws: seq<nat>, lens: seq<nat>, maxLen: nat)
    requires ws == HalvedTimes(ws0, k) && Optimal.Minimal(ws, lens) && Needed(ws0, k, |lens|, maxLen) && |lens| < |ws0|
    requires Total(ws0, |lens|) < Fib(maxLen + 3) ==> k == 0
    ensures HalvedAsNeeded(ws0, k, lens, maxLen)
  {
    hide Needed, Total, Fib;
  }

  lemma NotNeeded(ws: seq<nat>, alpha: nat, maxLen: nat)
    ensures Needed(ws, 0, alpha, maxLen)
  {
  }

  lemma NotHalved(ws: seq<nat>)
    ensures HalvedTimes(ws, 0) == ws
  {
  }

  lemma HalvedOnce(ws: seq<nat>, k: nat)
    ensures HalvedTimes(ws, k + 1) == Halved(HalvedTimes(ws, k))
  {
  }

  lemma Progress(ws: seq<nat>, alpha: nat, weight: seq<nat>, t: Tree, maxLen: nat)
    requires LeafWeights(ws, alpha, weight) && CodeTree(ws, alpha, t) && alpha <= Codes.BZ_MAX_ALPHA_SIZE && 12 <= maxLen
    requires exists i: nat :: 1 <= i <= alpha && Depth(t, i) > maxLen
    ensures Total(Halved(ws), alpha) < Total(ws, alpha)
  {
    var i: nat :| 1 <= i <= alpha && Depth(t, i) > maxLen;
    ScalingHelps(ws, alpha, t, maxLen, i);
  }
}