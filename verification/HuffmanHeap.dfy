/** The binary heap of huffman.c: entries run from 1, entry 0 is a sentinel, and keys are
    looked up in the weight array. */
module HuffmanHeap {

  ghost predicate InBounds(h: seq<nat>, w: seq<nat>, n: nat) {
    && n < |h| && (forall k :: 0 <= k <= n ==> h[k] < |w|)
  }

  /** Each entry is no smaller than its parent. */
  ghost predicate Ordered(h: seq<nat>, w: seq<nat>, n: nat) {
    InBounds(h, w, n) && forall k :: 2 <= k <= n ==> w[h[k / 2]] <= w[h[k]]
  }

  /** The entries 1..n. */
  ghost function Content(h: seq<nat>, n: nat): multiset<nat>
    requires n < |h|
  {
    multiset(h[1..n + 1])
  }

  /** Ordered apart from position z, which is free; what sits around it would be in order
      without it. */
  ghost predicate Gap(h: seq<nat>, w: seq<nat>, n: nat, z: nat) {
    && InBounds(h, w, n) && 1 <= z
    && (forall k :: 2 <= k <= n && k != z && k / 2 != z ==> w[h[k / 2]] <= w[h[k]])
    && (forall k :: 2 <= k <= n && k / 2 == z && z >= 2 ==> w[h[z / 2]] <= w[h[k]])
  }

  lemma {:induction false} RootIsLeast(h: seq<nat>, w: seq<nat>, n: nat, k: nat)
    requires Ordered(h, w, n) && 1 <= k <= n
    ensures w[h[1]] <= w[h[k]]
  {
    if k > 1 { RootIsLeast(h, w, n, k / 2); }
  }

  lemma LeastOfContent(h: seq<nat>, w: seq<nat>, n: nat)
    requires Ordered(h, w, n) && n >= 1
    ensures h[1] in Content(h, n)
    ensures forall x :: x in Content(h, n) ==> x < |w| && w[h[1]] <= w[x]
  {
    var s := h[1..n + 1];
    assert s[0] == h[1];
    forall x | x in Content(h, n) ensures x < |w| && w[h[1]] <= w[x] {
      assert x in s;
      var k :| 0 <= k < |s| && s[k] == x;
      assert h[k + 1] == x;
      RootIsLeast(h, w, n, k + 1);
    }
  }

  lemma FillGap(h: seq<nat>, w: seq<nat>, n: nat, z: nat, t: nat)
    requires Gap(h, w, n, z) && z <= n && t < |w|
    requires z >= 2 ==> w[h[z / 2]] <= w[t]
    requires forall k :: 2 <= k <= n && k / 2 == z ==> w[t] <= w[h[k]]
    ensures Ordered(h[z := t], w, n)
  {
    var g := h[z := t];
    forall k | 2 <= k <= n ensures w[g[k / 2]] <= w[g[k]] {
      if k == z || k / 2 == z { }
    }
  }

  lemma GapUp(h: seq<nat>, w: seq<nat>, n: nat, z: nat)
    requires Gap(h, w, n, z) && 2 <= z <= n
    ensures Gap(h[z := h[z / 2]], w, n, z / 2)
  {
    var g := h[z := h[z / 2]];
    forall k | 2 <= k <= n && k != z / 2 && k / 2 != z / 2 ensures w[g[k / 2]] <= w[g[k]] {
      if k / 2 == z { assert w[h[z / 2]] <= w[h[k]]; }
    }
    forall k | 2 <= k <= n && k / 2 == z / 2 && z / 2 >= 2 ensures w[g[z / 2 / 2]] <= w[g[k]] {
      assert w[h[z / 2 / 2]] <= w[h[z / 2]];
      if k != z { assert w[h[k / 2]] <= w[h[k]]; }
    }
  }

  lemma GapDown(h: seq<nat>, w: seq<nat>, n: nat, z: nat, y: nat)
    requires Gap(h, w, n, z) && z <= n && 2 <= y <= n && y / 2 == z
    requires forall k :: 2 <= k <= n && k / 2 == z ==> w[h[y]] <= w[h[k]]
    ensures Gap(h[z := h[y]], w, n, y)
  {
    var g := h[z := h[y]];
    forall k | 2 <= k <= n && k != y && k / 2 != y ensures w[g[k / 2]] <= w[g[k]] {
      if k == z { assert w[h[z / 2]] <= w[h[y]]; }
    }
  }

  lemma MoveContent(h: seq<nat>, n: nat, z: nat, y: nat, t: nat)
    requires n < |h| && 1 <= z <= n && 1 <= y <= n && z != y
    ensures Content(h[z := h[y]][y := t], n) == Content(h[z := t], n)
  {
    var a, b := h[z := h[y]][y := t], h[z := t];
    assert a == b[z := b[y]][y := b[z]];
    var s := b[1..n + 1];
    assert a[1..n + 1] == s[z - 1 := s[y - 1]][y - 1 := s[z - 1]];
  }

  /** Everything the sifting loops keep: t is out of the heap, position z is free. */
  ghost predicate Sifting(h: seq<nat>, w: seq<nat>, n: nat, z: nat, t: nat, c: multiset<nat>) {
    && Gap(h, w, n, z) && z <= n && t < |w| && Content(h[z := t], n) == c
  }

  /** `UPHEAP(n)`: the last entry rises to its place. */
  method UpHeap(heap: array<nat>, weight: array<nat>, n: nat)
    requires heap != weight && 1 <= n && InBounds(heap[..], weight[..], n)
    requires Ordered(heap[..], weight[..], n - 1) && heap[0] == 0 && weight[0] == 0
    modifies heap
    ensures Ordered(heap[..], weight[..], n) && heap[0] == 0
    ensures Content(heap[..], n) == old(Content(heap[..], n))
  {
    hide Gap, Ordered, Content;
    ghost var h, w, c := heap[..], weight[..], Content(heap[..], n);
    var zz, tmp := n, heap[n];
    RiseStart(h, w, n);
    while weight[tmp] < weight[heap[zz / 2]]
      invariant heap[..] == h && weight[..] == w && 1 <= zz <= n && h[0] == 0
      invariant Sifting(h, w, n, zz, tmp, c) && InBounds(h, w, n)
      invariant Below(h, w, n, zz, tmp)
      decreases zz
    {
      RiseStep(h, w, n, zz, tmp, c);
      heap[zz] := heap[zz / 2];
      h := h[zz := h[zz / 2]];
      zz := zz / 2;
    }
    RiseEnd(h, w, n, zz, tmp);
    heap[zz] := tmp;
    h := h[zz := tmp];
  }

  /** t is no larger than what hangs below the gap. */
  ghost predicate Below(h: seq<nat>, w: seq<nat>, n: nat, z: nat, t: nat) {
    InBounds(h, w, n) && t < |w| && forall k :: 2 <= k <= n && k / 2 == z ==> w[t] <= w[h[k]]
  }

  lemma RiseStart(h: seq<nat>, w: seq<nat>, n: nat)
    requires 1 <= n && InBounds(h, w, n) && Ordered(h, w, n - 1)
    ensures Sifting(h, w, n, n, h[n], Content(h, n)) && Below(h, w, n, n, h[n])
  {
    assert h[n := h[n]] == h;
  }

  lemma RiseStep(h: seq<nat>, w: seq<nat>, n: nat, z: nat, t: nat, c: multiset<nat>)
    requires Sifting(h, w, n, z, t, c) && Below(h, w, n, z, t) && h[0] == 0 && w[0] == 0
    requires w[t] < w[h[z / 2]]
    ensures z >= 2 && Sifting(h[z := h[z / 2]], w, n, z / 2, t, c) && Below(h[z := h[z / 2]], w, n, z / 2, t)
    ensures InBounds(h[z := h[z / 2]], w, n)
  {
    GapUp(h, w, n, z);
    MoveContent(h, n, z, z / 2, t);
    var g := h[z := h[z / 2]];
    forall k | 2 <= k <= n && k / 2 == z / 2 ensures w[t] <= w[g[k]] {
      if k != z { assert w[h[k / 2]] <= w[h[k]]; }
    }
  }

  lemma RiseEnd(h: seq<nat>, w: seq<nat>, n: nat, z: nat, t: nat)
    requires Gap(h, w, n, z) && z <= n && Below(h, w, n, z, t) && (z >= 2 ==> w[h[z / 2]] <= w[t])
    ensures Ordered(h[z := t], w, n)
  {
    FillGap(h, w, n, z, t);
  }

  /** `DOWNHEAP(1)`: the entry put at the root sinks to its place. */
  method DownHeap(heap: array<nat>, weight: array<nat>, n: nat)
    requires heap != weight && InBounds(heap[..], weight[..], n) && 1 < heap.Length
    requires Gap(heap[..], weight[..], n, 1)
    modifies heap
    ensures Ordered(heap[..], weight[..], n)
    ensures Content(heap[..], n) == old(Content(heap[..], n))
    ensures heap[0] == old(heap[0])
  {
    hide Gap, Ordered, Content, Sifting, Below;
    ghost var h, w, c := heap[..], weight[..], Content(heap[..], n);
    var zz, tmp := 1, heap[1];
    if n == 0 {
      EmptyOrdered(h, w);
      heap[zz] := tmp;
      assert heap[..] == h;
      return;
    }
    SinkStart(h, w, n);
    while true
      invariant heap[..] == h && weight[..] == w && 1 <= zz <= n && h[0] == old(heap[0])
      invariant Sifting(h, w, n, zz, tmp, c) && Above(h, w, n, zz, tmp)
      decreases n - zz
    {
      var yy := zz * 2;
      if yy > n {
        Childless(h, w, n, zz, tmp);
        break;
      }
      if yy < n && weight[heap[yy + 1]] < weight[heap[yy]] { yy := yy + 1; }
      if weight[tmp] < weight[heap[yy]] {
        SettledAbove(h, w, n, zz, yy, tmp);
        break;
      }
      SinkStep(h, w, n, zz, tmp, c, yy);
      heap[zz] := heap[yy];
      h := h[zz := h[yy]];
      zz := yy;
    }
    SinkEnd(h, w, n, zz, tmp, c);
    heap[zz] := tmp;
    h := h[zz := tmp];
  }

  /** t is no smaller than the parent of the gap. */
  ghost predicate Above(h: seq<nat>, w: seq<nat>, n: nat, z: nat, t: nat) {
    InBounds(h, w, n) && t < |w| && 1 <= z <= n && (z >= 2 ==> w[h[z / 2]] <= w[t])
  }

  lemma EmptyOrdered(h: seq<nat>, w: seq<nat>)
    requires InBounds(h, w, 0)
    ensures Ordered(h, w, 0)
  {
  }

  lemma SinkStart(h: seq<nat>, w: seq<nat>, n: nat)
    requires Gap(h, w, n, 1) && 1 <= n
    ensures Sifting(h, w, n, 1, h[1], Content(h, n)) && Above(h, w, n, 1, h[1])
  {
    assert h[1 := h[1]] == h;
  }

  lemma SmallerChild(h: seq<nat>, w: seq<nat>, n: nat, z: nat, y: nat)
    requires InBounds(h, w, n) && 1 <= z && (y == 2 * z || y == 2 * z + 1) && y <= n
    requires y == 2 * z ==> y == n || w[h[y]] <= w[h[y + 1]]
    requires y == 2 * z + 1 ==> w[h[y]] <= w[h[y - 1]]
    ensures forall k :: 2 <= k <= n && k / 2 == z ==> w[h[y]] <= w[h[k]]
  {
    forall k | 2 <= k <= n && k / 2 == z ensures w[h[y]] <= w[h[k]] {
      assert k == 2 * z || k == 2 * z + 1;
    }
  }

  lemma SinkStep(h: seq<nat>, w: seq<nat>, n: nat, z: nat, t: nat, c: multiset<nat>, y: nat)
    requires Sifting(h, w, n, z, t, c) && Above(h, w, n, z, t) && (y == 2 * z || y == 2 * z + 1) && y <= n
    requires y == 2 * z ==> y == n || w[h[y]] <= w[h[y + 1]]
    requires y == 2 * z + 1 ==> w[h[y]] <= w[h[y - 1]]
    requires w[h[y]] <= w[t]
    ensures Sifting(h[z := h[y]], w, n, y, t, c) && Above(h[z := h[y]], w, n, y, t)
  {
    SmallerChild(h, w, n, z, y);
    GapDown(h, w, n, z, y);
    MoveContent(h, n, z, y, t);
  }

  lemma Childless(h: seq<nat>, w: seq<nat>, n: nat, z: nat, t: nat)
    requires InBounds(h, w, n) && t < |w| && 2 * z > n
    ensures Below(h, w, n, z, t)
  {
  }

  lemma SettledAbove(h: seq<nat>, w: seq<nat>, n: nat, z: nat, y: nat, t: nat)
    requires InBounds(h, w, n) && 1 <= z && (y == 2 * z || y == 2 * z + 1) && y <= n && t < |w|
    requires y == 2 * z ==> y == n || w[h[y]] <= w[h[y + 1]]
    requires y == 2 * z + 1 ==> w[h[y]] <= w[h[y - 1]]
    requires w[t] <= w[h[y]]
    ensures Below(h, w, n, z, t)
  {
    SmallerChild(h, w, n, z, y);
  }

  lemma SinkEnd(h: seq<nat>, w: seq<nat>, n: nat, z: nat, t: nat, c: multiset<nat>)
    requires Sifting(h, w, n, z, t, c) && Above(h, w, n, z, t) && Below(h, w, n, z, t)
    ensures Ordered(h[z := t], w, n) && Content(h[z := t], n) == c
  {
    FillGap(h, w, n, z, t);
  }
}
