/** The decoder's move-to-front list (decompress.c): 256 entries held as sixteen sublists
    of sixteen that slide down inside an arena of 4096 cells. */
module MtfArena {
  import opened Words
  import opened MtfCoding

  const MTFA_SIZE := 4096
  const MTFL_SIZE := 16

  /** The sublists lie in order and apart, with room before the first one. */
  ghost predicate Layout(b: seq<int>) {
    && |b| == 16 && 1 <= b[0] && b[15] + MTFL_SIZE <= MTFA_SIZE
    && forall j, k :: 0 <= j < k < 16 ==> b[j] + MTFL_SIZE * (k - j) <= b[k]
  }

  /** Sixteen entries from s on. */
  function Row<T>(a: seq<T>, s: nat): (r: seq<T>)
    requires s + 16 <= |a|
    ensures |r| == 16
  {
    a[s..s + 16]
  }

  /** The arena holds the list: sublist k is entries 16k to 16k + 15. */
  ghost predicate Represents(a: seq<byte>, b: seq<int>, list: seq<byte>) {
    && |a| == MTFA_SIZE && |list| == 256 && Layout(b)
    && forall k :: 0 <= k < 16 ==> 0 <= b[k] <= |a| - 16 && Row(a, b[k]) == Row(list, 16 * k)
  }

  lemma Bounds(b: seq<int>, k: nat)
    requires Layout(b) && k < 16
    ensures 1 <= b[k] <= MTFA_SIZE - 16 * (16 - k)
    ensures k > 0 ==> b[k - 1] + 16 <= b[k]
  {
    assert k > 0 ==> b[0] + MTFL_SIZE * (k - 0) <= b[k];
    assert k < 15 ==> b[k] + MTFL_SIZE * (15 - k) <= b[15];
  }

  lemma Entry(a: seq<byte>, b: seq<int>, list: seq<byte>, k: nat, t: nat)
    requires Represents(a, b, list) && k < 16 && t < 16
    ensures 1 <= b[k] <= MTFA_SIZE - 16 && a[b[k] + t] == list[16 * k + t]
  {
    Bounds(b, k);
    assert Row(a, b[k])[t] == Row(list, 16 * k)[t];
  }

  /** A write leaves a row alone when it misses it or repeats what was there. */
  lemma RowKept(a: seq<byte>, x: nat, v: byte, s: nat)
    requires x < |a| && s + 16 <= |a|
    requires x < s || s + 16 <= x || a[x] == v
    ensures Row(a[x := v], s) == Row(a, s)
  {
  }

  // ---------- the initial list ----------

  function Identity(): (s: seq<byte>)
    ensures |s| == 256 && forall i :: 0 <= i < 256 ==> s[i] == i
  {
    seq(256, i requires 0 <= i < 256 => i as byte)
  }

  /** Sublists from ii on stand packed at the end of the arena. */
  ghost predicate Packed(a: seq<byte>, c: seq<int>, list: seq<byte>, ii: nat, jj: nat) {
    && |a| == MTFA_SIZE && |c| == 16 && |list| == 256 && ii <= 16 && jj <= 16
    && (forall k :: ii <= k < 16 ==> c[k] == 3840 + 16 * k)
    && forall i :: 16 * (ii as int - 1) + jj <= i < 256 && 0 <= i ==> a[3840 + i] == list[i]
  }

  lemma PackedAll(a: seq<byte>, c: seq<int>, list: seq<byte>)
    requires Packed(a, c, list, 0, 16)
    ensures Represents(a, c, list)
  {
    forall k | 0 <= k < 16 ensures 0 <= c[k] <= |a| - 16 && Row(a, c[k]) == Row(list, 16 * k) {
      forall t | 0 <= t < 16 ensures Row(a, c[k])[t] == Row(list, 16 * k)[t] {
        assert a[3840 + (16 * k + t)] == list[16 * k + t];
      }
    }
  }

  method MtfInit(mtfa: array<byte>, mtfbase: array<int>)
    requires mtfa.Length == MTFA_SIZE && mtfbase.Length == 16 && mtfa as object != mtfbase
    modifies mtfa, mtfbase
    ensures Represents(mtfa[..], mtfbase[..], Identity())
  {
    ghost var list := Identity();
    var kk: int := MTFA_SIZE - 1;
    var ii: int := 256 / MTFL_SIZE - 1;
    while ii >= 0
      invariant -1 <= ii < 16 && kk == 3840 + 16 * ii + 15
      invariant Packed(mtfa[..], mtfbase[..], list, ii + 1, 16)
      decreases ii
    {
      var jj: int := MTFL_SIZE - 1;
      while jj >= 0
        invariant -1 <= jj < 16 && kk == 3840 + 16 * ii + jj
        invariant Packed(mtfa[..], mtfbase[..], list, ii + 1, jj + 1)
        decreases jj
      {
        mtfa[kk] := ii * MTFL_SIZE + jj;
        kk := kk - 1;
        jj := jj - 1;
      }
      mtfbase[ii] := kk + 1;
      ii := ii - 1;
    }
    PackedAll(mtfa[..], mtfbase[..], list);
  }

  // ---------- symbols below sixteen ----------

  /** Entries s + 1 to s + n have been moved up from the place before; those from s + m on
      already, and the place s + m itself is to be filled next. */
  ghost predicate MovedUp(a0: seq<byte>, a: seq<byte>, s: nat, n: nat, m: nat) {
    && |a| == |a0| && m <= n && s + n < |a0|
    && (forall i :: s + m < i <= s + n ==> a[i] == a0[i - 1])
    && (forall i :: 0 <= i <= s + m ==> a[i] == a0[i])
    && (forall i :: s + n < i < |a0| ==> a[i] == a0[i])
  }

  lemma MovedUpStart(a: seq<byte>, s: nat, n: nat)
    requires s + n < |a|
    ensures MovedUp(a, a, s, n, n)
  {
  }

  lemma MovedUpStep(a0: seq<byte>, a: seq<byte>, s: nat, n: nat, m: nat)
    requires MovedUp(a0, a, s, n, m) && m > 0
    ensures s + m < |a| && MovedUp(a0, a[s + m := a[s + m - 1]], s, n, m - 1)
  {
  }

  lemma MovedUpRow(a0: seq<byte>, a: seq<byte>, s: nat, n: nat)
    requires MovedUp(a0, a, s, n, 0) && n < 16 && s + 16 <= |a0|
    ensures forall t :: 1 <= t < 16 ==> Row(a, s)[t] == Row(a0, s)[if t <= n then t - 1 else t]
  {
    forall t | 1 <= t < 16 ensures Row(a, s)[t] == Row(a0, s)[if t <= n then t - 1 else t] {
      assert a[s + t] == a0[if t <= n then s + t - 1 else s + t];
    }
  }

  lemma MovedUpOther(a0: seq<byte>, a: seq<byte>, s: nat, n: nat, r: nat)
    requires MovedUp(a0, a, s, n, 0) && n < 16 && r + 16 <= |a0|
    requires r + 16 <= s || s + 16 <= r
    ensures Row(a, r) == Row(a0, r)
  {
  }

  lemma MoveAt(list: seq<byte>, n: nat, i: nat)
    requires n < |list| && i < |list|
    ensures MoveToFront(list, n)[i] == if i == 0 then list[n] else if i <= n then list[i - 1] else list[i]
  {
  }

  lemma FastRepresents(a0: seq<byte>, a: seq<byte>, b: seq<int>, list: seq<byte>, n: nat, uc: byte)
    requires Represents(a0, b, list) && n < 16 && uc == list[n]
    requires MovedUp(a0, a, b[0], n, 0)
    ensures Represents(a[b[0] := uc], b, MoveToFront(list, n))
  {
    var r, m := a[b[0] := uc], MoveToFront(list, n);
    MovedUpRow(a0, a, b[0], n);
    forall k | 0 <= k < 16 ensures 0 <= b[k] <= |a| - 16 && Row(r, b[k]) == Row(m, 16 * k) {
      Bounds(b, k);
      if k > 0 {
        assert b[0] + MTFL_SIZE * (k - 0) <= b[k];
        MovedUpOther(a0, a, b[0], n, b[k]);
        RowKept(a, b[0], uc, b[k]);
        RowBeyond(list, n, k);
      } else {
        forall t | 0 <= t < 16 ensures Row(r, b[0])[t] == Row(m, 0)[t] {
          MoveAt(list, n, t);
          if t > 0 { assert Row(r, b[0])[t] == Row(a, b[0])[t]; }
        }
      }
    }
  }

  /** Rows beyond the entry that moved are the same. */
  lemma RowBeyond(list: seq<byte>, nn: nat, k: nat)
    requires |list| == 256 && nn < 16 * k && k < 16
    ensures Row(MoveToFront(list, nn), 16 * k) == Row(list, 16 * k)
  {
    forall t | 0 <= t < 16 ensures Row(MoveToFront(list, nn), 16 * k)[t] == Row(list, 16 * k)[t] {
      MoveAt(list, nn, 16 * k + t);
    }
  }

  method MoveShort(mtfa: array<byte>, mtfbase: array<int>, nn0: nat, ghost list: seq<byte>) returns (uc: byte)
    requires Represents(mtfa[..], mtfbase[..], list) && nn0 < MTFL_SIZE
    requires mtfa as object != mtfbase
    modifies mtfa
    ensures uc == list[nn0] && Represents(mtfa[..], mtfbase[..], MoveToFront(list, nn0))
  {
    hide Represents, MoveToFront, MovedUp;
    ghost var a0, b := mtfa[..], mtfbase[..];
    RepresentsShape(a0, b, list);
    Entry(a0, b, list, 0, nn0);
    MovedUpStart(a0, b[0], nn0);
    var nn: nat := nn0;
    var pp := mtfbase[0];
    uc := mtfa[pp + nn];
    ghost var a := a0;
    while nn > 3
      invariant nn <= nn0 && mtfbase[..] == b && mtfa[..] == a
      invariant |a| == MTFA_SIZE && MovedUp(a0, a, pp, nn0, nn)
    {
      var z := pp + nn;
      MovedUpStep(a0, a, pp, nn0, nn);
      mtfa[z] := mtfa[z - 1];
      a := a[z := a[z - 1]];
      MovedUpStep(a0, a, pp, nn0, nn - 1);
      mtfa[z - 1] := mtfa[z - 2];
      a := a[z - 1 := a[z - 2]];
      MovedUpStep(a0, a, pp, nn0, nn - 2);
      mtfa[z - 2] := mtfa[z - 3];
      a := a[z - 2 := a[z - 3]];
      MovedUpStep(a0, a, pp, nn0, nn - 3);
      mtfa[z - 3] := mtfa[z - 4];
      a := a[z - 3 := a[z - 4]];
      nn := nn - 4;
    }
    while nn > 0
      invariant nn <= nn0 && mtfbase[..] == b && mtfa[..] == a
      invariant |a| == MTFA_SIZE && MovedUp(a0, a, pp, nn0, nn)
    {
      MovedUpStep(a0, a, pp, nn0, nn);
      mtfa[pp + nn] := mtfa[pp + nn - 1];
      a := a[pp + nn := a[pp + nn - 1]];
      nn := nn - 1;
    }
    FastRepresents(a0, a, b, list, nn0, uc);
    mtfa[pp] := uc;
    assert mtfa[..] == a[pp := uc];
  }

  // ---------- the general case ----------

  /** Sublist n has been shifted from its head on; going down from it, sublists above l
      have taken over the last entry of the sublist before, sublists up to l are as they
      were. `b` and `list` are the state before, `m` the list to be reached. */
  ghost predicate Sliding(list: seq<byte>, m: seq<byte>, b: seq<int>, n: nat, a: seq<byte>, c: seq<int>, l: nat) {
    SlidingBase(b, n, c, l) && SlidingRows(list, m, b, n, a, l)
  }

  /** Where the sublists stand. */
  ghost predicate SlidingBase(b: seq<int>, n: nat, c: seq<int>, l: nat) {
    && Layout(b) && l <= n < 16 && |c| == 16
    && (forall k :: 0 <= k < 16 ==> 1 <= b[k] <= MTFA_SIZE - 16)
    && (forall k :: 0 <= k < 16 ==> c[k] == if l < k < n then b[k] - 1 else if k == n == l then b[k] + 1 else b[k])
  }

  /** What they hold. */
  ghost predicate SlidingRows(list: seq<byte>, m: seq<byte>, b: seq<int>, n: nat, a: seq<byte>, l: nat)
    requires |b| == 16 && forall k :: 0 <= k < 16 ==> 1 <= b[k] <= MTFA_SIZE - 16
  {
    && |a| == MTFA_SIZE && |list| == 256 == |m| && l <= n < 16
    && (forall k :: 0 <= k <= l && k < n ==> Row(a, b[k]) == Row(list, 16 * k))
    && (forall k :: l < k < n ==> Row(a, b[k] - 1) == Row(m, 16 * k))
    && (l < n ==> Row(a, b[n]) == Row(m, 16 * n))
    && (l == n ==> Row(a, b[n])[1..] == Row(m, 16 * n)[1..])
    && (forall k :: n < k < 16 ==> Row(a, b[k]) == Row(m, 16 * k))
  }

  lemma SlideStart(a0: seq<byte>, a: seq<byte>, b: seq<int>, list: seq<byte>, n: nat, off: nat)
    requires Represents(a0, b, list) && 1 <= n < 16 && off < 16
    requires MovedUp(a0, a, b[n], off, 0)
    ensures Sliding(list, MoveToFront(list, 16 * n + off), b, n, a, b[n := b[n] + 1], n)
  {
    var m := MoveToFront(list, 16 * n + off);
    MovedUpRow(a0, a, b[n], off);
    forall k | 0 <= k < 16
      ensures 1 <= b[k] <= |a| - 16
    {
      Bounds(b, k);
    }
    forall k | 0 <= k < n ensures Row(a, b[k]) == Row(list, 16 * k) {
      assert b[k] + MTFL_SIZE * (n - k) <= b[n];
      MovedUpOther(a0, a, b[n], off, b[k]);
    }
    forall k | n < k < 16 ensures Row(a, b[k]) == Row(m, 16 * k) {
      assert b[n] + MTFL_SIZE * (k - n) <= b[k];
      MovedUpOther(a0, a, b[n], off, b[k]);
      RowBeyond(list, 16 * n + off, k);
    }
    forall t | 1 <= t < 16 ensures Row(a, b[n])[t] == Row(m, 16 * n)[t] {
      MoveAt(list, 16 * n + off, 16 * n + t);
      assert Row(a0, b[n]) == Row(list, 16 * n);
    }
    SameTail(Row(a, b[n]), Row(m, 16 * n));
  }

  lemma SameTail(x: seq<byte>, y: seq<byte>)
    requires |x| == |y| == 16 && forall t :: 1 <= t < 16 ==> x[t] == y[t]
    ensures x[1..] == y[1..]
  {
  }

  /** The row of m that sublist l becomes. */
  lemma RowOfMoved(list: seq<byte>, nn: nat, l: nat)
    requires |list| == 256 && 1 <= l < 16 && nn < 256 && 16 * l <= nn
    ensures MoveToFront(list, nn)[16 * l] == list[16 * l - 1] == Row(list, 16 * (l - 1))[15]
    ensures 16 * l + 15 <= nn ==> Row(MoveToFront(list, nn), 16 * l) == [list[16 * l - 1]] + Row(list, 16 * l)[..15]
  {
    MoveAt(list, nn, 16 * l);
    var m := MoveToFront(list, nn);
    if 16 * l + 15 <= nn {
      forall t | 1 <= t < 16 ensures Row(m, 16 * l)[t] == Row(list, 16 * l)[t - 1] {
        MoveAt(list, nn, 16 * l + t);
      }
    }
  }

  /** The rows that a step down from sublist l leaves alone. */
  lemma SlideOthers(list: seq<byte>, m: seq<byte>, b: seq<int>, n: nat, a: seq<byte>, c: seq<int>, l: nat, v: byte)
    requires 1 <= l && Sliding(list, m, b, n, a, c, l) && v == Row(a, b[l - 1])[15]
    ensures 1 <= c[l] && c[l] - 1 < |a|
    ensures forall k :: 0 <= k < l ==> Row(a[c[l] - 1 := v], b[k]) == Row(list, 16 * k)
    ensures forall k :: l < k < n ==> Row(a[c[l] - 1 := v], b[k] - 1) == Row(m, 16 * k)
    ensures forall k :: n < k < 16 ==> Row(a[c[l] - 1 := v], b[k]) == Row(m, 16 * k)
    ensures l < n ==> Row(a[c[l] - 1 := v], b[n]) == Row(m, 16 * n)
  {
    var x := c[l] - 1;
    assert b[l - 1] + MTFL_SIZE * (l - (l - 1)) <= b[l];
    assert v == a[b[l - 1] + 15];
    RowsBelow(b, a, x, v, l);
    RowsAbove(b, a, x, v, l);
    hide Row, Layout;
  }

  lemma RowsBelow(b: seq<int>, a: seq<byte>, x: nat, v: byte, l: nat)
    requires Layout(b) && 1 <= l < 16 && |a| == MTFA_SIZE && forall k :: 0 <= k < 16 ==> 1 <= b[k] <= |a| - 16
    requires b[l - 1] + 15 <= x < |a| && v == a[b[l - 1] + 15]
    ensures forall k :: 0 <= k < l ==> Row(a[x := v], b[k]) == Row(a, b[k])
  {
    forall k | 0 <= k < l ensures Row(a[x := v], b[k]) == Row(a, b[k]) {
      if k < l - 1 { assert b[k] + MTFL_SIZE * (l - 1 - k) <= b[l - 1]; }
      RowKept(a, x, v, b[k]);
    }
  }

  lemma RowsAbove(b: seq<int>, a: seq<byte>, x: nat, v: byte, l: nat)
    requires Layout(b) && l < 16 && |a| == MTFA_SIZE && x <= b[l] && forall k :: 0 <= k < 16 ==> 1 <= b[k] <= |a| - 16
    ensures forall k :: l < k < 16 ==> Row(a[x := v], b[k]) == Row(a, b[k]) && Row(a[x := v], b[k] - 1) == Row(a, b[k] - 1)
  {
    forall k | l < k < 16
      ensures Row(a[x := v], b[k] - 1) == Row(a, b[k] - 1) && Row(a[x := v], b[k]) == Row(a, b[k])
    {
      assert b[l] + MTFL_SIZE * (k - l) <= b[k];
      RowKept(a, x, v, b[k]);
      RowKept(a, x, v, b[k] - 1);
    }
  }

  /** The row of the sublist that takes a step down. */
  lemma SlideSelf(list: seq<byte>, nn: nat, b: seq<int>, n: nat, a: seq<byte>, c: seq<int>, l: nat, v: byte)
    requires |list| == 256 && nn < 256 && n == nn / 16 && 1 <= l
    requires Sliding(list, MoveToFront(list, nn), b, n, a, c, l) && v == Row(a, b[l - 1])[15]
    ensures 1 <= c[l] && c[l] + 14 < |a| && Row(a[c[l] - 1 := v], c[l] - 1) == Row(MoveToFront(list, nn), 16 * l)
  {
    var x := c[l] - 1;
    RowOfMoved(list, nn, l);
    var m := Row(MoveToFront(list, nn), 16 * l);
    hide MoveToFront;
    if l == n {
      JoinRow(a, b[n], m, v);
    } else {
      assert Row(a, b[l]) == Row(list, 16 * l);
      ShiftRow(a, x, v, b[l]);
    }
  }

  lemma SlideBaseStep(b: seq<int>, n: nat, c: seq<int>, l: nat)
    requires SlidingBase(b, n, c, l) && 1 <= l
    ensures 1 <= c[l] <= MTFA_SIZE && c[l - 1] == b[l - 1] && c[l] - 1 == if l == n then b[l] else b[l] - 1
    ensures SlidingBase(b, n, c[l := c[l] - 1], l - 1)
  {
  }

  /** One step down: sublist l gives up its last entry and takes the one before its first. */
  lemma SlideStep(list: seq<byte>, nn: nat, b: seq<int>, n: nat, a: seq<byte>, c: seq<int>, l: nat)
    requires |list| == 256 && nn < 256 && n == nn / 16 && 1 <= l
    requires Sliding(list, MoveToFront(list, nn), b, n, a, c, l)
    ensures 1 <= c[l] && 0 <= c[l - 1] && c[l - 1] + 15 < |a| && c[l] - 1 < |a|
    ensures Sliding(list, MoveToFront(list, nn), b, n, a[c[l] - 1 := a[c[l - 1] + 15]], c[l := c[l] - 1], l - 1)
  {
    var v := a[c[l - 1] + 15];
    assert v == Row(a, b[l - 1])[15];
    SlideOthers(list, MoveToFront(list, nn), b, n, a, c, l, v);
    SlideSelf(list, nn, b, n, a, c, l, v);
    SlideBaseStep(b, n, c, l);
    hide Row, MoveToFront, Layout, SlidingBase;
  }

  lemma JoinRow(a: seq<byte>, s: nat, m: seq<byte>, v: byte)
    requires s + 16 <= |a| && |m| == 16 && Row(a, s)[1..] == m[1..] && m[0] == v
    ensures Row(a[s := v], s) == m
  {
    forall t | 0 <= t < 16 ensures Row(a[s := v], s)[t] == m[t] {
      if t > 0 { assert Row(a, s)[1..][t - 1] == m[1..][t - 1]; }
    }
  }

  lemma ShiftRow(a: seq<byte>, x: nat, v: byte, s: nat)
    requires s + 16 <= |a| && s == x + 1
    ensures Row(a[x := v], x) == [v] + Row(a, s)[..15]
  {
  }

  lemma SlideBounds(list: seq<byte>, m: seq<byte>, b: seq<int>, n: nat, a: seq<byte>, c: seq<int>, l: nat)
    requires Sliding(list, m, b, n, a, c, l)
    ensures |a| == MTFA_SIZE && |c| == 16 && l <= n < 16
  {
  }

  /** Room for the sublists once the lower ones have slid down, and the list they hold. */
  ghost predicate Slid(a: seq<byte>, c: seq<int>, m: seq<byte>) {
    && |a| == MTFA_SIZE && |m| == 256 && |c| == 16 && 0 <= c[0] && c[15] + MTFL_SIZE <= MTFA_SIZE
    && (forall j, k :: 0 <= j < k < 16 ==> c[j] + MTFL_SIZE * (k - j) <= c[k])
    && forall k :: 0 <= k < 16 ==> 0 <= c[k] <= |a| - 16 && Row(a, c[k]) == Row(m, 16 * k)
  }

  lemma SlideEnd(list: seq<byte>, nn: nat, b: seq<int>, n: nat, a: seq<byte>, c: seq<int>)
    requires |list| == 256 && nn < 256 && n == nn / 16 && 1 <= n
    requires Sliding(list, MoveToFront(list, nn), b, n, a, c, 0)
    ensures 1 <= c[0] <= |a|
    ensures Slid(a[c[0] - 1 := list[nn]], c[0 := c[0] - 1], MoveToFront(list, nn))
  {
    var m, x, v := MoveToFront(list, nn), c[0] - 1, list[nn];
    var a' := a[x := v];
    var c' := c[0 := x];
    MoveAt(list, nn, 0);
    forall t | 1 <= t < 16 ensures Row(m, 0)[t] == Row(list, 0)[t - 1] {
      MoveAt(list, nn, t);
    }
    ShiftRow(a, x, v, b[0]);
    assert Row(a, b[0]) == Row(list, 16 * 0);
    assert Row(m, 0) == [v] + Row(list, 0)[..15];
    forall k | 0 < k < 16 ensures 0 <= c'[k] <= |a| - 16 && Row(a', c'[k]) == Row(m, 16 * k) {
      assert b[0] + MTFL_SIZE * (k - 0) <= b[k];
      RowKept(a, x, v, c'[k]);
    }
    forall j, k | 0 <= j < k < 16 ensures c'[j] + MTFL_SIZE * (k - j) <= c'[k] {
      assert b[j] + MTFL_SIZE * (k - j) <= b[k];
    }
    assert c'[15] <= b[15];
  }

  // ---------- re-packing ----------

  /** Sublists from ii on have been copied to the end, and of sublist ii - 1 the entries
      from jj on; the others are still where c says. */
  ghost predicate Repacking(a: seq<byte>, c: seq<int>, list: seq<byte>, ii: nat, jj: nat) {
    && Packed(a, c, list, ii, jj)
    && (forall k :: 0 <= k < ii ==> 0 <= c[k] <= 3840 + 16 * k)
    && (forall j, k :: 0 <= j < k < ii ==> c[j] + 16 <= c[k])
    && (forall k :: 0 <= k < ii - 1 ==> Row(a, c[k]) == Row(list, 16 * k))
    && (ii > 0 ==> Row(a, c[ii - 1])[..jj] == Row(list, 16 * (ii - 1))[..jj])
  }

  lemma RepackStart(a: seq<byte>, c: seq<int>, list: seq<byte>)
    requires Slid(a, c, list)
    ensures Repacking(a, c, list, 16, 16)
  {
    forall k | 0 <= k < 16 ensures c[k] <= 3840 + 16 * k {
      assert k < 15 ==> c[k] + MTFL_SIZE * (15 - k) <= c[15];
    }
    forall j, k | 0 <= j < k < 16 ensures c[j] + 16 <= c[k] {
      assert c[j] + MTFL_SIZE * (k - j) <= c[k];
    }
  }

  /** The cell written is never one that is still to be read, unless it is the very one
      just read. */
  lemma RepackCell(a: seq<byte>, c: seq<int>, list: seq<byte>, ii: nat, jj: nat)
    requires Repacking(a, c, list, ii, jj) && ii > 0 && jj > 0
    ensures 0 <= c[ii - 1] <= MTFA_SIZE - 16
    ensures a[c[ii - 1] + (jj - 1)] == list[16 * (ii - 1) + (jj - 1)]
    ensures Repacking(a[3840 + 16 * (ii - 1) + (jj - 1) := a[c[ii - 1] + (jj - 1)]], c, list, ii, jj - 1)
  {
    var s, x := c[ii - 1], 3840 + 16 * (ii - 1) + (jj - 1);
    var v := a[s + (jj - 1)];
    assert v == Row(a, s)[..jj][jj - 1] == Row(list, 16 * (ii - 1))[..jj][jj - 1];
    var a' := a[x := v];
    forall k | 0 <= k < ii - 1 ensures Row(a', c[k]) == Row(list, 16 * k) {
      RowKept(a, x, v, c[k]);
    }
    forall t | 0 <= t < jj - 1 ensures Row(a', s)[t] == Row(list, 16 * (ii - 1))[t] {
      assert Row(a, s)[..jj][t] == Row(list, 16 * (ii - 1))[..jj][t];
    }
    assert Row(a', s)[..jj - 1] == Row(list, 16 * (ii - 1))[..jj - 1];
  }

  lemma RepackRow(a: seq<byte>, c: seq<int>, list: seq<byte>, ii: nat)
    requires Repacking(a, c, list, ii, 0) && ii > 0
    ensures Repacking(a, c[ii - 1 := 3840 + 16 * (ii - 1)], list, ii - 1, 16)
  {
    var c' := c[ii - 1 := 3840 + 16 * (ii - 1)];
    if ii > 1 {
      assert Row(a, c[ii - 2]) == Row(list, 16 * (ii - 2));
      assert Row(a, c[ii - 2])[..16] == Row(list, 16 * (ii - 2))[..16];
    }
  }

  lemma RepackShape(a: seq<byte>, c: seq<int>, list: seq<byte>, ii: nat, jj: nat)
    requires Repacking(a, c, list, ii, jj)
    ensures |a| == MTFA_SIZE && |c| == 16 && Packed(a, c, list, ii, jj)
  {
  }

  method Repack(mtfa: array<byte>, mtfbase: array<int>, ghost list: seq<byte>)
    requires Slid(mtfa[..], mtfbase[..], list) && mtfa as object != mtfbase
    modifies mtfa, mtfbase
    ensures Represents(mtfa[..], mtfbase[..], list)
  {
    hide Repacking, Represents, Slid, Packed;
    ghost var a, c := mtfa[..], mtfbase[..];
    RepackStart(a, c, list);
    RepackShape(a, c, list, 16, 16);
    var kk: int := MTFA_SIZE - 1;
    var ii: int := 256 / MTFL_SIZE - 1;
    while ii >= 0
      invariant -1 <= ii < 16 && kk == 3840 + 16 * ii + 15
      invariant mtfa[..] == a && mtfbase[..] == c && |a| == MTFA_SIZE && |c| == 16
      invariant Repacking(a, c, list, ii + 1, 16)
      decreases ii
    {
      var jj: int := MTFL_SIZE - 1;
      while jj >= 0
        invariant -1 <= jj < 16 && kk == 3840 + 16 * ii + jj
        invariant mtfa[..] == a && mtfbase[..] == c && |a| == MTFA_SIZE && |c| == 16
        invariant Repacking(a, c, list, ii + 1, jj + 1)
        decreases jj
      {
        RepackCell(a, c, list, ii + 1, jj + 1);
        mtfa[kk] := mtfa[mtfbase[ii] + jj];
        a := a[kk := a[c[ii] + jj]];
        kk := kk - 1;
        jj := jj - 1;
      }
      RepackRow(a, c, list, ii + 1);
      mtfbase[ii] := kk + 1;
      c := c[ii := kk + 1];
      ii := ii - 1;
    }
    RepackShape(a, c, list, 0, 16);
    PackedAll(a, c, list);
  }

  method MoveLong(mtfa: array<byte>, mtfbase: array<int>, nn: nat, ghost list: seq<byte>) returns (uc: byte)
    requires Represents(mtfa[..], mtfbase[..], list) && MTFL_SIZE <= nn < 256
    requires mtfa as object != mtfbase
    modifies mtfa, mtfbase
    ensures uc == list[nn] && Represents(mtfa[..], mtfbase[..], MoveToFront(list, nn))
  {
    hide Represents, MoveToFront, Sliding, Slid;
    ghost var b := mtfbase[..];
    RepresentsShape(mtfa[..], b, list);
    ghost var m := MoveToFront(list, nn);
    var lno := nn / MTFL_SIZE;
    ghost var n := lno;
    var off := nn % MTFL_SIZE;
    uc := ShiftSublist(mtfa, mtfbase, lno, off, list);
    ghost var a, c := mtfa[..], b[lno := b[lno] + 1];
    SlideBounds(list, m, b, n, a, c, n);
    mtfbase[lno] := mtfbase[lno] + 1;
    while lno > 0
      invariant lno <= n && mtfa[..] == a && mtfbase[..] == c
      invariant |a| == MTFA_SIZE && |c| == 16 && Sliding(list, m, b, n, a, c, lno)
    {
      SlideStep(list, nn, b, n, a, c, lno);
      mtfbase[lno] := mtfbase[lno] - 1;
      mtfa[mtfbase[lno]] := mtfa[mtfbase[lno - 1] + MTFL_SIZE - 1];
      a := a[c[lno] - 1 := a[c[lno - 1] + 15]];
      c := c[lno := c[lno] - 1];
      lno := lno - 1;
    }
    SlideEnd(list, nn, b, n, a, c);
    mtfbase[0] := mtfbase[0] - 1;
    mtfa[mtfbase[0]] := uc;
    a := a[c[0] - 1 := uc];
    c := c[0 := c[0] - 1];
    assert mtfa[..] == a && mtfbase[..] == c;
    if mtfbase[0] == 0 {
      Repack(mtfa, mtfbase, m);
    } else {
      SlidRepresents(a, c, m);
    }
  }

  lemma SlidRepresents(a: seq<byte>, c: seq<int>, m: seq<byte>)
    requires Slid(a, c, m) && c[0] != 0
    ensures Represents(a, c, m)
  {
  }

  method ShiftSublist(mtfa: array<byte>, mtfbase: array<int>, lno: nat, off: nat, ghost list: seq<byte>) returns (uc: byte)
    requires Represents(mtfa[..], mtfbase[..], list) && 1 <= lno < 16 && off < 16
    requires mtfa as object != mtfbase
    modifies mtfa
    ensures uc == list[16 * lno + off] && |mtfbase[..]| == 16
    ensures Sliding(list, MoveToFront(list, 16 * lno + off), mtfbase[..], lno, mtfa[..], mtfbase[..][lno := mtfbase[lno] + 1], lno)
  {
    hide Represents, MoveToFront, Sliding, MovedUp;
    ghost var a0, b := mtfa[..], mtfbase[..];
    RepresentsShape(a0, b, list);
    Entry(a0, b, list, lno, off);
    MovedUpStart(a0, b[lno], off);
    var pp := mtfbase[lno] + off;
    uc := mtfa[pp];
    ghost var a := a0;
    while pp > mtfbase[lno]
      invariant mtfbase[..] == b && mtfa[..] == a && b[lno] <= pp <= b[lno] + off
      invariant |a| == MTFA_SIZE && MovedUp(a0, a, b[lno], off, pp - b[lno])
    {
      MovedUpStep(a0, a, b[lno], off, pp - b[lno]);
      mtfa[pp] := mtfa[pp - 1];
      a := a[pp := a[pp - 1]];
      pp := pp - 1;
    }
    SlideStart(a0, a, b, list, lno, off);
  }

  lemma RepresentsShape(a: seq<byte>, b: seq<int>, list: seq<byte>)
    requires Represents(a, b, list)
    ensures |a| == MTFA_SIZE && |b| == 16 && |list| == 256
    ensures 1 <= b[0] <= MTFA_SIZE - 16 && a[b[0]] == list[0]
  {
    Entry(a, b, list, 0, 0);
  }

  /** `uc = MTF ( nn )`: fetch entry nn and move it to the front. */
  method Fetch(mtfa: array<byte>, mtfbase: array<int>, nn: nat, ghost list: seq<byte>) returns (uc: byte)
    requires Represents(mtfa[..], mtfbase[..], list) && nn < 256
    requires mtfa as object != mtfbase
    modifies mtfa, mtfbase
    ensures uc == list[nn] && Represents(mtfa[..], mtfbase[..], MoveToFront(list, nn))
  {
    if nn < MTFL_SIZE {
      uc := MoveShort(mtfa, mtfbase, nn, list);
    } else {
      uc := MoveLong(mtfa, mtfbase, nn, list);
    }
  }
}
