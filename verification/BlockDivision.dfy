/** How bzip2 divides its input into blocks (bzlib.c): a block is closed as soon as it is full,
    on the run-length coded bytes, and at a flush or the finish. What is taken in decides the
    division; how the calls cut it up does not, but for the very last byte. */
module BlockDivision {
  import opened Words
  import opened MtfCoding
  import opened RunLength

  /** Blocks that have been filled, and the runs since then, the last of them still growing. */
  datatype Filled = Filled(full: seq<seq<Run>>, rest: seq<Run>)

  /** Equal neighbours only after a run that could not grow. */
  ghost predicate Maximal(rs: seq<Run>) {
    && RunsFit(rs)
    && forall k :: 0 < k < |rs| ==> rs[k].ch == rs[k - 1].ch ==> rs[k - 1].len == 255
  }

  /** The byte x does not go on with the last run. */
  predicate Starts(rs: seq<Run>, x: byte) {
    rs == [] || rs[|rs| - 1].ch != x || rs[|rs| - 1].len >= 255
  }

  function Grow(rs: seq<Run>, x: byte): (r: seq<Run>)
    ensures r != []
  {
    if Starts(rs, x) then rs + [Run(x, 1)] else rs[..|rs| - 1] + [Run(x, rs[|rs| - 1].len + 1)]
  }

  /** One more byte: if it starts a run, the one before it is complete, and with it perhaps the
      block. */
  ghost function Take(f: Filled, x: byte, max: nat): Filled
    requires RunsFit(f.rest)
  {
    if f.rest != [] && Starts(f.rest, x) && |BlockOf(f.rest)| >= max then Filled(f.full + [f.rest], [Run(x, 1)])
    else Filled(f.full, Grow(f.rest, x))
  }

  /** The bytes of s taken one by one. */
  ghost function Greedily(s: seq<byte>, max: nat): (f: Filled)
    ensures RunsFit(f.rest)
  {
    if s == [] then Filled([], []) else Take(Greedily(s[..|s| - 1], max), s[|s| - 1], max)
  }

  lemma GreedilyNext(s: seq<byte>, x: byte, max: nat)
    ensures Greedily(s + [x], max) == Take(Greedily(s, max), x, max)
  {
    assert (s + [x])[..|s + [x]| - 1] == s;
  }

  // ---------- what the division is, without reference to the order of bytes ----------

  ghost function Flat(bs: seq<seq<Run>>): seq<Run> {
    if bs == [] then [] else Flat(bs[..|bs| - 1]) + bs[|bs| - 1]
  }

  /** A block that its last run has filled. */
  ghost predicate JustFull(b: seq<Run>, max: nat) {
    b != [] && RunsFit(b) && |BlockOf(b)| >= max && |BlockOf(b[..|b| - 1])| < max
  }

  /** Runs divided into blocks that are just full and a rest that has not been filled before its
      last run. */
  ghost predicate Divides(f: Filled, rs: seq<Run>, max: nat) {
    && rs == Flat(f.full) + f.rest && RunsFit(rs) && (forall k :: 0 <= k < |f.full| ==> JustFull(f.full[k], max))
    && (f.full != [] ==> f.rest != []) && (f.rest != [] ==> RunsFit(f.rest) && |BlockOf(f.rest[..|f.rest| - 1])| < max)
  }

  /** s as maximal runs, divided. */
  ghost predicate IsGreedy(f: Filled, s: seq<byte>, max: nat) {
    var rs := Flat(f.full) + f.rest;
    Maximal(rs) && BytesOf(rs) == s && Divides(f, rs, max)
  }

  lemma {:induction false} BytesConcat(a: seq<Run>, b: seq<Run>)
    ensures BytesOf(a + b) == BytesOf(a) + BytesOf(b)
  {
    hide Repeat;
    if a == [] {
      assert a + b == b;
    } else {
      BytesConcat(a[1..], b);
      assert (a + b)[1..] == a[1..] + b;
      var first := Repeat<byte>(a[0].ch, a[0].len);
      assert first + (BytesOf(a[1..]) + BytesOf(b)) == first + BytesOf(a[1..]) + BytesOf(b);
    }
  }

  lemma {:induction false} BlockConcat(a: seq<Run>, b: seq<Run>)
    requires RunsFit(a) && RunsFit(b)
    ensures RunsFit(a + b) && BlockOf(a + b) == BlockOf(a) + BlockOf(b)
  {
    hide RunBytes;
    if a == [] {
      assert a + b == b;
    } else {
      BlockConcat(a[1..], b);
      assert (a + b)[1..] == a[1..] + b;
      assert RunBytes(a[0]) + (BlockOf(a[1..]) + BlockOf(b)) == RunBytes(a[0]) + BlockOf(a[1..]) + BlockOf(b);
    }
  }

  /** Part of a block is no longer than the block. */
  lemma PartShorter(a: seq<Run>, k: nat)
    requires RunsFit(a) && k <= |a|
    ensures |BlockOf(a[..k])| <= |BlockOf(a)|
  {
    assert a == a[..k] + a[k..];
    BlockConcat(a[..k], a[k..]);
  }

  lemma OneRun(r: Run)
    ensures BytesOf([r]) == Repeat<byte>(r.ch, r.len)
  {
    assert [r][1..] == [];
  }

  /** One byte more, as runs. */
  lemma GrowBytes(rs: seq<Run>, x: byte)
    requires Maximal(rs)
    ensures Maximal(Grow(rs, x)) && BytesOf(Grow(rs, x)) == BytesOf(rs) + [x]
  {
    hide BytesOf;
    var n := |rs|;
    if Starts(rs, x) {
      BytesConcat(rs, [Run(x, 1)]);
      OneRun(Run(x, 1));
      assert Repeat<byte>(x, 1) == [x];
    } else {
      var last, len := rs[n - 1], rs[n - 1].len;
      assert rs == rs[..n - 1] + [last];
      BytesConcat(rs[..n - 1], [last]);
      BytesConcat(rs[..n - 1], [Run(x, len + 1)]);
      OneRun(last);
      OneRun(Run(x, len + 1));
      assert Repeat<byte>(x, len + 1) == Repeat<byte>(x, len) + [x];
    }
  }

  lemma FlatSnoc(bs: seq<seq<Run>>, b: seq<Run>)
    ensures Flat(bs + [b]) == Flat(bs) + b
  {
    assert (bs + [b])[..|bs + [b]| - 1] == bs;
  }

  lemma EmptyBlock()
    ensures BlockOf([]) == []
  {
  }

  lemma FirstRun(x: byte, max: nat)
    requires max > 0
    ensures Divides(Filled([], [Run(x, 1)]), [Run(x, 1)], max)
  {
    assert [Run(x, 1)][..0] == [];
    assert Flat([]) + [Run(x, 1)] == [Run(x, 1)];
  }

  /** The last run grows, or a run is added to a block that is not full. */
  lemma RestGrows(f: Filled, rest: seq<Run>, x: byte, max: nat)
    requires Divides(f, Flat(f.full) + f.rest, max) && f.rest != [] && rest == Grow(f.rest, x)
    requires Starts(f.rest, x) ==> |BlockOf(f.rest)| < max
    ensures Divides(Filled(f.full, rest), Flat(f.full) + rest, max)
  {
    hide BlockOf, Flat, JustFull;
    var n := |f.rest|;
    var rs := Flat(f.full) + f.rest;
    var a := Flat(f.full);
    assert forall k :: 0 <= k < n ==> rs[|a| + k] == f.rest[k];
    assert forall k :: 0 <= k < |a| ==> rs[k] == a[k];
    assert RunsFit(rest);
    assert RunsFit(a + rest);
    assert rest[..|rest| - 1] == if Starts(f.rest, x) then f.rest else f.rest[..n - 1];
  }

  /** The block is full, and the byte starts the next. */
  lemma BlockCloses(f: Filled, x: byte, max: nat)
    requires Divides(f, Flat(f.full) + f.rest, max) && f.rest != [] && |BlockOf(f.rest)| >= max > 0
    ensures Divides(Filled(f.full + [f.rest], [Run(x, 1)]), Flat(f.full) + f.rest + [Run(x, 1)], max)
  {
    hide BlockOf, Flat;
    EmptyBlock();
    FlatSnoc(f.full, f.rest);
    assert [Run(x, 1)][..0] == [];
  }

  lemma GrowRest(a: seq<Run>, rest: seq<Run>, x: byte)
    requires rest != []
    ensures Grow(a + rest, x) == a + Grow(rest, x)
  {
    assert (a + rest)[..|a + rest| - 1] == a + rest[..|rest| - 1];
  }

  lemma TakeDivides(f: Filled, x: byte, max: nat)
    requires Divides(f, Flat(f.full) + f.rest, max) && max > 0
    ensures RunsFit(f.rest)
    ensures var g := Take(f, x, max); var rs := Flat(f.full) + f.rest;
            Flat(g.full) + g.rest == Grow(rs, x) && Divides(g, Grow(rs, x), max)
  {
    hide BlockOf, Flat, Divides, RunsFit;
    RestFits(f, max);
    if f.rest == [] {
      FirstRun(x, max);
      assert Flat(f.full) + f.rest == [];
    } else {
      GrowRest(Flat(f.full), f.rest, x);
      if Starts(f.rest, x) && |BlockOf(f.rest)| >= max {
        BlockCloses(f, x, max);
        FlatSnoc(f.full, f.rest);
        assert Grow(f.rest, x) == f.rest + [Run(x, 1)];
        assert Flat(f.full) + f.rest + [Run(x, 1)] == Flat(f.full) + (f.rest + [Run(x, 1)]);
      } else {
        RestGrows(f, Grow(f.rest, x), x, max);
      }
    }
  }

  lemma RestFits(f: Filled, max: nat)
    requires Divides(f, Flat(f.full) + f.rest, max)
    ensures RunsFit(f.rest) && (f.rest == [] ==> f.full == [] && Flat(f.full) == [])
  {
  }

  lemma {:induction false} GreedilyIs(s: seq<byte>, max: nat)
    requires max > 0
    ensures IsGreedy(Greedily(s, max), s, max)
  {
    hide Maximal, BytesOf, Take, Divides;
    if s == [] {
      NothingTaken(max);
    } else {
      var n := |s| - 1;
      GreedilyIs(s[..n], max);
      var f := Greedily(s[..n], max);
      TakeDivides(f, s[n], max);
      GrowBytes(Flat(f.full) + f.rest, s[n]);
      assert s == s[..n] + [s[n]];
    }
  }

  lemma NothingTaken(max: nat)
    ensures Maximal([]) && BytesOf([]) == [] && Divides(Filled([], []), [], max) && Flat([]) == []
  {
  }

  // ---------- there is only one ----------

  lemma BytesFirst(rs: seq<Run>)
    requires rs != []
    ensures BytesOf(rs) == Repeat<byte>(rs[0].ch, rs[0].len) + BytesOf(rs[1..])
  {
  }

  lemma SameFirst(a: seq<Run>, b: seq<Run>)
    requires Maximal(a) && Maximal(b) && a != [] && b != [] && BytesOf(a) == BytesOf(b)
    ensures a[0].len >= b[0].len && a[0].ch == b[0].ch
  {
    hide BytesOf;
    var s, x, y := BytesOf(a), a[0], b[0];
    BytesFirst(a);
    BytesFirst(b);
    NoBytes();
    assert s[0] == x.ch && s[0] == y.ch;
    if |a| == 1 {
      assert |s| == x.len;
    } else {
      BytesFirst(a[1..]);
      assert s[x.len] == a[1].ch;
      assert a[1].ch == a[1 - 1].ch ==> x.len == 255;
    }
    assert y.len <= 255 && |s| >= y.len;
    assert forall k :: 0 <= k < y.len ==> s[k] == y.ch;
  }

  lemma NoBytes()
    ensures BytesOf([]) == []
  {
  }

  lemma MaximalRest(a: seq<Run>)
    requires Maximal(a) && a != []
    ensures Maximal(a[1..])
  {
    forall k | 0 < k < |a[1..]| && a[1..][k].ch == a[1..][k - 1].ch ensures a[1..][k - 1].len == 255 {
      assert a[k + 1].ch == a[k + 1 - 1].ch;
    }
  }

  /** A string is maximal runs in one way only. */
  lemma {:induction false} RunsUnique(a: seq<Run>, b: seq<Run>)
    requires Maximal(a) && Maximal(b) && BytesOf(a) == BytesOf(b)
    ensures a == b
    decreases |a|
  {
    hide BytesOf, Maximal;
    NoBytes();
    if a == [] || b == [] {
      if a != [] { SomeBytes(a); }
      if b != [] { SomeBytes(b); }
    } else {
      SameFirst(a, b);
      SameFirst(b, a);
      BytesFirst(a);
      BytesFirst(b);
      MaximalRest(a);
      MaximalRest(b);
      var n := a[0].len;
      assert BytesOf(a)[n..] == BytesOf(a[1..]) && BytesOf(b)[n..] == BytesOf(b[1..]);
      RunsUnique(a[1..], b[1..]);
      assert a == [a[0]] + a[1..] && b == [b[0]] + b[1..];
    }
  }

  lemma SomeBytes(a: seq<Run>)
    requires Maximal(a) && a != []
    ensures BytesOf(a) != []
  {
  }

  /** The first block is the shortest beginning that is full. */
  lemma FirstBlock(rs: seq<Run>, b: seq<Run>, c: seq<Run>, max: nat)
    requires RunsFit(rs) && b <= rs && c <= rs && JustFull(b, max) && c != []
    requires |BlockOf(c[..|c| - 1])| < max
    ensures |b| >= |c|
  {
    hide BlockOf;
    if |b| < |c| {
      var front := c[..|c| - 1];
      assert front[..|b|] == b;
      assert forall k :: 0 <= k < |c| ==> c[k] == rs[k];
      PartShorter(front, |b|);
    }
  }

  lemma {:induction false} FlatFirst(bs: seq<seq<Run>>)
    requires bs != []
    ensures Flat(bs) == bs[0] + Flat(bs[1..])
  {
    var n := |bs| - 1;
    if n == 0 {
      assert bs[..0] == [] && bs[1..] == [];
    } else {
      FlatFirst(bs[..n]);
      assert bs[..n][1..] == bs[1..][..n - 1];
      assert bs[0] + (Flat(bs[1..][..n - 1]) + bs[n]) == bs[0] + Flat(bs[1..][..n - 1]) + bs[n];
    }
  }

  lemma DividesRest(f: Filled, rs: seq<Run>, max: nat)
    requires Divides(f, rs, max) && f.full != []
    ensures f.full[0] <= rs && JustFull(f.full[0], max) && f.rest != [] && |f.full[0]| < |rs|
    ensures Divides(Filled(f.full[1..], f.rest), rs[|f.full[0]|..], max)
  {
    hide BlockOf, Flat;
    FlatFirst(f.full);
    var n := |f.full[0]|;
    assert rs == f.full[0] + (Flat(f.full[1..]) + f.rest);
    assert rs[n..] == Flat(f.full[1..]) + f.rest;
    assert forall k :: 0 <= k < |rs[n..]| ==> rs[n..][k] == rs[n + k];
  }

  lemma NoBlock(f: Filled, g: Filled, rs: seq<Run>, max: nat)
    requires Divides(f, rs, max) && Divides(g, rs, max) && f.full == []
    ensures g.full == []
  {
    hide BlockOf;
    if g.full != [] {
      DividesRest(g, rs, max);
      assert Flat([]) + f.rest == f.rest;
      FirstBlock(rs, g.full[0], rs, max);
    }
  }

  lemma {:induction false} DivisionUnique(f: Filled, g: Filled, rs: seq<Run>, max: nat)
    requires Divides(f, rs, max) && Divides(g, rs, max)
    ensures f == g
    decreases |f.full|
  {
    hide Divides, JustFull, Flat, RunsFit;
    if f.full == [] || g.full == [] {
      if f.full == [] { NoBlock(f, g, rs, max); } else { NoBlock(g, f, rs, max); }
      OnlyRest(f, rs, max);
      OnlyRest(g, rs, max);
    } else {
      DividesRest(f, rs, max);
      DividesRest(g, rs, max);
      SameBlock(f, g, rs, max);
      DivisionUnique(Filled(f.full[1..], f.rest), Filled(g.full[1..], g.rest), rs[|f.full[0]|..], max);
      assert f.full == [f.full[0]] + f.full[1..] && g.full == [g.full[0]] + g.full[1..];
    }
  }

  lemma OnlyRest(f: Filled, rs: seq<Run>, max: nat)
    requires Divides(f, rs, max) && f.full == []
    ensures f.rest == rs
  {
  }

  lemma SameBlock(f: Filled, g: Filled, rs: seq<Run>, max: nat)
    requires Divides(f, rs, max) && Divides(g, rs, max) && f.full != [] && g.full != []
    ensures f.full[0] == g.full[0]
  {
    hide BlockOf, Flat;
    DividesRest(f, rs, max);
    DividesRest(g, rs, max);
    FirstBlock(rs, f.full[0], g.full[0], max);
    FirstBlock(rs, g.full[0], f.full[0], max);
  }

  /** The division of a string is the one that taking its bytes one by one gives: no other has
      blocks that are just full, of maximal runs. */
  lemma GreedyUnique(f: Filled, s: seq<byte>, max: nat)
    requires max > 0
    ensures IsGreedy(f, s, max) <==> f == Greedily(s, max)
  {
    hide Maximal, BytesOf, Divides, Flat, Greedily;
    GreedilyIs(s, max);
    var g := Greedily(s, max);
    if IsGreedy(f, s, max) {
      RunsUnique(Flat(f.full) + f.rest, Flat(g.full) + g.rest);
      DivisionUnique(f, g, Flat(f.full) + f.rest, max);
    }
  }

  // ---------- the blocks of a string that a flush or the finish ends ----------

  /** The last byte closes no block if it has come with the flush or the finish; if it was there
      before, it may be alone in the last block. */
  ghost function Blocks(s: seq<byte>, late: bool, max: nat): seq<seq<Run>> {
    if s == [] then []
    else if late then
      var f := Greedily(s[..|s| - 1], max);
      f.full + [Grow(f.rest, s[|s| - 1])]
    else
      var f := Greedily(s, max);
      f.full + [f.rest]
  }

  /** It matters when the last byte came if and only if that byte starts a run and the block was
      full before it. */
  lemma LateMatters(s: seq<byte>, max: nat)
    requires s != []
    ensures var f, x := Greedily(s[..|s| - 1], max), s[|s| - 1];
            Blocks(s, true, max) != Blocks(s, false, max) <==> f.rest != [] && Starts(f.rest, x) && |BlockOf(f.rest)| >= max
  {
    hide BlockOf;
    var f, x := Greedily(s[..|s| - 1], max), s[|s| - 1];
    var g := Greedily(s, max);
    assert g == Take(f, x, max);
    var early, late := Blocks(s, false, max), Blocks(s, true, max);
    if f.rest != [] && Starts(f.rest, x) && |BlockOf(f.rest)| >= max {
      assert |early| == |f.full| + 2 && |late| == |f.full| + 1;
    } else {
      assert g == Filled(f.full, Grow(f.rest, x));
    }
  }

  /** The blocks of a string hold the string; all but the last, of which there may be two, are
      just full. */
  lemma BlocksHold(s: seq<byte>, late: bool, max: nat)
    requires max > 0
    ensures BytesOf(Flat(Blocks(s, late, max))) == s
    ensures forall k :: 0 <= k < |Blocks(s, late, max)| - 1 ==> JustFull(Blocks(s, late, max)[k], max)
  {
    hide BlockOf, BytesOf, JustFull, Take, Maximal;
    if s == [] {
      NoBytes();
      assert Flat([]) == [];
    } else {
      var n := |s| - 1;
      GreedilyIs(s, max);
      GreedilyIs(s[..n], max);
      var f := Greedily(s[..n], max);
      FlatSnoc(f.full, Grow(f.rest, s[n]));
      var g := Greedily(s, max);
      FlatSnoc(g.full, g.rest);
      GrowBytes(Flat(f.full) + f.rest, s[n]);
      assert s == s[..n] + [s[n]];
      if f.rest != [] {
        GrowRest(Flat(f.full), f.rest, s[n]);
      } else {
        assert f.full == [] && Flat([]) == [];
        assert Flat(f.full) + f.rest == [] && [] + Grow(f.rest, s[n]) == Grow(f.rest, s[n]);
      }
    }
  }

  // ---------- an input for which it matters ----------

  /** Two characters taking turns. */
  function Alternating(n: nat): (s: seq<byte>)
    ensures |s| == n
  {
    seq(n, i => (i % 2) as byte)
  }

  function Singles(n: nat): (rs: seq<Run>)
    ensures |rs| == n && forall i :: 0 <= i < n ==> rs[i] == Run((i % 2) as byte, 1)
  {
    seq(n, i => Run((i % 2) as byte, 1))
  }

  lemma {:induction false} SinglesLength(n: nat)
    ensures RunsFit(Singles(n)) && |BlockOf(Singles(n))| == n
  {
    hide BlockOf, RunBytes;
    if n == 0 {
      EmptyBlock();
    } else {
      var r := Run(((n - 1) % 2) as byte, 1);
      SinglesLength(n - 1);
      assert Singles(n) == Singles(n - 1) + [r];
      BlockSnoc(Singles(n - 1), r);
      assert |RunBytes(r)| == 1 by { OneByteRun(r); }
    }
  }

  lemma OneByteRun(r: Run)
    requires r.len == 1
    ensures |RunBytes(r)| == 1
  {
  }

  /** The next character starts a run. */
  lemma SinglesTake(n: nat, max: nat)
    ensures RunsFit(Singles(n)) && Starts(Singles(n), (n % 2) as byte)
    ensures Take(Filled([], Singles(n)), (n % 2) as byte, max) ==
            if n > 0 && n >= max then Filled([Singles(n)], [Run((n % 2) as byte, 1)]) else Filled([], Singles(n + 1))
    ensures Grow(Singles(n), (n % 2) as byte) == Singles(n + 1)
  {
    hide BlockOf;
    SinglesLength(n);
    LastOfAlternating(n);
  }

  lemma NoneTaken(max: nat)
    ensures Greedily(Alternating(0), max) == Filled([], Singles(0))
  {
    assert Alternating(0) == [] && Singles(0) == [];
  }

  lemma {:induction false} AlternatingRuns(n: nat, max: nat)
    requires n <= max
    ensures Greedily(Alternating(n), max) == Filled([], Singles(n))
  {
    hide *;
    if n == 0 {
      NoneTaken(max);
    } else {
      var m := n - 1;
      AlternatingRuns(m, max);
      SinglesTake(m, max);
      LastOfAlternating(m);
      GreedilyNext(Alternating(m), (m % 2) as byte, max);
    }
  }

  /** One character more than a block holds: if all were there before the finish, the last is a
      block of its own; if it comes with the finish, it goes into the full one. */
  lemma LateWitness(max: nat)
    requires max > 0
    ensures var s := Alternating(max + 1);
            && Blocks(s, false, max) == [Singles(max), [Run((max % 2) as byte, 1)]]
            && Blocks(s, true, max) == [Singles(max + 1)]
  {
    hide *;
    var s, x := Alternating(max), (max % 2) as byte;
    LastOfAlternating(max);
    AlternatingRuns(max, max);
    SinglesTake(max, max);
    GreedilyNext(s, x, max);
    BlocksAre(s, x, max);
  }

  lemma BlocksAre(s: seq<byte>, x: byte, max: nat)
    ensures Blocks(s + [x], true, max) == Greedily(s, max).full + [Grow(Greedily(s, max).rest, x)]
    ensures Blocks(s + [x], false, max) == Greedily(s + [x], max).full + [Greedily(s + [x], max).rest]
  {
    assert (s + [x])[..|s + [x]| - 1] == s;
    hide Greedily;
  }

  lemma LastOfAlternating(n: nat)
    ensures Alternating(n + 1) == Alternating(n) + [(n % 2) as byte]
    ensures Singles(n + 1) == Singles(n) + [Run((n % 2) as byte, 1)]
  {
  }
}
