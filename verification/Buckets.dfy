/** The radix sort that mainSort (blocksort.c) begins with: the two-byte frequency table, and
    the positions of the block distributed over small buckets. */
module Buckets {
  import opened Words
  import opened Permutations
  import opened Rotations
  import opened MainCompare

  /** The two characters at position i: the small bucket it belongs to. */
  function Code(b: seq<byte>, i: nat): (c: nat)
    requires |b| > 0
    ensures c < 65536
  {
    256 * At(b, i) + At(b, i + 1)
  }

  ghost function Codes(b: seq<byte>): (s: seq<nat>)
    requires |b| > 0
    ensures |s| == |b| && forall i :: 0 <= i < |b| ==> s[i] == Code(b, i)
  {
    seq<nat>(|b|, i requires 0 <= i < |b| => Code(b, i))
  }

  /** How many elements of m lie below c. */
  ghost function Starts(m: multiset<nat>, c: nat): nat {
    if c == 0 then 0 else Starts(m, c - 1) + m[c - 1]
  }

  lemma {:induction false} StartsAdd(m: multiset<nat>, x: nat, c: nat)
    ensures Starts(m + multiset{x}, c) == Starts(m, c) + if x < c then 1 else 0
  {
    if c > 0 { StartsAdd(m, x, c - 1); }
  }

  lemma {:induction false} StartsAll(s: seq<nat>, k: nat)
    requires forall i :: 0 <= i < |s| ==> s[i] < k
    ensures Starts(multiset(s), k) == |s|
  {
    if s == [] {
      StartsNone(k);
    } else {
      var init := s[..|s| - 1];
      assert s == init + [s[|s| - 1]];
      StartsAll(init, k);
      StartsAdd(multiset(init), s[|s| - 1], k);
    }
  }

  lemma {:induction false} StartsNone(k: nat)
    ensures Starts(multiset{}, k) == 0
  {
    if k > 0 { StartsNone(k - 1); }
  }

  lemma {:induction false} StartsMonotone(m: multiset<nat>, c: nat, d: nat)
    requires c <= d
    ensures Starts(m, c) <= Starts(m, d)
    decreases d
  {
    if c < d { StartsMonotone(m, c, d - 1); }
  }

  /** Where small bucket c begins. */
  ghost function Start(b: seq<byte>, c: nat): nat
    requires |b| > 0
  {
    Starts(multiset(Codes(b)), c)
  }

  lemma StartRange(b: seq<byte>, c: nat, d: nat)
    requires |b| > 0 && c <= d <= 65536
    ensures Start(b, c) <= Start(b, d) <= |b| && Start(b, 65536) == |b| && Start(b, 0) == 0
  {
    StartsMonotone(multiset(Codes(b)), c, d);
    StartsMonotone(multiset(Codes(b)), d, 65536);
    StartsAll(Codes(b), 65536);
  }

  /** The bucket of slot x. */
  lemma {:induction false} BucketOf(b: seq<byte>, x: nat, k: nat) returns (c: nat)
    requires |b| > 0 && x < Start(b, k) && k <= 65536
    ensures c < k && Start(b, c) <= x < Start(b, c + 1)
  {
    assert k > 0 by { StartRange(b, 0, 0); }
    if x >= Start(b, k - 1) { c := k - 1; } else { c := BucketOf(b, x, k - 1); }
  }

  /** Every slot of a small bucket holds a position that belongs there. */
  ghost predicate InBuckets(b: seq<byte>, f: seq<nat>)
    requires |b| > 0
  {
    && |f| == |b| && (forall x :: 0 <= x < |f| ==> f[x] < |b|)
    && forall c, x :: 0 <= c < 65536 && Start(b, c) <= x < Start(b, c + 1) && x < |f| ==> Code(b, f[x]) == c
  }

  lemma SlotOf(b: seq<byte>, f: seq<nat>, x: nat)
    requires |b| > 0 && InBuckets(b, f) && x < |b|
    ensures Start(b, Code(b, f[x])) <= x < Start(b, Code(b, f[x]) + 1)
  {
    StartRange(b, 0, 0);
    var c := BucketOf(b, x, 65536);
  }

  // ---------- counting ----------

  /** t holds the number of occurrences of every code in s. */
  ghost predicate Counted(t: seq<nat>, s: seq<nat>) {
    |t| == 65537 && forall c :: 0 <= c < |t| ==> t[c] == multiset(s)[c]
  }

  lemma CountOne(t: seq<nat>, b: seq<byte>, i: nat)
    requires |b| > 0 && i < |b| && Counted(t, Codes(b)[i + 1..])
    ensures Code(b, i) < |t| && Counted(t[Code(b, i) := t[Code(b, i)] + 1], Codes(b)[i..])
  {
    assert Codes(b)[i..] == [Codes(b)[i]] + Codes(b)[i + 1..];
  }

  /** The code of a position from that of the next. */
  lemma NextCode(b: seq<byte>, j: nat, i: nat)
    requires |b| > 0 && i < |b| && j / 256 == At(b, i + 1) && j < 65536
    ensures Or(Shr(j, 8), Shl(b[i], 8)) == Code(b, i) && Code(b, i) / 256 == b[i] == At(b, i)
  {
    Pow2Values();
    OrDisjoint(b[i], 8, j / 256);
    assert Shr(j, 8) == j / 256 && Shl(b[i], 8) == b[i] as int * 256;
    hide Or, Shr, Shl;
    DivModUnique(i, |b|, 0, i);
  }

  lemma FirstCode(b: seq<byte>)
    requires |b| > 0
    ensures Shl(b[0], 8) / 256 == At(b, |b|) && Shl(b[0], 8) < 65536
  {
    Pow2Values();
    DivModUnique(|b|, |b|, 1, 0);
  }

  lemma AllCodes(b: seq<byte>)
    requires |b| > 0
    ensures Codes(b)[0..] == Codes(b)
  {
  }

  lemma NoCodes(t: seq<nat>, b: seq<byte>)
    requires |b| > 0 && |t| == 65537 && forall c :: 0 <= c < |t| ==> t[c] == 0
    ensures Counted(t, Codes(b)[|b|..])
  {
    assert Codes(b)[|b|..] == [];
  }

  method ClearTable(ftab: array<nat>)
    requires ftab.Length == 65537
    modifies ftab
    ensures forall c :: 0 <= c < ftab.Length ==> ftab[c] == 0
  {
    var i := ftab.Length - 1;
    while i >= 0
      invariant -1 <= i < ftab.Length && forall c :: i < c < ftab.Length ==> ftab[c] == 0
    {
      ftab[i] := 0;
      i := i - 1;
    }
  }

  ghost predicate Cleared(q: seq<nat>, i: int, n: int) {
    0 <= n <= |q| && forall k :: 0 <= k < n && i <= k ==> q[k] == 0
  }

  lemma ClearNext(q: seq<nat>, i: int, n: int)
    requires Cleared(q, i + 1, n) && 0 <= i < n
    ensures Cleared(q[i := 0], i, n)
  {
  }

  lemma NoneCleared(q: seq<nat>, n: int)
    requires 0 <= n <= |q|
    ensures Cleared(q, n, n)
  {
  }

  /** The two-byte frequency table; the quadrants are cleared on the way. */
  method CountPairs(block: array<byte>, quadrant: array<nat>, ftab: array<nat>, nblock: nat, ghost b: seq<byte>)
    requires ftab != quadrant && ftab.Length == 65537 && 0 < nblock == |b| <= block.Length && nblock <= quadrant.Length && block[..nblock] == b
    modifies quadrant, ftab
    ensures Counted(ftab[..], Codes(b)) && Cleared(quadrant[..], 0, nblock)
  {
    hide *;
    ClearTable(ftab);
    ghost var t, q := ftab[..], quadrant[..];
    NoCodes(t, b);
    NoneCleared(q, nblock);
    FirstCode(b);
    assert block[0] == b[0];
    var j := Shl(block[0], 8);
    var i: int := nblock - 1;
    while i >= 0
      invariant -1 <= i < nblock && ftab[..] == t && quadrant[..] == q
      invariant Counted(t, Codes(b)[i + 1..]) && j / 256 == At(b, i + 1) && j < 65536
      invariant Cleared(q, i + 1, nblock)
    {
      ClearNext(q, i, nblock);
      assert block[i] == b[i];
      NextCode(b, j, i);
      CountOne(t, b, i);
      q := q[i := 0];
      quadrant[i] := 0;
      j := Or(Shr(j, 8), Shl(block[i], 8));
      t := t[j := t[j] + 1];
      ftab[j] := ftab[j] + 1;
      i := i - 1;
    }
    assert i + 1 == 0;
    AllCodes(b);
  }

  /** The table accumulated: bucket c now ends at t[c]. */
  ghost predicate Summed(t: seq<nat>, b: seq<byte>, k: nat)
    requires |b| > 0
  {
    && |t| == 65537 && (forall c :: 0 <= c < k && c < |t| ==> t[c] == Start(b, c + 1))
    && forall c :: k <= c < |t| ==> t[c] == multiset(Codes(b))[c]
  }

  lemma SumStart(t: seq<nat>, b: seq<byte>)
    requires |b| > 0 && Counted(t, Codes(b))
    ensures Summed(t, b, 1)
  {
    assert Start(b, 1) == Start(b, 0) + multiset(Codes(b))[0];
  }

  lemma SumNext(t: seq<nat>, b: seq<byte>, i: nat)
    requires |b| > 0 && 1 <= i < |t| && Summed(t, b, i)
    ensures Summed(t[i := t[i] + t[i - 1]], b, i + 1)
  {
    assert t[i - 1] == Start(b, i);
    assert Start(b, i + 1) == Start(b, i) + multiset(Codes(b))[i];
  }

  method Accumulate(ftab: array<nat>, ghost b: seq<byte>)
    requires |b| > 0 && Counted(ftab[..], Codes(b)) && ftab.Length == 65537
    modifies ftab
    ensures Summed(ftab[..], b, 65537)
  {
    hide *;
    SumStart(ftab[..], b);
    for i := 1 to 65537
      invariant Summed(ftab[..], b, i)
    {
      SumNext(ftab[..], b, i);
      ghost var t := ftab[..];
      ftab[i] := ftab[i] + ftab[i - 1];
      assert ftab[..] == t[i := t[i] + t[i - 1]];
    }
  }

  // ---------- distributing ----------

  /** The table, when positions from i on have been put in place. */
  ghost predicate Ends(b: seq<byte>, t: seq<nat>, i: nat)
    requires |b| > 0 && i <= |b|
  {
    && |t| == 65537 && t[65536] == |b|
    && forall c :: 0 <= c < 65536 ==> t[c] + multiset(Codes(b)[i..])[c] == Start(b, c + 1)
  }

  /** From t[c] on, bucket c holds positions from i on, in order. */
  ghost predicate Filled(b: seq<byte>, t: seq<nat>, f: seq<nat>, i: nat)
    requires |b| > 0 && |t| == 65537
  {
    && |f| == |b|
    && (forall c, x :: 0 <= c < 65536 && t[c] <= x < Start(b, c + 1) && x < |f| ==> i <= f[x] < |b| && Code(b, f[x]) == c)
    && (forall c, x, y :: 0 <= c < 65536 && t[c] <= x < y < Start(b, c + 1) && y < |f| ==> f[x] < f[y])
  }

  /** Positions from i on have been put at the ends of their buckets, in order. */
  ghost predicate Placed(b: seq<byte>, t: seq<nat>, f: seq<nat>, i: nat)
    requires |b| > 0 && i <= |b|
  {
    Ends(b, t, i) && Filled(b, t, f, i)
  }

  lemma PlaceStart(b: seq<byte>, t: seq<nat>, f: seq<nat>)
    requires |b| > 0 && Summed(t, b, 65537) && |f| == |b|
    ensures Placed(b, t, f, |b|)
  {
    assert Codes(b)[|b|..] == [];
    StartsAll(Codes(b), 65537);
  }

  /** Room is left for the next one. */
  lemma RoomLeft(b: seq<byte>, t: seq<nat>, i: nat)
    requires |b| > 0 && i < |b| && Ends(b, t, i + 1)
    ensures var c := Code(b, i); c < |t| && Start(b, c) < t[c] <= Start(b, c + 1) <= |b|
  {
    var c := Code(b, i);
    var s := Codes(b);
    assert s == s[..i] + [s[i]] + s[i + 1..];
    assert multiset(s) == multiset(s[..i]) + multiset{c} + multiset(s[i + 1..]);
    StartRange(b, c + 1, 65536);
  }

  lemma EndsNext(b: seq<byte>, t: seq<nat>, i: nat)
    requires |b| > 0 && i < |b| && Ends(b, t, i + 1)
    ensures var c := Code(b, i); c < |t| && 0 < t[c] && Ends(b, t[c := t[c] - 1], i)
  {
    hide Code, Start;
    RoomLeft(b, t, i);
    assert Codes(b)[i..] == [Codes(b)[i]] + Codes(b)[i + 1..];
  }

  /** Bucket c does not overlap the filled part of bucket d. */
  lemma OtherBucket(b: seq<byte>, t: seq<nat>, i: nat, c: nat, d: nat)
    requires |b| > 0 && i <= |b| && Ends(b, t, i) && c < 65536 && d < 65536 && c != d
    ensures if c < d then Start(b, c + 1) <= t[d] else Start(b, d + 1) <= Start(b, c)
  {
    var m := multiset(Codes(b));
    if c < d {
      StartsMonotone(m, c + 1, d);
      CountAtMost(Codes(b), i, d);
      assert Start(b, d + 1) == Start(b, d) + m[d];
    } else {
      StartsMonotone(m, d + 1, c);
    }
  }

  lemma CountAtMost(s: seq<nat>, i: nat, d: nat)
    requires i <= |s|
    ensures multiset(s[i..])[d] <= multiset(s)[d]
  {
    assert s == s[..i] + s[i..];
  }

  lemma FilledNext(b: seq<byte>, t: seq<nat>, f: seq<nat>, i: nat)
    requires |b| > 0 && i < |b| && Placed(b, t, f, i + 1)
    ensures var c := Code(b, i); c < |t| && 0 < t[c] <= |f| && Filled(b, t[c := t[c] - 1], f[t[c] - 1 := i], i)
  {
    hide Code, Start, Codes, Ends;
    RoomLeft(b, t, i);
    EndsLength(b, t, i + 1);
    var c := Code(b, i);
    var j := t[c] - 1;
    var t', f' := t[c := j], f[j := i];
    forall d, x | 0 <= d < 65536 && t'[d] <= x < Start(b, d + 1) && x < |f'| ensures i <= f'[x] < |b| && Code(b, f'[x]) == d {
      if d != c { OtherBucket(b, t, i + 1, c, d); }
    }
    forall d, x, y | 0 <= d < 65536 && t'[d] <= x < y < Start(b, d + 1) && y < |f'| ensures f'[x] < f'[y] {
      if d != c { OtherBucket(b, t, i + 1, c, d); }
    }
  }

  lemma PlaceOne(b: seq<byte>, t: seq<nat>, f: seq<nat>, i: nat)
    requires |b| > 0 && i < |b| && Placed(b, t, f, i + 1)
    ensures var c := Code(b, i); c < |t| && 0 < t[c] <= |f| && Placed(b, t[c := t[c] - 1], f[t[c] - 1 := i], i)
  {
    hide Code, Start, Codes, Ends, Filled;
    EndsNext(b, t, i);
    FilledNext(b, t, f, i);
  }

  /** At the end the positions form a permutation in which every small bucket is in place,
      and the table tells where each begins. */
  ghost predicate Distributed(b: seq<byte>, t: seq<nat>, f: seq<nat>)
    requires |b| > 0
  {
    && InBuckets(b, f) && IsPerm(f, |b|)
    && |t| == 65537 && forall c :: 0 <= c <= 65536 ==> t[c] == Start(b, c)
  }

  lemma EndsAll(b: seq<byte>, t: seq<nat>)
    requires |b| > 0 && Ends(b, t, 0)
    ensures forall c :: 0 <= c <= 65536 ==> t[c] == Start(b, c)
  {
    hide Code;
    assert Codes(b)[0..] == Codes(b);
    StartRange(b, 0, 0);
    forall c | 0 <= c < 65536 ensures t[c] == Start(b, c) {
      assert Start(b, c + 1) == Start(b, c) + multiset(Codes(b))[c];
    }
  }

  lemma PlacedAll(b: seq<byte>, t: seq<nat>, f: seq<nat>)
    requires |b| > 0 && Placed(b, t, f, 0)
    ensures Distributed(b, t, f)
  {
    hide Code, Start, Codes, Ends;
    EndsAll(b, t);
    EndsLength(b, t, 0);
    StartRange(b, 0, 0);
    forall x | 0 <= x < |f| ensures f[x] < |b| {
      var c := BucketOf(b, x, 65536);
      assert t[c] <= x < Start(b, c + 1);
    }
    forall x, y | 0 <= x < y < |f| ensures f[x] != f[y] {
      var c := BucketOf(b, x, 65536);
      var d := BucketOf(b, y, 65536);
      assert t[c] <= x < Start(b, c + 1) && t[d] <= y < Start(b, d + 1);
      if c == d { assert f[x] < f[y]; }
    }
  }

  lemma EndsLength(b: seq<byte>, t: seq<nat>, i: nat)
    requires |b| > 0 && i <= |b| && Ends(b, t, i)
    ensures |t| == 65537
  {
  }

  method Distribute(ptr: array<nat>, block: array<byte>, ftab: array<nat>, nblock: nat, ghost b: seq<byte>)
    requires ptr != ftab && ptr.Length == nblock && 0 < nblock == |b| <= block.Length && block[..nblock] == b
    requires Summed(ftab[..], b, 65537)
    modifies ptr, ftab
    ensures Distributed(b, ftab[..], ptr[..])
  {
    hide *;
    ghost var t, f := ftab[..], ptr[..];
    PlaceStart(b, t, f);
    FirstCode(b);
    assert block[0] == b[0];
    var s := Shl(block[0], 8);
    var i: int := nblock - 1;
    while i >= 0
      invariant -1 <= i < nblock && ftab[..] == t && ptr[..] == f && Placed(b, t, f, i + 1) && s / 256 == At(b, i + 1) && s < 65536
    {
      assert block[i] == b[i];
      NextCode(b, s, i);
      PlaceOne(b, t, f, i);
      s := Or(Shr(s, 8), Shl(block[i], 8));
      var j := ftab[s] - 1;
      ftab[s] := j;
      ptr[j] := i;
      f := f[j := i];
      t := t[s := j];
      i := i - 1;
    }
    PlacedAll(b, t, f);
  }
}
