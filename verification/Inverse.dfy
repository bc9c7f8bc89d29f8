/** Setting up the inverse transform (decompress.c) in its two representations: the
    32-bit `tt` vector of the fast decoder, and the 20-bit vector split over `ll16`
    and `ll4` of the small one, reversed in place along the cycle through origPtr. */
module Inverse {
  import opened Words
  import opened Permutations
  import opened Transform

  // ---------- the fast representation ----------

  /** Entry j of `tt` once the links from rows below i have been added. */
  ghost function TtEntry(l: seq<byte>, j: nat, i: nat): nat
    requires j < |l|
  {
    l[j] + 256 * if Origin(l, j) < i then Origin(l, j) else 0
  }

  ghost predicate FastTable(l: seq<byte>, tt: seq<nat>) {
    |tt| >= |l| && forall j :: 0 <= j < |l| ==> tt[j] == l[j] + 256 * Origin(l, j)
  }

  ghost predicate Starts(l: seq<byte>, i: nat, cftab: seq<nat>)
    requires i <= |l|
  {
    |cftab| == 257 && forall c :: 0 <= c < 256 ==> cftab[c] == CountLess(l, c) + CountEq(l[..i], c)
  }

  lemma LowByte(x: nat)
    ensures And(x, 255) == x % 256
  {
    Pow2Values();
    AndMask(x, 8);
  }

  lemma PackLink(c: byte, i: nat)
    ensures Or(c, Shl(i, 8)) == c + 256 * i
  {
    Pow2Values();
    OrDisjoint(i, 8, c);
  }

  lemma UnpackLink(c: byte, i: nat)
    ensures (c + 256 * i) % 256 == c && Shr(c + 256 * i, 8) == i
  {
    Pow2Values();
  }

  /** Prefix sums of the character counts, as the decoder builds them. */
  method BuildCftab(ghost l: seq<byte>, unzftab: array<nat>, cftab: array<nat>)
    requires unzftab.Length == 256 && cftab.Length == 257 && unzftab != cftab
    requires forall c :: 0 <= c < 256 ==> unzftab[c] == CountEq(l, c)
    modifies cftab
    ensures forall c :: 0 <= c <= 256 ==> cftab[c] == CountLess(l, c)
    ensures cftab[0] == 0 && cftab[256] == |l|
    ensures forall c, d :: 0 <= c <= d <= 256 ==> cftab[c] <= cftab[d] <= |l|
  {
    cftab[0] := 0;
    for i := 1 to 257
      invariant cftab[0] == 0
      invariant forall c :: 1 <= c < i ==> cftab[c] == unzftab[c - 1]
    {
      cftab[i] := unzftab[i - 1];
    }
    CountLessAll(l);
    for i := 1 to 257
      invariant forall c :: 0 <= c < i ==> cftab[c] == CountLess(l, c)
      invariant forall c :: i <= c <= 256 ==> cftab[c] == CountEq(l, c - 1)
    {
      CountNext(l, i - 1);
      cftab[i] := cftab[i] + cftab[i - 1];
    }
    forall c, d | 0 <= c <= d <= 256 ensures cftab[c] <= cftab[d] <= |l| {
      CountLessMonotone(l, c, d);
    }
  }

  lemma SlotStep(l: seq<byte>, i: nat, cftab: seq<nat>)
    requires i < |l| && Starts(l, i, cftab)
    ensures cftab[l[i]] == Slot(l, i) < |l|
    ensures Starts(l, i + 1, cftab[l[i] := cftab[l[i]] + 1])
  {
    OriginSlot(l, i);
    forall c | 0 <= c < 256
      ensures CountEq(l[..i + 1], c) == CountEq(l[..i], c) + if l[i] == c then 1 else 0
    {
      CountEqStep(l, i, c);
    }
  }

  ghost predicate Linked(l: seq<byte>, i: nat, tt: seq<nat>) {
    |l| <= |tt| && forall j :: 0 <= j < |l| ==> tt[j] == TtEntry(l, j, i)
  }

  lemma ReadCharacter(l: seq<byte>, i: nat, tt: seq<nat>)
    requires i < |l| && Linked(l, i, tt)
    ensures And(tt[i], 0xff) == l[i]
  {
    LowByte(tt[i]);
    UnpackLink(l[i], if Origin(l, i) < i then Origin(l, i) else 0);
  }

  lemma LinkStep(l: seq<byte>, i: nat, tt: seq<nat>, k: nat)
    requires i < |l| && Linked(l, i, tt) && k == Slot(l, i) < |l|
    ensures Linked(l, i + 1, tt[k := Or(tt[k], Shl(i, 8))])
  {
    OriginSlot(l, i);
    PackLink(l[k], i);
    assert tt[k] == l[k];
    assert Or(tt[k], Shl(i, 8)) == TtEntry(l, k, i + 1);
  }

  lemma LinkStart(l: seq<byte>, tt: seq<nat>, cftab: seq<nat>)
    requires |l| <= |tt| && |cftab| == 257
    requires forall j :: 0 <= j < |l| ==> tt[j] == l[j]
    requires forall c :: 0 <= c < 256 ==> cftab[c] == CountLess(l, c)
    ensures Linked(l, 0, tt) && Starts(l, 0, cftab)
  {
  }

  lemma AllLinked(l: seq<byte>, tt: seq<nat>)
    requires Linked(l, |l|, tt)
    ensures FastTable(l, tt)
  {
  }

  /** The T^(-1) vector of the fast decoder: every row's link is packed above the
      character already stored there. */
  method BuildInverseFast(tt: array<nat>, cftab: array<nat>, nblock: nat, ghost l: seq<byte>)
    requires tt != cftab && nblock == |l| <= tt.Length && cftab.Length == 257
    requires forall j :: 0 <= j < nblock ==> tt[j] == l[j]
    requires forall c :: 0 <= c < 256 ==> cftab[c] == CountLess(l, c)
    modifies tt, cftab
    ensures FastTable(l, tt[..])
  {
    hide Linked, Starts, And, Or, Shl, FastTable;
    LinkStart(l, tt[..], cftab[..]);
    for i := 0 to nblock
      invariant Linked(l, i, tt[..])
      invariant Starts(l, i, cftab[..])
    {
      SlotStep(l, i, cftab[..]);
      ReadCharacter(l, i, tt[..]);
      LinkStep(l, i, tt[..], cftab[l[i]]);
      ghost var tt0, cftab0 := tt[..], cftab[..];
      var uc := And(tt[i], 0xff);
      tt[cftab[uc]] := Or(tt[cftab[uc]], Shl(i, 8));
      cftab[uc] := cftab[uc] + 1;
      assert tt[..] == tt0[cftab0[uc] := Or(tt0[cftab0[uc]], Shl(i, 8))];
      assert cftab[..] == cftab0[uc := cftab0[uc] + 1];
    }
    AllLinked(l, tt[..]);
  }

  // ---------- the small representation ----------

  /** The nibble of entry i: `GET_LL4`. */
  function GetLL4(ll4: seq<nat>, i: nat): nat
    requires i / 2 < |ll4|
  {
    And(Shr(ll4[i / 2], And(4 * i, 4)), 0xf)
  }

  /** The 20-bit entry i: `GET_LL`. */
  function GetLL(ll16: seq<nat>, ll4: seq<nat>, i: nat): nat
    requires i < |ll16| && i / 2 < |ll4|
  {
    Or(ll16[i], Shl(GetLL4(ll4, i), 16))
  }

  /** The byte that `SET_LL4` stores: the other nibble is kept. */
  function WithNibble(x: nat, i: nat, n: nat): nat {
    if And(i, 1) == 0 then Or(And(x, 0xf0), n) else Or(And(x, 0x0f), Shl(n, 4))
  }

  ghost predicate SmallShape(ll16: seq<nat>, ll4: seq<nat>, nblock: nat) {
    && nblock <= |ll16| && (nblock + 1) / 2 <= |ll4|
    && (forall k :: 0 <= k < |ll16| ==> ll16[k] < 0x1_0000)
    && (forall k :: 0 <= k < |ll4| ==> ll4[k] < 0x100)
  }

  /** Entry i of the 20-bit vector as a number. */
  function Entry(ll16: seq<nat>, ll4: seq<nat>, i: nat): nat
    requires i < |ll16| && i / 2 < |ll4|
  {
    ll16[i] + 0x1_0000 * if i % 2 == 0 then ll4[i / 2] % 16 else ll4[i / 2] / 16 % 16
  }

  lemma LowNibble(x: nat)
    ensures And(x, 0xf) == x % 16 && And(x, 1) == x % 2
  {
    Pow2Values();
    AndMask(x, 4);
    AndMask(x, 1);
  }

  lemma HighNibble(x: nat)
    requires x < 256
    ensures And(x, 0xf0) == 16 * (x / 16)
  {
    hide And;
    LowNibble(x / 16);
    AndEven(x, 0x78);
    AndEven(x / 2, 0x3c);
    AndEven(x / 2 / 2, 0x1e);
    AndEven(x / 2 / 2 / 2, 0xf);
    assert x / 2 / 2 / 2 / 2 == x / 16;
  }

  lemma NibbleShift(i: nat)
    ensures And(4 * i, 4) == if i % 2 == 0 then 0 else 4
  {
    LowNibble(i);
    AndEven(4 * i, 2);
    AndEven(4 * i / 2, 1);
    assert 4 * i / 2 / 2 == i;
  }

  lemma WithNibbleValue(x: nat, i: nat, n: nat)
    requires x < 256 && n < 16
    ensures WithNibble(x, i, n) == if i % 2 == 0 then 16 * (x / 16) + n else 16 * n + x % 16
    ensures WithNibble(x, i, n) < 256
  {
    hide And, Or, Pow2;
    LowNibble(x);
    HighNibble(x);
    LowNibble(i);
    Pow2Values();
    OrDisjoint(x / 16, 4, n);
    OrDisjoint(n, 4, x % 16);
  }

  lemma GetLL4Value(ll4: seq<nat>, i: nat)
    requires i / 2 < |ll4|
    ensures GetLL4(ll4, i) == if i % 2 == 0 then ll4[i / 2] % 16 else ll4[i / 2] / 16 % 16
  {
    NibbleShift(i);
    Pow2Values();
    LowNibble(ll4[i / 2]);
    LowNibble(ll4[i / 2] / 16);
  }

  lemma GetLLValue(ll16: seq<nat>, ll4: seq<nat>, i: nat)
    requires i < |ll16| && i / 2 < |ll4| && ll16[i] < 0x1_0000
    ensures GetLL(ll16, ll4, i) == Entry(ll16, ll4, i)
  {
    GetLL4Value(ll4, i);
    Pow2Values();
    OrDisjoint(GetLL4(ll4, i), 16, ll16[i]);
  }

  lemma StoredHalves(n: nat, x: nat, i: nat)
    requires n < 0x10_0000 && x < 256
    ensures And(n, 0xffff) == n % 0x1_0000
    ensures Shr(n, 16) == n / 0x1_0000 < 16
    ensures WithNibble(x, i, Shr(n, 16)) ==
            if i % 2 == 0 then 16 * (x / 16) + n / 0x1_0000 else 16 * (n / 0x1_0000) + x % 16
  {
    Pow2Values();
    AndMask(n, 16);
    WithNibbleValue(x, i, n / 0x1_0000);
  }

  lemma Nibbles(x: nat, d: nat)
    requires x < 256 && d < 16
    ensures var y := 16 * (x / 16) + d; y < 256 && y % 16 == d && y / 16 % 16 == x / 16 % 16
    ensures var y := 16 * d + x % 16; y < 256 && y % 16 == x % 16 && y / 16 % 16 == d
  {
  }

  lemma StoreAndLoad(ll16: seq<nat>, ll4: seq<nat>, i: nat, n: nat, low: nat, b: nat, nblock: nat)
    requires SmallShape(ll16, ll4, nblock) && i < nblock && n < 0x10_0000
    requires low == n % 0x1_0000
    requires b == if i % 2 == 0 then 16 * (ll4[i / 2] / 16) + n / 0x1_0000 else 16 * (n / 0x1_0000) + ll4[i / 2] % 16
    ensures SmallShape(ll16[i := low], ll4[i / 2 := b], nblock)
    ensures Entry(ll16[i := low], ll4[i / 2 := b], i) == n
    ensures forall k :: 0 <= k < nblock && k != i ==>
              Entry(ll16[i := low], ll4[i / 2 := b], k) == Entry(ll16, ll4, k)
  {
    Nibbles(ll4[i / 2], n / 0x1_0000);
    forall k | 0 <= k < nblock && k != i
      ensures Entry(ll16[i := low], ll4[i / 2 := b], k) == Entry(ll16, ll4, k)
    {
      if k / 2 == i / 2 { assert k % 2 != i % 2; }
    }
  }

  /** `SET_LL`: afterwards GET_LL reads back n at i, and every other entry, the one
      sharing the byte included, reads as before. */
  method SetLL(ll16: array<nat>, ll4: array<nat>, i: nat, n: nat, ghost nblock: nat)
    requires ll16 != ll4 && SmallShape(ll16[..], ll4[..], nblock) && i < nblock && n < 0x10_0000
    modifies ll16, ll4
    ensures SmallShape(ll16[..], ll4[..], nblock)
    ensures Entry(ll16[..], ll4[..], i) == n
    ensures forall k :: 0 <= k < nblock && k != i ==>
              Entry(ll16[..], ll4[..], k) == old(Entry(ll16[..], ll4[..], k))
    ensures forall k :: 0 <= k < nblock && k != i ==> ll16[k] == old(ll16[k])
  {
    ghost var w, h := ll16[..], ll4[..];
    StoredHalves(n, ll4[i / 2], i);
    StoreAndLoad(w, h, i, n, And(n, 0xffff), WithNibble(h[i / 2], i, Shr(n, 16)), nblock);
    ll16[i] := And(n, 0xffff);
    ll4[i / 2] := WithNibble(ll4[i / 2], i, Shr(n, 16));
    assert ll16[..] == w[i := And(n, 0xffff)];
    assert ll4[..] == h[i / 2 := WithNibble(h[i / 2], i, Shr(n, 16))];
  }

  ghost predicate Forward(l: seq<byte>, i: nat, ll16: seq<nat>, ll4: seq<nat>) {
    && SmallShape(ll16, ll4, |l|)
    && (forall k :: 0 <= k < |l| && k < i ==> Entry(ll16, ll4, k) == Slot(l, k))
    && (forall k :: i <= k < |l| ==> ll16[k] == l[k])
  }

  /** The T vector of the small decoder, over the characters it replaces. */
  method BuildForwardSmall(ll16: array<nat>, ll4: array<nat>, cftabCopy: array<nat>, nblock: nat, ghost l: seq<byte>)
    requires ll16 != ll4 && ll16 != cftabCopy && ll4 != cftabCopy
    requires nblock == |l| < 0x10_0000 && cftabCopy.Length == 257
    requires Forward(l, 0, ll16[..], ll4[..])
    requires forall c :: 0 <= c < 256 ==> cftabCopy[c] == CountLess(l, c)
    modifies ll16, ll4, cftabCopy
    ensures Forward(l, nblock, ll16[..], ll4[..])
  {
    for i := 0 to nblock
      invariant Forward(l, i, ll16[..], ll4[..])
      invariant Starts(l, i, cftabCopy[..])
    {
      SlotStep(l, i, cftabCopy[..]);
      ghost var cftab0 := cftabCopy[..];
      var uc := ll16[i];
      SetLL(ll16, ll4, i, cftabCopy[uc], nblock);
      cftabCopy[uc] := cftabCopy[uc] + 1;
      assert cftabCopy[..] == cftab0[uc := cftab0[uc] + 1];
    }
  }

  /** The rows visited from orig along T, in order. */
  ghost predicate ForwardPath(l: seq<byte>, orig: nat, path: seq<nat>) {
    && path != [] && path[0] == orig && Injective(path)
    && (forall t :: 0 <= t < |path| ==> path[t] < |l|)
    && (forall t :: 0 < t < |path| ==> Origin(l, path[t]) == path[t - 1])
  }

  /** Links of the rows in `turned` have been reversed, the others still point forward. */
  ghost predicate Turned(l: seq<byte>, turned: seq<nat>, ll16: seq<nat>, ll4: seq<nat>) {
    && SmallShape(ll16, ll4, |l|)
    && forall k :: 0 <= k < |l| ==>
        Entry(ll16, ll4, k) == if k in turned then Origin(l, k) else Slot(l, k)
  }

  lemma PathFits(l: seq<byte>, orig: nat, path: seq<nat>)
    requires ForwardPath(l, orig, path)
    ensures |path| <= |l|
  {
    InjectiveCard(path);
    assert Elements(path) <= Below(|l|);
    SubsetCard(Elements(path), Below(|l|));
  }

  /** Following T from the end of the path either returns to orig or reaches a new row. */
  lemma PathGrows(l: seq<byte>, orig: nat, path: seq<nat>)
    requires ForwardPath(l, orig, path)
    ensures var next := Slot(l, path[|path| - 1]);
            && next < |l| && Origin(l, next) == path[|path| - 1]
            && (next != orig ==> ForwardPath(l, orig, path + [next]))
            && next !in path[1..]
  {
    var next := Slot(l, path[|path| - 1]);
    OriginSlot(l, path[|path| - 1]);
    forall t | 0 < t < |path| ensures path[t] != next {
      LinkNotRepeated(l, orig, path, t);
    }
  }

  lemma LinkNotRepeated(l: seq<byte>, orig: nat, path: seq<nat>, t: nat)
    requires ForwardPath(l, orig, path) && 0 < t < |path|
    ensures Slot(l, path[|path| - 1]) != path[t]
  {
    OriginSlot(l, path[|path| - 1]);
    assert Origin(l, path[t]) == path[t - 1];
  }

  /** The closed path contains every row the inverse walk can reach. */
  lemma {:induction false} WalkInPath(l: seq<byte>, orig: nat, path: seq<nat>, k: nat)
    requires ForwardPath(l, orig, path) && Slot(l, path[|path| - 1]) == orig
    ensures Walk(l, orig, k) in path
  {
    if k > 0 {
      WalkInPath(l, orig, path, k - 1);
      var t :| 0 <= t < |path| && path[t] == Walk(l, orig, k - 1);
      if t == 0 {
        OriginSlot(l, path[|path| - 1]);
      } else {
        assert Origin(l, path[t]) == path[t - 1];
      }
    }
  }

  /** Every row reachable by the inverse walk carries its inverse link. */
  ghost predicate SmallTable(l: seq<byte>, orig: nat, ll16: seq<nat>, ll4: seq<nat>)
    requires orig < |l|
  {
    && SmallShape(ll16, ll4, |l|)
    && forall k: nat :: Entry(ll16, ll4, Walk(l, orig, k)) == Walk(l, orig, k + 1)
  }

  lemma TurnedTable(l: seq<byte>, orig: nat, path: seq<nat>, ll16: seq<nat>, ll4: seq<nat>)
    requires ForwardPath(l, orig, path) && Slot(l, path[|path| - 1]) == orig
    requires Turned(l, path, ll16, ll4)
    ensures SmallTable(l, orig, ll16, ll4)
  {
    forall k: nat ensures Entry(ll16, ll4, Walk(l, orig, k)) == Walk(l, orig, k + 1) {
      WalkInPath(l, orig, path, k);
    }
  }

  lemma TurnStep(l: seq<byte>, orig: nat, path: seq<nat>, w: seq<nat>, h: seq<nat>, w': seq<nat>, h': seq<nat>)
    requires ForwardPath(l, orig, path) && Turned(l, path[1..], w, h) && SmallShape(w', h', |l|)
    requires var last := path[|path| - 1];
             var next := Slot(l, last);
             next < |l| && Entry(w', h', next) == last &&
             forall k :: 0 <= k < |l| && k != next ==> Entry(w', h', k) == Entry(w, h, k)
    ensures var next := Slot(l, path[|path| - 1]);
            && Entry(w, h, next) == Slot(l, next)
            && (next != orig ==> ForwardPath(l, orig, path + [next]) && |path| < |l| &&
                                 Turned(l, (path + [next])[1..], w', h'))
            && (next == orig ==> Turned(l, path, w', h'))
  {
    var next := Slot(l, path[|path| - 1]);
    PathGrows(l, orig, path);
    var turned := path[1..];
    assert path == [orig] + turned;
    if next != orig {
      PathFits(l, orig, path + [next]);
      assert (path + [next])[1..] == turned + [next];
    }
  }

  /** Reverse the links along the cycle through origPtr, in place. It ends because T is
      a permutation, so following it comes back to origPtr. */
  method ReversePointers(ll16: array<nat>, ll4: array<nat>, origPtr: nat, ghost l: seq<byte>)
    requires ll16 != ll4 && origPtr < |l| < 0x10_0000
    requires Forward(l, |l|, ll16[..], ll4[..])
    modifies ll16, ll4
    ensures SmallTable(l, origPtr, ll16[..], ll4[..])
  {
    var i := origPtr;
    ghost var path := [origPtr];
    GetLLValue(ll16[..], ll4[..], i);
    var j := GetLL(ll16[..], ll4[..], i);
    PathGrows(l, origPtr, path);
    var more := true;
    while more
      invariant ForwardPath(l, origPtr, path)
      invariant more ==> i == path[|path| - 1] && j == Slot(l, i) && Turned(l, path[1..], ll16[..], ll4[..])
      invariant !more ==> Slot(l, path[|path| - 1]) == origPtr && Turned(l, path, ll16[..], ll4[..])
      decreases more, |l| - |path|
    {
      PathGrows(l, origPtr, path);
      GetLLValue(ll16[..], ll4[..], j);
      ghost var w, h := ll16[..], ll4[..];
      var tmp := GetLL(ll16[..], ll4[..], j);
      SetLL(ll16, ll4, j, i, |l|);
      TurnStep(l, origPtr, path, w, h, ll16[..], ll4[..]);
      i := j;
      j := tmp;
      if i != origPtr {
        path := path + [i];
      } else {
        more := false;
      }
    }
    TurnedTable(l, origPtr, path, ll16[..], ll4[..]);
  }

  // ---------- the first column ----------

  /** Binary search for the character of row `indx` of the first column. */
  method IndexIntoF(indx: nat, cftab: array<nat>) returns (nb: nat)
    requires cftab.Length == 257
    ensures nb < 256
    ensures 0 < nb ==> cftab[nb] <= indx
    ensures nb < 255 ==> indx < cftab[nb + 1]
  {
    nb := 0;
    var na := 256;
    var more := true;
    while more
      invariant 0 <= nb < na <= 256
      invariant 0 < nb ==> cftab[nb] <= indx
      invariant na < 256 ==> indx < cftab[na]
      invariant more <==> na - nb != 1
      decreases na - nb
    {
      var mid := (nb + na) / 2;
      if indx >= cftab[mid] { nb := mid; } else { na := mid; }
      more := na - nb != 1;
    }
  }

  /** However many buckets are empty, the search finds the first-column character. */
  lemma FirstColumn(l: seq<byte>, j: nat, c: nat)
    requires j < |l| && c < 256
    requires 0 < c ==> CountLess(l, c) <= j
    requires c < 255 ==> j < CountLess(l, c + 1)
    ensures l[Origin(l, j)] == c
  {
    var i := Origin(l, j);
    SlotRange(l, i);
    if l[i] < c {
      CountLessMonotone(l, l[i] as int + 1, c);
    } else if c < l[i] {
      CountLessMonotone(l, c + 1, l[i]);
    }
  }
}
