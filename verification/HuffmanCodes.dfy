/** Canonical Huffman codes (huffman.c): assigning codes to a table of lengths, the
    limit/base/perm tables built from the same lengths, and the decoder that uses them. */
module HuffmanCodes {
  import opened Words
  import opened Bits
  import opened Transform

  const BZ_MAX_ALPHA_SIZE := 258
  const BZ_MAX_CODE_LEN := 23
  const LONGEST := 20

  /** A length table: what both sides are given. */
  ghost predicate Lengths(lens: seq<byte>) {
    0 < |lens| <= BZ_MAX_ALPHA_SIZE && forall i :: 0 <= i < |lens| ==> 1 <= lens[i] <= LONGEST
  }

  /** The first code of length n. */
  function First(lens: seq<byte>, n: nat): nat {
    if n == 0 then 0 else 2 * (First(lens, n - 1) + CountEq(lens, n - 1))
  }

  /** The code of symbol i, and its bits. */
  function Code(lens: seq<byte>, i: nat): nat
    requires i < |lens|
  {
    First(lens, lens[i]) + CountEq(lens[..i], lens[i])
  }

  function CodeBits(lens: seq<byte>, i: nat): (s: seq<bool>)
    requires i < |lens|
    ensures |s| == lens[i]
  {
    BitsOf(Code(lens, i), lens[i])
  }

  // ---------- Kraft's inequality and the range of the codes ----------

  /** The share of the code space, in units of 2^-n, used by symbols of length at most n. */
  function Share(lens: seq<byte>, n: nat): nat {
    if lens == [] then 0
    else Share(lens[..|lens| - 1], n) +
         if lens[|lens| - 1] <= n then Pow2(n - lens[|lens| - 1]) else 0
  }

  /** Kraft sum at most one. */
  ghost predicate Kraft(lens: seq<byte>) {
    Share(lens, LONGEST) <= Pow2(LONGEST)
  }

  lemma {:induction false} ShareNext(lens: seq<byte>, n: nat)
    ensures Share(lens, n + 1) == 2 * Share(lens, n) + CountEq(lens, n + 1)
  {
    if lens != [] { ShareNext(lens[..|lens| - 1], n); }
  }

  lemma {:induction false} ShareZero(lens: seq<byte>)
    ensures Share(lens, 0) == CountEq(lens, 0)
  {
    if lens != [] { ShareZero(lens[..|lens| - 1]); }
  }

  lemma {:induction false} ShareIsNextCode(lens: seq<byte>, n: nat)
    ensures Share(lens, n) == First(lens, n) + CountEq(lens, n)
  {
    if n == 0 {
      ShareZero(lens);
    } else {
      ShareIsNextCode(lens, n - 1);
      ShareNext(lens, n - 1);
    }
  }

  lemma {:induction false} ShareFits(lens: seq<byte>, n: nat)
    requires Kraft(lens) && n <= LONGEST
    ensures Share(lens, n) <= Pow2(n)
    decreases LONGEST - n
  {
    if n < LONGEST {
      ShareFits(lens, n + 1);
      ShareNext(lens, n);
    }
  }

  lemma RankBelowCount(lens: seq<byte>, i: nat)
    requires i < |lens|
    ensures CountEq(lens[..i], lens[i]) < CountEq(lens, lens[i])
  {
    CountEqStep(lens, i, lens[i]);
    CountEqPrefix(lens, i + 1, |lens|, lens[i]);
    assert lens[..|lens|] == lens;
  }

  /** Under Kraft's inequality every code fits in its length. */
  lemma CodeFits(lens: seq<byte>, i: nat)
    requires Lengths(lens) && Kraft(lens) && i < |lens|
    ensures Code(lens, i) < Pow2(lens[i])
  {
    RankBelowCount(lens, i);
    ShareIsNextCode(lens, lens[i]);
    ShareFits(lens, lens[i]);
  }

  /** Codes of one length are given out in the order of the symbols, one after the other. */
  lemma CodesInOrder(lens: seq<byte>, i: nat, j: nat)
    requires i < j < |lens| && lens[i] == lens[j]
    ensures Code(lens, i) < Code(lens, j)
    ensures (forall k :: i < k < j ==> lens[k] != lens[i]) ==> Code(lens, j) == Code(lens, i) + 1
  {
    CountEqStep(lens, i, lens[i]);
    CountEqPrefix(lens, i + 1, j, lens[i]);
    if forall k :: i < k < j ==> lens[k] != lens[i] {
      CountBetween(lens, i + 1, j, lens[i]);
    }
  }

  lemma {:induction false} CountBetween(lens: seq<byte>, i: nat, j: nat, n: nat)
    requires i <= j <= |lens| && forall k :: i <= k < j ==> lens[k] != n
    ensures CountEq(lens[..j], n) == CountEq(lens[..i], n)
    decreases j
  {
    if i < j {
      CountEqStep(lens, j - 1, n);
      CountBetween(lens, i, j - 1, n);
    }
  }

  // ---------- assigning codes ----------

  method AssignCodes(code: array<int>, length: array<byte>, minLen: nat, maxLen: nat, alphaSize: nat)
    requires code as object != length && code.Length >= alphaSize && length.Length >= alphaSize
    requires minLen <= maxLen && forall i :: 0 <= i < alphaSize ==> minLen <= length[i] <= maxLen
    modifies code
    ensures forall i :: 0 <= i < alphaSize ==> code[i] == Code(length[..alphaSize], i)
  {
    hide Assigned;
    ghost var lens := length[..alphaSize];
    NoneShorter(lens, minLen);
    StartAssigning(lens, code[..], minLen);
    var vec := 0;
    for n := minLen to maxLen + 1
      invariant length[..alphaSize] == lens && Assigned(lens, code[..], n, 0, vec)
    {
      for i := 0 to alphaSize
        invariant length[..alphaSize] == lens && Assigned(lens, code[..], n, i, vec)
      {
        AssignStep(lens, code[..], n, i, vec);
        ghost var c := code[..];
        if length[i] == n {
          code[i] := vec;
          vec := vec + 1;
          assert code[..] == c[i := vec - 1];
        }
      }
      LevelDone(lens, code[..], n, vec);
      vec := vec * 2;
    }
    AllAssigned(lens, code[..], maxLen, vec);
  }

  /** Codes of all shorter symbols, and of the first i of length n, have been given out. */
  ghost predicate Assigned(lens: seq<byte>, code: seq<int>, n: nat, i: nat, vec: int) {
    && |lens| <= |code| && i <= |lens| && vec == First(lens, n) + CountEq(lens[..i], n)
    && forall k :: 0 <= k < |lens| && (lens[k] < n || (k < i && lens[k] == n)) ==> code[k] == Code(lens, k)
  }

  lemma StartAssigning(lens: seq<byte>, code: seq<int>, minLen: nat)
    requires |lens| <= |code| && First(lens, minLen) == 0
    requires forall k :: 0 <= k < |lens| ==> minLen <= lens[k]
    ensures Assigned(lens, code, minLen, 0, 0)
  {
  }

  lemma AssignStep(lens: seq<byte>, code: seq<int>, n: nat, i: nat, vec: int)
    requires Assigned(lens, code, n, i, vec) && i < |lens|
    ensures lens[i] != n ==> Assigned(lens, code, n, i + 1, vec)
    ensures lens[i] == n ==> Assigned(lens, code[i := vec], n, i + 1, vec + 1)
  {
    CountEqStep(lens, i, n);
  }

  lemma LevelDone(lens: seq<byte>, code: seq<int>, n: nat, vec: int)
    requires Assigned(lens, code, n, |lens|, vec)
    ensures Assigned(lens, code, n + 1, 0, vec * 2)
  {
    assert lens[..|lens|] == lens;
  }

  lemma AllAssigned(lens: seq<byte>, code: seq<int>, maxLen: nat, vec: int)
    requires Assigned(lens, code, maxLen + 1, 0, vec) && forall k :: 0 <= k < |lens| ==> lens[k] <= maxLen
    ensures forall i :: 0 <= i < |lens| ==> code[i] == Code(lens, i)
  {
  }

  lemma {:induction false} NoneEqual(lens: seq<byte>, n: nat)
    requires forall i :: 0 <= i < |lens| ==> lens[i] != n
    ensures CountEq(lens, n) == 0
  {
    if lens != [] { NoneEqual(lens[..|lens| - 1], n); }
  }

  lemma {:induction false} NoneShorter(lens: seq<byte>, minLen: nat)
    requires forall i :: 0 <= i < |lens| ==> minLen <= lens[i]
    ensures First(lens, minLen) == 0 && CountLess(lens, minLen) == 0
  {
    if minLen == 0 {
      CountLessAll(lens);
    } else {
      NoneShorter(lens, minLen - 1);
      NoneEqual(lens, minLen - 1);
      CountNext(lens, minLen - 1);
    }
  }

  // ---------- the decoding tables ----------

  /** What limit, base and perm hold for a table whose lengths span minLen..maxLen. */
  ghost predicate DecodeTables(lens: seq<byte>, limit: seq<int>, base: seq<int>, perm: seq<int>, minLen: nat, maxLen: nat) {
    && |limit| >= BZ_MAX_CODE_LEN && |base| >= BZ_MAX_CODE_LEN && |perm| >= BZ_MAX_ALPHA_SIZE
    && minLen <= maxLen <= LONGEST && |lens| <= BZ_MAX_ALPHA_SIZE
    && (forall i :: 0 <= i < |lens| ==> minLen <= lens[i] <= maxLen)
    && (exists i :: 0 <= i < |lens| && lens[i] == maxLen)
    && (forall n: nat :: minLen <= n <= maxLen ==>
          limit[n] == First(lens, n) + CountEq(lens, n) - 1 && base[n] == First(lens, n) - CountLess(lens, n))
    && (forall n: nat :: n <= LONGEST && !(minLen <= n <= maxLen) ==> limit[n] == 0 && base[n] == CountLess(lens, n))
    && (forall i :: 0 <= i < |lens| ==> Slot(lens, i) < |lens| && perm[Slot(lens, i)] == i)
  }

  /** Symbols sorted by length, and by index within a length. */
  method SortSymbols(perm: array<int>, length: array<byte>, minLen: nat, maxLen: nat, alphaSize: nat)
    requires perm as object != length && perm.Length >= alphaSize && length.Length >= alphaSize
    requires minLen <= maxLen && forall i :: 0 <= i < alphaSize ==> minLen <= length[i] <= maxLen
    modifies perm
    ensures forall i :: 0 <= i < alphaSize ==>
              Slot(length[..alphaSize], i) < alphaSize && perm[Slot(length[..alphaSize], i)] == i
  {
    hide Permuted;
    ghost var lens := length[..alphaSize];
    NoneShorter(lens, minLen);
    StartPermuting(lens, perm[..], minLen);
    var pp := 0;
    for i := minLen to maxLen + 1
      invariant length[..alphaSize] == lens && Permuted(lens, perm[..], i, 0, pp)
    {
      for j := 0 to alphaSize
        invariant length[..alphaSize] == lens && Permuted(lens, perm[..], i, j, pp)
      {
        PermuteStep(lens, perm[..], i, j, pp);
        ghost var p := perm[..];
        if length[j] == i {
          perm[pp] := j;
          pp := pp + 1;
          assert perm[..] == p[pp - 1 := j];
        }
      }
      LengthDone(lens, perm[..], i, pp);
    }
    AllPermuted(lens, perm[..], maxLen, pp);
  }

  ghost predicate Permuted(lens: seq<byte>, perm: seq<int>, n: nat, j: nat, pp: nat) {
    && |lens| <= |perm| && j <= |lens| && pp == CountLess(lens, n) + CountEq(lens[..j], n)
    && forall k :: 0 <= k < |lens| && (lens[k] < n || (k < j && lens[k] == n)) ==>
        Slot(lens, k) < pp && Slot(lens, k) < |lens| && perm[Slot(lens, k)] == k
  }

  lemma StartPermuting(lens: seq<byte>, perm: seq<int>, minLen: nat)
    requires |lens| <= |perm| && CountLess(lens, minLen) == 0
    requires forall k :: 0 <= k < |lens| ==> minLen <= lens[k]
    ensures Permuted(lens, perm, minLen, 0, 0)
  {
  }

  lemma PermuteStep(lens: seq<byte>, perm: seq<int>, n: nat, j: nat, pp: nat)
    requires Permuted(lens, perm, n, j, pp) && j < |lens|
    ensures lens[j] != n ==> Permuted(lens, perm, n, j + 1, pp)
    ensures lens[j] == n ==> pp < |lens| && Permuted(lens, perm[pp := j], n, j + 1, pp + 1)
  {
    CountEqStep(lens, j, n);
    SlotRange(lens, j);
  }

  lemma LengthDone(lens: seq<byte>, perm: seq<int>, n: nat, pp: nat)
    requires Permuted(lens, perm, n, |lens|, pp)
    ensures Permuted(lens, perm, n + 1, 0, pp)
  {
    assert lens[..|lens|] == lens;
    CountNext(lens, n);
  }

  lemma AllPermuted(lens: seq<byte>, perm: seq<int>, maxLen: nat, pp: nat)
    requires Permuted(lens, perm, maxLen + 1, 0, pp) && forall k :: 0 <= k < |lens| ==> lens[k] <= maxLen
    ensures forall i :: 0 <= i < |lens| ==> Slot(lens, i) < |lens| && perm[Slot(lens, i)] == i
  {
    CountLessMonotone(lens, maxLen + 1, maxLen + 1);
  }

  /** base[i] becomes the number of symbols shorter than i. */
  method CountShorter(base: array<int>, length: array<byte>, alphaSize: nat)
    requires base as object != length && base.Length >= BZ_MAX_CODE_LEN && length.Length >= alphaSize
    requires forall i :: 0 <= i < alphaSize ==> 1 <= length[i] <= LONGEST
    modifies base
    ensures forall n :: 0 <= n < BZ_MAX_CODE_LEN ==> base[n] == CountLess(length[..alphaSize], n)
  {
    ghost var lens := length[..alphaSize];
    for i := 0 to BZ_MAX_CODE_LEN
      invariant forall n :: 0 <= n < i ==> base[n] == 0
    {
      base[i] := 0;
    }
    for i := 0 to alphaSize
      invariant length[..alphaSize] == lens && base[0] == 0
      invariant forall n :: 1 <= n < BZ_MAX_CODE_LEN ==> base[n] == CountEq(lens[..i], n - 1)
    {
      ghost var seen, now := lens[..i], lens[..i + 1];
      forall c: nat ensures CountEq(now, c) == CountEq(seen, c) + if lens[i] == c then 1 else 0 {
        CountEqStep(lens, i, c);
      }
      assert length[i] == lens[i];
      base[length[i] + 1] := base[length[i] + 1] + 1;
    }
    assert lens[..alphaSize] == lens;
    CountLessAll(lens);
    for i := 1 to BZ_MAX_CODE_LEN
      invariant length[..alphaSize] == lens
      invariant forall n :: 0 <= n < i ==> base[n] == CountLess(lens, n)
      invariant forall n :: i <= n < BZ_MAX_CODE_LEN ==> base[n] == CountEq(lens, n - 1)
    {
      CountNext(lens, i - 1);
      base[i] := base[i] + base[i - 1];
    }
  }

  /** The last code of each length. */
  method FillLimits(limit: array<int>, base: array<int>, minLen: nat, maxLen: nat, ghost lens: seq<byte>)
    requires limit != base && limit.Length >= BZ_MAX_CODE_LEN && base.Length >= BZ_MAX_CODE_LEN
    requires minLen <= maxLen <= LONGEST && forall k :: 0 <= k < |lens| ==> minLen <= lens[k]
    requires forall n :: 0 <= n < BZ_MAX_CODE_LEN ==> base[n] == CountLess(lens, n)
    modifies limit
    ensures forall n :: minLen <= n <= maxLen ==> limit[n] == First(lens, n) + CountEq(lens, n) - 1
    ensures forall n :: 0 <= n <= LONGEST && !(minLen <= n <= maxLen) ==> limit[n] == 0
  {
    hide CountEq, CountLess;
    for i := 0 to BZ_MAX_CODE_LEN
      invariant forall n :: 0 <= n < i ==> limit[n] == 0
    {
      limit[i] := 0;
    }
    NoneShorter(lens, minLen);
    var vec := 0;
    for i := minLen to maxLen + 1
      invariant vec == First(lens, i)
      invariant forall n :: minLen <= n < i ==> limit[n] == First(lens, n) + CountEq(lens, n) - 1
      invariant forall n :: 0 <= n <= LONGEST && !(minLen <= n <= maxLen) ==> limit[n] == 0
    {
      CountNext(lens, i);
      vec := vec + (base[i + 1] - base[i]);
      limit[i] := vec - 1;
      vec := vec * 2;
    }
  }

  /** The offset from the codes of a length to their places in perm. */
  method OffsetBase(limit: array<int>, base: array<int>, minLen: nat, maxLen: nat, ghost lens: seq<byte>)
    requires limit != base && limit.Length >= BZ_MAX_CODE_LEN && base.Length >= BZ_MAX_CODE_LEN
    requires minLen <= maxLen <= LONGEST && First(lens, minLen) == 0 == CountLess(lens, minLen)
    requires forall n :: 0 <= n < BZ_MAX_CODE_LEN ==> base[n] == CountLess(lens, n)
    requires forall n :: minLen <= n <= maxLen ==> limit[n] == First(lens, n) + CountEq(lens, n) - 1
    modifies base
    ensures forall n :: minLen <= n <= maxLen ==> base[n] == First(lens, n) - CountLess(lens, n)
    ensures forall n :: 0 <= n <= LONGEST && !(minLen <= n <= maxLen) ==> base[n] == CountLess(lens, n)
  {
    hide CountEq, CountLess;
    for i := minLen + 1 to maxLen + 1
      invariant forall n :: minLen <= n < i ==> base[n] == First(lens, n) - CountLess(lens, n)
      invariant forall n :: 0 <= n < minLen || i <= n < BZ_MAX_CODE_LEN ==> base[n] == CountLess(lens, n)
    {
      base[i] := (limit[i - 1] + 1) * 2 - base[i];
    }
  }

  method CreateDecodeTables(limit: array<int>, base: array<int>, perm: array<int>, length: array<byte>, minLen: nat, maxLen: nat, alphaSize: nat)
    requires limit != base && limit != perm && base != perm
    requires length as object !in {limit as object, base as object, perm as object}
    requires limit.Length >= BZ_MAX_CODE_LEN && base.Length >= BZ_MAX_CODE_LEN && perm.Length >= BZ_MAX_ALPHA_SIZE >= alphaSize && length.Length >= alphaSize
    requires 1 <= minLen <= maxLen <= LONGEST && forall i :: 0 <= i < alphaSize ==> minLen <= length[i] <= maxLen
    requires exists i :: 0 <= i < alphaSize && length[i] == maxLen
    modifies limit, base, perm
    ensures DecodeTables(length[..alphaSize], limit[..], base[..], perm[..], minLen, maxLen)
  {
    hide First, Slot;
    ghost var lens := length[..alphaSize];
    SortSymbols(perm, length, minLen, maxLen, alphaSize);
    CountShorter(base, length, alphaSize);
    FillLimits(limit, base, minLen, maxLen, lens);
    NoneShorter(lens, minLen);
    OffsetBase(limit, base, minLen, maxLen, lens);
    var i :| 0 <= i < alphaSize && length[i] == maxLen;
    assert lens[i] == maxLen;
  }

  // ---------- decoding one symbol ----------

  datatype SymbolResult = Symbol(sym: int, used: nat) | MoreBits | BadCode

  /** The loop of GET_MTF_VAL: zvec holds the first zn bits. */
  function DecodeFrom(limit: seq<int>, base: seq<int>, perm: seq<int>, bits: seq<bool>, zn: nat, zvec: nat): SymbolResult
    requires |limit| >= BZ_MAX_CODE_LEN && |base| >= BZ_MAX_CODE_LEN && |perm| >= BZ_MAX_ALPHA_SIZE && zn <= |bits|
    decreases |bits| - zn
  {
    if zn > LONGEST then BadCode
    else if zvec <= limit[zn] then
      if zvec - base[zn] < 0 || zvec - base[zn] >= BZ_MAX_ALPHA_SIZE then BadCode
      else Symbol(perm[zvec - base[zn]], zn)
    else if zn == |bits| then MoreBits
    else DecodeFrom(limit, base, perm, bits, zn + 1, 2 * zvec + Digit(bits[zn]))
  }

  function DecodeSymbol(limit: seq<int>, base: seq<int>, perm: seq<int>, minLen: nat, bits: seq<bool>): SymbolResult
    requires |limit| >= BZ_MAX_CODE_LEN && |base| >= BZ_MAX_CODE_LEN && |perm| >= BZ_MAX_ALPHA_SIZE
  {
    if |bits| < minLen then MoreBits
    else DecodeFrom(limit, base, perm, bits, minLen, ValueOf(bits[..minLen]))
  }

  /** The codes of length n start above everything a shorter code occupies. */
  lemma {:induction false} LaterCodesAbove(lens: seq<byte>, n: nat, m: nat)
    requires n < m
    ensures First(lens, m) >= (First(lens, n) + CountEq(lens, n)) * Pow2(m - n)
    decreases m
  {
    if n + 1 < m {
      LaterCodesAbove(lens, n, m - 1);
      ShiftDistributes(First(lens, n) + CountEq(lens, n), Pow2(m - 1 - n), 0);
    }
  }

  /** A proper prefix of a code is larger than every code of its own length. */
  lemma PrefixAboveLimit(lens: seq<byte>, i: nat, n: nat)
    requires i < |lens| && n < lens[i]
    ensures Code(lens, i) / Pow2(lens[i] - n) >= First(lens, n) + CountEq(lens, n)
  {
    LaterCodesAbove(lens, n, lens[i]);
    QuotientAtLeast(Code(lens, i), First(lens, n) + CountEq(lens, n), Pow2(lens[i] - n));
  }

  lemma QuotientAtLeast(x: nat, q: nat, p: nat)
    requires p > 0 && x >= q * p
    ensures x / p >= q
  {
    var r := x / p;
    if r < q { MulMonotone(r + 1, q, p); }
  }

  lemma MulMonotone(a: nat, b: nat, p: nat)
    requires a <= b
    ensures a * p <= b * p
  {
  }

  /** Place zvec - base[n] in perm is the symbol whose code is zvec. */
  lemma PlaceOfCode(lens: seq<byte>, i: nat)
    requires i < |lens|
    ensures Code(lens, i) - (First(lens, lens[i]) - CountLess(lens, lens[i])) == Slot(lens, i) < |lens|
    ensures Code(lens, i) <= First(lens, lens[i]) + CountEq(lens, lens[i]) - 1
  {
    RankBelowCount(lens, i);
    SlotRange(lens, i);
  }

  /** The bits read so far are the first n bits of the code. */
  lemma PrefixValue(lens: seq<byte>, i: nat, bits: seq<bool>, n: nat)
    requires i < |lens| && Code(lens, i) < Pow2(lens[i]) && n <= lens[i] <= |bits|
    requires bits[..lens[i]] == CodeBits(lens, i)
    ensures ValueOf(bits[..n]) == Code(lens, i) / Pow2(lens[i] - n)
  {
    var c, m := Code(lens, i), lens[i] as nat;
    BitsPrefix(c, m, n);
    assert bits[..n] == bits[..m][..n];
    QuotientFits(c, Pow2(m - n), Pow2(n)) by { Pow2Add(n, m - n); }
    ValueOfBits(c / Pow2(m - n), n);
  }

  lemma QuotientFits(x: nat, p: nat, q: nat)
    requires p > 0 && x < q * p
    ensures 0 <= x / p < q
  {
    if x / p >= q { MulMonotone(q, x / p, p); }
  }

  lemma CodePrefix(lens: seq<byte>, i: nat, bits: seq<bool>, n: nat)
    requires i < |lens| && Code(lens, i) < Pow2(lens[i]) && n <= lens[i] <= |bits|
    requires bits[..lens[i]] == CodeBits(lens, i)
    ensures n < lens[i] ==> ValueOf(bits[..n]) >= First(lens, n) + CountEq(lens, n)
    ensures n == lens[i] ==> ValueOf(bits[..n]) == Code(lens, i)
  {
    hide Code, First, ValueOf;
    PrefixValue(lens, i, bits, n);
    if n < lens[i] { PrefixAboveLimit(lens, i, n); } else { assert Pow2(0) == 1; }
  }

  lemma {:induction false} DecodesFrom(lens: seq<byte>, limit: seq<int>, base: seq<int>, perm: seq<int>, minLen: nat, maxLen: nat, i: nat, bits: seq<bool>, n: nat)
    requires Lengths(lens) && DecodeTables(lens, limit, base, perm, minLen, maxLen)
    requires i < |lens| && Code(lens, i) < Pow2(lens[i]) && minLen <= n <= lens[i] <= |bits|
    requires bits[..lens[i]] == CodeBits(lens, i)
    ensures DecodeFrom(limit, base, perm, bits, n, ValueOf(bits[..n])) == Symbol(i, lens[i])
    decreases lens[i] - n
  {
    hide Lengths, DecodeTables, CodeBits, Code, Slot, First, ValueOf;
    CodePrefix(lens, i, bits, n);
    TablesAt(lens, limit, base, perm, minLen, maxLen, n, i);
    if n == lens[i] {
      PlaceOfCode(lens, i);
    } else {
      ValueNext(bits, n);
      DecodesFrom(lens, limit, base, perm, minLen, maxLen, i, bits, n + 1);
    }
  }

  lemma ValueNext(bits: seq<bool>, n: nat)
    requires n < |bits|
    ensures ValueOf(bits[..n + 1]) == 2 * ValueOf(bits[..n]) + Digit(bits[n])
  {
    assert bits[..n + 1][..n] == bits[..n];
  }

  lemma TablesAt(lens: seq<byte>, limit: seq<int>, base: seq<int>, perm: seq<int>, minLen: nat, maxLen: nat, n: nat, i: nat)
    requires Lengths(lens) && DecodeTables(lens, limit, base, perm, minLen, maxLen)
    ensures |limit| >= BZ_MAX_CODE_LEN && |base| >= BZ_MAX_CODE_LEN && |perm| >= BZ_MAX_ALPHA_SIZE >= |lens|
    ensures minLen <= n <= maxLen ==> limit[n] == First(lens, n) + CountEq(lens, n) - 1 && base[n] == First(lens, n) - CountLess(lens, n)
    ensures maxLen < n <= LONGEST ==> limit[n] == 0
    ensures maxLen <= LONGEST
    ensures i < |lens| ==> Slot(lens, i) < |lens| && perm[Slot(lens, i)] == i && minLen <= lens[i] <= maxLen
  {
  }

  /** Reading the code of symbol i, whatever bits follow, gives symbol i after exactly
      its own number of bits. */
  lemma CodeDecodes(lens: seq<byte>, limit: seq<int>, base: seq<int>, perm: seq<int>, minLen: nat, maxLen: nat, i: nat, rest: seq<bool>)
    requires Lengths(lens) && Kraft(lens) && DecodeTables(lens, limit, base, perm, minLen, maxLen) && i < |lens|
    ensures DecodeSymbol(limit, base, perm, minLen, CodeBits(lens, i) + rest) == Symbol(i, lens[i])
  {
    var bits := CodeBits(lens, i) + rest;
    CodeFits(lens, i);
    assert bits[..lens[i]] == CodeBits(lens, i);
    DecodesFrom(lens, limit, base, perm, minLen, maxLen, i, bits, minLen);
  }

  lemma CodeValue(lens: seq<byte>, i: nat)
    requires i < |lens| && Code(lens, i) < Pow2(lens[i])
    ensures ValueOf(CodeBits(lens, i)) == Code(lens, i)
  {
    ValueOfBits(Code(lens, i), lens[i]);
  }

  /** No code is a prefix of another. */
  lemma PrefixFree(lens: seq<byte>, i: nat, j: nat, rest: seq<bool>)
    requires Lengths(lens) && Kraft(lens) && i < |lens| && j < |lens| && CodeBits(lens, j) == CodeBits(lens, i) + rest
    ensures i == j
  {
    hide Lengths, Kraft, CodeBits, Code, Slot, ValueOf;
    var n, m := lens[i] as nat, lens[j] as nat;
    CodeFits(lens, i);
    CodeFits(lens, j);
    var bits := CodeBits(lens, j);
    assert bits[..n] == CodeBits(lens, i) && bits[..m] == bits;
    CodePrefix(lens, j, bits, n);
    CodeValue(lens, i);
    PlaceOfCode(lens, i);
    PlaceOfCode(lens, j);
    if n == m {
      OriginSlot(lens, i);
      OriginSlot(lens, j);
    }
  }

  /** Which symbol a value in the range of length n stands for. */
  lemma SymbolOfPlace(lens: seq<byte>, n: nat, zvec: nat) returns (i: nat)
    requires First(lens, n) <= zvec < First(lens, n) + CountEq(lens, n)
    ensures i < |lens| && lens[i] == n && Code(lens, i) == zvec
    ensures Slot(lens, i) == zvec - (First(lens, n) - CountLess(lens, n)) < |lens|
  {
    CountNext(lens, n);
    CountLessMonotone(lens, n + 1, n + 1);
    var j := zvec - First(lens, n) + CountLess(lens, n);
    i := Origin(lens, j);
    SlotRange(lens, i);
    if lens[i] < n { CountLessMonotone(lens, lens[i] as int + 1, n); }
    if n < lens[i] { CountLessMonotone(lens, n + 1, lens[i]); }
  }

  lemma LongestUsed(lens: seq<byte>, limit: seq<int>, base: seq<int>, perm: seq<int>, minLen: nat, maxLen: nat)
    requires DecodeTables(lens, limit, base, perm, minLen, maxLen)
    ensures CountEq(lens, maxLen) > 0
  {
    var k :| 0 <= k < |lens| && lens[k] == maxLen;
    RankBelowCount(lens, k);
  }

  lemma {:induction false} DecodedFrom(lens: seq<byte>, limit: seq<int>, base: seq<int>, perm: seq<int>, minLen: nat, maxLen: nat, bits: seq<bool>, n: nat)
    requires Lengths(lens) && DecodeTables(lens, limit, base, perm, minLen, maxLen)
    requires minLen <= n <= |bits| && if n <= maxLen then ValueOf(bits[..n]) >= First(lens, n) else ValueOf(bits[..n]) > 0
    ensures var r := DecodeFrom(limit, base, perm, bits, n, ValueOf(bits[..n]));
            r.Symbol? ==> 0 <= r.sym < |lens| && r.used == lens[r.sym] <= |bits| && bits[..r.used] == CodeBits(lens, r.sym)
    decreases |bits| - n
  {
    hide Lengths, DecodeTables, Code, Slot, ValueOf;
    var z := ValueOf(bits[..n]);
    TablesAt(lens, limit, base, perm, minLen, maxLen, n, 0);
    if n <= LONGEST && z <= limit[n] {
      var i := SymbolOfPlace(lens, n, z);
      BitsOfValue(bits[..n]);
      TablesAt(lens, limit, base, perm, minLen, maxLen, n, i);
    } else if n <= LONGEST && n < |bits| {
      ValueNext(bits, n);
      LongestUsed(lens, limit, base, perm, minLen, maxLen);
      DecodedFrom(lens, limit, base, perm, minLen, maxLen, bits, n + 1);
    }
  }

  /** Conversely, whatever the decoder accepts is the code of the symbol it returns. */
  lemma OnlyCodesDecode(lens: seq<byte>, limit: seq<int>, base: seq<int>, perm: seq<int>, minLen: nat, maxLen: nat, bits: seq<bool>)
    requires Lengths(lens) && DecodeTables(lens, limit, base, perm, minLen, maxLen)
    ensures var r := DecodeSymbol(limit, base, perm, minLen, bits);
            r.Symbol? ==> 0 <= r.sym < |lens| && r.used == lens[r.sym] <= |bits| && bits[..r.used] == CodeBits(lens, r.sym)
  {
    if |bits| >= minLen {
      NoneShorter(lens, minLen);
      DecodedFrom(lens, limit, base, perm, minLen, maxLen, bits, minLen);
    }
  }
}