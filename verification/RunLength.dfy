/** bzip2's run-length layer on values (bzlib.c): what a block of pairs stands for, and how
    it is expanded. */
module RunLength {
  import opened Words
  import opened MtfCoding

  /** A run of one byte, as the encoder adds it to the block. */
  datatype Run = Run(ch: byte, len: nat)

  /** Four equal bytes are always followed by a count of how many more there are. */
  function RunBytes(r: Run): (s: seq<byte>)
    requires 1 <= r.len <= 255
    ensures 1 <= |s| <= 5
  {
    if r.len < 4 then Repeat<byte>(r.ch, r.len) else Repeat<byte>(r.ch, 4) + [(r.len - 4) as byte]
  }

  ghost predicate RunsFit(runs: seq<Run>) {
    forall k :: 0 <= k < |runs| ==> 1 <= runs[k].len <= 255
  }

  /** Short runs are followed by a different byte; only a run of four or more can be
      followed by more of the same. */
  ghost predicate Separated(runs: seq<Run>) {
    && RunsFit(runs)
    && forall k :: 0 < k < |runs| ==> runs[k - 1].len < 4 ==> runs[k].ch != runs[k - 1].ch
  }

  /** The block that holds the runs. */
  ghost function BlockOf(runs: seq<Run>): seq<byte>
    requires RunsFit(runs)
  {
    if runs == [] then [] else RunBytes(runs[0]) + BlockOf(runs[1..])
  }

  /** The bytes the runs stand for. */
  ghost function BytesOf(runs: seq<Run>): seq<byte> {
    if runs == [] then [] else Repeat<byte>(runs[0].ch, runs[0].len) + BytesOf(runs[1..])
  }

  lemma {:induction false} BlockSnoc(runs: seq<Run>, r: Run)
    requires RunsFit(runs) && 1 <= r.len <= 255
    ensures RunsFit(runs + [r]) && BlockOf(runs + [r]) == BlockOf(runs) + RunBytes(r)
    ensures BytesOf(runs + [r]) == BytesOf(runs) + Repeat<byte>(r.ch, r.len)
  {
    hide Repeat, RunBytes;
    if runs == [] {
      assert runs + [r] == [r];
      assert BlockOf([r][1..]) == [] && BytesOf([r][1..]) == [];
    } else {
      BlockSnoc(runs[1..], r);
      assert (runs + [r])[1..] == runs[1..] + [r];
    }
  }

  // ---------- expansion ----------

  /** What expanding a block gives; `ok` is false if the block breaks off after four equal
      bytes, before the count. */
  datatype Expansion = Expansion(out: seq<byte>, ok: bool)

  function Before(s: seq<byte>, e: Expansion): Expansion { Expansion(s + e.out, e.ok) }

  /** The decoder's reading of a block. `past` is the byte fetched beyond the end when a
      count is missing. */
  function Expand(b: seq<byte>, past: byte): Expansion
    decreases |b|
  {
    if b == [] then Expansion([], true)
    else if |b| == 1 || b[1] != b[0] then Before([b[0]], Expand(b[1..], past))
    else if |b| == 2 || b[2] != b[0] then Before(Repeat<byte>(b[0], 2), Expand(b[2..], past))
    else if |b| == 3 || b[3] != b[0] then Before(Repeat<byte>(b[0], 3), Expand(b[3..], past))
    else if |b| == 4 then Expansion(Repeat<byte>(b[0], 4 + past as int), false)
    else Before(Repeat<byte>(b[0], 4 + b[4] as int), Expand(b[5..], past))
  }

  /** The first byte after a run differs from a short run's byte. */
  lemma ExpandRun(r: Run, rest: seq<byte>, past: byte)
    requires 1 <= r.len <= 255 && (r.len < 4 && rest != [] ==> rest[0] != r.ch)
    ensures Expand(RunBytes(r) + rest, past) == Before(Repeat<byte>(r.ch, r.len), Expand(rest, past))
  {
    var b := RunBytes(r) + rest;
    if r.len < 4 {
      assert b[r.len..] == rest;
      assert Repeat<byte>(r.ch, 1) == [r.ch];
    } else {
      assert b[5..] == rest && b[4] == (r.len - 4) as byte;
    }
  }

  /** Expansion inverts run-length coding. */
  lemma {:induction false} ExpandRuns(runs: seq<Run>, past: byte)
    requires Separated(runs)
    ensures Expand(BlockOf(runs), past) == Expansion(BytesOf(runs), true)
    decreases |runs|
  {
    if runs != [] {
      var rest := runs[1..];
      ExpandRuns(rest, past);
      if rest != [] {
        assert runs[1 - 1].len < 4 ==> runs[1].ch != runs[1 - 1].ch;
        assert BlockOf(rest)[0] == rest[0].ch;
      }
      ExpandRun(runs[0], BlockOf(rest), past);
    }
  }

  // ---------- expansion step by step, as the decoder goes through the block ----------

  /** The expansion of what is left from i on. */
  function From(b: seq<byte>, past: byte, i: nat): Expansion
    requires i <= |b|
  {
    Expand(b[i..], past)
  }

  /** Byte k of the block, or the one beyond its end. */
  function Fetched(b: seq<byte>, past: byte, k: nat): byte
    requires k <= |b|
  {
    if k < |b| then b[k] else past
  }

  lemma FromEnd(b: seq<byte>, past: byte)
    ensures From(b, past, |b|) == Expansion([], true)
  {
  }

  /** How a run that starts at i ends. */
  lemma FromSteps(b: seq<byte>, past: byte, i: nat)
    requires i < |b|
    ensures i + 1 == |b| || b[i + 1] != b[i] ==> From(b, past, i) == Before(Repeat<byte>(b[i], 1), From(b, past, i + 1))
    ensures i + 1 < |b| && b[i + 1] == b[i] && (i + 2 == |b| || b[i + 2] != b[i]) ==>
              From(b, past, i) == Before(Repeat<byte>(b[i], 2), From(b, past, i + 2))
    ensures i + 2 < |b| && b[i + 1] == b[i] == b[i + 2] && (i + 3 == |b| || b[i + 3] != b[i]) ==>
              From(b, past, i) == Before(Repeat<byte>(b[i], 3), From(b, past, i + 3))
    ensures i + 3 < |b| && b[i + 1] == b[i] == b[i + 2] == b[i + 3] && i + 4 < |b| ==>
              From(b, past, i) == Before(Repeat<byte>(b[i], 4 + b[i + 4] as int), From(b, past, i + 5))
    ensures i + 3 < |b| && b[i + 1] == b[i] == b[i + 2] == b[i + 3] && i + 4 == |b| ==>
              From(b, past, i) == Expansion(Repeat<byte>(b[i], 4 + past as int), false)
  {
    var r := b[i..];
    assert r[0] == b[i];
    assert Repeat<byte>(b[i], 1) == [b[i]];
    if i + 1 < |b| { assert r[1] == b[i + 1]; }
    if i + 2 < |b| { assert r[2] == b[i + 2]; }
    if i + 3 < |b| { assert r[3] == b[i + 3]; }
    if i + 4 < |b| { assert r[4] == b[i + 4] && r[5..] == b[i + 5..]; }
    assert r[1..] == b[i + 1..];
    if i + 2 <= |b| { assert r[2..] == b[i + 2..]; }
    if i + 3 <= |b| { assert r[3..] == b[i + 3..]; }
  }

  /** Where the decoder stands: `used` bytes of the block fetched, a run of `len` copies of
      `ch` still to be written, `out` written so far. After a block that breaks off it
      stands beyond its end. */
  ghost predicate Expanding(b: seq<byte>, past: byte, used: nat, ch: byte, len: nat, out: seq<byte>) {
    && 1 <= used <= |b| + 2
    && (used <= |b| + 1 ==> Expand(b, past) == Before(out + Repeat<byte>(ch, len), From(b, past, used - 1)))
    && (used == |b| + 2 ==> Expand(b, past) == Expansion(out + Repeat<byte>(ch, len), false))
  }

  lemma ExpandingStart(b: seq<byte>, past: byte, ch: byte)
    ensures Expanding(b, past, 1, ch, 0, [])
  {
    assert b[0..] == b;
    assert [] + Repeat<byte>(ch, 0) == [];
  }

  /** One copy written. */
  lemma WriteOne(b: seq<byte>, past: byte, used: nat, ch: byte, len: nat, out: seq<byte>)
    requires Expanding(b, past, used, ch, len, out) && len > 0
    ensures Expanding(b, past, used, ch, len - 1, out + [ch])
  {
    assert out + Repeat<byte>(ch, len) == out + [ch] + Repeat<byte>(ch, len - 1);
  }

  /** With no run pending and the block not used up, the next run is taken on. */
  lemma TakeRun(b: seq<byte>, past: byte, used: nat, ch: byte, out: seq<byte>)
    requires Expanding(b, past, used, ch, 0, out) && used <= |b|
    ensures var i, c := used - 1, b[used - 1];
      && (used == |b| || b[i + 1] != c ==> Expanding(b, past, used + 1, c, 1, out))
      && (used + 1 <= |b| && b[i + 1] == c && (used + 1 == |b| || b[i + 2] != c) ==> Expanding(b, past, used + 2, c, 2, out))
      && (used + 2 <= |b| && b[i + 1] == b[i + 2] == c && (used + 2 == |b| || b[i + 3] != c) ==> Expanding(b, past, used + 3, c, 3, out))
      && (used + 3 <= |b| && b[i + 1] == b[i + 2] == b[i + 3] == c ==>
           Expanding(b, past, used + 5, c, 4 + Fetched(b, past, used + 3) as int, out))
  {
    var i := used - 1;
    FromSteps(b, past, i);
    hide Expand, From;
    assert Repeat<byte>(ch, 0) == [];
    forall n: nat, e: Expansion ensures Before(out + Repeat<byte>(ch, 0), Before(Repeat<byte>(b[i], n), e)) == Before(out + Repeat<byte>(b[i], n), e) {
      assert out + Repeat<byte>(ch, 0) + (Repeat<byte>(b[i], n) + e.out) == out + Repeat<byte>(b[i], n) + e.out;
    }
  }

  /** Nothing pending and the block used up: all of it has been written and it was whole. */
  lemma AllWritten(b: seq<byte>, past: byte, ch: byte, out: seq<byte>)
    requires Expanding(b, past, |b| + 1, ch, 0, out)
    ensures Expand(b, past) == Expansion(out, true)
  {
    FromEnd(b, past);
    assert out + Repeat<byte>(ch, 0) + [] == out;
  }

  lemma SomeOutput(b: seq<byte>, past: byte)
    requires b != []
    ensures Expand(b, past).out != []
  {
  }

  /** Unless the block is used up and no run pending, there is more to write, or the block breaks
      off. */
  lemma MoreToWrite(b: seq<byte>, past: byte, used: nat, ch: byte, len: nat, out: seq<byte>)
    requires Expanding(b, past, used, ch, len, out) && !(used == |b| + 1 && len == 0)
    ensures !Expand(b, past).ok || |out| < |Expand(b, past).out|
  {
    if used <= |b| { SomeOutput(b[used - 1..], past); }
  }

  lemma BrokenOff(b: seq<byte>, past: byte, used: nat, ch: byte, len: nat, out: seq<byte>)
    requires Expanding(b, past, used, ch, len, out) && used > |b| + 1
    ensures !Expand(b, past).ok
  {
  }
}
