/** Streaming MD5: the buffered context of libs/std/crypto/md5.c against sections 3.1 to 3.5 of
    RFC 1321. The results hold for any block step; `Md5Block.Process` is the one in use. */
module Md5 {
  import opened Arith
  import opened Base
  import opened Md5Block

  const U64: nat := 0x1_0000_0000_0000_0000

  type Step = (Digest, Block) -> Digest

  // ---- specification -----------------------------------------------------------------------------

  /** The block step folded over a message that consists of complete blocks. */
  function Fold(step: Step, d: Digest, m: seq<Byte>): Digest
    requires |m| % 64 == 0
    decreases |m|
  {
    if |m| == 0 then d else Fold(step, step(d, m[..64]), m[64..])
  }

  /** The complete blocks of a message, and the bytes after them. */
  function Whole(m: seq<Byte>): (w: seq<Byte>)
    ensures |w| % 64 == 0 && |m| - 64 < |w| <= |m|
  {
    m[..|m| / 64 * 64]
  }

  function Tail(m: seq<Byte>): (t: seq<Byte>)
    ensures |t| == |m| % 64 && Whole(m) + t == m
  {
    m[|m| / 64 * 64..]
  }

  function Zeros(n: nat): seq<Byte> {
    seq(n, i => 0)
  }

  /** `n` as `k` bytes, least significant first. */
  function LittleEndian(n: nat, k: nat): (s: seq<Byte>)
    ensures |s| == k
  {
    if k == 0 then [] else [n % 256] + LittleEndian(n / 256, k - 1)
  }

  function FromLittleEndian(s: seq<Byte>): nat {
    if |s| == 0 then 0 else s[0] + 256 * FromLittleEndian(s[1..])
  }

  function PadCount(n: nat): (k: nat)
    ensures 1 <= k <= 64 && (n + k) % 64 == 56 && (n + k + 8) % 64 == 0
  {
    if n % 64 < 56 then 56 - n % 64 else 120 - n % 64
  }

  /** The bytes that bring a message of length `n` to 56 modulo 64: one bit, then zeros. */
  function PadBytes(n: nat): (p: seq<Byte>)
    ensures |p| == PadCount(n)
  {
    [0x80] + Zeros(PadCount(n) - 1)
  }

  /** Sections 3.1 and 3.2: padding, then the length in bits modulo 2^64. */
  function Padded(m: seq<Byte>): (p: seq<Byte>)
    ensures |p| % 64 == 0
  {
    m + PadBytes(|m|) + LittleEndian(8 * |m| % U64, 8)
  }

  function Output(d: Digest): seq<Byte> {
    LittleEndian(d.a as nat, 4) + LittleEndian(d.b as nat, 4)
    + LittleEndian(d.c as nat, 4) + LittleEndian(d.d as nat, 4)
  }

  /** The digest of a message: section 3.5 over the fold of section 3.4. */
  function Md5Of(step: Step, m: seq<Byte>): seq<Byte> {
    Output(Fold(step, INITIAL, Padded(m)))
  }

  // ---- lemmas --------------------------------------------------------------------------------------

  lemma {:induction false} FoldAppend(step: Step, d: Digest, x: seq<Byte>, y: seq<Byte>)
    requires |x| % 64 == 0 && |y| % 64 == 0
    ensures Fold(step, d, x + y) == Fold(step, Fold(step, d, x), y)
    decreases |x|
  {
    if |x| == 0 {
      assert x + y == y;
    } else {
      assert (x + y)[..64] == x[..64] && (x + y)[64..] == x[64..] + y;
      FoldAppend(step, step(d, x[..64]), x[64..], y);
    }
  }

  lemma FoldBlock(step: Step, d: Digest, x: seq<Byte>, b: Block)
    requires |x| % 64 == 0
    ensures Fold(step, d, x + b) == step(Fold(step, d, x), b)
  {
    FoldAppend(step, d, x, b);
    assert b[..64] == b && b[64..] == [];
  }

  function Pow256(k: nat): nat {
    if k == 0 then 1 else 256 * Pow256(k - 1)
  }

  lemma {:induction false} LittleEndianConcat(low: nat, high: nat, j: nat, k: nat)
    requires low < Pow256(j)
    ensures LittleEndian(low + Pow256(j) * high, j + k) == LittleEndian(low, j) + LittleEndian(high, k)
    decreases j
  {
    if j > 0 {
      var p := Pow256(j - 1) * high;
      MulAssoc(256, Pow256(j - 1), high);
      ModShift(low, p, 256);
      LittleEndianConcat(low / 256, high, j - 1, k);
    }
  }

  lemma {:induction false} LittleEndianRoundTrip(n: nat, k: nat)
    requires n < Pow256(k)
    ensures FromLittleEndian(LittleEndian(n, k)) == n
    decreases k
  {
    if k > 0 {
      assert n / 256 < Pow256(k - 1);
      LittleEndianRoundTrip(n / 256, k - 1);
      assert LittleEndian(n, k)[1..] == LittleEndian(n / 256, k - 1);
    }
  }

  /** Bytes that complete the block in the buffer become part of the whole blocks. */
  lemma WholeGrows(m: seq<Byte>, c: seq<Byte>)
    requires |m| % 64 + |c| == 64
    ensures |m + c| % 64 == 0
    ensures Whole(m + c) == Whole(m) + (Tail(m) + c) && Tail(m + c) == []
  {
    var q := |m| / 64;
    assert |m + c| == (q + 1) * 64;
    assert m + c == Whole(m) + (Tail(m) + c);
    assert Whole(m + c) == m + c;
  }

  /** Fewer bytes than that only lengthen the tail. */
  lemma TailGrows(m: seq<Byte>, c: seq<Byte>)
    requires |m| % 64 + |c| < 64
    ensures |m + c| % 64 == |m| % 64 + |c|
    ensures Whole(m + c) == Whole(m) && Tail(m + c) == Tail(m) + c
  {
    var q := |m| / 64;
    assert |m + c| == q * 64 + (|m| % 64 + |c|);
    assert |m + c| / 64 == q;
    assert m + c == Whole(m) + (Tail(m) + c);
  }

  /** The two 32-bit counters hold the length modulo 2^64, carry included. */
  lemma CounterAdds(t0: nat, t1: nat, len: nat, n: nat)
    requires t0 < U32 && t1 < U32 && n < U32 && t0 + U32 * t1 == len % U64
    ensures var t0' := (t0 + n) % U32;
            var t1' := if t0' < n then (t1 + 1) % U32 else t1;
            t0' + U32 * t1' == (len + n) % U64
  {
    assert (len + n) % U64 == (len % U64 + n) % U64;
    if t0 + n < U32 {
      assert (t0 + n) % U32 == t0 + n;
    } else {
      assert (t0 + n) % U32 == t0 + n - U32;
    }
  }

  lemma CounterMod64(t0: nat, t1: nat, len: nat)
    requires t0 < U32 && t0 + U32 * t1 == len % U64
    ensures t0 % 64 == len % 64
  {
    assert len == U64 * (len / U64) + t0 + U32 * t1;
  }

  lemma ShiftedCounters(t0: nat, t1: nat)
    requires t0 < U32 && t1 < U32
    ensures t0 * 8 % U32 + U32 * (t0 / 0x2000_0000 + t1 * 8 % U32) == 8 * (t0 + U32 * t1) % U64
  {
    var a, b := t0 / 0x2000_0000, t1 / 0x2000_0000;
    assert t0 * 8 % U32 == t0 * 8 - a * U32;
    assert t1 * 8 % U32 == t1 * 8 - b * U32;
    DivModUnique(8 * (t0 + U32 * t1), b, t0 * 8 % U32 + U32 * (a + t1 * 8 % U32), U64);
  }

  /** The bit length assembled from the counters by shifts. */
  lemma BitLength(t0: nat, t1: nat, len: nat)
    requires t0 < U32 && t1 < U32 && t0 + U32 * t1 == len % U64
    ensures LittleEndian(t0 * 8 % U32, 4) + LittleEndian(t0 / 0x2000_0000 + t1 * 8 % U32, 4)
         == LittleEndian(8 * len % U64, 8)
  {
    ShiftedCounters(t0, t1);
    ModShift(8 * (len % U64), 8 * (len / U64), U64);
    assert 8 * len == 8 * (len / U64) * U64 + 8 * (len % U64);
    assert Pow256(4) == U32;
    LittleEndianConcat(t0 * 8 % U32, t0 / 0x2000_0000 + t1 * 8 % U32, 4, 4);
  }

  lemma PaddedParts(x: seq<Byte>)
    ensures var p := Padded(x);
            |p| >= |x| + 8 && p[..|x|] == x && p[|p| - 8..] == LittleEndian(8 * |x| % U64, 8)
  {
  }

  lemma Pow256Of8()
    ensures Pow256(8) == U64
  {
    assert Pow256(4) == U32;
  }

  lemma LengthFieldInjective(n: nat, n': nat)
    requires n < U64 / 8 && n' < U64 / 8
    requires LittleEndian(8 * n % U64, 8) == LittleEndian(8 * n' % U64, 8)
    ensures n == n'
  {
    Pow256Of8();
    hide Pow256, LittleEndian, FromLittleEndian;
    LittleEndianRoundTrip(8 * n % U64, 8);
    LittleEndianRoundTrip(8 * n' % U64, 8);
  }

  /** Padding can be undone: below 2^61 bytes (where the length field does not wrap) no two messages
      are padded alike. */
  lemma PaddedInjective(x: seq<Byte>, y: seq<Byte>)
    requires |x| < U64 / 8 && |y| < U64 / 8 && Padded(x) == Padded(y)
    ensures x == y
  {
    PaddedParts(x);
    PaddedParts(y);
    LengthFieldInjective(|x|, |y|);
  }

  // ---- the context -----------------------------------------------------------------------------------

  class Context {
    const step: Step
    var total0: nat
    var total1: nat
    var state: Digest
    const buffer: array<Byte>

    /** Everything given to the context since `md5_starts`. */
    ghost var message: seq<Byte>

    ghost predicate Valid()
      reads this, buffer
    {
      && buffer.Length == 64
      && total0 < U32 && total1 < U32
      && total0 + U32 * total1 == |message| % U64
      && state == Fold(step, INITIAL, Whole(message))
      && buffer[..|message| % 64] == Tail(message)
    }

    /** `md5_starts`. */
    constructor (step: Step)
      ensures Valid() && fresh(buffer) && message == [] && this.step == step
    {
      this.step := step;
      total0, total1, state := 0, 0, INITIAL;
      buffer := new Byte[64](i => 0);
      message := [];
    }

    method CopyIn(at: nat, bytes: seq<Byte>)
      requires at + |bytes| <= buffer.Length
      modifies buffer
      ensures buffer[..at + |bytes|] == old(buffer[..at]) + bytes
    {
      forall i | 0 <= i < |bytes| {
        buffer[at + i] := bytes[i];
      }
    }

    /** The first part of `md5_update`: complete the block in the buffer. */
    method CompleteBlock(left: nat, chunk: seq<Byte>, ghost seen: seq<Byte>)
      requires buffer.Length == 64 && left == |seen| % 64 && left + |chunk| == 64
      requires state == Fold(step, INITIAL, Whole(seen)) && buffer[..left] == Tail(seen)
      modifies `state, buffer
      ensures |seen + chunk| % 64 == 0
      ensures state == Fold(step, INITIAL, Whole(seen + chunk))
    {
      CopyIn(left, chunk);
      WholeGrows(seen, chunk);
      assert buffer[..left + |chunk|] == buffer[..];
      FoldBlock(step, INITIAL, Whole(seen), buffer[..]);
      state := step(state, buffer[..]);
    }

    /** The loop of `md5_update`: whole blocks straight from the input. */
    method ProcessBlocks(input: seq<Byte>, ghost seen: seq<Byte>) returns (used: nat)
      requires state == Fold(step, INITIAL, Whole(seen))
      requires |seen| % 64 == 0 || |input| < 64
      modifies `state
      ensures used <= |input| < used + 64 && (|seen| + used) % 64 == |seen| % 64
      ensures state == Fold(step, INITIAL, Whole(seen + input[..used]))
      ensures |input| < 64 ==> used == 0
    {
      hide Fold, Whole, Tail;
      used := 0;
      assert seen + input[..0] == seen;
      while |input| - used >= 64
        invariant used <= |input| && (|seen| + used) % 64 == |seen| % 64
        invariant state == Fold(step, INITIAL, Whole(seen + input[..used]))
        invariant |input| < 64 ==> used == 0
      {
        var block := input[used..used + 64];
        WholeGrows(seen + input[..used], block);
        FoldBlock(step, INITIAL, Whole(seen + input[..used]), block);
        assert Tail(seen + input[..used]) + block == block;
        assert seen + input[..used + 64] == (seen + input[..used]) + block;
        state := step(state, block);
        used := used + 64;
      }
    }

    /** The rest of `md5_update` once no block in the buffer can be completed any more. */
    method AbsorbRest(left: nat, input: seq<Byte>, ghost seen: seq<Byte>)
      requires buffer.Length == 64 && left == |seen| % 64 && (left == 0 || left + |input| < 64)
      requires state == Fold(step, INITIAL, Whole(seen)) && buffer[..left] == Tail(seen)
      modifies `state, buffer
      ensures state == Fold(step, INITIAL, Whole(seen + input))
      ensures buffer[..|seen + input| % 64] == Tail(seen + input)
    {
      var used := ProcessBlocks(input, seen);
      ghost var done := seen + input[..used];
      assert done + input[used..] == seen + input;
      assert Tail(done) == buffer[..left] by {
        if used == 0 { assert done == seen; }
      }
      TailGrows(done, input[used..]);
      CopyIn(left, input[used..]);
    }

    /** `md5_update` after it has counted the input: `seen` is the message so far. */
    method Absorb(left: nat, input: seq<Byte>, ghost seen: seq<Byte>)
      requires buffer.Length == 64 && left == |seen| % 64
      requires state == Fold(step, INITIAL, Whole(seen)) && buffer[..left] == Tail(seen)
      modifies `state, buffer
      ensures state == Fold(step, INITIAL, Whole(seen + input))
      ensures buffer[..|seen + input| % 64] == Tail(seen + input)
    {
      if left > 0 && |input| >= 64 - left {
        CompleteBlock(left, input[..64 - left], seen);
        assert (seen + input[..64 - left]) + input[64 - left..] == seen + input;
        AbsorbRest(0, input[64 - left..], seen + input[..64 - left]);
      } else {
        AbsorbRest(left, input, seen);
      }
    }

    /** Count `n` more input bytes, with the carry into the high word. */
    method Count(n: nat, ghost length: nat)
      requires n < U32 && total0 < U32 && total1 < U32 && total0 + U32 * total1 == length % U64
      modifies `total0, `total1
      ensures total0 < U32 && total1 < U32 && total0 + U32 * total1 == (length + n) % U64
    {
      CounterAdds(total0, total1, length, n);
      total0 := (total0 + n) % U32;
      if total0 < n { total1 := (total1 + 1) % U32; }
    }

    /** `md5_update`. However a message is split over calls, the context depends only on the whole. */
    method Update(input: seq<Byte>)
      requires Valid() && |input| < U32
      modifies this, buffer
      ensures Valid() && message == old(message) + input
    {
      if |input| == 0 { assert message + input == message; return; }
      CounterMod64(total0, total1, |message|);
      var left := total0 % 64;
      Count(|input|, |message|);
      Absorb(left, input, message);
      message := message + input;
    }

    /** The padding and the length field that `md5_finish` feeds to the context. */
    method Trailer() returns (padding: seq<Byte>, length: seq<Byte>)
      requires Valid()
      ensures padding == PadBytes(|message|) && length == LittleEndian(8 * |message| % U64, 8)
    {
      var low, high := total0 * 8 % U32, total0 / 0x2000_0000 + total1 * 8 % U32;
      BitLength(total0, total1, |message|);
      CounterMod64(total0, total1, |message|);
      var last := total0 % 64;
      var padn := if last < 56 then 56 - last else 120 - last;
      padding, length := [0x80] + Zeros(padn - 1), LittleEndian(low, 4) + LittleEndian(high, 4);
    }

    /** `md5_finish`. */
    method Finish() returns (digest: seq<Byte>)
      requires Valid()
      modifies this, buffer
      ensures digest == Md5Of(step, old(message))
    {
      var padding, length := Trailer();
      Update(padding);
      Update(length);
      assert message == Padded(old(message));
      assert Whole(message) == message;
      digest := Output(state);
    }
  }

  /** `jdll_std_md5`: the digest of a byte string, here for any block step. */
  method StdMd5(step: Step, data: seq<Byte>) returns (digest: seq<Byte>)
    requires |data| < U32
    ensures digest == Md5Of(step, data)
  {
    var ctx := new Context(step);
    ctx.Update(data);
    assert ctx.message == data;
    digest := ctx.Finish();
  }
}
