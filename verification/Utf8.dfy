/** The UTF-8 codec of libs/std/core/unicode.c (RFC 3629). Masks and shifts on bytes are written as
    the equivalent arithmetic: `b & 0x3F` is `b % 64`, `(b & 0xC0) == 0x80` is `128 <= b < 192`. */
module Utf8 {
  import opened Arith
  import opened Base

  type CodePoint = cp: nat | cp <= 0x10FFFF && !(0xD800 <= cp <= 0xDFFF)

  datatype Decoded = Malformed | Decoded(cp: CodePoint, adv: nat)

  predicate ValidCodePoint(cp: nat) {
    cp <= 0x10FFFF && !(0xD800 <= cp <= 0xDFFF)
  }

  /** `utf8_char_len`: by the high four bits, so every byte from 0xF0 to 0xFF announces four bytes. */
  function CharLen(b: Byte): nat {
    if b < 0x80 then 1 else if b < 0xC0 then 0 else if b < 0xE0 then 2 else if b < 0xF0 then 3 else 4
  }

  predicate IsContinuation(b: Byte) {
    0x80 <= b < 0xC0
  }

  function Checked(c: nat, least: nat, adv: nat): Decoded {
    if c >= least && ValidCodePoint(c) then Decoded(c, adv) else Malformed
  }

  function Scalar2(b0: int, b1: int): nat { b0 % 32 * 64 + b1 % 64 }

  function Scalar3(b0: int, b1: int, b2: int): nat { b0 % 16 * 4096 + b1 % 64 * 64 + b2 % 64 }

  function Scalar4(b0: int, b1: int, b2: int, b3: int): nat {
    b0 % 8 * 262144 + b1 % 64 * 4096 + b2 % 64 * 64 + b3 % 64
  }

  /** `utf8_decode_at(s, off)` looks only at `s[off..]`, so it is given that suffix. */
  function DecodeAt(s: seq<Byte>): (d: Decoded)
    ensures d.Decoded? ==> 1 <= d.adv <= 4 && d.adv <= |s|
  {
    if |s| == 0 then Malformed
    else
      var n := CharLen(s[0]);
      if n == 0 || n > |s| then Malformed
      else if n == 1 then Checked(s[0], 0, 1)
      else if !IsContinuation(s[1]) then Malformed
      else if n == 2 then Checked(Scalar2(s[0], s[1]), 0x80, 2)
      else if !IsContinuation(s[2]) then Malformed
      else if n == 3 then Checked(Scalar3(s[0], s[1], s[2]), 0x800, 3)
      else if !IsContinuation(s[3]) then Malformed
      else Checked(Scalar4(s[0], s[1], s[2], s[3]), 0x10000, 4)
  }

  function Trail(n: nat): Byte { 0x80 + n % 64 }

  /** `utf8_encode` of a valid code point. */
  function Encode(cp: CodePoint): (s: seq<Byte>)
    ensures 1 <= |s| <= 4
  {
    if cp < 0x80 then [cp]
    else if cp < 0x800 then [0xC0 + cp / 64, Trail(cp)]
    else if cp < 0x10000 then [0xE0 + cp / 4096, Trail(cp / 64), Trail(cp)]
    else [0xF0 + cp / 262144, Trail(cp / 4096), Trail(cp / 64), Trail(cp)]
  }

  function EncodeAll(cps: seq<CodePoint>): seq<Byte> {
    if |cps| == 0 then [] else Encode(cps[0]) + EncodeAll(cps[1..])
  }

  /** The code points up to the first malformed position, which for well-formed input is the end. */
  function DecodePrefix(s: seq<Byte>): (cps: seq<CodePoint>)
    decreases |s|
  {
    var d := DecodeAt(s);
    if d.Malformed? then [] else [d.cp] + DecodePrefix(s[d.adv..])
  }

  /** `utf8_validate_bytes` accepts `s`: decoding reaches the end. */
  predicate WellFormed(s: seq<Byte>)
    decreases |s|
  {
    |s| == 0 || (DecodeAt(s).Decoded? && WellFormed(s[DecodeAt(s).adv..]))
  }

  // ---- decoding undoes encoding --------------------------------------------------------------------

  lemma Sextets(n: nat)
    ensures n == n / 64 * 64 + n % 64 && n / 64 / 64 == n / 4096 && n / 4096 / 64 == n / 262144
  {
    DivModUnique(n, n / 4096, n / 64 % 64 * 64 + n % 64, 4096);
    DivModUnique(n, n / 4096 / 64, n / 4096 % 64 * 4096 + n % 4096, 262144);
    assert n == n / 64 / 64 * 4096 + (n / 64 % 64 * 64 + n % 64);
    DivModUnique(n, n / 64 / 64, n / 64 % 64 * 64 + n % 64, 4096);
  }

  lemma TrailDigit(n: nat)
    ensures Trail(n) % 64 == n % 64
  {
    DivModUnique(0x80 + n % 64, 2, n % 64, 64);
  }

  lemma Bits2(cp: nat)
    requires cp < 0x800
    ensures Scalar2(0xC0 + cp / 64, Trail(cp)) == cp
  {
    TrailDigit(cp);
    DivModUnique(0xC0 + cp / 64, 6, cp / 64, 32);
  }

  lemma Bits3(cp: nat)
    requires cp < 0x10000
    ensures Scalar3(0xE0 + cp / 4096, Trail(cp / 64), Trail(cp)) == cp
  {
    Sextets(cp);
    TrailDigit(cp);
    TrailDigit(cp / 64);
    DivModUnique(0xE0 + cp / 4096, 14, cp / 4096, 16);
  }

  lemma Bits4(cp: nat)
    requires cp < 0x200000
    ensures Scalar4(0xF0 + cp / 262144, Trail(cp / 4096), Trail(cp / 64), Trail(cp)) == cp
  {
    Sextets(cp);
    Sextets(cp / 64);
    TrailDigit(cp);
    TrailDigit(cp / 64);
    TrailDigit(cp / 4096);
    DivModUnique(0xF0 + cp / 262144, 30, cp / 262144, 8);
    assert cp / 4096 == cp / 262144 * 64 + cp / 4096 % 64;
  }

  lemma DecodeEncode(cp: CodePoint, rest: seq<Byte>)
    ensures DecodeAt(Encode(cp) + rest) == Decoded(cp, |Encode(cp)|)
  {
    if cp < 0x80 {
    } else if cp < 0x800 {
      Bits2(cp);
    } else if cp < 0x10000 {
      Bits3(cp);
    } else {
      Bits4(cp);
    }
  }

  lemma {:induction false} DecodeEncodeAll(cps: seq<CodePoint>)
    ensures WellFormed(EncodeAll(cps)) && DecodePrefix(EncodeAll(cps)) == cps
    decreases |cps|
  {
    if |cps| > 0 {
      DecodeEncode(cps[0], EncodeAll(cps[1..]));
      DecodeEncodeAll(cps[1..]);
      assert EncodeAll(cps)[|Encode(cps[0])|..] == EncodeAll(cps[1..]);
    }
  }

  // ---- encoding undoes decoding exactly on bytes below 0xF8 ------------------------------------------

  predicate NoLongLead(s: seq<Byte>) {
    forall i :: 0 <= i < |s| ==> s[i] < 0xF8
  }

  /** The base-64 digits of a sum of digits. */
  lemma Digits(q: nat, r: nat, t: nat, u: nat)
    requires r < 64 && t < 64 && u < 64
    ensures var c := q * 262144 + r * 4096 + t * 64 + u;
            c / 64 == q * 4096 + r * 64 + t && c / 4096 == q * 64 + r && c / 262144 == q
            && c % 64 == u && c / 64 % 64 == t && c / 4096 % 64 == r
  {
    var c := q * 262144 + r * 4096 + t * 64 + u;
    DivModUnique(c, q * 4096 + r * 64 + t, u, 64);
    DivModUnique(c, q * 64 + r, t * 64 + u, 4096);
    DivModUnique(c, q, r * 4096 + t * 64 + u, 262144);
    DivModUnique(q * 4096 + r * 64 + t, q * 64 + r, t, 64);
    DivModUnique(q * 64 + r, q, r, 64);
  }

  lemma Digits2(b0: Byte, b1: Byte)
    requires CharLen(b0) == 2 && IsContinuation(b1)
    ensures var c := Scalar2(b0, b1); c < 0x800 && 0xC0 + c / 64 == b0 && Trail(c) == b1
  {
    Digits(0, 0, b0 % 32, b1 % 64);
  }

  lemma Digits3(b0: Byte, b1: Byte, b2: Byte)
    requires CharLen(b0) == 3 && IsContinuation(b1) && IsContinuation(b2)
    ensures var c := Scalar3(b0, b1, b2);
            c < 0x10000 && 0xE0 + c / 4096 == b0 && Trail(c / 64) == b1 && Trail(c) == b2
  {
    Digits(0, b0 % 16, b1 % 64, b2 % 64);
  }

  lemma Digits4(b0: Byte, b1: Byte, b2: Byte, b3: Byte)
    requires CharLen(b0) == 4 && IsContinuation(b1) && IsContinuation(b2) && IsContinuation(b3)
    ensures var c := Scalar4(b0, b1, b2, b3);
            && 0xF0 + c / 262144 == (if b0 < 0xF8 then b0 else b0 - 8)
            && Trail(c / 4096) == b1 && Trail(c / 64) == b2 && Trail(c) == b3
  {
    Digits(b0 % 8, b1 % 64, b2 % 64, b3 % 64);
  }

  /** Where decoding accepts, encoding the result gives the consumed bytes back, except that a lead
      byte of 0xF8 and above comes back reduced by 8. */
  lemma EncodeDecode(s: seq<Byte>)
    requires DecodeAt(s).Decoded?
    ensures |Encode(DecodeAt(s).cp)| == DecodeAt(s).adv
    ensures Encode(DecodeAt(s).cp) == s[..DecodeAt(s).adv] <==> s[0] < 0xF8
    ensures NoLongLead(s[1..DecodeAt(s).adv])
  {
    var n := CharLen(s[0]);
    if n == 1 {
    } else if n == 2 {
      Digits2(s[0], s[1]);
    } else if n == 3 {
      Digits3(s[0], s[1], s[2]);
    } else {
      Digits4(s[0], s[1], s[2], s[3]);
    }
  }

  lemma {:induction false} EncodeDecodePrefix(s: seq<Byte>)
    requires WellFormed(s)
    ensures |EncodeAll(DecodePrefix(s))| == |s|
    ensures EncodeAll(DecodePrefix(s)) == s <==> NoLongLead(s)
    decreases |s|
  {
    if |s| > 0 {
      var d := DecodeAt(s);
      var head, tail := s[..d.adv], s[d.adv..];
      EncodeDecode(s);
      EncodeDecodePrefix(tail);
      var cps := DecodePrefix(s);
      assert cps[0] == d.cp && cps[1..] == DecodePrefix(tail);
      assert s == head + tail && s[..1] + s[1..d.adv] == head;
      assert NoLongLead(s) <==> NoLongLead(head) && NoLongLead(tail) by { LeadsSplit(head, tail); }
      assert NoLongLead(head) <==> s[0] < 0xF8;
      assert EncodeAll(cps) == Encode(d.cp) + EncodeAll(DecodePrefix(tail));
      assert EncodeAll(cps)[..d.adv] == Encode(d.cp) && EncodeAll(cps)[d.adv..] == EncodeAll(DecodePrefix(tail));
    }
  }

  ghost predicate IsEncoding(s: seq<Byte>) {
    exists cps: seq<CodePoint> :: EncodeAll(cps) == s
  }

  lemma LeadsSplit(x: seq<Byte>, y: seq<Byte>)
    ensures NoLongLead(x + y) <==> NoLongLead(x) && NoLongLead(y)
  {
    if NoLongLead(x + y) {
      forall i | 0 <= i < |x| ensures x[i] < 0xF8 { assert x[i] == (x + y)[i]; }
      forall i | 0 <= i < |y| ensures y[i] < 0xF8 { assert y[i] == (x + y)[|x| + i]; }
    }
  }

  /** The validator accepts exactly the UTF-8 encodings, and besides them the byte strings that use a
      lead byte from 0xF8 on; a caller can tell the two apart by looking for such a byte. */
  lemma AcceptedExactly(s: seq<Byte>)
    ensures IsEncoding(s) <==> WellFormed(s) && NoLongLead(s)
  {
    if IsEncoding(s) {
      var cps: seq<CodePoint> :| EncodeAll(cps) == s;
      DecodeEncodeAll(cps);
      EncodeDecodePrefix(s);
    }
    if WellFormed(s) && NoLongLead(s) {
      EncodeDecodePrefix(s);
      var cps := DecodePrefix(s);
      assert EncodeAll(cps) == s;
    }
  }

  /** Such a byte string: 0xF8 0x90 0x80 0x80 is accepted as U+10000. */
  lemma LongLeadAccepted(s: seq<Byte>)
    requires |s| == 4 && s[0] == 0xF8 && s[1] == 0x90 && s[2] == 0x80 && s[3] == 0x80
    ensures DecodeAt(s) == Decoded(0x10000, 4) && WellFormed(s) && !IsEncoding(s)
  {
    assert Scalar4(0xF8, 0x90, 0x80, 0x80) == 0x10000;
    assert s[4..] == [];
    AcceptedExactly(s);
  }

  // ---- order -----------------------------------------------------------------------------------------

  /** -1, 0 or 1, as `unicode_compare` answers. */
  function LexCompare(x: seq<nat>, y: seq<nat>): (r: int)
    ensures -1 <= r <= 1
  {
    if |x| == 0 && |y| == 0 then 0
    else if |x| == 0 then -1
    else if |y| == 0 then 1
    else if x[0] != y[0] then (if x[0] < y[0] then -1 else 1)
    else LexCompare(x[1..], y[1..])
  }

  lemma {:induction false} LexPrefix(p: seq<nat>, x: seq<nat>, y: seq<nat>)
    ensures LexCompare(p + x, p + y) == LexCompare(x, y)
  {
    if |p| == 0 {
      assert p + x == x && p + y == y;
    } else {
      assert (p + x)[1..] == p[1..] + x && (p + y)[1..] == p[1..] + y;
      LexPrefix(p[1..], x, y);
    }
  }

  /** The first difference decides. */
  lemma LexDiffer(x: seq<nat>, y: seq<nat>, k: nat)
    requires k < |x| && k < |y| && x[..k] == y[..k] && x[k] < y[k]
    ensures LexCompare(x, y) == -1 && LexCompare(y, x) == 1
  {
    assert x == x[..k] + x[k..] && y == x[..k] + y[k..];
    LexPrefix(x[..k], x[k..], y[k..]);
    LexPrefix(x[..k], y[k..], x[k..]);
  }

  lemma DigitOrder(c: nat, d: nat)
    requires c < d
    ensures c / 64 <= d / 64 && (c / 64 == d / 64 ==> c % 64 < d % 64)
  {
  }

  /** Encodings of equal length first differ at the highest base-64 digit that differs. */
  lemma EncodeOrderSameLength(c: CodePoint, d: CodePoint) returns (k: nat)
    requires c < d && |Encode(c)| == |Encode(d)|
    ensures k < |Encode(c)| && Encode(c)[..k] == Encode(d)[..k] && Encode(c)[k] < Encode(d)[k]
  {
    var n := |Encode(c)|;
    Sextets(c);
    Sextets(d);
    DigitOrder(c, d);
    if n == 1 {
      k := 0;
    } else if c / 64 == d / 64 {
      k := n - 1;
    } else {
      DigitOrder(c / 64, d / 64);
      if n == 2 {
        k := 0;
      } else if c / 4096 == d / 4096 {
        k := n - 2;
      } else {
        DigitOrder(c / 4096, d / 4096);
        k := if n == 4 && c / 262144 == d / 262144 then 1 else 0;
      }
    }
  }

  /** Section 1 of RFC 3629: encodings sort like the code points, whatever follows them. */
  lemma EncodeOrder(c: CodePoint, d: CodePoint) returns (k: nat)
    requires c < d
    ensures k < |Encode(c)| && k < |Encode(d)|
    ensures Encode(c)[..k] == Encode(d)[..k] && Encode(c)[k] < Encode(d)[k]
  {
    if |Encode(c)| == |Encode(d)| { k := EncodeOrderSameLength(c, d); } else { k := 0; }
  }

  lemma {:induction false} CompareIsBytewise(x: seq<CodePoint>, y: seq<CodePoint>)
    ensures LexCompare(x, y) == LexCompare(EncodeAll(x), EncodeAll(y))
    decreases |x|
  {
    if |x| > 0 && |y| > 0 {
      if x[0] == y[0] {
        CompareIsBytewise(x[1..], y[1..]);
        LexPrefix(Encode(x[0]), EncodeAll(x[1..]), EncodeAll(y[1..]));
      } else if x[0] < y[0] {
        var k := EncodeOrder(x[0], y[0]);
        LexDiffer(EncodeAll(x), EncodeAll(y), k);
      } else {
        var k := EncodeOrder(y[0], x[0]);
        LexDiffer(EncodeAll(y), EncodeAll(x), k);
      }
    }
  }
}
