/** The codec and the order of texts against the syntax and the examples of RFC 3629. */
module Utf8Rfc {
  import opened Base
  import opened Utf8

  // ---- syntax ------------------------------------------------------------------------------------------------

  predicate Tail(s: seq<Byte>, i: nat) {
    i < |s| && 0x80 <= s[i] <= 0xBF
  }

  /** `s` starts with a character of `n` bytes, by the syntax of section 4. */
  predicate StartsWith(s: seq<Byte>, n: nat) {
    |s| > 0 &&
    match n
    case 1 => s[0] <= 0x7F
    case 2 => 0xC2 <= s[0] <= 0xDF && Tail(s, 1)
    case 3 =>
      || (s[0] == 0xE0 && |s| > 1 && 0xA0 <= s[1] <= 0xBF && Tail(s, 2))
      || (0xE1 <= s[0] <= 0xEC && Tail(s, 1) && Tail(s, 2))
      || (s[0] == 0xED && |s| > 1 && 0x80 <= s[1] <= 0x9F && Tail(s, 2))
      || (0xEE <= s[0] <= 0xEF && Tail(s, 1) && Tail(s, 2))
    case 4 =>
      || (s[0] == 0xF0 && |s| > 1 && 0x90 <= s[1] <= 0xBF && Tail(s, 2) && Tail(s, 3))
      || (0xF1 <= s[0] <= 0xF3 && Tail(s, 1) && Tail(s, 2) && Tail(s, 3))
      || (s[0] == 0xF4 && |s| > 1 && 0x80 <= s[1] <= 0x8F && Tail(s, 2) && Tail(s, 3))
    case _ => false
  }

  /** The number in the free bits of the bytes of a character, as the table of section 3 lays them out. */
  function BitsOf(s: seq<Byte>, n: nat): int
    requires 1 <= n <= 4 && n <= |s|
  {
    var b: int := s[0];
    if n == 1 then b
    else
      var c: int := s[1];
      if n == 2 then (b - 0xC0) * 0x40 + (c - 0x80)
      else
        var d: int := s[2];
        if n == 3 then (b - 0xE0) * 0x1000 + (c - 0x80) * 0x40 + (d - 0x80)
        else
          var e: int := s[3];
          (b - 0xF0) * 0x4_0000 + (c - 0x80) * 0x1000 + (d - 0x80) * 0x40 + (e - 0x80)
  }

  ghost predicate BySyntax(s: seq<Byte>) {
    && (forall n: nat :: DecodeAt(s).Decoded? && DecodeAt(s).adv == n <==> StartsWith(s, n))
    && (forall n: nat :: StartsWith(s, n) ==> 1 <= n <= 4 && n <= |s| && DecodeAt(s).cp == BitsOf(s, n))
  }

  lemma Short(s: seq<Byte>)
    requires |s| > 0 && s[0] < 0xE0
    ensures BySyntax(s)
  {
  }

  lemma OfThree(s: seq<Byte>)
    requires |s| > 0 && 0xE0 <= s[0] < 0xF0
    ensures BySyntax(s)
  {
  }

  lemma OfFour(s: seq<Byte>)
    requires |s| > 0 && 0xF0 <= s[0] <= 0xF3
    ensures BySyntax(s)
  {
  }

  lemma OfFourHigh(s: seq<Byte>)
    requires |s| > 0 && 0xF4 <= s[0] < 0xF8
    ensures BySyntax(s)
  {
  }

  /** With a lead byte below 0xF8 the decoder accepts what the syntax accepts, and reads the bits of the table. */
  lemma DecodesBySyntax(s: seq<Byte>, n: nat)
    requires |s| > 0 && s[0] < 0xF8
    ensures DecodeAt(s).Decoded? && DecodeAt(s).adv == n <==> StartsWith(s, n)
    ensures StartsWith(s, n) ==> 1 <= n <= 4 && n <= |s| && DecodeAt(s).cp == BitsOf(s, n)
  {
    hide DecodeAt, StartsWith, BitsOf;
    if s[0] < 0xE0 {
      Short(s);
    } else if s[0] < 0xF0 {
      OfThree(s);
    } else if s[0] <= 0xF3 {
      OfFour(s);
    } else {
      OfFourHigh(s);
    }
  }

  /** What is encoded starts with a character of that syntax, with the bits of the code point. */
  lemma EncodesBySyntax(cp: CodePoint)
    ensures StartsWith(Encode(cp), |Encode(cp)|) && BitsOf(Encode(cp), |Encode(cp)|) == cp
  {
    DecodeEncode(cp, []);
    var s := Encode(cp);
    assert s + [] == s;
    LeadOfEncoding(cp);
    hide DecodeAt, StartsWith, BitsOf, Encode;
    DecodesBySyntax(s, |s|);
  }

  lemma LeadOfEncoding(cp: CodePoint)
    ensures |Encode(cp)| > 0 && Encode(cp)[0] < 0xF8
  {
  }

  // ---- order -------------------------------------------------------------------------------------------------

  /** The first text is a proper prefix, or has the lesser element at the first difference. */
  ghost predicate Before(x: seq<nat>, y: seq<nat>) {
    || (|x| < |y| && x == y[..|x|])
    || exists k :: 0 <= k < |x| && k < |y| && x[..k] == y[..k] && x[k] < y[k]
  }

  lemma BeforeTail(x: seq<nat>, y: seq<nat>)
    requires |x| > 0 && |y| > 0 && x[0] == y[0]
    ensures Before(x, y) <==> Before(x[1..], y[1..])
  {
    var x', y' := x[1..], y[1..];
    assert x == [x[0]] + x' && y == [x[0]] + y';
    if k :| 0 <= k < |x| && k < |y| && x[..k] == y[..k] && x[k] < y[k] {
      assert k > 0;
      assert x'[..k - 1] == x[..k][1..] && y'[..k - 1] == y[..k][1..];
      assert x'[k - 1] < y'[k - 1];
    }
    if k :| 0 <= k < |x'| && k < |y'| && x'[..k] == y'[..k] && x'[k] < y'[k] {
      assert x[..k + 1] == [x[0]] + x'[..k] && y[..k + 1] == [x[0]] + y'[..k];
      assert x[k + 1] < y[k + 1];
    }
    if |x'| < |y'| && x' == y'[..|x'|] {
      assert y[..|x|] == [x[0]] + y'[..|x'|];
    }
    if |x| < |y| && x == y[..|x|] {
      assert x' == y[..|x|][1..] == y'[..|x'|];
    }
  }

  /** The comparison answers -1 for what comes before, 1 the other way around, and 0 for the same. */
  lemma {:induction false} CompareMeans(x: seq<nat>, y: seq<nat>)
    ensures LexCompare(x, y) == -1 <==> Before(x, y)
    ensures LexCompare(x, y) == 1 <==> Before(y, x)
    ensures LexCompare(x, y) == 0 <==> x == y
    decreases |x|
  {
    if |x| > 0 && |y| > 0 && x[0] == y[0] {
      BeforeTail(x, y);
      BeforeTail(y, x);
      CompareMeans(x[1..], y[1..]);
      assert x == [x[0]] + x[1..] && y == [y[0]] + y[1..];
      hide Before;
    } else if |x| > 0 && |y| > 0 {
      FirstDiffers(x, y);
      FirstDiffers(y, x);
    }
  }

  lemma BeforeStartsLow(x: seq<nat>, y: seq<nat>)
    requires |x| > 0 && |y| > 0 && Before(x, y)
    ensures x[0] <= y[0]
  {
    if |x| < |y| && x == y[..|x|] {
      assert x[0] == y[0];
    } else {
      var k :| 0 <= k < |x| && k < |y| && x[..k] == y[..k] && x[k] < y[k];
      if k > 0 { assert x[..k][0] == x[0] && y[..k][0] == y[0]; }
    }
  }

  lemma FirstDiffers(x: seq<nat>, y: seq<nat>)
    requires |x| > 0 && |y| > 0 && x[0] != y[0]
    ensures Before(x, y) <==> x[0] < y[0]
  {
    if Before(x, y) { BeforeStartsLow(x, y); }
    if x[0] < y[0] { assert x[..0] == y[..0]; }
  }

  // ---- the examples of section 7 -----------------------------------------------------------------------------

  /** A, not identical to, alpha, full stop; and a character outside the basic plane. */
  lemma Examples()
    ensures EncodeAll([0x41, 0x2262, 0x391, 0x2E]) == [0x41, 0xE2, 0x89, 0xA2, 0xCE, 0x91, 0x2E]
    ensures Encode(0x233B4) == [0xF0, 0xA3, 0x8E, 0xB4]
  {
    assert [0x41, 0x2262, 0x391, 0x2E][1..] == [0x2262, 0x391, 0x2E];
    assert [0x2262, 0x391, 0x2E][1..] == [0x391, 0x2E];
    assert [0x391, 0x2E][1..] == [0x2E] && [0x2E][1..] == [];
    assert EncodeAll([0x2E]) == [0x2E];
    assert EncodeAll([0x391, 0x2E]) == [0xCE, 0x91] + [0x2E];
    assert EncodeAll([0x2262, 0x391, 0x2E]) == [0xE2, 0x89, 0xA2] + ([0xCE, 0x91] + [0x2E]);
  }
}
