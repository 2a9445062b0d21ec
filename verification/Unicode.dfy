/** The string operations and the growing buffer of libs/std/core/unicode.c. */
module Unicode {
  import opened Base
  import opened Utf8

  const UINT32_MAX: nat := 0xFFFF_FFFF

  /** What a library call hands back: a result, or `jdl_fail`. */
  datatype Outcome<T> = Fail | Ok(value: T)

  // ---- positions -------------------------------------------------------------------------------------

  /** The byte offset after `n` code points. */
  function Offset(s: seq<Byte>, n: nat): (o: Outcome<nat>)
    ensures o.Ok? ==> o.value <= |s|
    decreases n
  {
    if n == 0 then Ok(0)
    else
      var d := DecodeAt(s);
      if d.Malformed? then Fail
      else
        var o := Offset(s[d.adv..], n - 1);
        if o.Fail? then Fail else Ok(d.adv + o.value)
  }

  lemma {:induction false} OffsetSplits(s: seq<Byte>, n: nat)
    ensures Offset(s, n).Ok? <==> n <= |DecodePrefix(s)|
    ensures Offset(s, n).Ok? ==>
              var i := Offset(s, n).value;
              && DecodePrefix(s[i..]) == DecodePrefix(s)[n..]
              && (WellFormed(s) <==> WellFormed(s[i..]))
              && n <= i
    decreases n
  {
    hide DecodeAt;
    if n == 0 {
      assert s[0..] == s;
    } else if DecodeAt(s).Decoded? {
      var t := s[DecodeAt(s).adv..];
      OffsetSplits(t, n - 1);
      if Offset(t, n - 1).Ok? {
        var j := Offset(t, n - 1).value;
        assert t[j..] == s[DecodeAt(s).adv + j..];
      }
    }
  }

  lemma {:induction false} OffsetNext(s: seq<Byte>, n: nat)
    requires Offset(s, n).Ok?
    ensures var i := Offset(s, n).value;
            var d := DecodeAt(s[i..]);
            Offset(s, n + 1) == if d.Malformed? then Fail else Ok(i + d.adv)
    decreases n
  {
    hide DecodeAt;
    if n == 0 {
      assert s[0..] == s;
    } else {
      var t := s[DecodeAt(s).adv..];
      OffsetNext(t, n - 1);
      var j := Offset(t, n - 1).value;
      assert t[j..] == s[DecodeAt(s).adv + j..];
    }
  }

  /** On encodings the offset of a position is the length of what comes before it. */
  lemma OffsetOfEncoding(cps: seq<CodePoint>, n: nat)
    requires n <= |cps|
    ensures Offset(EncodeAll(cps), n) == Ok(|EncodeAll(cps[..n])|)
    decreases n
  {
    hide DecodeAt, Encode;
    if n > 0 {
      DecodeEncode(cps[0], EncodeAll(cps[1..]));
      OffsetOfEncoding(cps[1..], n - 1);
      assert EncodeAll(cps)[|Encode(cps[0])|..] == EncodeAll(cps[1..]);
      assert cps[..n][1..] == cps[1..][..n - 1];
    }
  }

  /** The check of `utf8_decode_at` that a character fits is computed in 32 bits. */
  predicate FitAgrees(len: nat, off: nat, n: nat) {
    (off + n) % U32 > len <==> off + n > len
  }

  /** It means what it says at every position of a text if and only if that is at most 2^32 - 4 bytes long. */
  lemma FitCheckExact(len: nat)
    requires 0 < len < U32
    ensures (forall off: nat, n: nat :: off < len && n <= 4 ==> FitAgrees(len, off, n)) <==> len <= U32 - 4
  {
    if len > U32 - 4 {
      assert !FitAgrees(len, len - 1, 4);
    }
  }

  // ---- scanning ----------------------------------------------------------------------------------------

  /** `utf8_validate_bytes`. */
  method Validate(s: seq<Byte>) returns (ok: bool)
    ensures ok <==> WellFormed(s)
  {
    hide DecodeAt;
    var i := 0;
    assert s[0..] == s;
    while i < |s|
      invariant 0 <= i <= |s| && (WellFormed(s) <==> WellFormed(s[i..]))
    {
      var d := DecodeAt(s[i..]);
      if d.Malformed? { return false; }
      assert s[i..][d.adv..] == s[i + d.adv..];
      i := i + d.adv;
    }
    return true;
  }

  /** `utf8_codepoint_count`: UINT32_MAX flags malformed input. */
  method CodepointCount(s: seq<Byte>) returns (n: nat)
    requires |s| < UINT32_MAX
    ensures WellFormed(s) ==> n == |DecodePrefix(s)| && n < UINT32_MAX
    ensures !WellFormed(s) ==> n == UINT32_MAX
  {
    hide DecodeAt;
    var i := 0;
    n := 0;
    while i < |s|
      invariant 0 <= i <= |s| && Offset(s, n) == Ok(i)
      decreases |s| - i
    {
      OffsetSplits(s, n);
      OffsetNext(s, n);
      var d := DecodeAt(s[i..]);
      if d.Malformed? { return UINT32_MAX; }
      i := i + d.adv;
      n := n + 1;
    }
    OffsetSplits(s, n);
  }

  /** The loop of `utf8_byte_offset_at_cp` and of `jdll_std_unicode_sub`: step over `count` code points
      from the byte position `start`. */
  method Skip(s: seq<Byte>, start: nat, count: nat) returns (o: Outcome<nat>)
    requires start <= |s|
    ensures o == (if Offset(s[start..], count).Fail? then Fail else Ok(start + Offset(s[start..], count).value))
  {
    hide DecodeAt;
    var i, k := start, 0;
    while k < count
      invariant 0 <= k <= count && start <= i <= |s| && Offset(s[start..], k) == Ok(i - start)
    {
      OffsetSplits(s[start..], k);
      OffsetNext(s[start..], k);
      assert s[start..][i - start..] == s[i..];
      var d := DecodeAt(s[i..]);
      if d.Malformed? {
        OffsetSplits(s[start..], count);
        return Fail;
      }
      i := i + d.adv;
      k := k + 1;
    }
    return Ok(i);
  }

  /** `utf8_byte_offset_at_cp`. */
  method ByteOffsetAtCp(s: seq<Byte>, index: int) returns (o: Outcome<nat>)
    ensures index < 0 ==> o == Fail
    ensures index >= 0 ==> o == Offset(s, index)
  {
    if index < 0 { return Fail; }
    o := Skip(s, 0, index);
    assert s[0..] == s;
  }

  /** `jdll_std_unicode_get`: the code point at an index, if decoding gets that far. */
  method Get(s: seq<Byte>, index: int) returns (r: Outcome<CodePoint>)
    ensures 0 <= index < |DecodePrefix(s)| ==> r == Ok(DecodePrefix(s)[index])
    ensures !(0 <= index < |DecodePrefix(s)|) ==> r == Fail
  {
    hide DecodeAt;
    if index < 0 { return Fail; }
    var o := ByteOffsetAtCp(s, index);
    OffsetSplits(s, index);
    if o.Fail? { return Fail; }
    var d := DecodeAt(s[o.value..]);
    if d.Malformed? { return Fail; }
    return Ok(d.cp);
  }

  // ---- comparing -----------------------------------------------------------------------------------------

  /** `jdll_std_unicode_compare`. */
  method Compare(a: seq<Byte>, b: seq<Byte>) returns (r: int)
    ensures r == LexCompare(DecodePrefix(a), DecodePrefix(b))
  {
    hide DecodeAt;
    var i, j := 0, 0;
    assert a[0..] == a && b[0..] == b;
    while true
      invariant 0 <= i <= |a| && 0 <= j <= |b|
      invariant LexCompare(DecodePrefix(a), DecodePrefix(b))
             == LexCompare(DecodePrefix(a[i..]), DecodePrefix(b[j..]))
      decreases |a| - i
    {
      var da, db := DecodeAt(a[i..]), DecodeAt(b[j..]);
      if da.Malformed? && db.Malformed? { return 0; }
      if da.Malformed? { return -1; }
      if db.Malformed? { return 1; }
      if da.cp != db.cp { return if da.cp < db.cp then -1 else 1; }
      assert a[i..][da.adv..] == a[i + da.adv..] && b[j..][db.adv..] == b[j + db.adv..];
      i, j := i + da.adv, j + db.adv;
    }
  }

  /** On encoded text the answer is that of comparing the bytes. */
  lemma CompareAgreesWithBytes(a: seq<Byte>, b: seq<Byte>)
    requires WellFormed(a) && NoLongLead(a) && WellFormed(b) && NoLongLead(b)
    ensures LexCompare(DecodePrefix(a), DecodePrefix(b)) == LexCompare(a, b)
  {
    EncodeDecodePrefix(a);
    EncodeDecodePrefix(b);
    CompareIsBytewise(DecodePrefix(a), DecodePrefix(b));
  }

  // ---- slicing -------------------------------------------------------------------------------------------

  lemma DecodeAtLocal(s: seq<Byte>, k: nat)
    requires DecodeAt(s).Decoded? && DecodeAt(s).adv <= k <= |s|
    ensures DecodeAt(s[..k]) == DecodeAt(s)
  {
  }

  /** Cutting at code point positions cuts the decoded text there. */
  lemma {:induction false} CutDecodes(s: seq<Byte>, n: nat)
    requires Offset(s, n).Ok?
    ensures var t := s[..Offset(s, n).value];
            n <= |DecodePrefix(s)| && WellFormed(t) && DecodePrefix(t) == DecodePrefix(s)[..n]
    decreases n
  {
    hide DecodeAt;
    OffsetSplits(s, n);
    if n > 0 {
      var d := DecodeAt(s);
      var i := Offset(s, n).value;
      DecodeAtLocal(s, i);
      CutDecodes(s[d.adv..], n - 1);
      assert s[..i][d.adv..] == s[d.adv..][..i - d.adv];
    }
  }

  /** `jdll_std_unicode_sub`: `count` code points from position `pos`; an empty slice is never out of
      range. */
  method Sub(s: seq<Byte>, pos: int, count: int) returns (r: Outcome<seq<Byte>>)
    ensures pos < 0 || count < 0 ==> r == Fail
    ensures pos >= 0 && count == 0 ==> r == Ok([])
    ensures pos >= 0 && count > 0 ==>
              (r.Ok? <==> pos + count <= |DecodePrefix(s)|)
    ensures pos >= 0 && count > 0 && r.Ok? ==>
              WellFormed(r.value) && DecodePrefix(r.value) == DecodePrefix(s)[pos..pos + count]
  {
    hide DecodeAt;
    if pos < 0 || count < 0 { return Fail; }
    if count == 0 { return Ok([]); }
    var o := ByteOffsetAtCp(s, pos);
    OffsetSplits(s, pos);
    if o.Fail? { return Fail; }
    var start := o.value;
    OffsetSplits(s[start..], count);
    o := Skip(s, start, count);
    if o.Fail? { return Fail; }
    CutDecodes(s[start..], count);
    assert s[start..][..o.value - start] == s[start..o.value];
    assert DecodePrefix(s)[pos..][..count] == DecodePrefix(s)[pos..pos + count];
    return Ok(s[start..o.value]);
  }

  // ---- the growing buffer ----------------------------------------------------------------------------------

  lemma {:induction false} EncodeAllAppend(cps: seq<CodePoint>, cp: CodePoint)
    ensures EncodeAll(cps + [cp]) == EncodeAll(cps) + Encode(cp)
    decreases |cps|
  {
    hide Encode;
    if |cps| == 0 {
      assert cps + [cp] == [cp];
      assert [cp][1..] == [];
    } else {
      assert (cps + [cp])[1..] == cps[1..] + [cp];
      EncodeAllAppend(cps[1..], cp);
    }
  }

  datatype Appended = Added | Refused | NoRoom

  /** The first doubling of a capacity that holds `sum` bytes, unless it would pass 32 bits. */
  function Doubled(cap: nat, sum: nat): (r: Outcome<nat>)
    requires cap > 0
    ensures r.Ok? ==> cap <= r.value && sum <= r.value
    ensures r.Ok? && cap < U32 ==> r.value < U32
    ensures sum <= 0x8000_0000 ==> r.Ok?
    decreases sum - cap
  {
    if cap >= sum then Ok(cap) else if cap > 0x7FFF_FFFF then Fail else Doubled(cap * 2, sum)
  }

  /** The capacity of a buffer that is to hold `sum` bytes. */
  function NewCap(cap: nat, sum: nat): Outcome<nat> {
    if sum <= cap then Ok(cap) else Doubled(if cap == 0 then 8 else cap, sum)
  }

  class UnicodeBuf {
    var data: array<Byte>
    var len: nat
    var chars: nat

    /** The code points added so far. */
    ghost var text: seq<CodePoint>

    ghost predicate Valid()
      reads this, data
    {
      && len <= data.Length < U32
      && data[..len] == EncodeAll(text)
      && chars == |text|
    }

    /** `jdll_std_unicode_buf_new` with a capacity it accepts; zero means 8. */
    constructor (capacity: nat)
      requires capacity < 0x8000_0000
      ensures Valid() && fresh(data) && text == [] && len == 0
      ensures data.Length == if capacity == 0 then 8 else capacity
    {
      data := new Byte[if capacity == 0 then 8 else capacity](i => 0);
      len, chars, text := 0, 0, [];
    }

    /** `unicode_buf_grow`: double until `need` more bytes fit; refuses to pass 32 bits. The sum of length and
        need is a 32-bit one, so a success means that there is room exactly if the sum does not wrap. */
    method Grow(need: nat) returns (ok: bool)
      requires Valid() && need < U32
      modifies this
      ensures Valid() && text == old(text) && len == old(len)
      ensures data == old(data) || fresh(data)
      ensures ok <==> NewCap(old(data).Length, (len + need) % U32).Ok?
      ensures ok ==> data.Length == NewCap(old(data).Length, (len + need) % U32).value
      ensures ok ==> (len + need <= data.Length <==> len + need < U32)
      ensures len + need <= 0x8000_0000 || len + need >= U32 ==> ok
    {
      var sum := (len + need) % U32;
      if sum <= data.Length { return true; }
      var cap := if data.Length == 0 then 8 else data.Length;
      while cap < sum
        invariant 0 < cap < U32 && data.Length <= cap
        invariant Doubled(cap, sum) == NewCap(data.Length, sum)
        decreases sum - cap
      {
        if cap > 0x7FFF_FFFF { return false; }
        cap := cap * 2;
      }
      var next := new Byte[cap](i => 0);
      forall i | 0 <= i < len {
        next[i] := data[i];
      }
      assert next[..len] == data[..len];
      data := next;
      return true;
    }

    /** `jdll_std_unicode_buf_add`: append one code point, given as a 32-bit integer. There is no room for it
        exactly if the length would pass 32 bits; the source then writes past the end of the buffer. */
    method Add(cp: int) returns (r: Appended)
      requires Valid() && -0x8000_0000 <= cp < 0x8000_0000
      modifies this, data
      ensures Valid() && (data == old(data) || fresh(data))
      ensures r == Added ==>
        && cp >= 0 && ValidCodePoint(cp) && text == old(text) + [cp] && len == old(len) + |Encode(cp)|
      ensures r != Added ==> text == old(text) && len == old(len)
      ensures r != Refused ==>
        && cp >= 0 && ValidCodePoint(cp)
        && Ok(data.Length) == NewCap(old(data).Length, (old(len) + |Encode(cp)|) % U32)
      ensures r == NoRoom <==> cp >= 0 && ValidCodePoint(cp) && old(len) + |Encode(cp)| >= U32
      ensures r == Refused <==> !(cp >= 0 && ValidCodePoint(cp)
                                  && NewCap(old(data).Length, (old(len) + |Encode(cp)|) % U32).Ok?)
      ensures cp >= 0 && ValidCodePoint(cp) && old(len) + 4 <= 0x8000_0000 ==> r == Added
    {
      hide NewCap, Encode, EncodeAll;
      var word := if cp < 0 then cp + U32 else cp;
      if !ValidCodePoint(word) { return Refused; }
      var out := Encode(word);
      var ok := Grow(|out|);
      if !ok { return Refused; }
      if len + |out| > data.Length { return NoRoom; }
      EncodeAllAppend(text, word);
      forall i | 0 <= i < |out| {
        data[len + i] := out[i];
      }
      assert data[..len + |out|] == EncodeAll(text) + out;
      len, chars, text := len + |out|, chars + 1, text + [word];
      return Added;
    }

    /** What `jdll_std_unicode_buf_bytes` and `jdll_std_unicode_buf_length` report belongs together. */
    method Contents() returns (bytes: seq<Byte>, length: nat)
      requires Valid()
      ensures bytes == EncodeAll(text) && length == |text|
      ensures WellFormed(bytes) && DecodePrefix(bytes) == text
    {
      bytes, length := data[..len], chars;
      DecodeEncodeAll(text);
    }
  }

  /** A buffer that ends up without room: made for 2^31 - 1 bytes, it grows once, to 2^32 - 2; when that is full
      of ASCII, the length with a code point of two bytes wraps around to zero, which fits. */
  method RoomWraps() returns (b: UnicodeBuf, r: Appended)
    ensures fresh(b) && b.Valid() && b.len == b.data.Length == U32 - 2 && r == NoRoom
  {
    hide UnicodeBuf.Valid;
    b := new UnicodeBuf(0x7FFF_FFFF);
    var i := 0;
    assert NewCap(0x7FFF_FFFF, 0x8000_0000) == Doubled(2 * 0x7FFF_FFFF, 0x8000_0000) == Ok(U32 - 2);
    while i < U32 - 2
      invariant 0 <= i <= U32 - 2 && b.Valid() && fresh(b) && fresh(b.data) && b.len == i
      invariant b.data.Length == if i <= 0x7FFF_FFFF then 0x7FFF_FFFF else U32 - 2
    {
      r := b.Add(65);
      i := i + 1;
    }
    r := b.Add(0x80);
  }
}
