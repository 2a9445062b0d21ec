/** The digest of section A.5 of RFC 1321 for the small letters, worked out operation by operation. It fixes what the
    results of `Md5Block` and `Md5` are stated through: the words of a block, the rotation, the initial values, the
    padding and the order of the output. */
module Md5Check {
  import opened Arith
  import Base
  import opened Md5Block
  import opened Md5

  /** From a to z. */
  const LETTERS: seq<Base.Byte> := seq(26, i requires 0 <= i < 26 => 97 + i)

  const DIGEST: seq<Base.Byte> := [
    0xC3, 0xFC, 0xD3, 0xD7, 0x61, 0x92, 0xE4, 0x00, 0x7D, 0xFB, 0x49, 0x6C, 0xCA, 0x67, 0xE1, 0x3B
  ]

  // ---- parts -----------------------------------------------------------------------------------------------

  /** A word of a block is the sum of its bytes times powers of 256, least significant byte first. */
  lemma WordIsSum(block: Block, i: nat)
    requires i < 16
    ensures Md5Block.Word(block, i)
         == (block[4 * i] as bv32) + 0x100 * (block[4 * i + 1] as bv32)
            + 0x1_0000 * (block[4 * i + 2] as bv32) + 0x100_0000 * (block[4 * i + 3] as bv32)
  {
    Small(block[4 * i]);
    Small(block[4 * i + 1]);
    Small(block[4 * i + 2]);
    Small(block[4 * i + 3]);
    OrIsSum(block[4 * i] as bv32, block[4 * i + 1] as bv32, block[4 * i + 2] as bv32, block[4 * i + 3] as bv32);
  }

  lemma Small(b: Base.Byte)
    ensures (b as bv32) < 0x100
  {
  }

  lemma OrIsSum(a: bv32, b: bv32, c: bv32, d: bv32)
    requires a < 0x100 && b < 0x100 && c < 0x100 && d < 0x100
    ensures a | (b << 8) | (c << 16) | (d << 24) == a + 0x100 * b + 0x1_0000 * c + 0x100_0000 * d
  {
  }

  /** The rotation by the amounts of the four rounds: what the product loses at the top comes in at the bottom, as
      section 3.4 of RFC 1321 has it of a circular shift. */
  lemma Turned1(x: bv32, n: nat)
    ensures n == 7 ==> RotateLeft(x, n) == x * 0x80 + x / 0x200_0000
    ensures n == 12 ==> RotateLeft(x, n) == x * 0x1000 + x / 0x10_0000
    ensures n == 17 ==> RotateLeft(x, n) == x * 0x2_0000 + x / 0x8000
    ensures n == 22 ==> RotateLeft(x, n) == x * 0x40_0000 + x / 0x400
  {
    var m: bv32 := (if n < 32 then n else 0) as bv32;
    if n == 7 { assert m == 7; }
    if n == 12 { assert m == 12; }
    if n == 17 { assert m == 17; }
    if n == 22 { assert m == 22; }
  }

  lemma Turned2(x: bv32, n: nat)
    ensures n == 5 ==> RotateLeft(x, n) == x * 0x20 + x / 0x800_0000
    ensures n == 9 ==> RotateLeft(x, n) == x * 0x200 + x / 0x80_0000
    ensures n == 14 ==> RotateLeft(x, n) == x * 0x4000 + x / 0x4_0000
    ensures n == 20 ==> RotateLeft(x, n) == x * 0x10_0000 + x / 0x1000
  {
    var m: bv32 := (if n < 32 then n else 0) as bv32;
    if n == 5 { assert m == 5; }
    if n == 9 { assert m == 9; }
    if n == 14 { assert m == 14; }
    if n == 20 { assert m == 20; }
  }

  lemma Turned3(x: bv32, n: nat)
    ensures n == 4 ==> RotateLeft(x, n) == x * 0x10 + x / 0x1000_0000
    ensures n == 11 ==> RotateLeft(x, n) == x * 0x800 + x / 0x20_0000
    ensures n == 16 ==> RotateLeft(x, n) == x * 0x1_0000 + x / 0x1_0000
    ensures n == 23 ==> RotateLeft(x, n) == x * 0x80_0000 + x / 0x200
  {
    var m: bv32 := (if n < 32 then n else 0) as bv32;
    if n == 4 { assert m == 4; }
    if n == 11 { assert m == 11; }
    if n == 16 { assert m == 16; }
    if n == 23 { assert m == 23; }
  }

  lemma Turned4(x: bv32, n: nat)
    ensures n == 6 ==> RotateLeft(x, n) == x * 0x40 + x / 0x400_0000
    ensures n == 10 ==> RotateLeft(x, n) == x * 0x400 + x / 0x40_0000
    ensures n == 15 ==> RotateLeft(x, n) == x * 0x8000 + x / 0x2_0000
    ensures n == 21 ==> RotateLeft(x, n) == x * 0x20_0000 + x / 0x800
  {
    var m: bv32 := (if n < 32 then n else 0) as bv32;
    if n == 6 { assert m == 6; }
    if n == 10 { assert m == 10; }
    if n == 15 { assert m == 15; }
    if n == 21 { assert m == 21; }
  }

  lemma LowestByte(b: Base.Byte, m: nat, k: nat)
    ensures LittleEndian(b + 256 * m, k + 1) == [b] + LittleEndian(m, k)
  {
    DivModUnique(b + 256 * m, m, b, 256);
  }

  /** Four bytes, least significant first, are those of the number they make up. */
  lemma BytesOf(n: nat, a: Base.Byte, b: Base.Byte, c: Base.Byte, d: Base.Byte)
    requires n == a + 0x100 * b + 0x1_0000 * c + 0x100_0000 * d
    ensures LittleEndian(n, 4) == [a, b, c, d]
  {
    assert LittleEndian(0, 0) == [];
    hide LittleEndian;
    LowestByte(a, b + 0x100 * c + 0x1_0000 * d, 3);
    LowestByte(b, c + 0x100 * d, 2);
    LowestByte(c, d, 1);
    LowestByte(d, 0, 0);
  }

  lemma OutputIs(x: Digest, a: nat, b: nat, c: nat, d: nat)
    requires x.a as nat == a && x.b as nat == b && x.c as nat == c && x.d as nat == d
    ensures Output(x) == LittleEndian(a, 4) + LittleEndian(b, 4) + LittleEndian(c, 4) + LittleEndian(d, 4)
  {
  }

  /** The initial values, in bytes: those of section 3.3 of RFC 1321. */
  lemma InitialBytes()
    ensures Output(INITIAL)
         == [0x01, 0x23, 0x45, 0x67, 0x89, 0xAB, 0xCD, 0xEF, 0xFE, 0xDC, 0xBA, 0x98, 0x76, 0x54, 0x32, 0x10]
  {
    hide LittleEndian, Output;
    BytesOf(0x67452301, 0x01, 0x23, 0x45, 0x67);
    BytesOf(0xEFCDAB89, 0x89, 0xAB, 0xCD, 0xEF);
    BytesOf(0x98BADCFE, 0xFE, 0xDC, 0xBA, 0x98);
    BytesOf(0x10325476, 0x76, 0x54, 0x32, 0x10);
    OutputIs(INITIAL, 0x67452301, 0xEFCDAB89, 0x98BADCFE, 0x10325476);
  }

  /** The padding starts with a one bit, in the first byte the highest, and all its other bits are zero; it is the
      least that brings the length to 56 modulo 64. */
  lemma PaddingBits(n: nat)
    ensures |PadBytes(n)| > 0 && PadBytes(n)[0] / 128 == 1 && PadBytes(n)[0] % 128 == 0
    ensures forall i :: 0 < i < |PadBytes(n)| ==> PadBytes(n)[i] == 0
    ensures (n + |PadBytes(n)|) % 64 == 56 && |PadBytes(n)| <= 64
  {
  }

  // ---- the operations --------------------------------------------------------------------------------------

  lemma NextF(i: nat, a: bv32, b: bv32, c: bv32, d: bv32, block: Block, k: nat, w: bv32, t: bv32, s: nat, r: bv32)
    requires 0 <= i < 16 && k == i && Md5Block.Word(block, k) == w && RfcT(i) == t && RfcShift(i) == s
    requires 0 < s < 32 && Rotated(Digest(a, b, c, d), RfcF(b, c, d), w, t, s) == Digest(d, r, b, c)
    ensures RfcOps(i, Digest(a, b, c, d), block) == RfcOps(i + 1, Digest(d, r, b, c), block)
  {
    hide RfcF, RfcT, RotateLeft, Md5Block.Word, RfcShift, Rotated;
  }

  lemma NextG(i: nat, a: bv32, b: bv32, c: bv32, d: bv32, block: Block, k: nat, w: bv32, t: bv32, s: nat, r: bv32)
    requires 16 <= i < 32 && k == (5 * i + 1) % 16 && Md5Block.Word(block, k) == w && RfcT(i) == t && RfcShift(i) == s
    requires 0 < s < 32 && Rotated(Digest(a, b, c, d), RfcG(b, c, d), w, t, s) == Digest(d, r, b, c)
    ensures RfcOps(i, Digest(a, b, c, d), block) == RfcOps(i + 1, Digest(d, r, b, c), block)
  {
    hide RfcG, RfcT, RotateLeft, Md5Block.Word, RfcShift, Rotated;
  }

  lemma NextH(i: nat, a: bv32, b: bv32, c: bv32, d: bv32, block: Block, k: nat, w: bv32, t: bv32, s: nat, r: bv32)
    requires 32 <= i < 48 && k == (3 * i + 5) % 16 && Md5Block.Word(block, k) == w && RfcT(i) == t && RfcShift(i) == s
    requires 0 < s < 32 && Rotated(Digest(a, b, c, d), RfcH(b, c, d), w, t, s) == Digest(d, r, b, c)
    ensures RfcOps(i, Digest(a, b, c, d), block) == RfcOps(i + 1, Digest(d, r, b, c), block)
  {
    hide RfcH, RfcT, RotateLeft, Md5Block.Word, RfcShift, Rotated;
  }

  lemma NextI(i: nat, a: bv32, b: bv32, c: bv32, d: bv32, block: Block, k: nat, w: bv32, t: bv32, s: nat, r: bv32)
    requires 48 <= i < 64 && k == (7 * i) % 16 && Md5Block.Word(block, k) == w && RfcT(i) == t && RfcShift(i) == s
    requires 0 < s < 32 && Rotated(Digest(a, b, c, d), RfcI(b, c, d), w, t, s) == Digest(d, r, b, c)
    ensures RfcOps(i, Digest(a, b, c, d), block) == RfcOps(i + 1, Digest(d, r, b, c), block)
  {
    hide RfcI, RfcT, RotateLeft, Md5Block.Word, RfcShift, Rotated;
  }

  lemma Ops0(block: Block)
    requires Md5Block.Word(block, 0) == 0x64636261 && Md5Block.Word(block, 1) == 0x68676665
    ensures RfcOps(0, Digest(0x67452301, 0xEFCDAB89, 0x98BADCFE, 0x10325476), block)
         == RfcOps(2, Digest(0x98BADCFE, 0xAAB1AAAA, 0xD6D117A6, 0xEFCDAB89), block)
  {
    hide RfcOps, RfcMix, RfcIndex, Md5Block.Word;
    NextF(0, 0x67452301, 0xEFCDAB89, 0x98BADCFE, 0x10325476, block, 0, 0x64636261, 0xD76AA478, 7, 0xD6D117A6);
    NextF(1, 0x10325476, 0xD6D117A6, 0xEFCDAB89, 0x98BADCFE, block, 1, 0x68676665, 0xE8C7B756, 12, 0xAAB1AAAA);
  }

  lemma Ops2(block: Block)
    requires Md5Block.Word(block, 2) == 0x6C6B6A69 && Md5Block.Word(block, 3) == 0x706F6E6D
    ensures RfcOps(2, Digest(0x98BADCFE, 0xAAB1AAAA, 0xD6D117A6, 0xEFCDAB89), block)
         == RfcOps(4, Digest(0xD6D117A6, 0x4503B812, 0x227D8CF1, 0xAAB1AAAA), block)
  {
    hide RfcOps, RfcMix, RfcIndex, Md5Block.Word;
    NextF(2, 0x98BADCFE, 0xAAB1AAAA, 0xD6D117A6, 0xEFCDAB89, block, 2, 0x6C6B6A69, 0x242070DB, 17, 0x227D8CF1);
    NextF(3, 0xEFCDAB89, 0x227D8CF1, 0xAAB1AAAA, 0xD6D117A6, block, 3, 0x706F6E6D, 0xC1BDCEEE, 22, 0x4503B812);
  }

  lemma Ops4(block: Block)
    requires Md5Block.Word(block, 4) == 0x74737271 && Md5Block.Word(block, 5) == 0x78777675
    ensures RfcOps(4, Digest(0xD6D117A6, 0x4503B812, 0x227D8CF1, 0xAAB1AAAA), block)
         == RfcOps(6, Digest(0x227D8CF1, 0xA811B278, 0xFE15F787, 0x4503B812), block)
  {
    hide RfcOps, RfcMix, RfcIndex, Md5Block.Word;
    NextF(4, 0xD6D117A6, 0x4503B812, 0x227D8CF1, 0xAAB1AAAA, block, 4, 0x74737271, 0xF57C0FAF, 7, 0xFE15F787);
    NextF(5, 0xAAB1AAAA, 0xFE15F787, 0x4503B812, 0x227D8CF1, block, 5, 0x78777675, 0x4787C62A, 12, 0xA811B278);
  }

  lemma Ops6(block: Block)
    requires Md5Block.Word(block, 6) == 0x00807A79 && Md5Block.Word(block, 7) == 0
    ensures RfcOps(6, Digest(0x227D8CF1, 0xA811B278, 0xFE15F787, 0x4503B812), block)
         == RfcOps(8, Digest(0xFE15F787, 0xDA9BBB0D, 0xB71122FC, 0xA811B278), block)
  {
    hide RfcOps, RfcMix, RfcIndex, Md5Block.Word;
    NextF(6, 0x227D8CF1, 0xA811B278, 0xFE15F787, 0x4503B812, block, 6, 0x00807A79, 0xA8304613, 17, 0xB71122FC);
    NextF(7, 0x4503B812, 0xB71122FC, 0xA811B278, 0xFE15F787, block, 7, 0, 0xFD469501, 22, 0xDA9BBB0D);
  }

  lemma Ops8(block: Block)
    requires Md5Block.Word(block, 8) == 0 && Md5Block.Word(block, 9) == 0
    ensures RfcOps(8, Digest(0xFE15F787, 0xDA9BBB0D, 0xB71122FC, 0xA811B278), block)
         == RfcOps(10, Digest(0xB71122FC, 0x2BBE757F, 0xAE752899, 0xDA9BBB0D), block)
  {
    hide RfcOps, RfcMix, RfcIndex, Md5Block.Word;
    NextF(8, 0xFE15F787, 0xDA9BBB0D, 0xB71122FC, 0xA811B278, block, 8, 0, 0x698098D8, 7, 0xAE752899);
    NextF(9, 0xA811B278, 0xAE752899, 0xDA9BBB0D, 0xB71122FC, block, 9, 0, 0x8B44F7AF, 12, 0x2BBE757F);
  }

  lemma Ops10(block: Block)
    requires Md5Block.Word(block, 10) == 0 && Md5Block.Word(block, 11) == 0
    ensures RfcOps(10, Digest(0xB71122FC, 0x2BBE757F, 0xAE752899, 0xDA9BBB0D), block)
         == RfcOps(12, Digest(0xAE752899, 0x56CFA5CB, 0x7D4BD80B, 0x2BBE757F), block)
  {
    hide RfcOps, RfcMix, RfcIndex, Md5Block.Word;
    NextF(10, 0xB71122FC, 0x2BBE757F, 0xAE752899, 0xDA9BBB0D, block, 10, 0, 0xFFFF5BB1, 17, 0x7D4BD80B);
    NextF(11, 0xDA9BBB0D, 0x7D4BD80B, 0x2BBE757F, 0xAE752899, block, 11, 0, 0x895CD7BE, 22, 0x56CFA5CB);
  }

  lemma Ops12(block: Block)
    requires Md5Block.Word(block, 12) == 0 && Md5Block.Word(block, 13) == 0
    ensures RfcOps(12, Digest(0xAE752899, 0x56CFA5CB, 0x7D4BD80B, 0x2BBE757F), block)
         == RfcOps(14, Digest(0x7D4BD80B, 0x85567D90, 0x1754A316, 0x56CFA5CB), block)
  {
    hide RfcOps, RfcMix, RfcIndex, Md5Block.Word;
    NextF(12, 0xAE752899, 0x56CFA5CB, 0x7D4BD80B, 0x2BBE757F, block, 12, 0, 0x6B901122, 7, 0x1754A316);
    NextF(13, 0x2BBE757F, 0x1754A316, 0x56CFA5CB, 0x7D4BD80B, block, 13, 0, 0xFD987193, 12, 0x85567D90);
  }

  lemma Ops14(block: Block)
    requires Md5Block.Word(block, 14) == 0x000000D0 && Md5Block.Word(block, 15) == 0
    ensures RfcOps(14, Digest(0x7D4BD80B, 0x85567D90, 0x1754A316, 0x56CFA5CB), block)
         == RfcOps(16, Digest(0x1754A316, 0x608D6B7E, 0x00DF74D5, 0x85567D90), block)
  {
    hide RfcOps, RfcMix, RfcIndex, Md5Block.Word;
    NextF(14, 0x7D4BD80B, 0x85567D90, 0x1754A316, 0x56CFA5CB, block, 14, 0x000000D0, 0xA679438E, 17, 0x00DF74D5);
    NextF(15, 0x56CFA5CB, 0x00DF74D5, 0x85567D90, 0x1754A316, block, 15, 0, 0x49B40821, 22, 0x608D6B7E);
  }

  lemma Ops16(block: Block)
    requires Md5Block.Word(block, 1) == 0x68676665 && Md5Block.Word(block, 6) == 0x00807A79
    ensures RfcOps(16, Digest(0x1754A316, 0x608D6B7E, 0x00DF74D5, 0x85567D90), block)
         == RfcOps(18, Digest(0x00DF74D5, 0x5DCEE119, 0x2D8071CC, 0x608D6B7E), block)
  {
    hide RfcOps, RfcMix, RfcIndex, Md5Block.Word;
    NextG(16, 0x1754A316, 0x608D6B7E, 0x00DF74D5, 0x85567D90, block, 1, 0x68676665, 0xF61E2562, 5, 0x2D8071CC);
    NextG(17, 0x85567D90, 0x2D8071CC, 0x608D6B7E, 0x00DF74D5, block, 6, 0x00807A79, 0xC040B340, 9, 0x5DCEE119);
  }

  lemma Ops18(block: Block)
    requires Md5Block.Word(block, 0) == 0x64636261 && Md5Block.Word(block, 11) == 0
    ensures RfcOps(18, Digest(0x00DF74D5, 0x5DCEE119, 0x2D8071CC, 0x608D6B7E), block)
         == RfcOps(20, Digest(0x2D8071CC, 0x4C2145B3, 0xEDFE7E4B, 0x5DCEE119), block)
  {
    hide RfcOps, RfcMix, RfcIndex, Md5Block.Word;
    NextG(18, 0x00DF74D5, 0x5DCEE119, 0x2D8071CC, 0x608D6B7E, block, 11, 0, 0x265E5A51, 14, 0xEDFE7E4B);
    NextG(19, 0x608D6B7E, 0xEDFE7E4B, 0x5DCEE119, 0x2D8071CC, block, 0, 0x64636261, 0xE9B6C7AA, 20, 0x4C2145B3);
  }

  lemma Ops20(block: Block)
    requires Md5Block.Word(block, 5) == 0x78777675 && Md5Block.Word(block, 10) == 0
    ensures RfcOps(20, Digest(0x2D8071CC, 0x4C2145B3, 0xEDFE7E4B, 0x5DCEE119), block)
         == RfcOps(22, Digest(0xEDFE7E4B, 0x977EFD2A, 0x570C43E0, 0x4C2145B3), block)
  {
    hide RfcOps, RfcMix, RfcIndex, Md5Block.Word;
    NextG(20, 0x2D8071CC, 0x4C2145B3, 0xEDFE7E4B, 0x5DCEE119, block, 5, 0x78777675, 0xD62F105D, 5, 0x570C43E0);
    NextG(21, 0x5DCEE119, 0x570C43E0, 0x4C2145B3, 0xEDFE7E4B, block, 10, 0, 0x02441453, 9, 0x977EFD2A);
  }

  lemma Ops22(block: Block)
    requires Md5Block.Word(block, 4) == 0x74737271 && Md5Block.Word(block, 15) == 0
    ensures RfcOps(22, Digest(0xEDFE7E4B, 0x977EFD2A, 0x570C43E0, 0x4C2145B3), block)
         == RfcOps(24, Digest(0x570C43E0, 0xC9F162D4, 0xC28AB49D, 0x977EFD2A), block)
  {
    hide RfcOps, RfcMix, RfcIndex, Md5Block.Word;
    NextG(22, 0xEDFE7E4B, 0x977EFD2A, 0x570C43E0, 0x4C2145B3, block, 15, 0, 0xD8A1E681, 14, 0xC28AB49D);
    NextG(23, 0x4C2145B3, 0xC28AB49D, 0x977EFD2A, 0x570C43E0, block, 4, 0x74737271, 0xE7D3FBC8, 20, 0xC9F162D4);
  }

  lemma Ops24(block: Block)
    requires Md5Block.Word(block, 9) == 0 && Md5Block.Word(block, 14) == 0x000000D0
    ensures RfcOps(24, Digest(0x570C43E0, 0xC9F162D4, 0xC28AB49D, 0x977EFD2A), block)
         == RfcOps(26, Digest(0xC28AB49D, 0x89980104, 0x25BFAE3B, 0xC9F162D4), block)
  {
    hide RfcOps, RfcMix, RfcIndex, Md5Block.Word;
    NextG(24, 0x570C43E0, 0xC9F162D4, 0xC28AB49D, 0x977EFD2A, block, 9, 0, 0x21E1CDE6, 5, 0x25BFAE3B);
    NextG(25, 0x977EFD2A, 0x25BFAE3B, 0xC9F162D4, 0xC28AB49D, block, 14, 0x000000D0, 0xC33707D6, 9, 0x89980104);
  }

  lemma Ops26(block: Block)
    requires Md5Block.Word(block, 3) == 0x706F6E6D && Md5Block.Word(block, 8) == 0
    ensures RfcOps(26, Digest(0xC28AB49D, 0x89980104, 0x25BFAE3B, 0xC9F162D4), block)
         == RfcOps(28, Digest(0x25BFAE3B, 0xE6D3B398, 0xF8C8365F, 0x89980104), block)
  {
    hide RfcOps, RfcMix, RfcIndex, Md5Block.Word;
    NextG(26, 0xC28AB49D, 0x89980104, 0x25BFAE3B, 0xC9F162D4, block, 3, 0x706F6E6D, 0xF4D50D87, 14, 0xF8C8365F);
    NextG(27, 0xC9F162D4, 0xF8C8365F, 0x89980104, 0x25BFAE3B, block, 8, 0, 0x455A14ED, 20, 0xE6D3B398);
  }

  lemma Ops28(block: Block)
    requires Md5Block.Word(block, 2) == 0x6C6B6A69 && Md5Block.Word(block, 13) == 0
    ensures RfcOps(28, Digest(0x25BFAE3B, 0xE6D3B398, 0xF8C8365F, 0x89980104), block)
         == RfcOps(30, Digest(0xF8C8365F, 0x927B72E2, 0xF54D8710, 0xE6D3B398), block)
  {
    hide RfcOps, RfcMix, RfcIndex, Md5Block.Word;
    NextG(28, 0x25BFAE3B, 0xE6D3B398, 0xF8C8365F, 0x89980104, block, 13, 0, 0xA9E3E905, 5, 0xF54D8710);
    NextG(29, 0x89980104, 0xF54D8710, 0xE6D3B398, 0xF8C8365F, block, 2, 0x6C6B6A69, 0xFCEFA3F8, 9, 0x927B72E2);
  }

  lemma Ops30(block: Block)
    requires Md5Block.Word(block, 7) == 0 && Md5Block.Word(block, 12) == 0
    ensures RfcOps(30, Digest(0xF8C8365F, 0x927B72E2, 0xF54D8710, 0xE6D3B398), block)
         == RfcOps(32, Digest(0xF54D8710, 0xAEB35766, 0x2E69AFC7, 0x927B72E2), block)
  {
    hide RfcOps, RfcMix, RfcIndex, Md5Block.Word;
    NextG(30, 0xF8C8365F, 0x927B72E2, 0xF54D8710, 0xE6D3B398, block, 7, 0, 0x676F02D9, 14, 0x2E69AFC7);
    NextG(31, 0xE6D3B398, 0x2E69AFC7, 0x927B72E2, 0xF54D8710, block, 12, 0, 0x8D2A4C8A, 20, 0xAEB35766);
  }

  lemma Ops32(block: Block)
    requires Md5Block.Word(block, 5) == 0x78777675 && Md5Block.Word(block, 8) == 0
    ensures RfcOps(32, Digest(0xF54D8710, 0xAEB35766, 0x2E69AFC7, 0x927B72E2), block)
         == RfcOps(34, Digest(0x2E69AFC7, 0x4C8FFA80, 0xB4BF680E, 0xAEB35766), block)
  {
    hide RfcOps, RfcMix, RfcIndex, Md5Block.Word;
    NextH(32, 0xF54D8710, 0xAEB35766, 0x2E69AFC7, 0x927B72E2, block, 5, 0x78777675, 0xFFFA3942, 4, 0xB4BF680E);
    NextH(33, 0x927B72E2, 0xB4BF680E, 0xAEB35766, 0x2E69AFC7, block, 8, 0, 0x8771F681, 11, 0x4C8FFA80);
  }

  lemma Ops34(block: Block)
    requires Md5Block.Word(block, 11) == 0 && Md5Block.Word(block, 14) == 0x000000D0
    ensures RfcOps(34, Digest(0x2E69AFC7, 0x4C8FFA80, 0xB4BF680E, 0xAEB35766), block)
         == RfcOps(36, Digest(0xB4BF680E, 0x06A5E211, 0x2361ED0A, 0x4C8FFA80), block)
  {
    hide RfcOps, RfcMix, RfcIndex, Md5Block.Word;
    NextH(34, 0x2E69AFC7, 0x4C8FFA80, 0xB4BF680E, 0xAEB35766, block, 11, 0, 0x6D9D6122, 16, 0x2361ED0A);
    NextH(35, 0xAEB35766, 0x2361ED0A, 0x4C8FFA80, 0xB4BF680E, block, 14, 0x000000D0, 0xFDE5380C, 23, 0x06A5E211);
  }

  lemma Ops36(block: Block)
    requires Md5Block.Word(block, 1) == 0x68676665 && Md5Block.Word(block, 4) == 0x74737271
    ensures RfcOps(36, Digest(0xB4BF680E, 0x06A5E211, 0x2361ED0A, 0x4C8FFA80), block)
         == RfcOps(38, Digest(0x2361ED0A, 0xF1E6DC7A, 0xB9C0C733, 0x06A5E211), block)
  {
    hide RfcOps, RfcMix, RfcIndex, Md5Block.Word;
    NextH(36, 0xB4BF680E, 0x06A5E211, 0x2361ED0A, 0x4C8FFA80, block, 1, 0x68676665, 0xA4BEEA44, 4, 0xB9C0C733);
    NextH(37, 0x4C8FFA80, 0xB9C0C733, 0x06A5E211, 0x2361ED0A, block, 4, 0x74737271, 0x4BDECFA9, 11, 0xF1E6DC7A);
  }

  lemma Ops38(block: Block)
    requires Md5Block.Word(block, 7) == 0 && Md5Block.Word(block, 10) == 0
    ensures RfcOps(38, Digest(0x2361ED0A, 0xF1E6DC7A, 0xB9C0C733, 0x06A5E211), block)
         == RfcOps(40, Digest(0xB9C0C733, 0x8D41BF99, 0x23A9451B, 0xF1E6DC7A), block)
  {
    hide RfcOps, RfcMix, RfcIndex, Md5Block.Word;
    NextH(38, 0x2361ED0A, 0xF1E6DC7A, 0xB9C0C733, 0x06A5E211, block, 7, 0, 0xF6BB4B60, 16, 0x23A9451B);
    NextH(39, 0x06A5E211, 0x23A9451B, 0xF1E6DC7A, 0xB9C0C733, block, 10, 0, 0xBEBFBC70, 23, 0x8D41BF99);
  }

  lemma Ops40(block: Block)
    requires Md5Block.Word(block, 0) == 0x64636261 && Md5Block.Word(block, 13) == 0
    ensures RfcOps(40, Digest(0xB9C0C733, 0x8D41BF99, 0x23A9451B, 0xF1E6DC7A), block)
         == RfcOps(42, Digest(0x23A9451B, 0x02C0B11C, 0xA3E88EAD, 0x8D41BF99), block)
  {
    hide RfcOps, RfcMix, RfcIndex, Md5Block.Word;
    NextH(40, 0xB9C0C733, 0x8D41BF99, 0x23A9451B, 0xF1E6DC7A, block, 13, 0, 0x289B7EC6, 4, 0xA3E88EAD);
    NextH(41, 0xF1E6DC7A, 0xA3E88EAD, 0x8D41BF99, 0x23A9451B, block, 0, 0x64636261, 0xEAA127FA, 11, 0x02C0B11C);
  }

  lemma Ops42(block: Block)
    requires Md5Block.Word(block, 3) == 0x706F6E6D && Md5Block.Word(block, 6) == 0x00807A79
    ensures RfcOps(42, Digest(0x23A9451B, 0x02C0B11C, 0xA3E88EAD, 0x8D41BF99), block)
         == RfcOps(44, Digest(0xA3E88EAD, 0x90A35AF5, 0x66F6468D, 0x02C0B11C), block)
  {
    hide RfcOps, RfcMix, RfcIndex, Md5Block.Word;
    NextH(42, 0x23A9451B, 0x02C0B11C, 0xA3E88EAD, 0x8D41BF99, block, 3, 0x706F6E6D, 0xD4EF3085, 16, 0x66F6468D);
    NextH(43, 0x8D41BF99, 0x66F6468D, 0x02C0B11C, 0xA3E88EAD, block, 6, 0x00807A79, 0x04881D05, 23, 0x90A35AF5);
  }

  lemma Ops44(block: Block)
    requires Md5Block.Word(block, 9) == 0 && Md5Block.Word(block, 12) == 0
    ensures RfcOps(44, Digest(0xA3E88EAD, 0x90A35AF5, 0x66F6468D, 0x02C0B11C), block)
         == RfcOps(46, Digest(0x66F6468D, 0xA04B4904, 0xB5D41F9C, 0x90A35AF5), block)
  {
    hide RfcOps, RfcMix, RfcIndex, Md5Block.Word;
    NextH(44, 0xA3E88EAD, 0x90A35AF5, 0x66F6468D, 0x02C0B11C, block, 9, 0, 0xD9D4D039, 4, 0xB5D41F9C);
    NextH(45, 0x02C0B11C, 0xB5D41F9C, 0x90A35AF5, 0x66F6468D, block, 12, 0, 0xE6DB99E5, 11, 0xA04B4904);
  }

  lemma Ops46(block: Block)
    requires Md5Block.Word(block, 2) == 0x6C6B6A69 && Md5Block.Word(block, 15) == 0
    ensures RfcOps(46, Digest(0x66F6468D, 0xA04B4904, 0xB5D41F9C, 0x90A35AF5), block)
         == RfcOps(48, Digest(0xB5D41F9C, 0x71D10367, 0x703D54D8, 0xA04B4904), block)
  {
    hide RfcOps, RfcMix, RfcIndex, Md5Block.Word;
    NextH(46, 0x66F6468D, 0xA04B4904, 0xB5D41F9C, 0x90A35AF5, block, 15, 0, 0x1FA27CF8, 16, 0x703D54D8);
    NextH(47, 0x90A35AF5, 0x703D54D8, 0xA04B4904, 0xB5D41F9C, block, 2, 0x6C6B6A69, 0xC4AC5665, 23, 0x71D10367);
  }

  lemma Ops48(block: Block)
    requires Md5Block.Word(block, 0) == 0x64636261 && Md5Block.Word(block, 7) == 0
    ensures RfcOps(48, Digest(0xB5D41F9C, 0x71D10367, 0x703D54D8, 0xA04B4904), block)
         == RfcOps(50, Digest(0x703D54D8, 0x65456B34, 0xFC32DD6E, 0x71D10367), block)
  {
    hide RfcOps, RfcMix, RfcIndex, Md5Block.Word;
    NextI(48, 0xB5D41F9C, 0x71D10367, 0x703D54D8, 0xA04B4904, block, 0, 0x64636261, 0xF4292244, 6, 0xFC32DD6E);
    NextI(49, 0xA04B4904, 0xFC32DD6E, 0x71D10367, 0x703D54D8, block, 7, 0, 0x432AFF97, 10, 0x65456B34);
  }

  lemma Ops50(block: Block)
    requires Md5Block.Word(block, 5) == 0x78777675 && Md5Block.Word(block, 14) == 0x000000D0
    ensures RfcOps(50, Digest(0x703D54D8, 0x65456B34, 0xFC32DD6E, 0x71D10367), block)
         == RfcOps(52, Digest(0xFC32DD6E, 0x33EDB197, 0xB35602CB, 0x65456B34), block)
  {
    hide RfcOps, RfcMix, RfcIndex, Md5Block.Word;
    NextI(50, 0x703D54D8, 0x65456B34, 0xFC32DD6E, 0x71D10367, block, 14, 0x000000D0, 0xAB9423A7, 15, 0xB35602CB);
    NextI(51, 0x71D10367, 0xB35602CB, 0x65456B34, 0xFC32DD6E, block, 5, 0x78777675, 0xFC93A039, 21, 0x33EDB197);
  }

  lemma Ops52(block: Block)
    requires Md5Block.Word(block, 3) == 0x706F6E6D && Md5Block.Word(block, 12) == 0
    ensures RfcOps(52, Digest(0xFC32DD6E, 0x33EDB197, 0xB35602CB, 0x65456B34), block)
         == RfcOps(54, Digest(0xB35602CB, 0xD9BB987C, 0xC1E942F1, 0x33EDB197), block)
  {
    hide RfcOps, RfcMix, RfcIndex, Md5Block.Word;
    NextI(52, 0xFC32DD6E, 0x33EDB197, 0xB35602CB, 0x65456B34, block, 12, 0, 0x655B59C3, 6, 0xC1E942F1);
    NextI(53, 0x65456B34, 0xC1E942F1, 0x33EDB197, 0xB35602CB, block, 3, 0x706F6E6D, 0x8F0CCC92, 10, 0xD9BB987C);
  }

  lemma Ops54(block: Block)
    requires Md5Block.Word(block, 1) == 0x68676665 && Md5Block.Word(block, 10) == 0
    ensures RfcOps(54, Digest(0xB35602CB, 0xD9BB987C, 0xC1E942F1, 0x33EDB197), block)
         == RfcOps(56, Digest(0xC1E942F1, 0x83877D1B, 0x23A68048, 0xD9BB987C), block)
  {
    hide RfcOps, RfcMix, RfcIndex, Md5Block.Word;
    NextI(54, 0xB35602CB, 0xD9BB987C, 0xC1E942F1, 0x33EDB197, block, 10, 0, 0xFFEFF47D, 15, 0x23A68048);
    NextI(55, 0x33EDB197, 0x23A68048, 0xD9BB987C, 0xC1E942F1, block, 1, 0x68676665, 0x85845DD1, 21, 0x83877D1B);
  }

  lemma Ops56(block: Block)
    requires Md5Block.Word(block, 8) == 0 && Md5Block.Word(block, 15) == 0
    ensures RfcOps(56, Digest(0xC1E942F1, 0x83877D1B, 0x23A68048, 0xD9BB987C), block)
         == RfcOps(58, Digest(0x23A68048, 0x847FC2E7, 0x0077C208, 0x83877D1B), block)
  {
    hide RfcOps, RfcMix, RfcIndex, Md5Block.Word;
    NextI(56, 0xC1E942F1, 0x83877D1B, 0x23A68048, 0xD9BB987C, block, 8, 0, 0x6FA87E4F, 6, 0x0077C208);
    NextI(57, 0xD9BB987C, 0x0077C208, 0x83877D1B, 0x23A68048, block, 15, 0, 0xFE2CE6E0, 10, 0x847FC2E7);
  }

  lemma Ops58(block: Block)
    requires Md5Block.Word(block, 6) == 0x00807A79 && Md5Block.Word(block, 13) == 0
    ensures RfcOps(58, Digest(0x23A68048, 0x847FC2E7, 0x0077C208, 0x83877D1B), block)
         == RfcOps(60, Digest(0x0077C208, 0x5E6BC930, 0xA3E2247F, 0x847FC2E7), block)
  {
    hide RfcOps, RfcMix, RfcIndex, Md5Block.Word;
    NextI(58, 0x23A68048, 0x847FC2E7, 0x0077C208, 0x83877D1B, block, 6, 0x00807A79, 0xA3014314, 15, 0xA3E2247F);
    NextI(59, 0x83877D1B, 0xA3E2247F, 0x847FC2E7, 0x0077C208, block, 13, 0, 0x4E0811A1, 21, 0x5E6BC930);
  }

  lemma Ops60(block: Block)
    requires Md5Block.Word(block, 4) == 0x74737271 && Md5Block.Word(block, 11) == 0
    ensures RfcOps(60, Digest(0x0077C208, 0x5E6BC930, 0xA3E2247F, 0x847FC2E7), block)
         == RfcOps(62, Digest(0xA3E2247F, 0x2BAF1354, 0x708ED9C2, 0x5E6BC930), block)
  {
    hide RfcOps, RfcMix, RfcIndex, Md5Block.Word;
    NextI(60, 0x0077C208, 0x5E6BC930, 0xA3E2247F, 0x847FC2E7, block, 4, 0x74737271, 0xF7537E82, 6, 0x708ED9C2);
    NextI(61, 0x847FC2E7, 0x708ED9C2, 0x5E6BC930, 0xA3E2247F, block, 11, 0, 0xBD3AF235, 10, 0x2BAF1354);
  }

  lemma Ops62(block: Block)
    requires Md5Block.Word(block, 2) == 0x6C6B6A69 && Md5Block.Word(block, 9) == 0
    ensures RfcOps(62, Digest(0xA3E2247F, 0x2BAF1354, 0x708ED9C2, 0x5E6BC930), block)
         == RfcOps(64, Digest(0x708ED9C2, 0x1116E6D8, 0xD38F1E7F, 0x2BAF1354), block)
  {
    hide RfcOps, RfcMix, RfcIndex, Md5Block.Word;
    NextI(62, 0xA3E2247F, 0x2BAF1354, 0x708ED9C2, 0x5E6BC930, block, 2, 0x6C6B6A69, 0x2AD7D2BB, 15, 0xD38F1E7F);
    NextI(63, 0x5E6BC930, 0xD38F1E7F, 0x2BAF1354, 0x708ED9C2, block, 9, 0, 0xEB86D391, 21, 0x1116E6D8);
  }

  // ---- the digest ------------------------------------------------------------------------------------------

  lemma {:induction false} ZeroBytes(k: nat)
    ensures LittleEndian(0, k) == Zeros(k)
  {
    if k > 0 { ZeroBytes(k - 1); }
  }

  /** The letters padded: one block, which ends in the length of 208 bits. */
  lemma PaddedLetters()
    ensures |Padded(LETTERS)| == 64 && LetterBlock(Padded(LETTERS))
  {
    ZeroBytes(7);
    assert LittleEndian(208, 8) == [208] + LittleEndian(0, 7);
    hide LittleEndian;
  }

  lemma WordIs(block: Block, i: nat, a: Base.Byte, b: Base.Byte, c: Base.Byte, d: Base.Byte, w: bv32)
    requires i < 16 && block[4 * i] == a && block[4 * i + 1] == b && block[4 * i + 2] == c && block[4 * i + 3] == d
    requires w == (a as bv32) | ((b as bv32) << 8) | ((c as bv32) << 16) | ((d as bv32) << 24)
    ensures Md5Block.Word(block, i) == w
  {
  }

  ghost predicate LetterBlock(block: Block) {
    forall i :: 0 <= i < 64 ==>
      block[i] == if i < 26 then 97 + i else if i == 26 then 128 else if i == 56 then 208 else 0
  }

  lemma Words0(block: Block)
    requires LetterBlock(block)
    ensures Md5Block.Word(block, 0) == 0x64636261 && Md5Block.Word(block, 1) == 0x68676665
    ensures Md5Block.Word(block, 2) == 0x6C6B6A69 && Md5Block.Word(block, 3) == 0x706F6E6D
  {
    hide Md5Block.Word;
    WordIs(block, 0, 97, 98, 99, 100, 0x64636261);
    WordIs(block, 1, 101, 102, 103, 104, 0x68676665);
    WordIs(block, 2, 105, 106, 107, 108, 0x6C6B6A69);
    WordIs(block, 3, 109, 110, 111, 112, 0x706F6E6D);
  }

  lemma Words4(block: Block)
    requires LetterBlock(block)
    ensures Md5Block.Word(block, 4) == 0x74737271 && Md5Block.Word(block, 5) == 0x78777675
    ensures Md5Block.Word(block, 6) == 0x00807A79 && Md5Block.Word(block, 7) == 0x00000000
  {
    hide Md5Block.Word;
    WordIs(block, 4, 113, 114, 115, 116, 0x74737271);
    WordIs(block, 5, 117, 118, 119, 120, 0x78777675);
    WordIs(block, 6, 121, 122, 128, 0, 0x00807A79);
    WordIs(block, 7, 0, 0, 0, 0, 0x00000000);
  }

  lemma Words8(block: Block)
    requires LetterBlock(block)
    ensures Md5Block.Word(block, 8) == 0x00000000 && Md5Block.Word(block, 9) == 0x00000000
    ensures Md5Block.Word(block, 10) == 0x00000000 && Md5Block.Word(block, 11) == 0x00000000
  {
    hide Md5Block.Word;
    WordIs(block, 8, 0, 0, 0, 0, 0x00000000);
    WordIs(block, 9, 0, 0, 0, 0, 0x00000000);
    WordIs(block, 10, 0, 0, 0, 0, 0x00000000);
    WordIs(block, 11, 0, 0, 0, 0, 0x00000000);
  }

  lemma Words12(block: Block)
    requires LetterBlock(block)
    ensures Md5Block.Word(block, 12) == 0x00000000 && Md5Block.Word(block, 13) == 0x00000000
    ensures Md5Block.Word(block, 14) == 0x000000D0 && Md5Block.Word(block, 15) == 0x00000000
  {
    hide Md5Block.Word;
    WordIs(block, 12, 0, 0, 0, 0, 0x00000000);
    WordIs(block, 13, 0, 0, 0, 0, 0x00000000);
    WordIs(block, 14, 208, 0, 0, 0, 0x000000D0);
    WordIs(block, 15, 0, 0, 0, 0, 0x00000000);
  }

  lemma AllOps(block: Block)
    requires LetterBlock(block)
    ensures RfcOps(0, INITIAL, block) == Digest(0x708ED9C2, 0x1116E6D8, 0xD38F1E7F, 0x2BAF1354)
  {
    hide RfcOps, Md5Block.Word, LetterBlock;
    Words0(block);
    Words4(block);
    Words8(block);
    Words12(block);
    Ops0(block);
    Ops2(block);
    Ops4(block);
    Ops6(block);
    Ops8(block);
    Ops10(block);
    Ops12(block);
    Ops14(block);
    Ops16(block);
    Ops18(block);
    Ops20(block);
    Ops22(block);
    Ops24(block);
    Ops26(block);
    Ops28(block);
    Ops30(block);
    Ops32(block);
    Ops34(block);
    Ops36(block);
    Ops38(block);
    Ops40(block);
    Ops42(block);
    Ops44(block);
    Ops46(block);
    Ops48(block);
    Ops50(block);
    Ops52(block);
    Ops54(block);
    Ops56(block);
    Ops58(block);
    Ops60(block);
    Ops62(block);
    EndOps(block);
  }

  lemma EndOps(block: Block)
    ensures forall x :: RfcOps(64, x, block) == x
  {
  }

  lemma DigestBytes()
    ensures Output(Digest(0xD7D3FCC3, 0x00E49261, 0x6C49FB7D, 0x3BE167CA)) == DIGEST
  {
    hide LittleEndian, Output;
    BytesOf(0xD7D3FCC3, 0xC3, 0xFC, 0xD3, 0xD7);
    BytesOf(0x00E49261, 0x61, 0x92, 0xE4, 0x00);
    BytesOf(0x6C49FB7D, 0x7D, 0xFB, 0x49, 0x6C);
    BytesOf(0x3BE167CA, 0xCA, 0x67, 0xE1, 0x3B);
    OutputIs(Digest(0xD7D3FCC3, 0x00E49261, 0x6C49FB7D, 0x3BE167CA), 0xD7D3FCC3, 0x00E49261, 0x6C49FB7D, 0x3BE167CA);
  }

  /** The test of the RFC. */
  lemma DigestOfLetters()
    ensures Md5Of(Process, LETTERS) == DIGEST
  {
    PaddedLetters();
    var p := Padded(LETTERS);
    assert p[..64] == p && p[64..] == [];
    assert Fold(Process, INITIAL, p) == Process(INITIAL, p);
    ProcessIsRfc(INITIAL, p);
    AllOps(p);
    DigestBytes();
    hide RfcOps, SrcOps, Padded, Output, LittleEndian;
  }
}
