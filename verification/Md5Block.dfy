/** The MD5 compression step: `md5_process` of libs/std/crypto/md5.c against section 3.4 of RFC 1321. */
module Md5Block {
  import opened Base

  datatype Digest = Digest(a: bv32, b: bv32, c: bv32, d: bv32)

  const INITIAL := Digest(0x67452301, 0xEFCDAB89, 0x98BADCFE, 0x10325476)

  // ---- the boolean functions, as the RFC defines them and as the source computes them ------------

  function RfcF(x: bv32, y: bv32, z: bv32): bv32 { (x & y) | (!x & z) }
  function RfcG(x: bv32, y: bv32, z: bv32): bv32 { (x & z) | (y & !z) }
  function RfcH(x: bv32, y: bv32, z: bv32): bv32 { x ^ y ^ z }
  function RfcI(x: bv32, y: bv32, z: bv32): bv32 { y ^ (x | !z) }

  function SrcF(x: bv32, y: bv32, z: bv32): bv32 { z ^ (x & (y ^ z)) }
  function SrcG(x: bv32, y: bv32, z: bv32): bv32 { y ^ (z & (x ^ y)) }

  function RotateLeft(x: bv32, n: nat): bv32
    requires 0 < n < 32
  {
    (x << n) | (x >> (32 - n))
  }

  // ---- the 64 operations -----------------------------------------------------------------------

  datatype Op = Op(k: nat, s: nat, t: bv32)

  /** Word index, shift and additive constant of each operation, in the source's order. */
  function OpAt(i: nat): Op {
    match i
    case 0 => Op(0, 7, 0xD76AA478)  case 1 => Op(1, 12, 0xE8C7B756)
    case 2 => Op(2, 17, 0x242070DB)  case 3 => Op(3, 22, 0xC1BDCEEE)
    case 4 => Op(4, 7, 0xF57C0FAF)  case 5 => Op(5, 12, 0x4787C62A)
    case 6 => Op(6, 17, 0xA8304613)  case 7 => Op(7, 22, 0xFD469501)
    case 8 => Op(8, 7, 0x698098D8)  case 9 => Op(9, 12, 0x8B44F7AF)
    case 10 => Op(10, 17, 0xFFFF5BB1)  case 11 => Op(11, 22, 0x895CD7BE)
    case 12 => Op(12, 7, 0x6B901122)  case 13 => Op(13, 12, 0xFD987193)
    case 14 => Op(14, 17, 0xA679438E)  case 15 => Op(15, 22, 0x49B40821)
    case 16 => Op(1, 5, 0xF61E2562)  case 17 => Op(6, 9, 0xC040B340)
    case 18 => Op(11, 14, 0x265E5A51)  case 19 => Op(0, 20, 0xE9B6C7AA)
    case 20 => Op(5, 5, 0xD62F105D)  case 21 => Op(10, 9, 0x02441453)
    case 22 => Op(15, 14, 0xD8A1E681)  case 23 => Op(4, 20, 0xE7D3FBC8)
    case 24 => Op(9, 5, 0x21E1CDE6)  case 25 => Op(14, 9, 0xC33707D6)
    case 26 => Op(3, 14, 0xF4D50D87)  case 27 => Op(8, 20, 0x455A14ED)
    case 28 => Op(13, 5, 0xA9E3E905)  case 29 => Op(2, 9, 0xFCEFA3F8)
    case 30 => Op(7, 14, 0x676F02D9)  case 31 => Op(12, 20, 0x8D2A4C8A)
    case 32 => Op(5, 4, 0xFFFA3942)  case 33 => Op(8, 11, 0x8771F681)
    case 34 => Op(11, 16, 0x6D9D6122)  case 35 => Op(14, 23, 0xFDE5380C)
    case 36 => Op(1, 4, 0xA4BEEA44)  case 37 => Op(4, 11, 0x4BDECFA9)
    case 38 => Op(7, 16, 0xF6BB4B60)  case 39 => Op(10, 23, 0xBEBFBC70)
    case 40 => Op(13, 4, 0x289B7EC6)  case 41 => Op(0, 11, 0xEAA127FA)
    case 42 => Op(3, 16, 0xD4EF3085)  case 43 => Op(6, 23, 0x04881D05)
    case 44 => Op(9, 4, 0xD9D4D039)  case 45 => Op(12, 11, 0xE6DB99E5)
    case 46 => Op(15, 16, 0x1FA27CF8)  case 47 => Op(2, 23, 0xC4AC5665)
    case 48 => Op(0, 6, 0xF4292244)  case 49 => Op(7, 10, 0x432AFF97)
    case 50 => Op(14, 15, 0xAB9423A7)  case 51 => Op(5, 21, 0xFC93A039)
    case 52 => Op(12, 6, 0x655B59C3)  case 53 => Op(3, 10, 0x8F0CCC92)
    case 54 => Op(10, 15, 0xFFEFF47D)  case 55 => Op(1, 21, 0x85845DD1)
    case 56 => Op(8, 6, 0x6FA87E4F)  case 57 => Op(15, 10, 0xFE2CE6E0)
    case 58 => Op(6, 15, 0xA3014314)  case 59 => Op(13, 21, 0x4E0811A1)
    case 60 => Op(4, 6, 0xF7537E82)  case 61 => Op(11, 10, 0xBD3AF235)
    case 62 => Op(2, 15, 0x2AD7D2BB)  case _ => Op(9, 21, 0xEB86D391)
  }

  /** The word index as the rounds of the RFC prescribe it. */
  function RfcIndex(i: nat): nat {
    if i < 16 then i
    else if i < 32 then (5 * i + 1) % 16
    else if i < 48 then (3 * i + 5) % 16
    else (7 * i) % 16
  }

  /** The shift amounts of the four rounds of the RFC. */
  function RfcShift(i: nat): nat {
    var r, j := i / 16, i % 4;
    if r == 0 then (if j == 0 then 7 else if j == 1 then 12 else if j == 2 then 17 else 22)
    else if r == 1 then (if j == 0 then 5 else if j == 1 then 9 else if j == 2 then 14 else 20)
    else if r == 2 then (if j == 0 then 4 else if j == 1 then 11 else if j == 2 then 16 else 23)
    else (if j == 0 then 6 else if j == 1 then 10 else if j == 2 then 15 else 21)
  }

  // The additive constants of section 3.4, by rounds: the integer part of 4294967296 times abs(sin(i + 1)).
  const RFC_T1: seq<bv32> := [
    0xD76AA478, 0xE8C7B756, 0x242070DB, 0xC1BDCEEE, 0xF57C0FAF, 0x4787C62A, 0xA8304613, 0xFD469501,
    0x698098D8, 0x8B44F7AF, 0xFFFF5BB1, 0x895CD7BE, 0x6B901122, 0xFD987193, 0xA679438E, 0x49B40821
  ]
  const RFC_T2: seq<bv32> := [
    0xF61E2562, 0xC040B340, 0x265E5A51, 0xE9B6C7AA, 0xD62F105D, 0x02441453, 0xD8A1E681, 0xE7D3FBC8,
    0x21E1CDE6, 0xC33707D6, 0xF4D50D87, 0x455A14ED, 0xA9E3E905, 0xFCEFA3F8, 0x676F02D9, 0x8D2A4C8A
  ]
  const RFC_T3: seq<bv32> := [
    0xFFFA3942, 0x8771F681, 0x6D9D6122, 0xFDE5380C, 0xA4BEEA44, 0x4BDECFA9, 0xF6BB4B60, 0xBEBFBC70,
    0x289B7EC6, 0xEAA127FA, 0xD4EF3085, 0x04881D05, 0xD9D4D039, 0xE6DB99E5, 0x1FA27CF8, 0xC4AC5665
  ]
  const RFC_T4: seq<bv32> := [
    0xF4292244, 0x432AFF97, 0xAB9423A7, 0xFC93A039, 0x655B59C3, 0x8F0CCC92, 0xFFEFF47D, 0x85845DD1,
    0x6FA87E4F, 0xFE2CE6E0, 0xA3014314, 0x4E0811A1, 0xF7537E82, 0xBD3AF235, 0x2AD7D2BB, 0xEB86D391
  ]

  function RfcT(i: nat): bv32
    requires i < 64
  {
    if i < 16 then RFC_T1[i] else if i < 32 then RFC_T2[i - 16] else if i < 48 then RFC_T3[i - 32] else RFC_T4[i - 48]
  }

  lemma Round1(i: nat)
    requires i < 16
    ensures OpAt(i).k == i && OpAt(i).s == RfcShift(i)
  {
    if i < 8 { assert OpAt(i).s == RfcShift(i); }
  }

  lemma Constants1(i: nat)
    requires i < 16
    ensures OpAt(i).t == RfcT(i)
  {
    if i < 8 { assert OpAt(i).t == RfcT(i); }
  }

  lemma Round2(i: nat)
    requires 16 <= i < 32
    ensures OpAt(i).k == (5 * i + 1) % 16 && OpAt(i).s == RfcShift(i)
  {
    if i < 24 { assert OpAt(i).s == RfcShift(i); }
  }

  lemma Constants2(i: nat)
    requires 16 <= i < 32
    ensures OpAt(i).t == RfcT(i)
  {
    if i < 24 { assert OpAt(i).t == RfcT(i); }
  }

  lemma Round3(i: nat)
    requires 32 <= i < 48
    ensures OpAt(i).k == (3 * i + 5) % 16 && OpAt(i).s == RfcShift(i)
  {
    if i < 40 { assert OpAt(i).s == RfcShift(i); }
  }

  lemma Constants3(i: nat)
    requires 32 <= i < 48
    ensures OpAt(i).t == RfcT(i)
  {
    if i < 40 { assert OpAt(i).t == RfcT(i); }
  }

  lemma Round4(i: nat)
    requires 48 <= i < 64
    ensures OpAt(i).k == (7 * i) % 16 && OpAt(i).s == RfcShift(i)
  {
    if i < 56 { assert OpAt(i).s == RfcShift(i); }
  }

  lemma Constants4(i: nat)
    requires 48 <= i < 64
    ensures OpAt(i).t == RfcT(i)
  {
    if i < 56 { assert OpAt(i).t == RfcT(i); }
  }

  /** The source's unrolled table is the one the RFC's rounds describe. */
  lemma OpsFollowRfc(i: nat)
    requires i < 64
    ensures OpAt(i).k == RfcIndex(i) < 16 && OpAt(i).s == RfcShift(i) && 0 < OpAt(i).s < 32
    ensures OpAt(i).t == RfcT(i)
  {
    hide OpAt, RfcT;
    if i < 16 {
      Round1(i);
      Constants1(i);
    } else if i < 32 {
      Round2(i);
      Constants2(i);
    } else if i < 48 {
      Round3(i);
      Constants3(i);
    } else {
      Round4(i);
      Constants4(i);
    }
  }

  // ---- one block -------------------------------------------------------------------------------

  type Block = bs: seq<Byte> | |bs| == 64 witness seq(64, i => 0)

  /** `GET_UINT32`: word `i` of the block, least significant byte first. */
  function Word(block: Block, i: nat): bv32
    requires i < 16
  {
    (block[4 * i] as bv32) | ((block[4 * i + 1] as bv32) << 8)
    | ((block[4 * i + 2] as bv32) << 16) | ((block[4 * i + 3] as bv32) << 24)
  }

  function Rotated(d: Digest, mix: bv32, word: bv32, t: bv32, s: nat): Digest
    requires 0 < s < 32
  {
    Digest(d.d, d.b + RotateLeft(d.a + mix + word + t, s), d.b, d.c)
  }

  function SrcMix(i: nat, x: bv32, y: bv32, z: bv32): bv32 {
    if i < 16 then SrcF(x, y, z)
    else if i < 32 then SrcG(x, y, z)
    else if i < 48 then RfcH(x, y, z)
    else RfcI(x, y, z)
  }

  function RfcMix(i: nat, x: bv32, y: bv32, z: bv32): bv32 {
    if i < 16 then RfcF(x, y, z)
    else if i < 32 then RfcG(x, y, z)
    else if i < 48 then RfcH(x, y, z)
    else RfcI(x, y, z)
  }

  function SrcOps(i: nat, d: Digest, block: Block): Digest
    requires i <= 64
    decreases 64 - i
  {
    if i == 64 then d
    else
      OpsFollowRfc(i);
      SrcOps(i + 1, Rotated(d, SrcMix(i, d.b, d.c, d.d), Word(block, OpAt(i).k), OpAt(i).t, OpAt(i).s), block)
  }

  function RfcOps(i: nat, d: Digest, block: Block): Digest
    requires i <= 64
    decreases 64 - i
  {
    if i == 64 then d
    else RfcOps(i + 1, Rotated(d, RfcMix(i, d.b, d.c, d.d), Word(block, RfcIndex(i)), RfcT(i), RfcShift(i)), block)
  }

  function AddDigest(x: Digest, y: Digest): Digest {
    Digest(x.a + y.a, x.b + y.b, x.c + y.c, x.d + y.d)
  }

  /** `md5_process`. */
  function Process(d: Digest, block: Block): Digest {
    AddDigest(d, SrcOps(0, d, block))
  }

  lemma WhereSet(x: bv32, y: bv32, z: bv32)
    ensures (z ^ (x & (y ^ z))) & x == x & y
  {
  }

  lemma WhereClear(x: bv32, y: bv32, z: bv32)
    ensures (z ^ (x & (y ^ z))) & !x == !x & z
  {
  }

  lemma SplitByMask(x: bv32, r: bv32)
    ensures r == (r & x) | (r & !x)
  {
  }

  lemma Commuted(x: bv32, y: bv32, z: bv32)
    ensures (z & x) | (!z & y) == (x & z) | (y & !z)
  {
  }

  lemma SelectF(x: bv32, y: bv32, z: bv32)
    ensures z ^ (x & (y ^ z)) == (x & y) | (!x & z)
  {
    WhereSet(x, y, z);
    WhereClear(x, y, z);
    SplitByMask(x, z ^ (x & (y ^ z)));
  }

  lemma FAgrees(x: bv32, y: bv32, z: bv32)
    ensures SrcF(x, y, z) == RfcF(x, y, z)
  {
    SelectF(x, y, z);
  }

  lemma GAgrees(x: bv32, y: bv32, z: bv32)
    ensures SrcG(x, y, z) == RfcG(x, y, z)
  {
    SelectF(z, x, y);
    Commuted(x, y, z);
  }

  lemma MixAgrees(i: nat, x: bv32, y: bv32, z: bv32)
    ensures SrcMix(i, x, y, z) == RfcMix(i, x, y, z)
  {
    if i < 16 { FAgrees(x, y, z); } else if i < 32 { GAgrees(x, y, z); }
  }

  lemma {:induction false} OpsAgree(i: nat, d: Digest, block: Block)
    requires i <= 64
    ensures SrcOps(i, d, block) == RfcOps(i, d, block)
    decreases 64 - i
  {
    if i < 64 {
      OpsFollowRfc(i);
      MixAgrees(i, d.b, d.c, d.d);
      OpsAgree(i + 1, Rotated(d, RfcMix(i, d.b, d.c, d.d), Word(block, RfcIndex(i)), RfcT(i), RfcShift(i)), block);
    }
  }

  /** The source's shortened boolean functions and unrolled rounds compute the RFC's block step. */
  lemma ProcessIsRfc(d: Digest, block: Block)
    ensures Process(d, block) == AddDigest(d, RfcOps(0, d, block))
  {
    OpsAgree(0, d, block);
  }
}
