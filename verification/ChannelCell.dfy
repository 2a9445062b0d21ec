/** Messages are copied into cells on send and back out of them on receive (src/thread/channel.c). */
module ChannelCell {
  import opened Base

  type Half = h: int | 0 <= h < 0x1_0000
  type Quad = q: int | 0 <= q < 0x1_0000_0000_0000_0000
  type Int32 = i: int | -0x8000_0000 <= i < 0x8000_0000
  type Int64 = i: int | -0x8000_0000_0000_0000 <= i < 0x8000_0000_0000_0000

  /** A tagged value as the sender holds it; floats are opaque bit patterns. */
  datatype Value =
    | Null
    | Bool(b: bool)
    | I32(i: Int32)
    | Atom(id: Word)
    | BoxI64(i64: Int64)
    | BoxF32(bits32: Word)
    | BoxF64(bits64: Quad)
    | BoxF16(bits16: Half)
    | Bytes(bytes: seq<Byte>)
    | Other

  datatype Cell =
    | CellNull
    | CellBool(flag: Word)
    | CellI32(word: Word)
    | CellAtom(atom: Word)
    | CellI64(quad: Quad)
    | CellF32(word32: Word)
    | CellF64(quad64: Quad)
    | CellF16(half: Half)
    | CellBytes(data: seq<Byte>)

  /** Which values may cross threads. */
  predicate CopySafe(v: Value) {
    !v.Other?
  }

  function ToUnsigned(i: int, modulus: int): (u: int)
    requires -modulus <= i < modulus
    ensures 0 <= u < modulus
  {
    if i < 0 then i + modulus else i
  }

  function ToSigned(u: int, modulus: nat): int {
    if u < modulus / 2 then u else u - modulus
  }

  /** `channel_cell_from_value`: fails exactly on values that are not copy-safe. */
  function FromValue(v: Value): (c: Option<Cell>)
    ensures c.Some? <==> v.Null? || v.Bool? || v.I32? || v.Atom? || v.BoxI64? || v.BoxF32? || v.BoxF64? || v.BoxF16?
                         || v.Bytes?
  {
    match v
    case Null => Some(CellNull)
    case Bool(b) => Some(CellBool(if b then 1 else 0))
    case I32(i) => Some(CellI32(ToUnsigned(i, 0x1_0000_0000)))
    case Atom(id) => Some(CellAtom(id))
    case BoxI64(i) => Some(CellI64(ToUnsigned(i, 0x1_0000_0000_0000_0000)))
    case BoxF32(w) => Some(CellF32(w))
    case BoxF64(q) => Some(CellF64(q))
    case BoxF16(h) => Some(CellF16(h))
    case Bytes(bs) => Some(CellBytes(bs))
    case Other => None
  }

  /** `channel_cell_to_value`. */
  function ToValue(c: Cell): Value {
    match c
    case CellNull => Null
    case CellBool(f) => Bool(f != 0)
    case CellI32(w) => I32(ToSigned(w, 0x1_0000_0000))
    case CellAtom(w) => Atom(w)
    case CellI64(q) => BoxI64(ToSigned(q, 0x1_0000_0000_0000_0000))
    case CellF32(w) => BoxF32(w)
    case CellF64(q) => BoxF64(q)
    case CellF16(w) => BoxF16(w)
    case CellBytes(bs) => Bytes(bs)
  }

  /** What is in the cells of numbers: booleans as 0 and 1, signed integers as their remainders modulo 2^32 and 2^64,
      everything else as it is. */
  lemma CellsHold(v: Value)
    requires CopySafe(v)
    ensures var c := FromValue(v).value;
      match v
      case Null => c == CellNull
      case Bool(b) => c.CellBool? && (b <==> c.flag == 1) && (!b <==> c.flag == 0)
      case I32(i) => c.CellI32? && (c.word - i) % 0x1_0000_0000 == 0
      case Atom(id) => c.CellAtom? && c.atom == id
      case BoxI64(i) => c.CellI64? && (c.quad - i) % 0x1_0000_0000_0000_0000 == 0
      case BoxF32(w) => c.CellF32? && c.word32 == w
      case BoxF64(q) => c.CellF64? && c.quad64 == q
      case BoxF16(x) => c.CellF16? && c.half == x
      case Bytes(bs) => c.CellBytes? && c.data == bs
      case Other => false
  {
  }

  /** The receiver sees the value the sender sent. */
  lemma CellRoundTrip(v: Value)
    requires CopySafe(v)
    ensures ToValue(FromValue(v).value) == v
  {
  }
}
