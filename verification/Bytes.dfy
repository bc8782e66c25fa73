/** Bytes, optional values, and the big-endian integers of the PostgreSQL v3 wire format. */
module Bytes {

  type byte = x: int | 0 <= x < 256
  type bytes = seq<byte>

  datatype Option<+T> = None | Some(value: T)

  datatype Result<+T, +E> = Ok(value: T) | Err(error: E)

  // Texts are put together in different orders.
  lemma Assoc<T>(a: seq<T>, b: seq<T>, c: seq<T>)
    ensures a + b + c == a + (b + c)
  {
  }

  lemma AssocFour<T>(a: seq<T>, b: seq<T>, c: seq<T>, d: seq<T>)
    ensures a + b + c + d == a + b + (c + d) == a + (b + c + d) == a + (b + (c + d))
  {
  }

  // The bytes of an ASCII text.
  function Ascii(text: string): bytes { seq(|text|, i requires 0 <= i < |text| => text[i] as int % 256) }

  const TWO_16: int := 0x1_0000
  const TWO_32: int := 0x1_0000_0000

  // Two's-complement reading of an unsigned 16- or 32-bit word.
  function Signed16(u: int): int { if u >= 0x8000 then u - TWO_16 else u }

  function Signed32(u: int): int { if u >= 0x8000_0000 then u - TWO_32 else u }

  function U16(b: bytes): (u: int)
    requires |b| >= 2
    ensures 0 <= u < TWO_16
  {
    b[0] as int * 0x100 + b[1]
  }

  function U32(b: bytes): (u: int)
    requires |b| >= 4
    ensures 0 <= u < TWO_32
  {
    b[0] as int * 0x100_0000 + b[1] as int * 0x1_0000 + b[2] as int * 0x100 + b[3]
  }

  function I16(b: bytes): int
    requires |b| >= 2
  {
    Signed16(U16(b))
  }

  function I32(b: bytes): int
    requires |b| >= 4
  {
    Signed32(U32(b))
  }

  // Go's byte(v>>8), byte(v): the low 16 (or 32) bits of v, high byte first.
  function Put16(v: int): (b: bytes)
    ensures |b| == 2
  {
    [v / 0x100 % 0x100, v % 0x100]
  }

  function Put32(v: int): (b: bytes)
    ensures |b| == 4
  {
    [v / 0x100_0000 % 0x100, v / 0x1_0000 % 0x100, v / 0x100 % 0x100, v % 0x100]
  }

  lemma Put16Reads(v: int, rest: bytes)
    ensures U16(Put16(v) + rest) == v % TWO_16
    ensures -0x8000 <= v < 0x8000 ==> I16(Put16(v) + rest) == v
    ensures (Put16(v) + rest)[2..] == rest
  {
  }

  lemma SplitWord(v: int)
    ensures v % TWO_32 == v / 0x1_0000 % 0x1_0000 * 0x1_0000 + v % 0x1_0000
    ensures v / 0x100_0000 == v / 0x1_0000 / 0x100
  {
  }

  lemma SplitHalf(v: int)
    ensures v % 0x1_0000 == v / 0x100 % 0x100 * 0x100 + v % 0x100
  {
  }

  lemma Put32Reads(v: int, rest: bytes)
    ensures U32(Put32(v) + rest) == v % TWO_32
    ensures -0x8000_0000 <= v < 0x8000_0000 ==> I32(Put32(v) + rest) == v
    ensures (Put32(v) + rest)[4..] == rest
  {
    SplitWord(v);
    SplitHalf(v);
    SplitHalf(v / 0x1_0000);
  }
}
