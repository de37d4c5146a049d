/** Machine integer widths used on the wire and the little-endian layout of
    the C `unsigned short`, `short` and `float` values copied byte by byte. */
module Bytes {

  /** `unsigned char` */
  type Byte = x: int | 0 <= x < 0x100

  /** `unsigned short` */
  type U16 = x: int | 0 <= x < 0x1_0000

  /** `short` (two's complement) */
  type I16 = x: int | -0x8000 <= x < 0x8000

  /** A `float` as the four bytes it occupies in memory; its value is never
      inspected on the sending side. */
  type Float32 = s: seq<Byte> | |s| == 4 witness [0, 0, 0, 0]

  const ASCII_A: Byte := 'A' as int
  const ASCII_q: Byte := 'q' as int
  const ASCII_C: Byte := 'C' as int
  const ASCII_T: Byte := 'T' as int

  /** `unsigned short` increment with wrap-around. */
  function NextU16(x: U16): U16
  {
    if x == 0xFFFF then 0 else x + 1
  }

  lemma NextU16Wraps(x: U16)
    ensures NextU16(x) == (x + 1) % 0x1_0000
  {
  }

  /** The bytes of an `unsigned short` in memory order on a little-endian host. */
  function LittleEndian16(x: U16): (r: seq<Byte>)
    ensures |r| == 2
    ensures r[0] as int + 0x100 * r[1] as int == x
  {
    [x % 0x100, x / 0x100]
  }

  /** Reassembles an `unsigned short` from its two bytes in memory order. */
  function U16Of(lo: Byte, hi: Byte): (r: U16)
    ensures r % 0x100 == lo && r / 0x100 == hi
  {
    lo as int + 0x100 * hi as int
  }

  /** An `unsigned short` stored into a `short` variable. */
  function ToI16(u: U16): (r: I16)
    ensures (r + 0x1_0000) % 0x1_0000 == u
  {
    if u >= 0x8000 then u - 0x1_0000 else u
  }

  /** Reassembles a `short`: the `unsigned short` read from the wire stored
      into a `short` variable. */
  function I16Of(lo: Byte, hi: Byte): (r: I16)
    ensures (r + 0x1_0000) % 0x1_0000 == U16Of(lo, hi)
    ensures r < 0 <==> hi >= 0x80
  {
    ToI16(U16Of(lo, hi))
  }

  lemma LittleEndian16RoundTrip(x: U16)
    ensures U16Of(LittleEndian16(x)[0], LittleEndian16(x)[1]) == x
  {
  }

  // ------------------------------------------------------------- C strings

  /** The bytes of a text whose characters all fit in a byte. */
  function Ascii(s: string): (r: seq<Byte>)
    requires forall k :: 0 <= k < |s| ==> s[k] as int < 0x100
    ensures |r| == |s|
  {
    seq(|s|, k requires 0 <= k < |s| => s[k] as int)
  }

  /** The text a sequence of bytes spells, one character per byte. */
  function Chars(b: seq<Byte>): (r: string)
    ensures |r| == |b|
  {
    seq(|b|, k requires 0 <= k < |b| => b[k] as char)
  }

  lemma AsciiChars(s: string)
    requires forall k :: 0 <= k < |s| ==> s[k] as int < 0x100
    ensures Chars(Ascii(s)) == s
  {
    var c := Chars(Ascii(s));
    forall k | 0 <= k < |s| ensures c[k] == s[k] {
      assert Ascii(s)[k] == s[k] as int;
    }
  }

  /** The array a C string literal occupies: its bytes and the closing NUL. */
  function Literal(s: string): (r: seq<Byte>)
    requires forall k :: 0 <= k < |s| ==> s[k] as int < 0x100
    ensures |r| == |s| + 1 && r[|s|] == 0
  {
    Ascii(s) + [0]
  }

  /** The bytes a C string function sees: everything before the first NUL,
      or the whole buffer when it holds none. */
  function CText(b: seq<Byte>): (r: seq<Byte>)
    ensures |r| <= |b| && r == b[..|r|] && 0 !in r
    ensures |r| < |b| ==> b[|r|] == 0
  {
    if b == [] || b[0] == 0 then [] else [b[0]] + CText(b[1..])
  }

  /** A NUL-free text followed by a NUL (or by nothing) reads back as that
      text. */
  lemma {:induction false} CTextOf(t: seq<Byte>, rest: seq<Byte>)
    requires 0 !in t
    requires rest == [] || rest[0] == 0
    ensures CText(t + rest) == t
  {
    if t != [] {
      assert (t + rest)[1..] == t[1..] + rest;
      CTextOf(t[1..], rest);
    }
  }

  /** Concatenation regroups freely; the logs of frames and steps are built
      by appending. */
  lemma AppendAssoc<T>(a: seq<T>, b: seq<T>, c: seq<T>)
    ensures a + (b + c) == (a + b) + c
  {
  }
}
