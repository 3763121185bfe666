/** Bytes, C integers and the other small vocabulary every module shares. */
module Bytes {
  type Byte = b: int | 0 <= b < 256

  const NUL: Byte := 0
  const LF: Byte := 10
  const CR: Byte := 13
  const IAC: Byte := 255

  type Str = seq<Byte>

  datatype Option<+T> = None | Some(value: T)

  /** A 32-bit C `int`. */
  type Int32 = v: int | -0x8000_0000 <= v < 0x8000_0000

  /** A 16-bit port number. */
  type Port = p: int | 0 <= p < 65536

  /** The four bytes of a C `int` as they lie in memory, least significant first. */
  function EncodeInt(v: Int32): (s: seq<Byte>)
    ensures |s| == 4
  {
    var u := if v < 0 then v + 0x1_0000_0000 else v;
    [u % 256, u / 256 % 256, u / 65536 % 256, u / 16777216 % 256]
  }

  function DecodeUnsigned(s: seq<Byte>): (u: nat)
    requires |s| == 4
    ensures u < 0x1_0000_0000
  {
    (s[0] as int) + 256 * (s[1] as int) + 65536 * (s[2] as int) + 16777216 * (s[3] as int)
  }

  function DecodeInt(s: seq<Byte>): Int32
    requires |s| == 4
  {
    var u := DecodeUnsigned(s);
    if u >= 0x8000_0000 then u - 0x1_0000_0000 else u
  }

  lemma BytesOf(u: nat)
    requires u < 0x1_0000_0000
    ensures u == u % 256 + 256 * (u / 256 % 256) + 65536 * (u / 65536 % 256) + 16777216 * (u / 16777216 % 256)
  {
    assert u / 65536 == u / 256 / 256;
    assert u / 16777216 == u / 256 / 256 / 256;
  }

  /** An int read back from its own bytes is the int that was written, signed or not. */
  lemma IntRoundTrip(v: Int32)
    ensures DecodeInt(EncodeInt(v)) == v
    ensures v >= 0 ==> DecodeUnsigned(EncodeInt(v)) == v
  {
    BytesOf(if v < 0 then v + 0x1_0000_0000 else v);
  }

  lemma Assoc(a: Str, b: Str, c: Str)
    ensures a + (b + c) == a + b + c
  {
  }
}
