/** The fixed-width integers of the program, and the four-byte little-endian form of an `int`. */
module Bytes {

  type byte = x: int | 0 <= x < 0x100
  type int32 = x: int | -0x8000_0000 <= x < 0x8000_0000
  type uint64 = x: int | 0 <= x < 0x1_0000_0000_0000_0000

  /** Conversion of any integer to `int`: keep the low 32 bits and read them as two's complement. */
  function AsInt32(x: int): (r: int32)
    ensures (r - x) % 0x1_0000_0000 == 0
    ensures -0x8000_0000 <= x < 0x8000_0000 ==> r == x
  {
    var low := x % 0x1_0000_0000;
    if low < 0x8000_0000 then low else low - 0x1_0000_0000
  }

  /** Conversion of any integer to `uint64_t`. */
  function AsUint64(x: int): uint64 {
    x % 0x1_0000_0000_0000_0000
  }

  /** Little-endian digits of an unsigned 32-bit value. */
  function EncodeInt32(x: int32): (s: seq<byte>)
    ensures |s| == 4
  {
    var u0 := if x < 0 then x + 0x1_0000_0000 else x;
    var u1 := u0 / 0x100;
    var u2 := u1 / 0x100;
    [u0 % 0x100, u1 % 0x100, u2 % 0x100, u2 / 0x100]
  }

  function DecodeInt32(s: seq<byte>): int32
    requires |s| == 4
  {
    var u := s[0] as int + 0x100 * (s[1] as int + 0x100 * (s[2] as int + 0x100 * s[3] as int));
    if u < 0x8000_0000 then u else u - 0x1_0000_0000
  }

  lemma DigitsOf(x: int32)
    ensures var s := EncodeInt32(x);
      s[0] as int + 0x100 * s[1] as int + 0x1_0000 * s[2] as int + 0x100_0000 * s[3] as int == x % 0x1_0000_0000
  {
  }

  lemma DecodeEncodeInt32(x: int32)
    ensures DecodeInt32(EncodeInt32(x)) == x
  {
  }

  lemma LowDigit(digit: byte, rest: nat)
    ensures (digit as int + 0x100 * rest) % 0x100 == digit && (digit as int + 0x100 * rest) / 0x100 == rest
  {
  }

  lemma EncodeDecodeInt32(s: seq<byte>)
    requires |s| == 4
    ensures EncodeInt32(DecodeInt32(s)) == s
  {
    var u2: int := s[2] as int + 0x100 * s[3] as int;
    var u1: int := s[1] as int + 0x100 * u2;
    LowDigit(s[0], u1);
    LowDigit(s[1], u2);
    LowDigit(s[2], s[3]);
  }
}
