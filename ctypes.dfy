/**
 * Fixed-width C integer types of an 8-bit AVR target and of the host, with the
 * conversions the firmware relies on written out explicitly (Dafny integers
 * are unbounded).
 */
module CTypes {

  type byte = x: int | 0 <= x < 0x100
  type uint16 = x: int | 0 <= x < 0x1_0000
  type uint32 = x: int | 0 <= x < 0x1_0000_0000
  type uint64 = x: int | 0 <= x < 0x1_0000_0000_0000_0000
  type int8 = x: int | -0x80 <= x < 0x80
  type int16 = x: int | -0x8000 <= x < 0x8000

  datatype Option<T> = None | Some(value: T)

  /** Conversion to `uint8_t`: reduction modulo 2^8. */
  function ToUint8(x: int): (r: byte)
    ensures (r - x) % 0x100 == 0
  {
    x % 0x100
  }

  /** Conversion to `uint16_t`: reduction modulo 2^16. */
  function ToUint16(x: int): (r: uint16)
    ensures (r - x) % 0x1_0000 == 0
  {
    x % 0x1_0000
  }

  /** Narrowing to `int8_t` as avr-gcc and gcc do it: two's complement wrap. */
  function ToInt8(x: int): (r: int8)
    ensures (r - x) % 0x100 == 0
    ensures -0x80 <= x < 0x80 ==> r == x
  {
    var m := x % 0x100;
    if m < 0x80 then m else m - 0x100
  }

  /** Reinterpretation of a 16-bit pattern as `int16_t` (two's complement). */
  function ToInt16(x: int): (r: int16)
    ensures (r - x) % 0x1_0000 == 0
    ensures -0x8000 <= x < 0x8000 ==> r == x
  {
    var m := x % 0x1_0000;
    if m < 0x8000 then m else m - 0x1_0000
  }

  /** A 32-bit counter increment (`++` on `uint32_t`), wrapping at 2^32. */
  function Inc32(x: uint32): (r: uint32)
    ensures x < 0xFFFF_FFFF ==> r == x + 1
    ensures x == 0xFFFF_FFFF ==> r == 0
  {
    (x + 1) % 0x1_0000_0000
  }

  /** A 32-bit counter after `n` increments. */
  function Add32(x: uint32, n: nat): (r: uint32)
    ensures x + n < 0x1_0000_0000 ==> r == x + n
  {
    (x + n) % 0x1_0000_0000
  }

  /** One more increment of a counter that has been incremented `n` times. */
  lemma Add32Inc(x: uint32, n: nat)
    ensures Inc32(Add32(x, n)) == Add32(x, n + 1)
    ensures Add32(x, 0) == x
  {
  }

  /** C's `/` on signed integers: the quotient is truncated toward zero. */
  function TruncDiv(a: int, b: int): (q: int)
    requires b > 0
    ensures a >= 0 ==> b * q <= a < b * q + b
    ensures a < 0 ==> b * q - b < a <= b * q
  {
    if a >= 0 then a / b else -((-a) / b)
  }
}
