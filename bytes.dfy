/** Fixed-width integers and small wrappers shared by the whole model. */
module Bytes {

  /** An unsigned 8-bit value (C++ `uint8_t`). */
  newtype uint8 = x: int | 0 <= x < 0x100

  /** An unsigned 16-bit value (C++ `uint16_t`). */
  newtype uint16 = x: int | 0 <= x < 0x1_0000

  /** A pointer that may be null. */
  datatype Option<+T> = None | Some(value: T)

  /** Truncating conversion to a signed 8-bit value (C++ `static_cast<int8_t>`):
      the value is taken modulo 256 and read as two's complement. */
  function ToInt8(x: nat): (r: int)
    ensures -128 <= r < 128
    ensures (r - x) % 0x100 == 0
    ensures x < 128 ==> r == x
  {
    var low := x % 0x100;
    if low < 0x80 then low else low - 0x100
  }
}
