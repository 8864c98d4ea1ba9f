/** Machine words: the integer widths the firmware uses, with their truncating conversions. */
module Words {

  type byte = x: int | 0 <= x < 0x100
  type uint16 = x: int | 0 <= x < 0x1_0000
  type uint32 = x: int | 0 <= x < 0x1_0000_0000
  type int16 = x: int | -0x8000 <= x < 0x8000
  type int32 = x: int | -0x8000_0000 <= x < 0x8000_0000

  const TWO_16 := 0x1_0000
  const TWO_32 := 0x1_0000_0000

  // The C casts: keep the low bits, reading the top one as a sign where the type is signed.
  function ToUint16(x: int): uint16 { x % TWO_16 }

  function ToUint32(x: int): uint32 { x % TWO_32 }

  function ToInt16(x: int): int16 {
    var low := x % TWO_16;
    if low < 0x8000 then low else low - TWO_16
  }

  function ToInt32(x: int): int32 {
    var low := x % TWO_32;
    if low < 0x8000_0000 then low else low - TWO_32
  }

  // int16_t and uint32_t arithmetic.
  function Add16(x: int, y: int): int16 { ToInt16(x + y) }

  function Sub16(x: int, y: int): int16 { ToInt16(x - y) }

  function Add32(x: int, y: int): uint32 { ToUint32(x + y) }

  function Sub32(x: int, y: int): uint32 { ToUint32(x - y) }

  // Little-endian words.
  function Word16(low: int, high: int): int { low + 0x100 * high }

  function Word32(b0: int, b1: int, b2: int, b3: int): int {
    b0 + 0x100 * b1 + 0x1_0000 * b2 + 0x100_0000 * b3
  }

  function Abs(x: int): nat { if x < 0 then -x else x }
}
