/** Machine words of the firmware and the option type shared by the other modules. */
module Words {
  const INT_MAX: int := 0x7FFF_FFFF
  const TWO_32: int := 0x1_0000_0000

  type Byte = x: int | 0 <= x < 0x100
  type Word16 = x: int | 0 <= x < 0x1_0000
  type Word32 = x: int | 0 <= x < 0x1_0000_0000

  datatype Option<+T> = None | Some(value: T)

  function Inc8(x: Byte): Byte { (x + 1) % 0x100 }

  function Inc32(x: Word32): Word32 { (x + 1) % TWO_32 }

  /** Unsigned 32-bit subtraction. */
  function Sub32(a: Word32, b: Word32): Word32 { (a - b) % TWO_32 }
}
