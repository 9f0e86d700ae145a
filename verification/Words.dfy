/** Machine words of the kernel's C code, and an optional value. */
module Words {
  const TWO_32: int := 0x1_0000_0000
  const TWO_64: int := 0x1_0000_0000_0000_0000

  type byte = x: int | 0 <= x < 0x100
  type uint16 = x: int | 0 <= x < 0x1_0000
  type uint32 = x: int | 0 <= x < 0x1_0000_0000
  type uint64 = x: int | 0 <= x < 0x1_0000_0000_0000_0000

  datatype Option<+T> = None | Some(value: T)

  /** Unsigned 32-bit addition, which wraps. */
  function Add32(a: uint32, b: int): uint32 {
    (a + b) % 0x1_0000_0000
  }

  /** Unsigned 64-bit subtraction, which wraps. */
  function Sub64(a: uint64, b: uint64): uint64 {
    (a - b) % 0x1_0000_0000_0000_0000
  }

  function Min(a: int, b: int): int {
    if a <= b then a else b
  }
}
