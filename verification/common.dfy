/** Small definitions shared by the queue, memory and interpreter models: the
    firmware's unsigned 8- and 16-bit integers, the C truncations it relies
    on, an optional value, and the big-endian two-byte address that the
    multi-byte commands assemble. */
module Common {

  /** `uint8_t` */
  type Byte = x: int | 0 <= x < 0x100

  /** `uint16_t` */
  type U16 = x: int | 0 <= x < 0x1_0000

  datatype Option<T> = None | Some(value: T)

  /** `(uint8_t)x`: the low eight bits of an integer, as C's conversion to an
      unsigned 8-bit type keeps them (negative values included). */
  function Trunc8(x: int): Byte
  {
    x % 0x100
  }

  /** `(uint16_t)x`: the low sixteen bits of an integer. */
  function Trunc16(x: int): U16
  {
    x % 0x1_0000
  }

  /** `a + b` on two `uint16_t`s kept as a `uint16_t`: the sum wraps once
      past 0xFFFF. Written without `%`, it is `Trunc16(a + b)` (`Add16Wraps`). */
  function Add16(a: U16, b: U16): U16
  {
    if a + b < 0x1_0000 then a + b else a + b - 0x1_0000
  }

  lemma Add16Wraps(a: U16, b: U16)
    ensures Add16(a, b) == Trunc16(a + b)
  {
  }

  /** The byte a character literal stands for when the firmware compares a
      received byte with it or hands it to the output stream as `(uint8_t)c`. */
  function Ascii(c: char): Byte
  {
    Trunc8(c as int)
  }

  /** `((uint16_t)hi << 8) + (uint16_t)lo`: the address formed by the two
      argument bytes of `a`, `i`, `f` and `g`, high byte first. */
  function Word(hi: Byte, lo: Byte): U16
  {
    hi * 0x100 + lo
  }
}
