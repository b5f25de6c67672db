/** Fixed-width machine words as they appear in the 6502 core and in the monitor protocol.
    Dafny integers are unbounded, so every wrap-around of a C `uint8_t`, `uint16_t` or
    `uint32_t` is written out here. */
module Words {

  type Byte = b: int | 0 <= b < 0x100
  type Word16 = w: int | 0 <= w < 0x1_0000
  type Word32 = w: int | 0 <= w < 0x1_0000_0000

  /** Truncation to `uint8_t`. */
  function U8(x: int): Byte { x % 0x100 }

  /** Truncation to `uint16_t` (also what every 6502 address computation does). */
  function U16(x: int): Word16 { x % 0x1_0000 }

  /** Truncation to `uint32_t`. */
  function U32(x: int): Word32 { x % 0x1_0000_0000 }

  /** A byte read through a signed 8-bit type (`int8_t`, or `char` where it is signed). */
  function Signed8(b: Byte): (r: int)
    ensures -128 <= r < 128
    ensures U8(r) == b
  {
    if b < 0x80 then b else b - 0x100
  }

  /** Little-endian 16-bit word from its two bytes. */
  function LE16(lo: Byte, hi: Byte): (w: Word16)
    ensures U8(w) == lo && w / 0x100 == hi
  {
    lo + hi * 0x100
  }

  /** Splitting a word into its low and high byte undoes `LE16`. */
  lemma SplitJoin16(w: Word16)
    ensures LE16(U8(w), w / 0x100) == w
  {
  }

  /** Adding in two steps with truncation in between is adding once: `uint32_t` counters
      can be advanced one request at a time. */
  lemma U32Add(x: int, k: int)
    ensures U32(U32(x) + k) == U32(x + k)
  {
  }
}
