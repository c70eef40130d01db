// Machine integers: bytes and 16-bit words.
module Bytes {
  type Byte = x: int | 0 <= x < 0x100
  type Word = x: int | 0 <= x < 0x1_0000

  function HiByte(w: Word): Byte { w / 0x100 }
  function LoByte(w: Word): Byte { w % 0x100 }
  function MakeWord(hi: Byte, lo: Byte): (w: Word)
    ensures HiByte(w) == hi && LoByte(w) == lo
  {
    hi * 0x100 + lo
  }
}
