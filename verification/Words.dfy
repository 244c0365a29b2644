/** Machine words of a 32-bit little-endian host, as ranges of integers.
    A store that C truncates is written out with `%`. */
module Words {

  type byte = x: int | 0 <= x < 256
  type u8 = x: int | 0 <= x < 0x100
  type u16 = x: int | 0 <= x < 0x1_0000
  type u32 = x: int | 0 <= x < 0x1_0000_0000

  /** u32 addition with C's wrap-around. */
  function Add32(a: u32, b: u32): u32 {
    if a as int + b >= 0x1_0000_0000 then a as int + b - 0x1_0000_0000 else a + b
  }

  /** The cast (u16_t)u. */
  function Low16(u: u32): (r: u16)
    ensures u < 0x1_0000 ==> r == u
  {
    u % 0x1_0000
  }

  /** FOLD_U32T: the two halves of a u32, added. */
  function Fold(u: u32): u32 {
    u / 0x1_0000 + u % 0x1_0000
  }

  /** SWAP_BYTES_IN_WORD: swaps the two low bytes and drops everything above them. */
  function SwapBytes(w: u32): u16 {
    w % 0x100 * 0x100 + w / 0x100 % 0x100
  }

  /** PP_HTONS on a little-endian host. */
  function Htons(n: u16): u16 {
    SwapBytes(n)
  }

  /** The store `((u8_t *)&t)[0] = b` of a little-endian host. */
  function PutLow(t: u16, b: byte): u16 {
    t / 0x100 * 0x100 + b
  }

  /** The store `((u8_t *)&t)[1] = b` of a little-endian host. */
  function PutHigh(t: u16, b: byte): u16 {
    t % 0x100 + 0x100 * (b as int)
  }

  /** The u16 that a little-endian host loads from two adjacent bytes. */
  function Load16(a: byte, b: byte): u16 {
    a as int + 0x100 * b
  }

  /** The u32 that a little-endian host loads from four adjacent bytes. */
  function Load32(a: byte, b: byte, c: byte, d: byte): u32 {
    a + 0x100 * b + 0x1_0000 * c + 0x100_0000 * d
  }

  /** The two bytes that a little-endian host writes for a u16. */
  function Bytes16(w: u16): (bs: seq<byte>)
    ensures |bs| == 2 && Load16(bs[0], bs[1]) == w
  {
    [w % 0x100, w / 0x100]
  }

  /** The four bytes that a little-endian host writes for a u32. */
  function Bytes32(w: u32): (bs: seq<byte>)
    ensures |bs| == 4 && Load32(bs[0], bs[1], bs[2], bs[3]) == w
  {
    Bytes16(w % 0x1_0000) + Bytes16(w / 0x1_0000)
  }

  function Complement16(w: u16): u16 {
    0xFFFF - w
  }
}
