/** The 32-bit integers of the processor. */
module Word32 {

  type Uint32 = n: nat | n < 0x1_0000_0000

  /** Two's complement reduction. */
  function Int32(x: int): (r: int)
    ensures -0x8000_0000 <= r < 0x8000_0000
  {
    (x + 0x8000_0000) % 0x1_0000_0000 - 0x8000_0000
  }
}
