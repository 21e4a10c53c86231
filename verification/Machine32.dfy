/** The 32-bit words of the processor. */
module Machine32 {
  const WRAP: nat := 0x1_0000_0000

  type u32 = x: int | 0 <= x < WRAP
}
