/** The machine's integer widths. */
module Machine {
  const UINT32_LIMIT: nat := 0x1_0000_0000
  const UINT64_LIMIT: nat := 0x1_0000_0000_0000_0000

  type UInt32 = n: int | 0 <= n < UINT32_LIMIT
  type Int32 = n: int | -0x8000_0000 <= n < 0x8000_0000
}
