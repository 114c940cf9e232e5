/** Machine words: what is left of a number that does not fit. */
module Words {
  const UINT32 := 0x1_0000_0000
  const SIZE := 0x1_0000_0000_0000_0000

  /** A std::size_t. */
  type Size = n: int | 0 <= n < 0x1_0000_0000_0000_0000

  /** static_cast<std::uint32_t>. */
  function Uint32(value: nat): nat {
    value % UINT32
  }
}
