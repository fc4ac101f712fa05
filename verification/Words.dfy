/** The sizes of machine words. */
module Words {
  const U32: nat := 0x1_0000_0000
  const U62: nat := 0x4000_0000_0000_0000
  const U64: nat := 0x1_0000_0000_0000_0000
}
