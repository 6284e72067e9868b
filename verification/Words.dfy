/** The ranges of machine integers. */
module Words {
  const I64_MAX := 0x7FFF_FFFF_FFFF_FFFF
  const I64_MIN := -0x8000_0000_0000_0000
  const U64_MAX := 0xFFFF_FFFF_FFFF_FFFF
}
