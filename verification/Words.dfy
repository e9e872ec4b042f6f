/** The widths of the C sources' integers. */
module Words {

  type byte = b: nat | b < 256

  const TWO32: nat := 0x1_0000_0000
  const TWO64: nat := 0x1_0000_0000_0000_0000
}
