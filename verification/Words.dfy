/** The 32-bit words of the machine. */
module Words {
  const U32: nat := 0x1_0000_0000

  type Word = w: nat | w < U32
}
