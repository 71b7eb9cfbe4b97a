/** The protocol's integer types. */
module Cards {
  /** CARD16 */
  type Card16 = n: nat | n < 0x1_0000
  /** CARD32 */
  type Card32 = n: nat | n < 0x1_0000_0000
}
