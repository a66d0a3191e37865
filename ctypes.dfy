/** The C integer types of the target, as bounded integers. */
module CTypes {

  /** `uint8_t`. */
  newtype u8 = x: int | 0 <= x < 0x100

  /** `uint32_t`; also a byte address or a code address on the 32-bit target. */
  newtype u32 = x: int | 0 <= x < 0x1_0000_0000
}
