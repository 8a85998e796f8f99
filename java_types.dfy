/** The boxed Java integer types the request records carry. */
module JavaTypes {
  /** `java.lang.Integer`: a 32-bit two's-complement value. */
  newtype Int32 = x: int | -0x8000_0000 <= x < 0x8000_0000

  /** `java.lang.Long`: a 64-bit two's-complement value. */
  newtype Int64 = x: int | -0x8000_0000_0000_0000 <= x < 0x8000_0000_0000_0000
}
