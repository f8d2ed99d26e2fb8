/** Machine types of the Java binding: the 32-bit `int` used for lengths,
    indices, flag masks and engine status codes, and the opaque byte. */
module JavaTypes {

  /** Java's signed 32-bit `int`. */
  newtype int32 = x: int | -0x8000_0000 <= x < 0x8000_0000

  /** The largest Java `int`, which is also the largest length of a Java array. */
  const MaxInt32: int := 0x7FFF_FFFF

  /** A byte of a serialized script or transaction; its contents are opaque here. */
  type byte = bv8
}
