/** Machine integer types of the C source. */
module CTypes {
  /** A C `int` on the platforms the library targets: 32-bit two's complement. */
  newtype int32 = x: int | -0x8000_0000 <= x < 0x8000_0000

  /** The `-1` that open(2) and socket(2) return on failure (`INVALID_SOCKET`). */
  const INVALID_SOCKET: int := -1
}
