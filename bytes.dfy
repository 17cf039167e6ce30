/** Fixed-width unsigned integers of the Go source, as bounded mathematical integers. */
module Bytes {

  /** Go's `byte` / `uint8`. */
  type byte = x: int | 0 <= x < 0x100

  /** Go's `uint32`. */
  type uint32 = x: int | 0 <= x < 0x1_0000_0000
}
