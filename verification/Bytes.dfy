/** The byte type shared by every module. */
module Bytes {
  type byte = x: int | 0 <= x < 256
}
