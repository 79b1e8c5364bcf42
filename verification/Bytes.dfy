/** Bytes, as the block store and the allocator move them. */
module Bytes {
  newtype Byte = x: int | 0 <= x < 256

  type Buffer = seq<Byte>

  /** The bytes seen at each address. */
  type Memory = map<nat, Buffer>
}
