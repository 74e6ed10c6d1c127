module Bytes {
  type Byte = bv8
}
