/** Small shared vocabulary: an optional value (a C pointer that may be NULL) and the octet type
    of socket buffers and decoded hex strings. */
module Wrappers {

  /** A value that may be absent; None stands for a NULL pointer in the C code. */
  datatype Option<+T> = None | Some(value: T)

  /** One octet, as held in a uint8_t buffer. */
  newtype byte = b: int | 0 <= b < 256
}
