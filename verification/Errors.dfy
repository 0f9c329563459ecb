/** The library's return codes. */
module Errors {
  /** Oversized is not a code of the library: it marks a block header whose size would not fit in 64 bits. */
  datatype Error =
    | OK
    | RangeTruncated
    | PartialResult
    | InvalidArg
    | NotFound
    | DimMismatch
    | Io
    | Unsupported
    | Closed
    | Capacity
    | Corruption
    | Oversized
}
