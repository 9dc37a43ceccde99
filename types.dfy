/** Values shared by the filters: bytes, optional values and digests. */
module Types {

  /** An unsigned 8-bit value (Rust's `u8`). */
  newtype byte = x: int | 0 <= x < 256

  /** Rust's `Option`: `None` or `Some(value)`. */
  datatype Option<+T> = None | Some(value: T)

  /** The 16-byte output of MD5 (RFC 1321), as returned by `md5::compute(..).0`. */
  type Md5Digest = s: seq<byte> | |s| == 16
    witness [0, 0, 0, 0, 0, 0, 0, 0, 0, 0, 0, 0, 0, 0, 0, 0]
}
