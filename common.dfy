/** Small shared vocabulary: bytes as they come off the radio or the UART,
    and the usual Option / Result wrappers for paths that can fail. */
module Common {

  /** One octet of a radio payload or a serial line. */
  type Byte = x: int | 0 <= x < 256

  datatype Option<+T> = None | Some(value: T)

  datatype Result<+T, +E> = Ok(value: T) | Err(error: E)

  /** The unsigned 16-bit value of a little-endian byte pair. */
  function Word16(lo: Byte, hi: Byte): (v: int)
    ensures 0 <= v < 65536
  {
    lo as int + 256 * (hi as int)
  }

  /** Number of elements of `s` equal to `x`. */
  function Count<T(==)>(s: seq<T>, x: T): nat
  {
    if s == [] then 0 else (if s[0] == x then 1 else 0) + Count(s[1..], x)
  }
}
