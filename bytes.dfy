/** Raw bytes of a Matrix Market file and the few byte constants the loader uses. */
module Bytes {

  /** One octet of the file (Rust `u8`). */
  type Byte = b: int | 0 <= b < 256

  /** `b'\n'` */
  const Newline: Byte := 10
  /** `b' '` */
  const Space: Byte := 32

  /** The bytes of an ASCII byte-string literal such as `b"%%MatrixMarket"`. */
  function Ascii(s: string): seq<Byte>
  {
    seq(|s|, i requires 0 <= i < |s| => (s[i] as int) % 256)
  }

  /** Reads a byte slice as text, one character per byte. For ASCII bytes this is
      what `std::str::from_utf8` yields; every token that the loader goes on to
      parse as a number is ASCII. */
  function Chars(b: seq<Byte>): string
  {
    seq(|b|, i requires 0 <= i < |b| => b[i] as char)
  }
}
