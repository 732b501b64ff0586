/** Shared vocabulary: bytes as the integers 0..255, 6-bit values, ASCII
    text as byte sequences, and the Option wrapper the decoder returns. */
module Bytes {

  /** An unsigned 8-bit value (`uint8_t`). The plain data and the cipher
      text are both sequences of these. */
  type uint8 = x: int | 0 <= x < 256

  /** A 6-bit value: what one Base64 symbol carries. */
  type sextet = x: int | 0 <= x < 64

  /** A value that may be missing: the decoder gives `None` for a cipher
      it rejects and `Some` of the bytes otherwise. */
  datatype Option<+T> = None | Some(value: T)

  /** True when every character of `s` fits in one byte. */
  predicate IsAscii(s: string) {
    forall i :: 0 <= i < |s| ==> s[i] as int < 256
  }

  /** The bytes of a one-byte-per-character string, as a C string literal
      lays them out in memory (without the terminating NUL). */
  function Ascii(s: string): (r: seq<uint8>)
    requires IsAscii(s)
    ensures |r| == |s|
  {
    seq(|s|, i requires 0 <= i < |s| => s[i] as int)
  }

  /** The bytes of a concatenation are the concatenated bytes. */
  lemma AsciiAppend(a: string, b: string)
    requires IsAscii(a) && IsAscii(b)
    ensures IsAscii(a + b) && Ascii(a + b) == Ascii(a) + Ascii(b)
  {
    assert forall i :: 0 <= i < |a + b| ==> (a + b)[i] == if i < |a| then a[i] else b[i - |a|];
  }
}
