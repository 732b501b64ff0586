# Base64 encoder and decoder (base64/encode.c, base64/decode.c)

A Dafny model of the two C routines of the library: `b64_encode` with its
symbol table `b64enmap` and pad character `B64PAD`, and `b64_decode` with
its 256-entry reverse table `b64demap`. The alphabet and the padding rules
are those of RFC 4648 (section 4, Table 1). A separate module states
Table 1 by character ranges. Both C tables are proved equal to it, entry
by entry.

Modules, one per file:

- `Bytes` (bytes.dfy): `uint8`, 6-bit values, `Option`, and ASCII strings
  as byte sequences.
- `Rfc4648` (rfc4648.dfy): the reference alphabet (`Table1Symbol`,
  `Table1Value`, `IsAlphabetSymbol`), the shape of a padded encoding
  (`WellFormed`, `PadCount`), and the canonical form of RFC 4648
  section 3.5 (`Canonical`).
- `Encoder` (encode.dfy): `b64enmap` as `EnMap`. `Encode` is the routine
  as a pure function, group by group. `B64Encode` follows the C loop and
  is proved to compute `Encode` plus the NUL terminator.
- `Decoder` (decode.dfy): `b64demap` as `DeMap`. Its entries are `Sym`
  values: `Val(v)` for a 6-bit value, `Pad` for the C code 0xFE and
  `Invalid` for 0xFF.
  - `DecodeQuad` decodes a group before the last (the `while (left > 4)`
    loop).
  - `DecodeFinal` decodes the last group.
  - `Decode` is the routine as a function returning `Option`.
  - `DecodeRet` is the `size_t` it returns.
  - `B64Decode` follows the C control flow and is proved to agree with
    them.
- `Base64Laws` (laws.dfy): what the encoder and decoder promise together.
  - The tables are inverse.
  - Each group carries the bits of its bytes.
  - Decoding an encoding gives the bytes back.
  - Re-encoding a decoding gives the canonical form of the cipher.
  - The decoder's accept/reject rules, stated with the table entries as
    the C code tests them.
- `Vectors` (vectors.dfy): the valid and invalid cases of test/main.c.
  The seven valid cases are the test vectors of RFC 4648 section 10; the
  four invalid cases are the library's own.

The C code shifts in `int` and stores the result in a `uint8_t`. The model
reduces the result modulo 256 (`HighByte`, `MidByte`, `LowByte`).

The C code stores `0xFE` and `0xFF` in the same byte array as the 6-bit
values. It then tests them with `> 0xFD`, `== 0xFF`, `== 0xFE` and
`< 0xFD`. Data values never exceed 63, so these tests are exactly the
tests for the `Sym` constructors.

A pad symbol anywhere in a group before the last makes the decode
fail, not only in its first two positions (base64/decode.c:85). The empty
cipher is rejected, like any length that is not a multiple of four.

## Model

| member | source | states |
|---|---|---|
| Encoder.EnMapIsTable1 | base64/encode.c:32 | `b64enmap[v]` is the RFC 4648 Table 1 symbol of `v`; every entry is an alphabet symbol and not `=`; no symbol appears at two values |
| Encoder.Symbol | base64/encode.c:50-53 | a read of `b64enmap` at a 6-bit value gives the alphabet symbol whose Table 1 value is that value, never `=` |
| Encoder.EncodeTriple | base64/encode.c:46-53 | a full group is four symbols, all from the alphabet, none of them `=` |
| Encoder.EncodeTailOne | base64/encode.c:59-68 | a one-byte tail is two alphabet symbols followed by `==` |
| Encoder.EncodeTailTwo | base64/encode.c:59-68 | a two-byte tail is three alphabet symbols followed by `=` |
| Encoder.PadLength | base64/encode.c:59-68 | the number of `=` written is at most two and brings the input length to a multiple of three |
| Encoder.Encode | base64/encode.c:34-74 | the encoding of `n` bytes has `4 * ceil(n / 3)` symbols (none for empty input); each is an alphabet symbol or `=`; `=` occurs exactly in the last `PadLength(n)` positions |
| Encoder.ReadEnMap | base64/encode.c:50-53 | one table read yields the Table 1 symbol of the index |
| Encoder.EncodeGroupStep | base64/encode.c:47-53 | packing three bytes into 24 bits and reading the table at the four 6-bit slices gives the group `EncodeTriple` |
| Encoder.EncodeTailStep | base64/encode.c:59-70 | the C code for one or two leftover bytes writes exactly the encoding of those bytes |
| Encoder.B64Encode | base64/encode.c:34-74 | the buffer holds the encoding followed by NUL; the returned count is the length of the encoding (0 and just NUL for empty input) |
| Decoder.DeMapIsTable1 | base64/decode.c:32-65 | each of the 256 transcribed entries of `b64demap` is the RFC 4648 Table 1 classification of its byte |
| Decoder.DeMap | base64/decode.c:81-84 | a read `b64demap[c]` gives the Table 1 value exactly for the 64 alphabet symbols, the pad marker exactly for `=`, and the invalid marker for every other byte |
| Decoder.HighByte | base64/decode.c:89 | the first byte of a group (also line 106) is the six bits of the first value followed by the top two bits of the second; storing it into a byte loses nothing |
| Decoder.MidByte | base64/decode.c:90 | the second byte (also lines 111 and 114) is the low four bits of the second value followed by the top four bits of the third; the store drops the second value's top two bits |
| Decoder.LowByte | base64/decode.c:91 | the third byte (also line 115) is the low two bits of the third value followed by the fourth value; the store drops the third value's top four bits |
| Decoder.DecodeQuad | base64/decode.c:80-95 | a group before the last decodes exactly when its four symbols are alphabet symbols, and then to three bytes |
| Decoder.DecodeFinal | base64/decode.c:97-119 | the last group decodes exactly when it is `xx==`, `xxx=` or `xxxx` with alphabet symbols `x`; it then gives 1, 2 or 3 bytes; `xx=x`, an invalid symbol and a pad in the first two positions fail |
| Decoder.DecodeGroups | base64/decode.c:80-119 | on success every group yields three bytes except the last, which yields one to three: `3 * len - 8 <= 4 * out <= 3 * len` (exactly when it succeeds is `GroupsAccept`) |
| Decoder.DecodeMiddle | base64/decode.c:80-95 | a group before the last is passed only when its four symbols are alphabet symbols, and the decode from there keeps the same length bounds |
| Decoder.GroupsAccept | base64/decode.c:80-122 | the groups decode exactly when the cipher is a well-formed padded encoding, and then to three bytes per group less one per pad |
| Decoder.Decode | base64/decode.c:69-123 | the decode succeeds exactly on the well-formed padded encodings and yields `3 * (len / 4) - pads` bytes, never zero |
| Decoder.DecodeRet | base64/decode.c:72-76 | the return value is 0 exactly when the cipher is not well formed, in particular for length 0 and every length not a multiple of four; it never exceeds `3 * (len / 4)` |
| Decoder.ReadDeMap | base64/decode.c:81-84 | one table read yields the Table 1 classification of the byte |
| Decoder.DecodeQuadStep | base64/decode.c:81-91 | the C loop body fails exactly when `DecodeQuad` fails and otherwise writes its three bytes |
| Decoder.DecodeFinalStep | base64/decode.c:97-119 | the C code for the last four symbols fails exactly when `DecodeFinal` fails and otherwise writes its bytes |
| Decoder.DecodeLeadingGroups | base64/decode.c:80-95 | after the loop, the bytes written followed by the last group's decoding are the decoding of the whole cipher; if the loop stops early, the cipher does not decode |
| Decoder.B64Decode | base64/decode.c:69-123 | the return value is `DecodeRet`; on success the buffer is the decoded bytes followed by NUL; on a rejected length it is just NUL |
| Base64Laws.TablesInverse | base64/decode.c:32-65 | `b64demap` undoes `b64enmap`, maps `=` to the pad marker, and gives a value only to bytes that `b64enmap` holds at that value |
| Base64Laws.EncodeTripleSextets | base64/encode.c:47-53 | the four symbols of a full group carry the 6-bit slices of the bytes packed big-endian, most significant first |
| Base64Laws.EncodeTailOneSextets | base64/encode.c:60-63 | a one-byte tail carries the 8 bits in two symbols, then four zero bits, then `==` |
| Base64Laws.EncodeTailTwoSextets | base64/encode.c:64-68 | a two-byte tail carries the 16 bits in three symbols, then two zero bits, then `=` |
| Base64Laws.HighByteSlices | base64/decode.c:89 | cutting the first decoded byte as the encoder cuts gives back the first value and the top two bits of the second |
| Base64Laws.MidByteSlices | base64/decode.c:90 | cutting the second decoded byte as the encoder cuts gives back the low four bits of the second value and the top four of the third |
| Base64Laws.LowByteSlices | base64/decode.c:91 | cutting the third decoded byte as the encoder cuts gives back the low two bits of the third value and the fourth value |
| Base64Laws.TripleRoundTrip | base64/decode.c:89-91 | a full group decodes back to its three bytes, both as a middle group and as the last |
| Base64Laws.TailOneRoundTrip | base64/decode.c:106-108 | a one-byte tail decodes back to its byte |
| Base64Laws.TailTwoRoundTrip | base64/decode.c:109-111 | a two-byte tail decodes back to its two bytes |
| Base64Laws.EncodeAppend | base64/encode.c:46-57 | input cut after whole three-byte groups encodes to the concatenation of the two parts' encodings |
| Base64Laws.GroupsRoundTrip | base64/decode.c:80-122 | the groups of a non-empty encoding decode back to the input bytes |
| Base64Laws.RoundTrip | test/main.c:37-40 | decoding the encoding of non-empty bytes gives them back; the decoder returns the input length for every input, 0 for the empty one |
| Base64Laws.QuadReencodes | base64/decode.c:80-91 | a group of four data symbols re-encodes to itself |
| Base64Laws.FinalOneReencodes | base64/decode.c:106-108 | `xx==` re-encodes with the four filler bits of its second symbol cleared |
| Base64Laws.FinalTwoReencodes | base64/decode.c:109-111 | `xxx=` re-encodes with the two filler bits of its third symbol cleared |
| Base64Laws.FinalThreeReencodes | base64/decode.c:112-115 | a last group of four data symbols re-encodes to itself |
| Base64Laws.GroupsReencode | base64/decode.c:80-122 | a well-formed cipher decodes, and its bytes re-encode to its canonical form |
| Base64Laws.Reencode | base64/decode.c:106-115 | encoding what the decoder accepted gives the canonical form of the cipher: only the filler bits of the last data symbol are lost |
| Base64Laws.EncodeIsCanonical | base64/encode.c:59-70 | the encoder only writes well-formed ciphers that are their own canonical form |
| Base64Laws.NonFinalSymbolRejects | base64/decode.c:85-88 | a pad or invalid table entry anywhere before the last group makes the decode fail with return value 0 |
| Base64Laws.FinalGroupByTable | base64/decode.c:102-119 | with only data before it, the last group's table entries decide: success exactly for `xx==`, `xxx=`, `xxxx`, with return value `3 * (groups - 1)` plus 1, 2 or 3 |
| Base64Laws.NonCanonicalAccepted | base64/decode.c:106-108 | `Zh==` and `Zg==` differ but both decode to `f`; re-encoding gives `Zg==`, so `encode(decode(s)) == s` fails for some accepted `s` |
| Vectors.VectorEmpty | test/main.c:53 | the empty input encodes to the empty cipher, and the decoder returns 0 for it |
| Vectors.VectorF | test/main.c:54 | `f` encodes to `Zg==`, which decodes back |
| Vectors.VectorFo | test/main.c:55 | `fo` encodes to `Zm8=`, which decodes back |
| Vectors.VectorFoo | test/main.c:56 | `foo` encodes to `Zm9v`, which decodes back |
| Vectors.VectorFoob | test/main.c:57 | `foob` encodes to `Zm9vYg==`, which decodes back |
| Vectors.VectorFooba | test/main.c:58 | `fooba` encodes to `Zm9vYmE=`, which decodes back |
| Vectors.VectorFoobar | test/main.c:59 | `foobar` encodes to `Zm9vYmFy`, which decodes back |
| Vectors.InvalidSymbol | test/main.c:61 | `Zm9v>mFy` is rejected with return value 0 |
| Vectors.PadInFirstGroup | test/main.c:62 | `Z=9vYmFy` is rejected with return value 0 |
| Vectors.PadBeforeData | test/main.c:63 | `Zm9vY=Fy` is rejected with return value 0 |
| Vectors.PadThenData | base64/decode.c:116-118 | `Zm9vYm=y`, whose last group is `xx=x`, is rejected with return value 0 |
| Vectors.ShortLength | test/main.c:64 | `Zm9vY` is rejected with return value 0 |

## Left out

- Pointers and buffer capacity: the C routines write through a
  caller-supplied pointer whose size they never check. The model returns
  the buffer contents as a sequence, so there is no capacity to exceed.
- Decoder.B64Decode: the bytes already written when a later group fails
  are not stated. The C code leaves them in the buffer without a NUL, and
  callers must not use them.
- Base64Laws.RoundTrip: the `Option` round trip is stated for non-empty
  input only. The decoder rejects the empty cipher, so for empty input the
  round trip holds only in the return-value view (0 = 0). The C return
  value cannot tell an empty success from a failure either.
- Integer widths: lengths are unbounded naturals instead of `size_t`.
  The encoder's `uint32_t` accumulator never exceeds 24 bits, so it is
  modelled as an integer without wrap-around.
- The reverse table's 0xFE/0xFF markers are the `Pad` and `Invalid`
  constructors, not byte values. The comparisons the C code makes on them
  are the corresponding constructor tests.
- base64.h is not part of this model. It only declares the two routines.
- The test driver in test/main.c (`main` and its `printf`) is left out.
  Its assertions are the lemmas of the `Vectors` module.
