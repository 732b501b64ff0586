/** Properties that relate the encoder and the decoder: the two tables are
    inverse, each group's symbols carry the bits of its bytes, decoding an
    encoding gives the bytes back, and encoding a decoding gives the
    canonical form of the cipher. */
module Base64Laws {
  import opened Bytes
  import opened Rfc4648
  import opened Encoder
  import opened Decoder

  /** `b64demap` undoes `b64enmap` on its 64 symbols, maps `=` to the pad
      marker, and maps a byte to a value only when `b64enmap` holds that
      byte at that value. */
  lemma TablesInverse(v: sextet, c: uint8)
    ensures DeMap(EnMap[v]) == Val(v)
    ensures DeMap(B64Pad) == Pad
    ensures DeMap(c).Val? ==> EnMap[DeMap(c).v] == c
    ensures DeMap(c).Val? <==> c in EnMap
    ensures DeMap(c).Pad? <==> c == B64Pad
  {
    EnMapIsTable1(v);
    Table1Bijective(c, v);
    if DeMap(c).Val? {
      EnMapIsTable1(DeMap(c).v);
      Table1Bijective(c, DeMap(c).v);
    }
    if c in EnMap {
      var k :| 0 <= k < |EnMap| && EnMap[k] == c;
      EnMapIsTable1(k);
      Table1Bijective(c, k);
    }
  }

  /** The value the decode table gives a symbol the encoder wrote. */
  lemma SymbolValue(v: sextet)
    ensures Classify(Symbol(v)) == Val(v)
  {
    Table1Bijective(PadSymbol, v);
  }

  /** A 24-bit value is the sum of its four 6-bit slices. */
  lemma SlicesRecombine(b: int)
    requires 0 <= b < 0x1000000
    ensures b / 0x40000 * 0x40000 + (b / 0x1000) % 0x40 * 0x1000 + (b / 0x40) % 0x40 * 0x40 + b % 0x40 == b
  {
    var q1 := b / 0x40;
    var q2 := q1 / 0x40;
    assert b / 0x1000 == q2;
    assert b / 0x40000 == q2 / 0x40;
  }

  /** A full group encodes the four 6-bit slices of the 24-bit big-endian
      packing of its three bytes, most significant first: read back
      through the decode table, the symbols recombine to that packing. */
  lemma EncodeTripleSextets(b0: uint8, b1: uint8, b2: uint8)
    ensures var r := EncodeTriple(b0, b1, b2);
      Classify(r[0]).Val? && Classify(r[1]).Val? && Classify(r[2]).Val? && Classify(r[3]).Val?
      && Classify(r[0]).v * 0x40000 + Classify(r[1]).v * 0x1000 + Classify(r[2]).v * 0x40 + Classify(r[3]).v
         == b0 * 0x10000 + b1 * 0x100 + b2
  {
    var b := b0 as int * 0x10000 + b1 as int * 0x100 + b2 as int;
    var v0: sextet, v1: sextet, v2: sextet, v3: sextet := b / 0x40000, (b / 0x1000) % 0x40, (b / 0x40) % 0x40, b % 0x40;
    SlicesRecombine(b);
    assert EncodeTriple(b0, b1, b2) == [Symbol(v0), Symbol(v1), Symbol(v2), Symbol(v3)];
    SymbolsValues(v0, v1, v2, v3);
  }

  /** Four symbols read back through the decode table give their values. */
  lemma SymbolsValues(v0: sextet, v1: sextet, v2: sextet, v3: sextet)
    ensures var r := [Symbol(v0), Symbol(v1), Symbol(v2), Symbol(v3)];
      Classify(r[0]) == Val(v0) && Classify(r[1]) == Val(v1) && Classify(r[2]) == Val(v2) && Classify(r[3]) == Val(v3)
  {
    SymbolValue(v0);
    SymbolValue(v1);
    SymbolValue(v2);
    SymbolValue(v3);
  }

  /** A one-byte tail: two symbols whose values hold the byte's 8 bits
      followed by four zero bits, then `==`. */
  lemma EncodeTailOneSextets(b0: uint8)
    ensures var r := EncodeTailOne(b0);
      r[2] == B64Pad && r[3] == B64Pad
      && Classify(r[0]).Val? && Classify(r[1]).Val?
      && Classify(r[0]).v * 4 + Classify(r[1]).v / 16 == b0
      && Classify(r[1]).v % 16 == 0
  {
    SymbolValue(b0 / 4);
    SymbolValue((b0 % 4) * 16);
  }

  /** A two-byte tail: three symbols whose values hold the 16 bits
      followed by two zero bits, then `=`. */
  lemma EncodeTailTwoSextets(b0: uint8, b1: uint8)
    ensures var r := EncodeTailTwo(b0, b1);
      r[3] == B64Pad
      && Classify(r[0]).Val? && Classify(r[1]).Val? && Classify(r[2]).Val?
      && Classify(r[0]).v * 0x400 + Classify(r[1]).v * 0x10 + Classify(r[2]).v / 4 == b0 * 0x100 + b1
      && Classify(r[2]).v % 4 == 0
  {
    SymbolValue(b0 / 4);
    SymbolValue((b0 % 4) * 16 + b1 / 16);
    SymbolValue((b1 % 16) * 4);
  }

  /** The slices of a packed group, written with the bytes: the top six
      bits of the first byte, its low two bits with the top four of the
      second, the second's low four with the top two of the third, and the
      third's low six. */
  lemma PackedSlices(b0: uint8, b1: uint8, b2: uint8)
    ensures var b := b0 as int * 0x10000 + b1 as int * 0x100 + b2 as int;
      b / 0x40000 == b0 / 4
      && (b / 0x1000) % 0x40 == (b0 % 4) * 16 + b1 / 16
      && (b / 0x40) % 0x40 == (b1 % 16) * 4 + b2 / 64
      && b % 0x40 == b2 % 64
  {
    var b := b0 as int * 0x10000 + b1 as int * 0x100 + b2 as int;
    PackedTop(b0, b1, b2);
    var q1 := b0 as int * 0x10 + b1 / 16;
    PackedShift(b, 0x1000, q1, (b1 % 16) * 0x100 + b2);
    PackedLow(q1, (b0 % 4) * 16 + b1 / 16, b0 / 4);
    var q2 := b0 as int * 0x400 + b1 as int * 4 + b2 / 64;
    PackedShift(b, 0x40, q2, b2 % 64);
    PackedLow(q2, (b1 % 16) * 4 + b2 / 64, b0 as int * 0x10 + b1 / 16);
  }

  lemma PackedTop(b0: uint8, b1: uint8, b2: uint8)
    ensures (b0 as int * 0x10000 + b1 as int * 0x100 + b2 as int) / 0x40000 == b0 / 4
  {
    var r := (b0 % 4) * 0x10000 + b1 as int * 0x100 + b2 as int;
    assert b0 as int * 0x10000 + b1 as int * 0x100 + b2 as int == (b0 / 4) * 0x40000 + r;
  }

  /** Division of `b = q * d + r` with `0 <= r < d` by a power of two. */
  lemma PackedShift(b: int, d: int, q: int, r: int)
    requires d == 0x1000 || d == 0x40
    requires 0 <= r < d && b == q * d + r
    ensures b / d == q && b % d == r
  {
    if d == 0x1000 {
      assert b == q * 0x1000 + r;
    } else {
      assert b == q * 0x40 + r;
    }
  }

  /** The low six bits of `q = hi * 64 + lo`. */
  lemma PackedLow(q: int, lo: int, hi: int)
    requires 0 <= lo < 0x40 && q == hi * 0x40 + lo
    ensures q % 0x40 == lo
  {
  }

  // Putting the slices of three bytes back together as the decoder does
  // gives the three bytes, one lemma per output byte.

  lemma HighByteOfSlices(b0: uint8, b1: uint8)
    ensures HighByte(b0 / 4, (b0 % 4) * 16 + b1 / 16) == b0
  {
    var x: int := (b0 % 4) * 16 + b1 / 16;
    assert x / 16 == b0 % 4;
  }

  lemma MidByteOfSlices(b0: uint8, b1: uint8, b2: uint8)
    ensures MidByte((b0 % 4) * 16 + b1 / 16, (b1 % 16) * 4 + b2 / 64) == b1
  {
    var x: int := (b0 % 4) * 16 + b1 / 16;
    var y: int := (b1 % 16) * 4 + b2 / 64;
    assert x % 16 == b1 / 16;
    assert y / 4 == b1 % 16;
  }

  lemma LowByteOfSlices(b1: uint8, b2: uint8)
    ensures LowByte((b1 % 16) * 4 + b2 / 64, b2 % 64) == b2
  {
    var y: int := (b1 % 16) * 4 + b2 / 64;
    assert y % 4 == b2 / 64;
  }

  /** A full group decodes back to its three bytes, whether it is a middle
      group or the last one. */
  lemma TripleRoundTrip(b0: uint8, b1: uint8, b2: uint8)
    ensures var r := EncodeTriple(b0, b1, b2);
      DecodeQuad(r[0], r[1], r[2], r[3]) == Some([b0, b1, b2])
      && DecodeFinal(r[0], r[1], r[2], r[3]) == Some([b0, b1, b2])
  {
    PackedSlices(b0, b1, b2);
    HighByteOfSlices(b0, b1);
    MidByteOfSlices(b0, b1, b2);
    LowByteOfSlices(b1, b2);
    var v0, v1, v2, v3 := b0 / 4, (b0 % 4) * 16 + b1 / 16, (b1 % 16) * 4 + b2 / 64, b2 % 64;
    SymbolValue(v0);
    SymbolValue(v1);
    SymbolValue(v2);
    SymbolValue(v3);
    assert EncodeTriple(b0, b1, b2) == [Symbol(v0), Symbol(v1), Symbol(v2), Symbol(v3)];
  }

  /** A one-byte tail decodes back to its byte. */
  lemma TailOneRoundTrip(b0: uint8)
    ensures var r := EncodeTailOne(b0);
      DecodeFinal(r[0], r[1], r[2], r[3]) == Some([b0])
  {
    HighByteOfSlices(b0, 0);
    SymbolValue(b0 / 4);
    SymbolValue((b0 % 4) * 16);
    Table1Bijective(PadSymbol, 0);
  }

  /** A two-byte tail decodes back to its two bytes. */
  lemma TailTwoRoundTrip(b0: uint8, b1: uint8)
    ensures var r := EncodeTailTwo(b0, b1);
      DecodeFinal(r[0], r[1], r[2], r[3]) == Some([b0, b1])
  {
    HighByteOfSlices(b0, b1);
    MidByteOfSlices(b0, b1, 0);
    SymbolValue(b0 / 4);
    SymbolValue((b0 % 4) * 16 + b1 / 16);
    SymbolValue((b1 % 16) * 4);
    Table1Bijective(PadSymbol, 0);
  }

  /** Decoding a group that is not the last, followed by more groups. */
  lemma GroupsCons(head: seq<uint8>, rest: seq<uint8>, bytes: seq<uint8>)
    requires |head| == 4 && |rest| >= 4 && |rest| % 4 == 0
    requires DecodeQuad(head[0], head[1], head[2], head[3]) == Some(bytes)
    ensures DecodeGroups(head + rest) == AfterPrefix(bytes, DecodeGroups(rest))
  {
    var s := head + rest;
    assert s[4..] == rest;
    assert s[0] == head[0] && s[1] == head[1] && s[2] == head[2] && s[3] == head[3];
    assert DecodeGroups(s) == DecodeMiddle(s);
  }

  /** A sequence of one, two or three elements is the display of them. */
  lemma ShortDisplay(plain: seq<uint8>)
    requires 1 <= |plain| <= 3
    ensures |plain| == 1 ==> plain == [plain[0]]
    ensures |plain| == 2 ==> plain == [plain[0], plain[1]]
    ensures |plain| == 3 ==> plain == [plain[0], plain[1], plain[2]]
  {
  }

  /** The step of the induction below, one group at a time. */
  lemma EncodeAppendStep(a: seq<uint8>, b: seq<uint8>)
    requires |a| >= 3 && Encode(a[3..] + b) == Encode(a[3..]) + Encode(b)
    ensures Encode(a + b) == Encode(a) + Encode(b)
  {
    var ab := a + b;
    EncodeCons(ab);
    EncodeCons(a);
    DropAppend(a, b, 3);
    var t := EncodeTriple(a[0], a[1], a[2]);
    AppendAssoc(t, Encode(a[3..]), Encode(b));
  }

  /** Dropping a prefix of the first part of a concatenation. */
  lemma DropAppend(a: seq<uint8>, b: seq<uint8>, k: nat)
    requires k <= |a|
    ensures (a + b)[k..] == a[k..] + b
    ensures forall i :: 0 <= i < k ==> (a + b)[i] == a[i]
  {
  }

  lemma AppendAssoc(a: seq<uint8>, b: seq<uint8>, c: seq<uint8>)
    ensures a + (b + c) == (a + b) + c
  {
  }

  /** Encoding works group by group: input cut after a whole number of
      three-byte groups encodes to the concatenation of the encodings of
      the two parts. */
  lemma {:induction false} EncodeAppend(a: seq<uint8>, b: seq<uint8>)
    requires |a| % 3 == 0
    ensures Encode(a + b) == Encode(a) + Encode(b)
    decreases |a|
  {
    if a == [] {
      assert a + b == b;
    } else {
      EncodeAppend(a[3..], b);
      EncodeAppendStep(a, b);
    }
  }

  /** An encoding of one to three bytes is one group that decodes back to
      them. */
  lemma ShortRoundTrip(plain: seq<uint8>)
    requires 1 <= |plain| <= 3
    ensures |Encode(plain)| == 4 && DecodeGroups(Encode(plain)) == Some(plain)
  {
    EncodeShort(plain);
    ShortDisplay(plain);
    if |plain| == 3 {
      TripleRoundTrip(plain[0], plain[1], plain[2]);
    } else if |plain| == 2 {
      TailTwoRoundTrip(plain[0], plain[1]);
    } else {
      TailOneRoundTrip(plain[0]);
    }
  }

  /** One step of the induction below: a full group in front of an
      encoding that decodes back. */
  lemma RoundTripStep(plain: seq<uint8>)
    requires |plain| > 3 && |Encode(plain[3..])| >= 4 && |Encode(plain[3..])| % 4 == 0
    requires DecodeGroups(Encode(plain[3..])) == Some(plain[3..])
    ensures |Encode(plain)| >= 4 && |Encode(plain)| % 4 == 0
    ensures DecodeGroups(Encode(plain)) == Some(plain)
  {
    var head := EncodeTriple(plain[0], plain[1], plain[2]);
    TripleRoundTrip(plain[0], plain[1], plain[2]);
    EncodeCons(plain);
    GroupsCons(head, Encode(plain[3..]), [plain[0], plain[1], plain[2]]);
    SplitThree(plain);
    GroupMore(|Encode(plain)|, |Encode(plain[3..])|);
  }

  /** One more group keeps a length a multiple of four. */
  lemma GroupMore(n: nat, m: nat)
    requires n == 4 + m && m % 4 == 0
    ensures n >= 4 && n % 4 == 0
  {
  }

  /** A sequence of three or more is its first three elements followed by
      the rest. */
  lemma SplitThree(plain: seq<uint8>)
    requires |plain| >= 3
    ensures [plain[0], plain[1], plain[2]] + plain[3..] == plain
  {
  }

  /** Decoding the groups of a non-empty encoding gives the plain bytes
      back, one group at a time. */
  lemma {:induction false} GroupsRoundTrip(plain: seq<uint8>)
    requires |plain| > 0
    ensures |Encode(plain)| >= 4 && |Encode(plain)| % 4 == 0
    ensures DecodeGroups(Encode(plain)) == Some(plain)
    decreases |plain|
  {
    if |plain| > 3 {
      GroupsRoundTrip(plain[3..]);
      RoundTripStep(plain);
    } else {
      ShortRoundTrip(plain);
    }
  }

  /** The round trip: decoding what the encoder wrote gives the original
      bytes. For the empty input the encoding is empty, which the decoder
      rejects; the C return value is 0 then, equal to the input length, so
      in the C view the round trip holds for every input. */
  lemma RoundTrip(plain: seq<uint8>)
    ensures plain != [] ==> Decode(Encode(plain)) == Some(plain)
    ensures plain == [] ==> Encode(plain) == [] && Decode(Encode(plain)) == None
    ensures DecodeRet(Encode(plain)) == |plain|
  {
    if plain != [] {
      GroupsRoundTrip(plain);
    }
  }

  // The other direction: re-encoding what the decoder produced.

  /** The bytes the decoder builds from four values, cut back into 6-bit
      slices as the encoder does, give the four values again. */
  lemma HighByteSlices(v0: sextet, v1: sextet)
    ensures HighByte(v0, v1) / 4 == v0 && HighByte(v0, v1) % 4 == v1 / 16
  {
    assert v0 * 4 + v1 / 16 < 256;
  }

  lemma MidByteSlices(v1: sextet, v2: sextet)
    ensures MidByte(v1, v2) / 16 == v1 % 16 && MidByte(v1, v2) % 16 == v2 / 4
  {
    var hi, lo := v1 / 16, v1 % 16;
    var low := lo * 16 + v2 / 4;
    assert 0 <= low < 256;
    assert v1 * 16 + v2 / 4 == hi * 256 + low;
    assert MidByte(v1, v2) == low;
  }

  lemma LowByteSlices(v2: sextet, v3: sextet)
    ensures LowByte(v2, v3) / 64 == v2 % 4 && LowByte(v2, v3) % 64 == v3
  {
    var low := (v2 % 4) * 64 + v3;
    assert 0 <= low < 256;
    assert v2 * 64 + v3 == (v2 / 4) * 256 + low;
    assert LowByte(v2, v3) == low;
  }

  /** The symbol of the value a data symbol stands for is that symbol. */
  lemma SymbolOfValue(c: uint8)
    requires IsAlphabetSymbol(c)
    ensures Symbol(Table1Value(c)) == c
  {
    Table1Bijective(c, 0);
  }

  /** A full group's symbols, written with the slices of its bytes. */
  lemma EncodeTripleBySlices(b0: uint8, b1: uint8, b2: uint8)
    ensures EncodeTriple(b0, b1, b2)
      == [Symbol(b0 / 4), Symbol((b0 % 4) * 16 + b1 / 16), Symbol((b1 % 16) * 4 + b2 / 64), Symbol(b2 % 64)]
  {
    PackedSlices(b0, b1, b2);
  }

  /** The three bytes built from four values encode to the symbols of
      those values. */
  lemma EncodeDecodedTriple(v0: sextet, v1: sextet, v2: sextet, v3: sextet)
    ensures EncodeTriple(HighByte(v0, v1), MidByte(v1, v2), LowByte(v2, v3))
      == [Symbol(v0), Symbol(v1), Symbol(v2), Symbol(v3)]
  {
    var t0, t1, t2 := HighByte(v0, v1), MidByte(v1, v2), LowByte(v2, v3);
    HighByteSlices(v0, v1);
    MidByteSlices(v1, v2);
    LowByteSlices(v2, v3);
    EncodeTripleBySlices(t0, t1, t2);
    assert (t0 % 4) * 16 + t1 / 16 == v1;
    assert (t1 % 16) * 4 + t2 / 64 == v2;
  }

  /** The three bytes four data symbols decode to, as a group before
      the last and as the last group. */
  lemma QuadBytes(c0: uint8, c1: uint8, c2: uint8, c3: uint8)
    requires IsAlphabetSymbol(c0) && IsAlphabetSymbol(c1) && IsAlphabetSymbol(c2) && IsAlphabetSymbol(c3)
    ensures DecodeQuad(c0, c1, c2, c3) == Some([HighByte(Table1Value(c0), Table1Value(c1)),
      MidByte(Table1Value(c1), Table1Value(c2)), LowByte(Table1Value(c2), Table1Value(c3))])
  {
  }

  lemma FinalThreeBytes(c0: uint8, c1: uint8, c2: uint8, c3: uint8)
    requires IsAlphabetSymbol(c0) && IsAlphabetSymbol(c1) && IsAlphabetSymbol(c2) && IsAlphabetSymbol(c3)
    ensures DecodeFinal(c0, c1, c2, c3) == Some([HighByte(Table1Value(c0), Table1Value(c1)),
      MidByte(Table1Value(c1), Table1Value(c2)), LowByte(Table1Value(c2), Table1Value(c3))])
  {
    Table1Bijective(c0, 0);
  }

  /** Four data symbols decode to three bytes that re-encode to the same
      four symbols. */
  lemma QuadReencodes(c0: uint8, c1: uint8, c2: uint8, c3: uint8)
    requires IsAlphabetSymbol(c0) && IsAlphabetSymbol(c1) && IsAlphabetSymbol(c2) && IsAlphabetSymbol(c3)
    ensures var t := DecodeQuad(c0, c1, c2, c3).value;
      EncodeTriple(t[0], t[1], t[2]) == [c0, c1, c2, c3]
  {
    var v0, v1, v2, v3 := Table1Value(c0), Table1Value(c1), Table1Value(c2), Table1Value(c3);
    QuadBytes(c0, c1, c2, c3);
    EncodeDecodedTriple(v0, v1, v2, v3);
    SymbolOfValue(c0);
    SymbolOfValue(c1);
    SymbolOfValue(c2);
    SymbolOfValue(c3);
  }

  /** The two bytes built from three values encode to the symbols of the
      first two values, the third value with its two low bits cleared, and
      one pad. */
  lemma EncodeDecodedPair(v0: sextet, v1: sextet, v2: sextet)
    ensures EncodeTailTwo(HighByte(v0, v1), MidByte(v1, v2))
      == [Symbol(v0), Symbol(v1), Symbol(v2 / 4 * 4), B64Pad]
  {
    var t0, t1 := HighByte(v0, v1), MidByte(v1, v2);
    HighByteSlices(v0, v1);
    MidByteSlices(v1, v2);
    assert (t0 % 4) * 16 + t1 / 16 == v1;
    assert (t1 % 16) * 4 == v2 / 4 * 4;
  }

  /** The byte built from two values encodes to the symbol of the first
      value, the second value with its four low bits cleared, and two
      pads. */
  lemma EncodeDecodedSingle(v0: sextet, v1: sextet)
    ensures EncodeTailOne(HighByte(v0, v1)) == [Symbol(v0), Symbol(v1 / 16 * 16), B64Pad, B64Pad]
  {
    HighByteSlices(v0, v1);
  }

  /** `xxx=` re-encodes with the two filler bits of the third symbol
      cleared. */
  lemma FinalTwoReencodes(c0: uint8, c1: uint8, c2: uint8)
    requires IsAlphabetSymbol(c0) && IsAlphabetSymbol(c1) && IsAlphabetSymbol(c2)
    ensures var t := DecodeFinal(c0, c1, c2, PadSymbol).value;
      |t| == 2 && EncodeTailTwo(t[0], t[1]) == [c0, c1, ClearLowBits(c2, 4), PadSymbol]
  {
    var v0, v1, v2 := Table1Value(c0), Table1Value(c1), Table1Value(c2);
    Table1Bijective(c0, 0);
    assert DecodeFinal(c0, c1, c2, PadSymbol).value == [HighByte(v0, v1), MidByte(v1, v2)];
    EncodeDecodedPair(v0, v1, v2);
    SymbolOfValue(c0);
    SymbolOfValue(c1);
    SymbolOfValue(ClearLowBits(c2, 4));
  }

  /** `xx==` re-encodes with the four filler bits of the second symbol
      cleared. */
  lemma FinalOneReencodes(c0: uint8, c1: uint8)
    requires IsAlphabetSymbol(c0) && IsAlphabetSymbol(c1)
    ensures var t := DecodeFinal(c0, c1, PadSymbol, PadSymbol).value;
      |t| == 1 && EncodeTailOne(t[0]) == [c0, ClearLowBits(c1, 16), PadSymbol, PadSymbol]
  {
    var v0, v1 := Table1Value(c0), Table1Value(c1);
    Table1Bijective(c0, 0);
    assert DecodeFinal(c0, c1, PadSymbol, PadSymbol).value == [HighByte(v0, v1)];
    EncodeDecodedSingle(v0, v1);
    SymbolOfValue(c0);
    SymbolOfValue(ClearLowBits(c1, 16));
  }

  /** Four data symbols as the last group re-encode to themselves. */
  lemma FinalThreeReencodes(c0: uint8, c1: uint8, c2: uint8, c3: uint8)
    requires IsAlphabetSymbol(c0) && IsAlphabetSymbol(c1) && IsAlphabetSymbol(c2) && IsAlphabetSymbol(c3)
    ensures var t := DecodeFinal(c0, c1, c2, c3).value;
      |t| == 3 && EncodeTriple(t[0], t[1], t[2]) == [c0, c1, c2, c3]
  {
    var v0, v1, v2, v3 := Table1Value(c0), Table1Value(c1), Table1Value(c2), Table1Value(c3);
    FinalThreeBytes(c0, c1, c2, c3);
    EncodeDecodedTriple(v0, v1, v2, v3);
    SymbolOfValue(c0);
    SymbolOfValue(c1);
    SymbolOfValue(c2);
    SymbolOfValue(c3);
  }

  /** The encoding of one to three bytes is a single group. */
  lemma EncodeShort(plain: seq<uint8>)
    requires 1 <= |plain| <= 3
    ensures |plain| == 1 ==> Encode(plain) == EncodeTailOne(plain[0])
    ensures |plain| == 2 ==> Encode(plain) == EncodeTailTwo(plain[0], plain[1])
    ensures |plain| == 3 ==> Encode(plain) == EncodeTriple(plain[0], plain[1], plain[2])
  {
    if |plain| == 3 {
      assert plain[3..] == [];
    }
  }

  /** The canonical form of a single group, case by case. */
  lemma CanonicalGroup(s: seq<uint8>)
    requires |s| == 4 && WellFormed(s)
    ensures PadCount(s) == 0 ==> Canonical(s) == s
    ensures PadCount(s) == 1 ==> Canonical(s) == [s[0], s[1], ClearLowBits(s[2], 4), s[3]]
    ensures PadCount(s) == 2 ==> Canonical(s) == [s[0], ClearLowBits(s[1], 16), s[2], s[3]]
  {
  }

  /** A well-formed single group re-encodes to its canonical form. */
  lemma LastGroupReencodes(s: seq<uint8>)
    requires |s| == 4 && WellFormed(s)
    ensures Encode(DecodeGroups(s).value) == Canonical(s)
  {
    var t := DecodeFinal(s[0], s[1], s[2], s[3]).value;
    assert DecodeGroups(s).value == t;
    CanonicalGroup(s);
    if PadCount(s) == 0 {
      FinalThreeReencodes(s[0], s[1], s[2], s[3]);
      EncodeShort(t);
      ShortDisplay(s[..3]);
      assert s == s[..3] + [s[3]];
    } else if PadCount(s) == 1 {
      FinalTwoReencodes(s[0], s[1], s[2]);
      EncodeShort(t);
    } else {
      FinalOneReencodes(s[0], s[1]);
      EncodeShort(t);
    }
  }

  /** Canonical form works on the last group only. */
  lemma CanonicalCons(s: seq<uint8>)
    requires WellFormed(s) && |s| > 4
    ensures WellFormed(s[4..]) && PadCount(s[4..]) == PadCount(s)
    ensures Canonical(s) == [s[0], s[1], s[2], s[3]] + Canonical(s[4..])
  {
    var rest := s[4..];
    assert s[..4] == [s[0], s[1], s[2], s[3]];
    assert rest[|rest| - 1] == s[|s| - 1] && rest[|rest| - 2] == s[|s| - 2];
    assert WellFormed(rest);
  }

  /** Three bytes in front of a non-empty input add one full group in
      front of its encoding. */
  lemma EncodeAppendTriple(head: seq<uint8>, tail: seq<uint8>)
    requires |head| == 3 && |tail| > 0
    ensures Encode(head + tail) == EncodeTriple(head[0], head[1], head[2]) + Encode(tail)
  {
    var plain := head + tail;
    EncodeCons(plain);
    assert plain[0] == head[0] && plain[1] == head[1] && plain[2] == head[2];
    assert plain[3..] == tail;
  }

  /** A well-formed cipher of more than one group decodes to its first
      group's three bytes followed by what the rest decodes to. */
  lemma DecodeGroupsCons(s: seq<uint8>)
    requires |s| > 4 && |s| % 4 == 0 && WellFormed(s)
    ensures WellFormed(s[4..]) && IsAlphabetSymbol(s[0]) && IsAlphabetSymbol(s[1])
            && IsAlphabetSymbol(s[2]) && IsAlphabetSymbol(s[3])
    ensures DecodeGroups(s).Some? && DecodeGroups(s[4..]).Some?
    ensures DecodeGroups(s).value
            == DecodeQuad(s[0], s[1], s[2], s[3]).value + DecodeGroups(s[4..]).value
  {
    CanonicalCons(s);
    GroupsAccept(s);
    GroupsAccept(s[4..]);
    assert DecodeGroups(s) == DecodeMiddle(s);
  }

  /** One step of the induction below: a full data group in front of a
      cipher whose decoding re-encodes canonically. */
  lemma ReencodeStep(s: seq<uint8>, tail: seq<uint8>)
    requires |s| > 4 && WellFormed(s) && WellFormed(s[4..]) && |tail| > 0
    requires Encode(tail) == Canonical(s[4..])
    ensures IsAlphabetSymbol(s[0]) && IsAlphabetSymbol(s[1]) && IsAlphabetSymbol(s[2]) && IsAlphabetSymbol(s[3])
    ensures Encode(DecodeQuad(s[0], s[1], s[2], s[3]).value + tail) == Canonical(s)
  {
    var head := DecodeQuad(s[0], s[1], s[2], s[3]).value;
    CanonicalCons(s);
    EncodeAppendTriple(head, tail);
    QuadReencodes(s[0], s[1], s[2], s[3]);
  }

  /** Re-encoding the bytes a well-formed cipher decodes to gives its
      canonical form: the decoder loses nothing but the filler bits of
      the last data symbol. */
  lemma {:induction false} GroupsReencode(s: seq<uint8>)
    requires |s| >= 4 && |s| % 4 == 0 && WellFormed(s)
    ensures DecodeGroups(s).Some? && Encode(DecodeGroups(s).value) == Canonical(s)
    decreases |s|
  {
    if |s| == 4 {
      LastGroupReencodes(s);
    } else {
      DecodeGroupsCons(s);
      GroupsReencode(s[4..]);
      ReencodeStep(s, DecodeGroups(s[4..]).value);
    }
  }

  /** Encoding what the decoder accepted gives the canonical form of the
      cipher. */
  lemma Reencode(s: seq<uint8>)
    requires Decode(s).Some?
    ensures Encode(Decode(s).value) == Canonical(s)
  {
    GroupsReencode(s);
  }

  /** The encoder only ever writes canonical ciphers. */
  lemma EncodeIsCanonical(plain: seq<uint8>)
    requires plain != []
    ensures WellFormed(Encode(plain)) && Canonical(Encode(plain)) == Encode(plain)
  {
    RoundTrip(plain);
    Reencode(Encode(plain));
  }

  // The decoder's rules, stated with the entries of `b64demap` as the C
  // code tests them.

  /** A pad or invalid entry anywhere before the last group makes
      `b64_decode` fail and return 0. */
  lemma NonFinalSymbolRejects(s: seq<uint8>, i: nat)
    requires |s| % 4 == 0 && i < |s| - 4 && !DeMap(s[i]).Val?
    ensures Decode(s) == None && DecodeRet(s) == 0
  {
  }

  /** With only data before it, the last group decides whether a cipher
      is well formed. */
  lemma WellFormedByLastGroup(s: seq<uint8>)
    requires |s| >= 4 && |s| % 4 == 0
    requires forall i :: 0 <= i < |s| - 4 ==> IsAlphabetSymbol(s[i])
    ensures WellFormed(s) <==>
      IsAlphabetSymbol(s[|s| - 4]) && IsAlphabetSymbol(s[|s| - 3])
      && ((IsAlphabetSymbol(s[|s| - 2]) && (IsAlphabetSymbol(s[|s| - 1]) || s[|s| - 1] == PadSymbol))
          || (s[|s| - 2] == PadSymbol && s[|s| - 1] == PadSymbol))
  {
    Table1Bijective(PadSymbol, 0);
  }

  /** With only data before it, the last group decides: the first two
      entries must be values, then `xx==` gives one byte, `xxx=` two and
      `xxxx` three, and `xx=x` or an invalid fourth symbol fails. The
      output is three bytes per earlier group plus the last group's. */
  lemma FinalGroupByTable(s: seq<uint8>)
    requires |s| >= 4 && |s| % 4 == 0
    requires forall i :: 0 <= i < |s| - 4 ==> DeMap(s[i]).Val?
    ensures var e0, e1, e2, e3 := DeMap(s[|s| - 4]), DeMap(s[|s| - 3]), DeMap(s[|s| - 2]), DeMap(s[|s| - 1]);
      (Decode(s).Some? <==> e0.Val? && e1.Val? && ((e2.Val? && !e3.Invalid?) || (e2.Pad? && e3.Pad?)))
      && (Decode(s).Some? ==>
            DecodeRet(s) == 3 * (|s| / 4 - 1) + (if e2.Pad? then 1 else if e3.Pad? then 2 else 3))
  {
    forall i | 0 <= i < |s| - 4
      ensures IsAlphabetSymbol(s[i])
    {
    }
    WellFormedByLastGroup(s);
  }

  /** The decoder does not insist on canonical input (RFC 4648 section
      3.5): `Zh==` differs from `Zg==` only in the four filler bits of `h`,
      yet both decode to `f`, and re-encoding gives `Zg==`. */
  lemma NonCanonicalAccepted()
    ensures Ascii("Zh==") != Ascii("Zg==")
    ensures Decode(Ascii("Zh==")) == Decode(Ascii("Zg==")) == Some([0x66])
    ensures Encode([0x66]) == Ascii("Zg==") == Canonical(Ascii("Zh=="))
  {
    var zh, zg := Ascii("Zh=="), Ascii("Zg==");
    assert zh[1] != zg[1];
    DecodesToF(zh);
    DecodesToF(zg);
    Reencode(zh);
    EncodeF(zg);
  }

  /** `Zg==` and `Zh==` both decode to the single byte `f` (0x66). */
  lemma DecodesToF(s: seq<uint8>)
    requires |s| == 4 && s[0] == 'Z' as int && s[2] == s[3] == PadSymbol
    requires s[1] == 'g' as int || s[1] == 'h' as int
    ensures Decode(s) == Some([0x66])
  {
    assert DecodeGroups(s) == DecodeFinal(s[0], s[1], s[2], s[3]);
  }

  /** The encoding of `f` is `Zg==`. */
  lemma EncodeF(s: seq<uint8>)
    requires |s| == 4 && s[0] == 'Z' as int && s[1] == 'g' as int && s[2] == s[3] == PadSymbol
    ensures Encode([0x66]) == s
  {
    assert Encode([0x66]) == EncodeTailOne(0x66);
  }
}
