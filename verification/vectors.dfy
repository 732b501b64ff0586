/** The vectors of test/main.c, stated as facts about the model. The
    valid cases are the test vectors of RFC 4648 section 10; the invalid
    cases are the library's own. */
module Vectors {
  import opened Bytes
  import opened Encoder
  import opened Decoder
  import opened Base64Laws

  /** What `assert_valid_case` checks: the plain bytes encode to the
      cipher, the decoder returns the plain length, and (when there is
      something to compare) it writes the plain bytes back. */
  predicate ValidCase(plain: seq<uint8>, cipher: seq<uint8>) {
    Encode(plain) == cipher
    && DecodeRet(cipher) == |plain|
    && (plain != [] ==> Decode(cipher) == Some(plain))
  }

  /** What `assert_invalid_case` checks: the decoder returns 0. */
  predicate InvalidCase(cipher: seq<uint8>) {
    DecodeRet(cipher) == 0
  }

  // The single groups the vectors are made of, each checked slice by
  // slice.

  lemma TripleVector(b0: uint8, b1: uint8, b2: uint8, v0: sextet, v1: sextet, v2: sextet, v3: sextet, c: seq<uint8>)
    requires v0 == b0 / 4 && v1 == (b0 % 4) * 16 + b1 / 16 && v2 == (b1 % 16) * 4 + b2 / 64 && v3 == b2 % 64
    requires c == [Symbol(v0), Symbol(v1), Symbol(v2), Symbol(v3)]
    ensures Encode([b0, b1, b2]) == c
  {
    EncodeTripleBySlices(b0, b1, b2);
    EncodeShort([b0, b1, b2]);
  }

  lemma TailTwoVector(b0: uint8, b1: uint8, v0: sextet, v1: sextet, v2: sextet, c: seq<uint8>)
    requires v0 == b0 / 4 && v1 == (b0 % 4) * 16 + b1 / 16 && v2 == (b1 % 16) * 4
    requires c == [Symbol(v0), Symbol(v1), Symbol(v2), B64Pad]
    ensures Encode([b0, b1]) == c
  {
    EncodeShort([b0, b1]);
  }

  lemma TailOneVector(b0: uint8, v0: sextet, v1: sextet, c: seq<uint8>)
    requires v0 == b0 / 4 && v1 == (b0 % 4) * 16
    requires c == [Symbol(v0), Symbol(v1), B64Pad, B64Pad]
    ensures Encode([b0]) == c
  {
    EncodeShort([b0]);
  }

  lemma GroupF()
    ensures Encode(Ascii("f")) == Ascii("Zg==")
  {
    assert Ascii("f") == [0x66];
    assert Ascii("Zg==") == [90, 103, 61, 61];
    assert [Symbol(25), Symbol(32)] == [90, 103];
    TailOneVector(0x66, 25, 32, Ascii("Zg=="));
  }

  lemma GroupFo()
    ensures Encode(Ascii("fo")) == Ascii("Zm8=")
  {
    assert Ascii("fo") == [0x66, 0x6F];
    assert Ascii("Zm8=") == [90, 109, 56, 61];
    assert [Symbol(25), Symbol(38), Symbol(60)] == [90, 109, 56];
    TailTwoVector(0x66, 0x6F, 25, 38, 60, Ascii("Zm8="));
  }

  lemma GroupFoo()
    ensures Encode(Ascii("foo")) == Ascii("Zm9v")
  {
    assert Ascii("foo") == [0x66, 0x6F, 0x6F];
    assert Ascii("Zm9v") == [90, 109, 57, 118];
    assert [Symbol(25), Symbol(38), Symbol(61), Symbol(47)] == [90, 109, 57, 118];
    TripleVector(0x66, 0x6F, 0x6F, 25, 38, 61, 47, Ascii("Zm9v"));
  }

  lemma GroupB()
    ensures Encode(Ascii("b")) == Ascii("Yg==")
  {
    assert Ascii("b") == [0x62];
    assert Ascii("Yg==") == [89, 103, 61, 61];
    assert [Symbol(24), Symbol(32)] == [89, 103];
    TailOneVector(0x62, 24, 32, Ascii("Yg=="));
  }

  lemma GroupBa()
    ensures Encode(Ascii("ba")) == Ascii("YmE=")
  {
    assert Ascii("ba") == [0x62, 0x61];
    assert Ascii("YmE=") == [89, 109, 69, 61];
    assert [Symbol(24), Symbol(38), Symbol(4)] == [89, 109, 69];
    TailTwoVector(0x62, 0x61, 24, 38, 4, Ascii("YmE="));
  }

  lemma GroupBar()
    ensures Encode(Ascii("bar")) == Ascii("YmFy")
  {
    assert Ascii("bar") == [0x62, 0x61, 0x72];
    assert Ascii("YmFy") == [89, 109, 70, 121];
    assert [Symbol(24), Symbol(38), Symbol(5), Symbol(50)] == [89, 109, 70, 121];
    TripleVector(0x62, 0x61, 0x72, 24, 38, 5, 50, Ascii("YmFy"));
  }

  /** By the round trip, the encoder's output is a valid case. */
  lemma EncodedIsValid(plain: seq<uint8>, cipher: seq<uint8>)
    requires Encode(plain) == cipher
    ensures ValidCase(plain, cipher)
  {
    RoundTrip(plain);
  }

  /** A plain text that is a full group followed by more encodes to the
      two groups' encodings in turn. */
  lemma TwoGroups(p1: string, p2: string, c1: string, c2: string, p: string, c: string)
    requires IsAscii(p1) && IsAscii(p2) && IsAscii(c1) && IsAscii(c2) && |p1| == 3
    requires p == p1 + p2 && c == c1 + c2
    requires Encode(Ascii(p1)) == Ascii(c1) && Encode(Ascii(p2)) == Ascii(c2)
    ensures IsAscii(p) && IsAscii(c) && ValidCase(Ascii(p), Ascii(c))
  {
    AsciiAppend(p1, p2);
    AsciiAppend(c1, c2);
    EncodeAppend(Ascii(p1), Ascii(p2));
    EncodedIsValid(Ascii(p), Ascii(c));
  }

  lemma VectorEmpty()
    ensures ValidCase(Ascii(""), Ascii(""))
  {
    EncodedIsValid(Ascii(""), Encode(Ascii("")));
  }

  lemma VectorF()
    ensures ValidCase(Ascii("f"), Ascii("Zg=="))
  {
    GroupF();
    EncodedIsValid(Ascii("f"), Encode(Ascii("f")));
  }

  lemma VectorFo()
    ensures ValidCase(Ascii("fo"), Ascii("Zm8="))
  {
    GroupFo();
    EncodedIsValid(Ascii("fo"), Encode(Ascii("fo")));
  }

  lemma VectorFoo()
    ensures ValidCase(Ascii("foo"), Ascii("Zm9v"))
  {
    GroupFoo();
    EncodedIsValid(Ascii("foo"), Encode(Ascii("foo")));
  }

  lemma VectorFoob()
    ensures ValidCase(Ascii("foob"), Ascii("Zm9vYg=="))
  {
    GroupFoo();
    GroupB();
    TwoGroups("foo", "b", "Zm9v", "Yg==", "foob", "Zm9vYg==");
  }

  lemma VectorFooba()
    ensures ValidCase(Ascii("fooba"), Ascii("Zm9vYmE="))
  {
    GroupFoo();
    GroupBa();
    TwoGroups("foo", "ba", "Zm9v", "YmE=", "fooba", "Zm9vYmE=");
  }

  lemma VectorFoobar()
    ensures ValidCase(Ascii("foobar"), Ascii("Zm9vYmFy"))
  {
    GroupFoo();
    GroupBar();
    TwoGroups("foo", "bar", "Zm9v", "YmFy", "foobar", "Zm9vYmFy");
  }

  /** `>` as the first symbol of the last group (`Zm9v` is a full group
      before it), which the last group's first test rejects. */
  lemma InvalidSymbol()
    ensures InvalidCase(Ascii("Zm9v>mFy"))
  {
    assert Ascii("Zm9v>mFy")[4] == '>' as int;
  }

  /** `=` in the first group, which is not the last. */
  lemma PadInFirstGroup()
    ensures InvalidCase(Ascii("Z=9vYmFy"))
  {
    assert Ascii("Z=9vYmFy")[1] == '=' as int;
  }

  /** `x=xx` in the last group: a pad in the second position, which the
      last group's first test rejects. */
  lemma PadBeforeData()
    ensures InvalidCase(Ascii("Zm9vY=Fy"))
  {
    assert Ascii("Zm9vY=Fy")[5] == '=' as int && Ascii("Zm9vY=Fy")[6] == 'F' as int;
  }

  /** `xx=x` in the last group: a pad followed by a data symbol, which the
      three-symbol case rejects. Not one of the cases of test/main.c. */
  lemma PadThenData()
    ensures InvalidCase(Ascii("Zm9vYm=y"))
  {
    assert Ascii("Zm9vYm=y")[6] == '=' as int && Ascii("Zm9vYm=y")[7] == 'y' as int;
  }

  /** Five symbols: not a multiple of four. */
  lemma ShortLength()
    ensures InvalidCase(Ascii("Zm9vY"))
  {
  }
}
