/** The decoder of base64/decode.c: the reverse table `b64demap` and
    `b64_decode`. */
module Decoder {
  import opened Bytes
  import opened Rfc4648

  /** An entry of `b64demap`: a 6-bit value, the pad marker (0xFE in the C
      table) or the invalid marker (0xFF). */
  datatype Sym = Val(v: sextet) | Pad | Invalid

  /** `b64demap`, transcribed with the source's eight entries per line:
      what the cipher byte `c` stands for sits in row `c / 8`, column
      `c % 8`. */
  const DeMapRows: seq<seq<Sym>> := [
    [Invalid, Invalid, Invalid, Invalid, Invalid, Invalid, Invalid, Invalid],  // NUL  SOH  STX  ETX  EOT  ENQ  ACK  BEL
    [Invalid, Invalid, Invalid, Invalid, Invalid, Invalid, Invalid, Invalid],  // BS   HT   LF   VT   FF   CR   SO   SI
    [Invalid, Invalid, Invalid, Invalid, Invalid, Invalid, Invalid, Invalid],  // DLE  DC1  DC2  DC3  DC4  NAK  SYN  ETB
    [Invalid, Invalid, Invalid, Invalid, Invalid, Invalid, Invalid, Invalid],  // CAN  EM   SUB  ESC  FS   GS   RS   US
    [Invalid, Invalid, Invalid, Invalid, Invalid, Invalid, Invalid, Invalid],  // SP   !    "    #    $    %    &    '
    [Invalid, Invalid, Invalid, Val(0x3E), Invalid, Invalid, Invalid, Val(0x3F)],  // (    )    *    +    ,    -    .    /
    [Val(0x34), Val(0x35), Val(0x36), Val(0x37), Val(0x38), Val(0x39), Val(0x3A), Val(0x3B)],  // 0    1    2    3    4    5    6    7
    [Val(0x3C), Val(0x3D), Invalid, Invalid, Invalid, Pad, Invalid, Invalid],  // 8    9    :    ;    <    =    >    ?
    [Invalid, Val(0x00), Val(0x01), Val(0x02), Val(0x03), Val(0x04), Val(0x05), Val(0x06)],  // @    A    B    C    D    E    F    G
    [Val(0x07), Val(0x08), Val(0x09), Val(0x0A), Val(0x0B), Val(0x0C), Val(0x0D), Val(0x0E)],  // H    I    J    K    L    M    N    O
    [Val(0x0F), Val(0x10), Val(0x11), Val(0x12), Val(0x13), Val(0x14), Val(0x15), Val(0x16)],  // P    Q    R    S    T    U    V    W
    [Val(0x17), Val(0x18), Val(0x19), Invalid, Invalid, Invalid, Invalid, Invalid],  // X    Y    Z    [    \    ]    ^    _
    [Invalid, Val(0x1A), Val(0x1B), Val(0x1C), Val(0x1D), Val(0x1E), Val(0x1F), Val(0x20)],  // `    a    b    c    d    e    f    g
    [Val(0x21), Val(0x22), Val(0x23), Val(0x24), Val(0x25), Val(0x26), Val(0x27), Val(0x28)],  // h    i    j    k    l    m    n    o
    [Val(0x29), Val(0x2A), Val(0x2B), Val(0x2C), Val(0x2D), Val(0x2E), Val(0x2F), Val(0x30)],  // p    q    r    s    t    u    v    w
    [Val(0x31), Val(0x32), Val(0x33), Invalid, Invalid, Invalid, Invalid, Invalid],  // x    y    z    {    |    }    ~    DEL
    [Invalid, Invalid, Invalid, Invalid, Invalid, Invalid, Invalid, Invalid],  // 0x80 .. 0xFF: unused
    [Invalid, Invalid, Invalid, Invalid, Invalid, Invalid, Invalid, Invalid],
    [Invalid, Invalid, Invalid, Invalid, Invalid, Invalid, Invalid, Invalid],
    [Invalid, Invalid, Invalid, Invalid, Invalid, Invalid, Invalid, Invalid],
    [Invalid, Invalid, Invalid, Invalid, Invalid, Invalid, Invalid, Invalid],
    [Invalid, Invalid, Invalid, Invalid, Invalid, Invalid, Invalid, Invalid],
    [Invalid, Invalid, Invalid, Invalid, Invalid, Invalid, Invalid, Invalid],
    [Invalid, Invalid, Invalid, Invalid, Invalid, Invalid, Invalid, Invalid],
    [Invalid, Invalid, Invalid, Invalid, Invalid, Invalid, Invalid, Invalid],
    [Invalid, Invalid, Invalid, Invalid, Invalid, Invalid, Invalid, Invalid],
    [Invalid, Invalid, Invalid, Invalid, Invalid, Invalid, Invalid, Invalid],
    [Invalid, Invalid, Invalid, Invalid, Invalid, Invalid, Invalid, Invalid],
    [Invalid, Invalid, Invalid, Invalid, Invalid, Invalid, Invalid, Invalid],
    [Invalid, Invalid, Invalid, Invalid, Invalid, Invalid, Invalid, Invalid],
    [Invalid, Invalid, Invalid, Invalid, Invalid, Invalid, Invalid, Invalid],
    [Invalid, Invalid, Invalid, Invalid, Invalid, Invalid, Invalid, Invalid]
  ]

  /** What RFC 4648 Table 1 says a byte stands for: its value when it is
      one of the 64 symbols, the pad marker for `=`, invalid otherwise. */
  function Classify(c: uint8): Sym {
    if IsAlphabetSymbol(c) then Val(Table1Value(c))
    else if c == PadSymbol then Pad
    else Invalid
  }

  // The table is checked against Table 1 an eighth at a time, each
  // eighth four rows of eight entries.

  lemma DeMapEighth0(c: uint8)
    requires c < 32
    ensures DeMapRows[c / 8][c % 8] == Classify(c)
  {
    if c < 8 {} else if c < 16 {} else if c < 24 {} else {}
  }

  lemma DeMapEighth1(c: uint8)
    requires 32 <= c < 64
    ensures DeMapRows[c / 8][c % 8] == Classify(c)
  {
    if c < 40 {} else if c < 48 {} else if c < 56 {} else {}
  }

  lemma DeMapEighth2(c: uint8)
    requires 64 <= c < 96
    ensures DeMapRows[c / 8][c % 8] == Classify(c)
  {
    if c < 72 {} else if c < 80 {} else if c < 88 {} else {}
  }

  lemma DeMapEighth3(c: uint8)
    requires 96 <= c < 128
    ensures DeMapRows[c / 8][c % 8] == Classify(c)
  {
    if c < 104 {} else if c < 112 {} else if c < 120 {} else {}
  }

  lemma DeMapEighth4(c: uint8)
    requires 128 <= c < 160
    ensures DeMapRows[c / 8][c % 8] == Classify(c)
  {
    if c < 136 {} else if c < 144 {} else if c < 152 {} else {}
  }

  lemma DeMapEighth5(c: uint8)
    requires 160 <= c < 192
    ensures DeMapRows[c / 8][c % 8] == Classify(c)
  {
    if c < 168 {} else if c < 176 {} else if c < 184 {} else {}
  }

  lemma DeMapEighth6(c: uint8)
    requires 192 <= c < 224
    ensures DeMapRows[c / 8][c % 8] == Classify(c)
  {
    if c < 200 {} else if c < 208 {} else if c < 216 {} else {}
  }

  lemma DeMapEighth7(c: uint8)
    requires 224 <= c
    ensures DeMapRows[c / 8][c % 8] == Classify(c)
  {
    if c < 232 {} else if c < 240 {} else if c < 248 {} else {}
  }

  /** The transcribed `b64demap` agrees with Table 1 on all 256 bytes. */
  lemma DeMapIsTable1(c: uint8)
    ensures DeMapRows[c / 8][c % 8] == Classify(c)
  {
    if c < 128 {
      if c < 32 { DeMapEighth0(c); } else if c < 64 { DeMapEighth1(c); }
      else if c < 96 { DeMapEighth2(c); } else { DeMapEighth3(c); }
    } else {
      if c < 160 { DeMapEighth4(c); } else if c < 192 { DeMapEighth5(c); }
      else if c < 224 { DeMapEighth6(c); } else { DeMapEighth7(c); }
    }
  }

  /** One entry of `b64demap`, `b64demap[c]`: the 6-bit value for the 64
      alphabet symbols, the pad marker exactly for `=`, and the invalid
      marker for every other byte. */
  function DeMap(c: uint8): (e: Sym)
    ensures e == Classify(c)
    ensures e.Val? <==> IsAlphabetSymbol(c)
    ensures e.Pad? <==> c == PadSymbol
  {
    DeMapIsTable1(c);
    DeMapRows[c / 8][c % 8]
  }

  /** Storing into a `uint8_t` keeps the low eight bits. */
  lemma DropAboveByte(x: int, hi: int, low: int)
    requires x == hi * 256 + low && 0 <= low < 256
    ensures x % 256 == low
  {
  }

  /** The first byte of a group, `(byte[0] << 2) + (byte[1] >> 4)` stored
      into a `uint8_t`, so reduced modulo 256. Nothing is lost: the sum
      is below 256. */
  function HighByte(v0: sextet, v1: sextet): (b: uint8)
    ensures b == v0 * 4 + v1 / 16
  {
    (v0 * 4 + v1 / 16) % 256
  }

  /** The second byte, `(byte[1] << 4) + (byte[2] >> 2)` modulo 256: the
      store drops the top two bits of `v1`. */
  function MidByte(v1: sextet, v2: sextet): (b: uint8)
    ensures b == (v1 % 16) * 16 + v2 / 4
  {
    DropAboveByte(v1 * 16 + v2 / 4, v1 / 16, (v1 % 16) * 16 + v2 / 4);
    (v1 * 16 + v2 / 4) % 256
  }

  /** The third byte, `(byte[2] << 6) + byte[3]` modulo 256: the store
      drops the top four bits of `v2`. */
  function LowByte(v2: sextet, v3: sextet): (b: uint8)
    ensures b == (v2 % 4) * 64 + v3
  {
    DropAboveByte(v2 * 64 + v3, v2 / 4, (v2 % 4) * 64 + v3);
    (v2 * 64 + v3) % 256
  }

  /** A group that is not the last one (the `while (left > 4)` loop): four
      data symbols give three bytes; a pad or invalid symbol anywhere in
      it is a failure. */
  function DecodeQuad(c0: uint8, c1: uint8, c2: uint8, c3: uint8): (r: Option<seq<uint8>>)
    ensures r.Some? <==> IsAlphabetSymbol(c0) && IsAlphabetSymbol(c1) && IsAlphabetSymbol(c2) && IsAlphabetSymbol(c3)
    ensures r.Some? ==> |r.value| == 3
  {
    match (Classify(c0), Classify(c1), Classify(c2), Classify(c3))
    case (Val(v0), Val(v1), Val(v2), Val(v3)) =>
      Some([HighByte(v0, v1), MidByte(v1, v2), LowByte(v2, v3)])
    case _ => None
  }

  /** The last group: the first two symbols must be data and the third
      must not be invalid; then `xx==` gives one byte, `xxx=` two and
      `xxxx` three, and any other pattern (`xx=x`, or an invalid fourth
      symbol) is a failure. */
  function DecodeFinal(c0: uint8, c1: uint8, c2: uint8, c3: uint8): (r: Option<seq<uint8>>)
    ensures r.Some? <==>
              IsAlphabetSymbol(c0) && IsAlphabetSymbol(c1)
              && ((IsAlphabetSymbol(c2) && (IsAlphabetSymbol(c3) || c3 == PadSymbol))
                  || (c2 == PadSymbol && c3 == PadSymbol))
    ensures r.Some? ==> |r.value| == 3 - (if c2 == PadSymbol then 2 else if c3 == PadSymbol then 1 else 0)
  {
    var s0, s1, s2, s3 := Classify(c0), Classify(c1), Classify(c2), Classify(c3);
    Table1Bijective(c0, 0);
    if !s0.Val? || !s1.Val? || s2.Invalid? then
      None
    else if s2.Pad? && s3.Pad? then
      Some([HighByte(s0.v, s1.v)])
    else if s2.Val? && s3.Pad? then
      Some([HighByte(s0.v, s1.v), MidByte(s1.v, s2.v)])
    else if s2.Val? && s3.Val? then
      Some([HighByte(s0.v, s1.v), MidByte(s1.v, s2.v), LowByte(s2.v, s3.v)])
    else
      None
  }

  /** The groups of a cipher whose length is a positive multiple of four,
      in order; the first failing group makes the whole decode fail. The
      last group is decoded by `DecodeFinal`, the ones before it by
      `DecodeMiddle`. */
  function DecodeGroups(s: seq<uint8>): (r: Option<seq<uint8>>)
    requires |s| >= 4 && |s| % 4 == 0
    ensures r.Some? ==> 3 * |s| - 8 <= 4 * |r.value| <= 3 * |s|
    decreases |s|, 1
  {
    if |s| == 4 then
      DecodeFinal(s[0], s[1], s[2], s[3])
    else
      DecodeMiddle(s)
  }

  /** A group before the last (a turn of the `while (left > 4)` loop),
      then the groups after it. Only four alphabet symbols pass that
      turn; it writes three bytes. */
  function DecodeMiddle(s: seq<uint8>): (r: Option<seq<uint8>>)
    requires |s| > 4 && |s| % 4 == 0
    ensures r.Some? ==> IsAlphabetSymbol(s[0]) && IsAlphabetSymbol(s[1]) && IsAlphabetSymbol(s[2]) && IsAlphabetSymbol(s[3])
    ensures r.Some? ==> 3 * |s| - 8 <= 4 * |r.value| <= 3 * |s|
    decreases |s|, 0
  {
    match DecodeQuad(s[0], s[1], s[2], s[3])
    case None => None
    case Some(head) =>
      match DecodeGroups(s[4..])
      case None => None
      case Some(tail) => Some(head + tail)
  }

  /** `b64_decode` as a function of the cipher: a length that is zero or not
      a multiple of four is rejected, otherwise the groups decide. The
      decode succeeds exactly on the well-formed padded encodings of
      RFC 4648, and then yields three bytes per group less one per pad. */
  function Decode(s: seq<uint8>): (r: Option<seq<uint8>>)
    ensures r.Some? <==> WellFormed(s)
    ensures r.Some? ==> |r.value| == 3 * (|s| / 4) - PadCount(s) > 0
  {
    if |s| == 0 || |s| % 4 > 0 then None
    else
      GroupsAccept(s);
      DecodeGroups(s)
  }

  /** The groups decode exactly when the cipher is a well-formed padded
      encoding, and then to three bytes per group less one per pad. */
  lemma {:induction false} GroupsAccept(s: seq<uint8>)
    requires |s| >= 4 && |s| % 4 == 0
    ensures DecodeGroups(s).Some? <==> WellFormed(s)
    ensures DecodeGroups(s).Some? ==> |DecodeGroups(s).value| == 3 * (|s| / 4) - PadCount(s)
    decreases |s|
  {
    if |s| > 4 {
      GroupsAccept(s[4..]);
    }
  }

  /** The value `b64_decode` returns: the decoded length, and 0 for every
      failure. No successful decode is empty, so 0 means exactly that the
      cipher was not a well-formed encoding; in particular the empty
      cipher and every length that is not a multiple of four give 0. */
  function DecodeRet(s: seq<uint8>): (n: nat)
    ensures n == 0 <==> !WellFormed(s)
    ensures |s| % 4 != 0 ==> n == 0
    ensures n <= 3 * (|s| / 4)
  {
    match Decode(s)
    case None => 0
    case Some(plain) => |plain|
  }

  /** Bytes already written, followed by what the rest decodes to. */
  function AfterPrefix(written: seq<uint8>, rest: Option<seq<uint8>>): Option<seq<uint8>> {
    match rest
    case None => None
    case Some(tail) => Some(written + tail)
  }

  lemma AfterPrefixAppend(a: seq<uint8>, b: seq<uint8>, rest: Option<seq<uint8>>)
    ensures AfterPrefix(a, AfterPrefix(b, rest)) == AfterPrefix(a + b, rest)
  {
    match rest {
      case None =>
      case Some(tail) => assert a + (b + tail) == (a + b) + tail;
    }
  }

  /** One read of `b64demap`, as the C code indexes it. */
  method ReadDeMap(c: uint8) returns (e: Sym)
    ensures e == Classify(c)
  {
    e := DeMap(c);
  }

  /** The body of the C loop over the groups before the last: look the
      four symbols up, fail on any pad or invalid one, else write three
      bytes. */
  method DecodeQuadStep(c0: uint8, c1: uint8, c2: uint8, c3: uint8) returns (ok: bool, group: seq<uint8>)
    ensures ok <==> DecodeQuad(c0, c1, c2, c3).Some?
    ensures ok ==> DecodeQuad(c0, c1, c2, c3).value == group
  {
    var b0 := ReadDeMap(c0);
    var b1 := ReadDeMap(c1);
    var b2 := ReadDeMap(c2);
    var b3 := ReadDeMap(c3);
    if !b0.Val? || !b1.Val? || !b2.Val? || !b3.Val? {
      return false, [];
    }
    group := [(b0.v * 4 + b1.v / 16) % 256, (b1.v * 16 + b2.v / 4) % 256, (b2.v * 64 + b3.v) % 256];
    ok := true;
  }

  /** The C code for the last group: the first two symbols must be data and
      the third not invalid, then the pad pattern decides how many bytes
      are written. */
  method DecodeFinalStep(c0: uint8, c1: uint8, c2: uint8, c3: uint8) returns (ok: bool, tail: seq<uint8>)
    ensures ok <==> DecodeFinal(c0, c1, c2, c3).Some?
    ensures ok ==> DecodeFinal(c0, c1, c2, c3).value == tail
  {
    var b0 := ReadDeMap(c0);
    var b1 := ReadDeMap(c1);
    var b2 := ReadDeMap(c2);
    var b3 := ReadDeMap(c3);
    if !b0.Val? || !b1.Val? || b2.Invalid? {
      return false, [];
    }
    tail := [(b0.v * 4 + b1.v / 16) % 256];
    if b2.Pad? && b3.Pad? {
    } else if b2.Val? && b3.Pad? {
      tail := tail + [(b1.v * 16 + b2.v / 4) % 256];
    } else if b2.Val? && b3.Val? {
      tail := tail + [(b1.v * 16 + b2.v / 4) % 256];
      tail := tail + [(b2.v * 64 + b3.v) % 256];
    } else {
      return false, [];
    }
    ok := true;
  }

  /** The groups from position `i` on, when more than one is left: the
      first of them, then the rest. */
  lemma GroupsFrom(s: seq<uint8>, i: nat)
    requires i + 4 < |s| && (|s| - i) % 4 == 0
    ensures DecodeQuad(s[i], s[i + 1], s[i + 2], s[i + 3]).None? ==> DecodeGroups(s[i..]) == None
    ensures DecodeQuad(s[i], s[i + 1], s[i + 2], s[i + 3]).Some? ==>
              DecodeGroups(s[i..])
              == AfterPrefix(DecodeQuad(s[i], s[i + 1], s[i + 2], s[i + 3]).value, DecodeGroups(s[i + 4..]))
  {
    assert s[i..][4..] == s[i + 4..];
    assert DecodeGroups(s[i..]) == DecodeMiddle(s[i..]);
  }

  /** The last group, at position `i`. */
  lemma LastGroupAt(s: seq<uint8>, i: nat)
    requires i + 4 == |s|
    ensures DecodeGroups(s[i..]) == DecodeFinal(s[i], s[i + 1], s[i + 2], s[i + 3])
  {
  }

  /** Before the loop: nothing written, the whole cipher to go. */
  lemma NothingWrittenYet(cipher: seq<uint8>)
    requires |cipher| >= 4 && |cipher| % 4 == 0
    ensures DecodeGroups(cipher) == AfterPrefix([], DecodeGroups(cipher[0..]))
  {
    assert cipher[0..] == cipher;
    match DecodeGroups(cipher) {
      case None =>
      case Some(all) => assert [] + all == all;
    }
  }

  /** What the loop below keeps: the bytes written so far followed by
      what the groups from `i` on decode to is the decoding of the whole
      cipher. */
  predicate LoopKeeps(cipher: seq<uint8>, i: nat, raw: seq<uint8>)
    requires |cipher| >= 4 && |cipher| % 4 == 0 && i <= |cipher| - 4 && i % 4 == 0
  {
    DecodeGroups(cipher) == AfterPrefix(raw, DecodeGroups(cipher[i..]))
  }

  /** One turn of the loop: a good group extends what was written. */
  lemma LoopStepGood(cipher: seq<uint8>, i: nat, raw: seq<uint8>, group: seq<uint8>)
    requires |cipher| >= 4 && |cipher| % 4 == 0 && i < |cipher| - 4 && i % 4 == 0
    requires i + 4 <= |cipher| - 4 && (i + 4) % 4 == 0 && (|cipher| - (i + 4)) % 4 == 0
    requires LoopKeeps(cipher, i, raw)
    requires DecodeQuad(cipher[i], cipher[i + 1], cipher[i + 2], cipher[i + 3]) == Some(group)
    ensures LoopKeeps(cipher, i + 4, raw + group)
  {
    GroupsFrom(cipher, i);
    AfterPrefixAppend(raw, group, DecodeGroups(cipher[i + 4..]));
  }

  /** One turn of the loop: a bad group fails the whole decode. */
  lemma LoopStepBad(cipher: seq<uint8>, i: nat, raw: seq<uint8>)
    requires |cipher| >= 4 && |cipher| % 4 == 0 && i < |cipher| - 4 && i % 4 == 0
    requires LoopKeeps(cipher, i, raw)
    requires DecodeQuad(cipher[i], cipher[i + 1], cipher[i + 2], cipher[i + 3]).None?
    ensures DecodeGroups(cipher) == None
  {
    GroupsFrom(cipher, i);
    assert DecodeGroups(cipher[i..]) == None;
  }

  /** After the loop: the last group is left. */
  lemma LoopDone(cipher: seq<uint8>, i: nat, raw: seq<uint8>)
    requires |cipher| >= 4 && |cipher| % 4 == 0 && i == |cipher| - 4
    requires LoopKeeps(cipher, i, raw)
    ensures DecodeGroups(cipher) == AfterPrefix(raw, DecodeFinal(
              cipher[|cipher| - 4], cipher[|cipher| - 3], cipher[|cipher| - 2], cipher[|cipher| - 1]))
  {
    LastGroupAt(cipher, i);
  }

  /** `left -= 4` keeps a whole group left when more than one was. */
  lemma NextGroup(n: nat, i: nat)
    requires n % 4 == 0 && i % 4 == 0 && n - i > 4
    ensures i + 4 <= n - 4 && (i + 4) % 4 == 0 && (n - (i + 4)) % 4 == 0
  {
  }

  /** The C loop over the groups before the last: on success, what it
      wrote followed by what the last group decodes to is the decoding of
      the whole cipher; on failure the cipher does not decode. */
  method DecodeLeadingGroups(cipher: seq<uint8>) returns (ok: bool, raw: seq<uint8>)
    requires |cipher| >= 4 && |cipher| % 4 == 0
    ensures ok ==> DecodeGroups(cipher) == AfterPrefix(raw, DecodeFinal(
                     cipher[|cipher| - 4], cipher[|cipher| - 3], cipher[|cipher| - 2], cipher[|cipher| - 1]))
    ensures !ok ==> DecodeGroups(cipher) == None
  {
    raw := [];
    var i := 0;
    NothingWrittenYet(cipher);
    while |cipher| - i > 4
      invariant 0 <= i <= |cipher| - 4 && i % 4 == 0
      invariant LoopKeeps(cipher, i, raw)
    {
      var good, group := DecodeQuadStep(cipher[i], cipher[i + 1], cipher[i + 2], cipher[i + 3]);
      if !good {
        LoopStepBad(cipher, i, raw);
        return false, raw;
      }
      NextGroup(|cipher|, i);
      LoopStepGood(cipher, i, raw, group);
      raw := raw + group;
      i := i + 4;
    }
    LoopDone(cipher, i, raw);
    ok := true;
  }

  /** The C routine with its output buffer: the length check, the loop
      over the groups before the last, and the last group. Returns the
      buffer and the value returned; on success the buffer holds the
      decoded bytes and a NUL, on a rejected length just the NUL. What a
      failure in a later group leaves in the buffer is not specified. */
  method B64Decode(cipher: seq<uint8>) returns (buffer: seq<uint8>, n: nat)
    ensures n == DecodeRet(cipher)
    ensures Decode(cipher).Some? ==> buffer == Decode(cipher).value + [0]
    ensures |cipher| == 0 || |cipher| % 4 > 0 ==> buffer == [0]
  {
    if |cipher| == 0 || |cipher| % 4 > 0 {
      return [0], 0;
    }
    var ok, raw := DecodeLeadingGroups(cipher);
    if !ok {
      return raw, 0;
    }
    var last := |cipher| - 4;
    var good, tail := DecodeFinalStep(cipher[last], cipher[last + 1], cipher[last + 2], cipher[last + 3]);
    if !good {
      return raw, 0;
    }
    raw := raw + tail;
    buffer := raw + [0];
    n := |raw|;
  }
}
