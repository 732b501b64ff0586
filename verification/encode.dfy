/** The encoder of base64/encode.c: `b64enmap`, `B64PAD` and `b64_encode`. */
module Encoder {
  import opened Bytes
  import opened Rfc4648

  /** `B64PAD`: the character written to fill a short final group. */
  const B64Pad: uint8 := '=' as uint8

  /** `b64enmap`: the 64 symbols, indexed by 6-bit value. The C string is
      transcribed eight characters at a time. */
  const EnMap: seq<uint8> :=
    ['A' as uint8, 'B' as uint8, 'C' as uint8, 'D' as uint8, 'E' as uint8, 'F' as uint8, 'G' as uint8, 'H' as uint8]
    + ['I' as uint8, 'J' as uint8, 'K' as uint8, 'L' as uint8, 'M' as uint8, 'N' as uint8, 'O' as uint8, 'P' as uint8]
    + ['Q' as uint8, 'R' as uint8, 'S' as uint8, 'T' as uint8, 'U' as uint8, 'V' as uint8, 'W' as uint8, 'X' as uint8]
    + ['Y' as uint8, 'Z' as uint8, 'a' as uint8, 'b' as uint8, 'c' as uint8, 'd' as uint8, 'e' as uint8, 'f' as uint8]
    + ['g' as uint8, 'h' as uint8, 'i' as uint8, 'j' as uint8, 'k' as uint8, 'l' as uint8, 'm' as uint8, 'n' as uint8]
    + ['o' as uint8, 'p' as uint8, 'q' as uint8, 'r' as uint8, 's' as uint8, 't' as uint8, 'u' as uint8, 'v' as uint8]
    + ['w' as uint8, 'x' as uint8, 'y' as uint8, 'z' as uint8, '0' as uint8, '1' as uint8, '2' as uint8, '3' as uint8]
    + ['4' as uint8, '5' as uint8, '6' as uint8, '7' as uint8, '8' as uint8, '9' as uint8, '+' as uint8, '/' as uint8]

  // The table is checked against RFC 4648 Table 1 in four slices of
  // sixteen entries, each small enough for the solver to unfold.

  lemma EnMapSlice0(v: sextet)
    requires v < 16
    ensures EnMap[v] == Table1Symbol(v)
  {
    if v < 8 {} else {}
  }

  lemma EnMapSlice1(v: sextet)
    requires 16 <= v < 32
    ensures EnMap[v] == Table1Symbol(v)
  {
    if v < 24 {} else {}
  }

  lemma EnMapSlice2(v: sextet)
    requires 32 <= v < 48
    ensures EnMap[v] == Table1Symbol(v)
  {
    if v < 40 {} else {}
  }

  lemma EnMapSlice3(v: sextet)
    requires 48 <= v
    ensures EnMap[v] == Table1Symbol(v)
  {
    if v < 56 {} else {}
  }

  /** `b64enmap` is exactly Table 1 of RFC 4648 read from value to symbol:
      64 distinct alphabet symbols, none of them the pad character. */
  lemma EnMapIsTable1(v: sextet)
    ensures EnMap[v] == Table1Symbol(v)
    ensures IsAlphabetSymbol(EnMap[v]) && EnMap[v] != B64Pad
    ensures forall w: sextet :: EnMap[w] == EnMap[v] ==> w == v
  {
    if v < 16 { EnMapSlice0(v); }
    else if v < 32 { EnMapSlice1(v); }
    else if v < 48 { EnMapSlice2(v); }
    else { EnMapSlice3(v); }
    Table1Bijective(EnMap[v], v);
    forall w: sextet | EnMap[w] == EnMap[v]
      ensures w == v
    {
      if w < 16 { EnMapSlice0(w); }
      else if w < 32 { EnMapSlice1(w); }
      else if w < 48 { EnMapSlice2(w); }
      else { EnMapSlice3(w); }
    }
  }

  /** The symbol `b64enmap[v]` for a 6-bit value, through its Table 1
      reading (see EnMapIsTable1): the alphabet symbol that stands for
      `v`, which is never the pad character. */
  function Symbol(v: sextet): (c: uint8)
    ensures IsAlphabetSymbol(c) && Table1Value(c) == v && c != B64Pad
  {
    Table1Bijective(B64Pad, v);
    Table1Symbol(v)
  }

  /** One full group, the body of the `while (left > 2)` loop: the three
      bytes are packed big-endian into a 24-bit value whose four 6-bit
      slices, most significant first, select the symbols. */
  function EncodeTriple(b0: uint8, b1: uint8, b2: uint8): (r: seq<uint8>)
    ensures |r| == 4
    ensures forall k :: 0 <= k < 4 ==> IsAlphabetSymbol(r[k]) && r[k] != B64Pad
  {
    var b := b0 as int * 0x10000 + b1 as int * 0x100 + b2 as int;
    [Symbol(b / 0x40000), Symbol((b / 0x1000) % 0x40), Symbol((b / 0x40) % 0x40), Symbol(b % 0x40)]
  }

  /** A final group of one byte: two symbols, then `==`. */
  function EncodeTailOne(b0: uint8): (r: seq<uint8>)
    ensures |r| == 4 && r[2] == r[3] == B64Pad
    ensures IsAlphabetSymbol(r[0]) && IsAlphabetSymbol(r[1])
  {
    [Symbol(b0 / 4), Symbol((b0 % 4) * 16), B64Pad, B64Pad]
  }

  /** A final group of two bytes: three symbols, then `=`. */
  function EncodeTailTwo(b0: uint8, b1: uint8): (r: seq<uint8>)
    ensures |r| == 4 && r[3] == B64Pad
    ensures IsAlphabetSymbol(r[0]) && IsAlphabetSymbol(r[1]) && IsAlphabetSymbol(r[2])
  {
    [Symbol(b0 / 4), Symbol((b0 % 4) * 16 + b1 / 16), Symbol((b1 % 16) * 4), B64Pad]
  }

  /** How many `=` close the encoding of `n` bytes. */
  function PadLength(n: nat): (k: nat)
    ensures k <= 2 && (n + k) % 3 == 0
  {
    (3 - n % 3) % 3
  }

  /** Three more bytes take one more group and as many pads. */
  lemma OneGroupMore(n: nat)
    requires n > 2
    ensures 4 * ((n + 2) / 3) == 4 + 4 * ((n - 3 + 2) / 3)
    ensures PadLength(n) == PadLength(n - 3)
  {
    AddThree(n - 3 + 2);
    AddThree(n - 3);
  }

  /** Three more units add one to the quotient by three and keep the
      remainder. */
  lemma AddThree(x: nat)
    ensures (x + 3) / 3 == x / 3 + 1 && (x + 3) % 3 == x % 3
  {
  }

  /** Fewer than three bytes take one group, or none, and pad it out. */
  lemma ShortInput(n: nat)
    requires n < 3
    ensures 4 * ((n + 2) / 3) == (if n == 0 then 0 else 4)
    ensures PadLength(n) == (if n == 0 then 0 else 3 - n)
  {
  }

  /** A group of data symbols in front of an encoding keeps the symbols
      drawn from the alphabet and the pads at the end. */
  lemma PrependGroup(head: seq<uint8>, tail: seq<uint8>, k: nat)
    requires |head| == 4 && k <= |tail|
    requires forall j :: 0 <= j < 4 ==> IsAlphabetSymbol(head[j]) && head[j] != B64Pad
    requires forall i :: 0 <= i < |tail| ==> IsAlphabetSymbol(tail[i]) || tail[i] == B64Pad
    requires forall i :: 0 <= i < |tail| ==> (tail[i] == B64Pad <==> i >= |tail| - k)
    ensures forall i :: 0 <= i < |head + tail| ==> IsAlphabetSymbol((head + tail)[i]) || (head + tail)[i] == B64Pad
    ensures forall i :: 0 <= i < |head + tail| ==> ((head + tail)[i] == B64Pad <==> i >= |head + tail| - k)
  {
    forall i | 0 <= i < |head + tail|
      ensures IsAlphabetSymbol((head + tail)[i]) || (head + tail)[i] == B64Pad
      ensures (head + tail)[i] == B64Pad <==> i >= |head + tail| - k
    {
      if i < 4 {
        assert (head + tail)[i] == head[i];
      } else {
        assert (head + tail)[i] == tail[i - 4];
      }
    }
  }

  /** `b64_encode` as a function of the plain bytes: the whole groups in
      order, then the one- or two-byte tail. The output has 4 symbols for
      each started group, every symbol is from the alphabet or `=`, and
      `=` occurs only as the last one or two symbols. */
  function Encode(plain: seq<uint8>): (cipher: seq<uint8>)
    ensures |cipher| == 4 * ((|plain| + 2) / 3)
    ensures forall i :: 0 <= i < |cipher| ==> IsAlphabetSymbol(cipher[i]) || cipher[i] == B64Pad
    ensures forall i :: 0 <= i < |cipher| ==>
              (cipher[i] == B64Pad <==> i >= |cipher| - PadLength(|plain|))
    decreases |plain|
  {
    if |plain| > 2 then
      var head := EncodeTriple(plain[0], plain[1], plain[2]);
      var tail := Encode(plain[3..]);
      OneGroupMore(|plain|);
      PrependGroup(head, tail, PadLength(|plain|));
      head + tail
    else
      ShortInput(|plain|);
      if |plain| == 2 then EncodeTailTwo(plain[0], plain[1])
      else if |plain| == 1 then EncodeTailOne(plain[0])
      else []
  }

  /** The encoding of more than two bytes is the full group of the first
      three followed by the encoding of the rest. */
  lemma EncodeCons(plain: seq<uint8>)
    requires |plain| > 2
    ensures Encode(plain) == EncodeTriple(plain[0], plain[1], plain[2]) + Encode(plain[3..])
  {
  }

  /** One read of `b64enmap`, as the C code indexes it. */
  method ReadEnMap(v: sextet) returns (c: uint8)
    ensures c == Symbol(v)
  {
    c := EnMap[v];
    EnMapIsTable1(v);
  }

  /** The body of the C loop over full groups: pack three bytes and look
      up the four slices. */
  method EncodeGroupStep(b0: uint8, b1: uint8, b2: uint8) returns (group: seq<uint8>)
    ensures group == EncodeTriple(b0, b1, b2)
  {
    var b := b0 as int * 0x10000 + b1 as int * 0x100 + b2 as int;
    var c0 := ReadEnMap(b / 0x40000);
    var c1 := ReadEnMap((b / 0x1000) % 0x40);
    var c2 := ReadEnMap((b / 0x40) % 0x40);
    var c3 := ReadEnMap(b % 0x40);
    group := [c0, c1, c2, c3];
  }

  /** The C code for the last one or two bytes: the first symbol, then
      the second and third as the count of bytes left demands, then `=`. */
  method EncodeTailStep(tail: seq<uint8>) returns (group: seq<uint8>)
    requires 1 <= |tail| <= 2
    ensures group == Encode(tail)
  {
    var c0 := ReadEnMap(tail[0] / 4);
    var c1, c2;
    if |tail| == 1 {
      c1 := ReadEnMap((tail[0] % 4) * 16);
      c2 := B64Pad;
    } else {
      c1 := ReadEnMap((tail[0] % 4) * 16 + tail[1] / 16);
      c2 := ReadEnMap((tail[1] % 16) * 4);
    }
    group := [c0, c1, c2, B64Pad];
  }

  /** A turn of the loop below: a group moves from what is left to what
      is written, and the whole stays the same. */
  lemma WrittenThenRest(written: seq<uint8>, left: seq<uint8>, head: seq<uint8>, rest: seq<uint8>)
    requires left == head + rest
    ensures written + left == (written + head) + rest
  {
  }

  /** The C routine with its output buffer: the loop over whole groups,
      then the tail, then the NUL terminator. Returns the buffer contents
      and the count of symbols written (the terminator not counted). */
  method B64Encode(plain: seq<uint8>) returns (buffer: seq<uint8>, written: nat)
    ensures written == |Encode(plain)|
    ensures buffer == Encode(plain) + [0]
  {
    if |plain| == 0 {
      return [0], 0;
    }
    var cipher: seq<uint8> := [];
    var i := 0;
    while |plain| - i > 2
      invariant 0 <= i <= |plain|
      invariant cipher + Encode(plain[i..]) == Encode(plain)
    {
      var group := EncodeGroupStep(plain[i], plain[i + 1], plain[i + 2]);
      EncodeCons(plain[i..]);
      assert plain[i..][3..] == plain[i + 3..];
      WrittenThenRest(cipher, Encode(plain[i..]), group, Encode(plain[i + 3..]));
      cipher := cipher + group;
      i := i + 3;
    }
    if |plain| - i > 0 {
      var group := EncodeTailStep(plain[i..]);
      cipher := cipher + group;
    } else {
      assert plain[i..] == [];
    }
    buffer := cipher + [0];
    written := |cipher|;
  }
}
