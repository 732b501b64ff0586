/** The Base64 alphabet of RFC 4648 (section 4, Table 1) and its padding
    rules, written as an independent reference by character ranges. The
    implementation's lookup tables are proved against this module. */
module Rfc4648 {
  import opened Bytes

  /** The pad character `=`. */
  const PadSymbol: uint8 := '=' as uint8

  /** Table 1 read from value to symbol: `A`-`Z` for 0-25, `a`-`z` for
      26-51, `0`-`9` for 52-61, `+` for 62 and `/` for 63. */
  function Table1Symbol(v: sextet): uint8 {
    if v < 26 then 'A' as int + v
    else if v < 52 then 'a' as int + (v - 26)
    else if v < 62 then '0' as int + (v - 52)
    else if v == 62 then '+' as int
    else '/' as int
  }

  /** True for the 64 symbols of Table 1 (and for nothing else, in
      particular not for the pad character). */
  predicate IsAlphabetSymbol(c: uint8) {
    ('A' as int <= c <= 'Z' as int) || ('a' as int <= c <= 'z' as int)
    || ('0' as int <= c <= '9' as int) || c == '+' as int || c == '/' as int
  }

  /** Table 1 read from symbol to value. */
  function Table1Value(c: uint8): (v: sextet)
    requires IsAlphabetSymbol(c)
  {
    if 'A' as int <= c <= 'Z' as int then c - 'A' as int
    else if 'a' as int <= c <= 'z' as int then c - 'a' as int + 26
    else if '0' as int <= c <= '9' as int then c - '0' as int + 52
    else if c == '+' as int then 62
    else 63
  }

  /** Table 1 is a bijection between the 64 values and the 64 symbols,
      and the pad character is not among the symbols. */
  lemma Table1Bijective(c: uint8, v: sextet)
    ensures IsAlphabetSymbol(Table1Symbol(v)) && Table1Value(Table1Symbol(v)) == v
    ensures IsAlphabetSymbol(c) ==> Table1Symbol(Table1Value(c)) == c
    ensures !IsAlphabetSymbol(PadSymbol)
  {
  }

  /** A complete padded encoding: a positive multiple of four symbols, all
      from the alphabet except that the final quantum may end in `=` or
      `==` (RFC 4648 section 4, the three cases of the final quantum). */
  predicate WellFormed(s: seq<uint8>) {
    |s| > 0 && |s| % 4 == 0
    && (forall i :: 0 <= i < |s| - 2 ==> IsAlphabetSymbol(s[i]))
    && (IsAlphabetSymbol(s[|s| - 2]) || s[|s| - 2] == PadSymbol)
    && (IsAlphabetSymbol(s[|s| - 1]) || s[|s| - 1] == PadSymbol)
    && (s[|s| - 2] == PadSymbol ==> s[|s| - 1] == PadSymbol)
  }

  /** The number of pad characters that end a well-formed encoding. */
  function PadCount(s: seq<uint8>): (k: nat)
    requires WellFormed(s)
    ensures k <= 2
    ensures k == |set i | |s| - 2 <= i < |s| && s[i] == PadSymbol|
  {
    if s[|s| - 2] == PadSymbol then
      assert (set i | |s| - 2 <= i < |s| && s[i] == PadSymbol) == {|s| - 2, |s| - 1};
      2
    else if s[|s| - 1] == PadSymbol then
      assert (set i | |s| - 2 <= i < |s| && s[i] == PadSymbol) == {|s| - 1};
      1
    else
      assert (set i | |s| - 2 <= i < |s| && s[i] == PadSymbol) == {};
      0
  }

  /** The symbol whose value is that of `c` with its low bits cleared, so
      that it is a multiple of `m`. */
  function ClearLowBits(c: uint8, m: nat): (r: uint8)
    requires IsAlphabetSymbol(c) && (m == 4 || m == 16)
    ensures IsAlphabetSymbol(r) && Table1Value(r) % m == 0
    ensures Table1Value(r) / m == Table1Value(c) / m
  {
    var v := Table1Value(c);
    var w: sextet := if m == 4 then v / 4 * 4 else v / 16 * 16;
    assert m == 4 ==> w % 4 == 0 && w / 4 == v / 4;
    assert m == 16 ==> w % 16 == 0 && w / 16 == v / 16;
    Table1Bijective(c, w);
    Table1Symbol(w)
  }

  /** The canonical form of a well-formed encoding (RFC 4648 section 3.5):
      the bits of the last data symbol that only fill the group, two before
      `=` and four before `==`, are set to zero; every other symbol is
      kept. */
  function Canonical(s: seq<uint8>): (r: seq<uint8>)
    requires WellFormed(s)
    ensures |r| == |s| && WellFormed(r) && PadCount(r) == PadCount(s)
    ensures forall i :: 0 <= i < |s| && i != |s| - 1 - PadCount(s) ==> r[i] == s[i]
    ensures PadCount(s) == 1 ==> Table1Value(r[|s| - 2]) / 4 == Table1Value(s[|s| - 2]) / 4
                                 && Table1Value(r[|s| - 2]) % 4 == 0
    ensures PadCount(s) == 2 ==> Table1Value(r[|s| - 3]) / 16 == Table1Value(s[|s| - 3]) / 16
                                 && Table1Value(r[|s| - 3]) % 16 == 0
  {
    var k := PadCount(s);
    if k == 0 then s
    else
      var j := |s| - 1 - k;
      s[j := ClearLowBits(s[j], if k == 1 then 4 else 16)]
  }
}
