/** UTF-16 encoding of Unicode code points (section 2.1 of RFC 2781), as
    Java's Character.charCount and Character.toChars perform it. */
module Utf16 {

  const MinCodePoint := 0
  const MaxCodePoint := 0x10FFFF
  const MinSupplementaryCodePoint := 0x10000

  type CodePoint = c: int | MinCodePoint <= c <= MaxCodePoint

  predicate IsCodeUnit(u: int) { 0 <= u <= 0xFFFF }
  predicate IsHighSurrogate(u: int) { 0xD800 <= u <= 0xDBFF }
  predicate IsLowSurrogate(u: int) { 0xDC00 <= u <= 0xDFFF }
  predicate IsSurrogate(u: int) { 0xD800 <= u <= 0xDFFF }

  /** Number of 16-bit units Java uses for `c` (Character.charCount). */
  function CharCount(c: CodePoint): nat {
    if c >= MinSupplementaryCodePoint then 2 else 1
  }

  /** Character.toChars: a BMP value (lone surrogates included) is one unit,
      a supplementary code point a high surrogate followed by a low one. */
  function ToChars(c: CodePoint): (u: seq<int>)
    ensures |u| == CharCount(c)
    ensures forall k :: 0 <= k < |u| ==> IsCodeUnit(u[k])
    ensures c < MinSupplementaryCodePoint ==> u == [c]
    ensures c >= MinSupplementaryCodePoint ==> IsHighSurrogate(u[0]) && IsLowSurrogate(u[1])
  {
    if c < MinSupplementaryCodePoint then [c]
    else
      var v := c - MinSupplementaryCodePoint;
      [0xD800 + v / 0x400, 0xDC00 + v % 0x400]
  }

  /** Reads a run of code units back as code points: a high surrogate
      followed by a low surrogate is one code point, any other unit stands
      for itself. */
  function Decode(u: seq<int>): seq<int>
    decreases |u|
  {
    if |u| == 0 then []
    else if |u| >= 2 && IsHighSurrogate(u[0]) && IsLowSurrogate(u[1]) then
      [MinSupplementaryCodePoint + (u[0] - 0xD800) * 0x400 + (u[1] - 0xDC00)] + Decode(u[2..])
    else [u[0]] + Decode(u[1..])
  }

  /** Decoding the units of one code point that is not itself a surrogate,
      followed by anything, yields that code point first. */
  lemma {:induction false} DecodeToChars(c: CodePoint, rest: seq<int>)
    requires !IsSurrogate(c)
    ensures Decode(ToChars(c) + rest) == [c as int] + Decode(rest)
  {
    var u := ToChars(c) + rest;
    if c >= MinSupplementaryCodePoint {
      var v := c - MinSupplementaryCodePoint;
      assert u[0] == 0xD800 + v / 0x400 && u[1] == 0xDC00 + v % 0x400;
      assert (u[0] - 0xD800) * 0x400 + (u[1] - 0xDC00) == v;
      assert u[2..] == rest;
    } else {
      assert u[1..] == rest;
    }
  }
}
