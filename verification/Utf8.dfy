/** UTF-8 (section 3 of RFC 3629): how text becomes the bytes that are hashed. */
module Utf8 {
  type byte = b: int | 0 <= b < 256

  type bytes = seq<byte>

  function EncodeChar(c: char): (r: bytes)
    ensures 1 <= |r| <= 4
  {
    var n := c as int;
    if n < 0x80 then [n]
    else if n < 0x800 then [0xC0 + n / 64, 0x80 + n % 64]
    else if n < 0x10000 then [0xE0 + n / 4096, 0x80 + n / 64 % 64, 0x80 + n % 64]
    else [0xF0 + n / 262144, 0x80 + n / 4096 % 64, 0x80 + n / 64 % 64, 0x80 + n % 64]
  }

  function Encode(s: string): bytes {
    if s == "" then [] else EncodeChar(s[0]) + Encode(s[1..])
  }

  /** The code point of the first encoded character, and how many bytes it takes. */
  function DecodeFirst(b: bytes): (int, nat) {
    var at := (i: int) => if 0 <= i < |b| then b[i] as int else 0;
    if at(0) < 0x80 then (at(0), 1)
    else if at(0) < 0xE0 then ((at(0) - 0xC0) * 64 + (at(1) - 0x80), 2)
    else if at(0) < 0xF0 then ((at(0) - 0xE0) * 4096 + (at(1) - 0x80) * 64 + (at(2) - 0x80), 3)
    else ((at(0) - 0xF0) * 262144 + (at(1) - 0x80) * 4096 + (at(2) - 0x80) * 64 + (at(3) - 0x80), 4)
  }

  lemma Places(n: nat)
    ensures n == n / 64 * 64 + n % 64
    ensures n / 64 == n / 4096 * 64 + n / 64 % 64
    ensures n / 4096 == n / 262144 * 64 + n / 4096 % 64
  {
    assert n / 64 / 64 == n / 4096 && n / 4096 / 64 == n / 262144;
  }

  lemma DecodeOfEncode(c: char, t: bytes)
    ensures DecodeFirst(EncodeChar(c) + t) == (c as int, |EncodeChar(c)|)
  {
    Places(c as int);
  }

  /** No two texts share an encoding. */
  lemma {:induction false} EncodeIsInjective(s: string, t: string)
    requires Encode(s) == Encode(t)
    ensures s == t
  {
    hide EncodeChar, DecodeFirst;
    if s != "" && t != "" {
      DecodeOfEncode(s[0], Encode(s[1..]));
      DecodeOfEncode(t[0], Encode(t[1..]));
      assert s[0] == t[0];
      assert Encode(s)[|EncodeChar(s[0])|..] == Encode(s[1..]);
      assert Encode(t)[|EncodeChar(t[0])|..] == Encode(t[1..]);
      EncodeIsInjective(s[1..], t[1..]);
      assert s == [s[0]] + s[1..] && t == [t[0]] + t[1..];
    }
  }

  // -- the syntax of section 4 of RFC 3629 ----------------------------------

  predicate IsTail(b: byte) { 0x80 <= b <= 0xBF }

  /** The byte sequences the syntax allows: no longer form where a shorter one exists, and no surrogates. */
  predicate IsCharacter(b: bytes) {
    || (|b| == 1 && b[0] <= 0x7F)
    || (|b| == 2 && 0xC2 <= b[0] <= 0xDF && IsTail(b[1]))
    || (|b| == 3 && IsTail(b[2])
        && (|| (b[0] == 0xE0 && 0xA0 <= b[1] <= 0xBF)
            || (0xE1 <= b[0] <= 0xEC && IsTail(b[1]))
            || (b[0] == 0xED && 0x80 <= b[1] <= 0x9F)
            || (0xEE <= b[0] <= 0xEF && IsTail(b[1]))))
    || (|b| == 4 && IsTail(b[2]) && IsTail(b[3])
        && (|| (b[0] == 0xF0 && 0x90 <= b[1] <= 0xBF)
            || (0xF1 <= b[0] <= 0xF3 && IsTail(b[1]))
            || (b[0] == 0xF4 && 0x80 <= b[1] <= 0x8F)))
  }

  /** The code point whose bits a sequence of the syntax carries. */
  function CodePoint(b: bytes): int
    requires IsCharacter(b)
  {
    var first, last := b[0] as int, b[|b| - 1] as int - 0x80;
    if |b| == 1 then first
    else
      var second := b[1] as int - 0x80;
      if |b| == 2 then (first - 0xC0) * 0x40 + last
      else if |b| == 3 then (first - 0xE0) * 0x1000 + second * 0x40 + last
      else (first - 0xF0) * 0x40000 + second * 0x1000 + (b[2] as int - 0x80) * 0x40 + last
  }

  ghost predicate Encodes(b: bytes, c: char) { IsCharacter(b) && CodePoint(b) == c as int }

  /** The bytes of one character after the other. */
  ghost predicate IsUtf8(b: bytes, s: string)
    decreases |s|
  {
    if s == "" then b == []
    else exists n: nat :: n <= |b| && Encodes(b[..n], s[0]) && IsUtf8(b[n..], s[1..])
  }

  lemma EncodedIsCharacter(c: char)
    ensures Encodes(EncodeChar(c), c)
  {
    Places(c as int);
  }

  /** No two sequences of the syntax carry one code point. */
  lemma CharacterIsUnique(b: bytes, d: bytes)
    requires IsCharacter(b) && IsCharacter(d) && CodePoint(b) == CodePoint(d)
    ensures b == d
  {
    CodePointRange(b);
    CodePointRange(d);
  }

  /** The ranges of the table in section 3 of RFC 3629. */
  lemma CodePointRange(b: bytes)
    requires IsCharacter(b)
    ensures |b| == 1 <==> CodePoint(b) < 0x80
    ensures |b| == 2 <==> 0x80 <= CodePoint(b) < 0x800
    ensures |b| == 3 <==> 0x800 <= CodePoint(b) < 0x10000
    ensures |b| == 4 <==> 0x10000 <= CodePoint(b)
  {
  }

  /** The encoding of a text is the one byte sequence that the standard gives it. */
  lemma {:induction false} EncodeExactly(b: bytes, s: string)
    ensures IsUtf8(b, s) <==> b == Encode(s)
    decreases |s|
  {
    hide EncodeChar, IsCharacter, CodePoint;
    if s != "" {
      var e := EncodeChar(s[0]);
      EncodedIsCharacter(s[0]);
      if IsUtf8(b, s) {
        var n: nat :| n <= |b| && Encodes(b[..n], s[0]) && IsUtf8(b[n..], s[1..]);
        CharacterIsUnique(b[..n], e);
        EncodeExactly(b[n..], s[1..]);
        assert b == b[..n] + b[n..];
      }
      if b == Encode(s) {
        assert b[..|e|] == e && b[|e|..] == Encode(s[1..]);
        EncodeExactly(b[|e|..], s[1..]);
      }
    }
  }

  /** A zero byte is the encoding of NUL and of nothing else. */
  lemma {:induction false} ZeroIsNul(s: string)
    ensures 0 in Encode(s) <==> '\0' in s
  {
    if s != "" {
      ZeroIsNul(s[1..]);
      assert 0 in EncodeChar(s[0]) <==> s[0] == '\0';
      assert s == [s[0]] + s[1..];
    }
  }
}
