/** Byte strings and the UTF-8 grammar of section 4 of RFC 3629, as Go's utf8.DecodeRune accepts it. */
module Utf8 {
  type byte = x: int | 0 <= x < 256
  type bytes = seq<byte>

  /** The encoding of U+FFFD, the replacement character. */
  const REPLACEMENT: bytes := [0xEF, 0xBF, 0xBD]

  lemma Assoc(a: bytes, b: bytes, c: bytes)
    ensures (a + b) + c == a + (b + c)
  {
  }

  predicate Tail(b: byte) {
    0x80 <= b <= 0xBF
  }

  /** The second byte a three-byte lead admits. */
  predicate SecondOfThree(lead: byte, b: byte) {
    && Tail(b)
    && (lead == 0xE0 ==> 0xA0 <= b)
    && (lead == 0xED ==> b <= 0x9F)
  }

  /** The second byte a four-byte lead admits. */
  predicate SecondOfFour(lead: byte, b: byte) {
    && Tail(b)
    && (lead == 0xF0 ==> 0x90 <= b)
    && (lead == 0xF4 ==> b <= 0x8F)
  }

  /** The length of the UTF-8 character `s` starts with; 0 when it starts with none. */
  function CharLen(s: bytes): (n: nat)
    ensures n <= 4 && n <= |s|
  {
    if s == [] then 0
    else if s[0] < 0x80 then 1
    else if 0xC2 <= s[0] <= 0xDF && |s| >= 2 && Tail(s[1]) then 2
    else if 0xE0 <= s[0] <= 0xEF && |s| >= 3 && SecondOfThree(s[0], s[1]) && Tail(s[2]) then 3
    else if 0xF0 <= s[0] <= 0xF4 && |s| >= 4 && SecondOfFour(s[0], s[1]) && Tail(s[2]) && Tail(s[3]) then 4
    else 0
  }

  /** `s` is a sequence of UTF-8 characters. */
  predicate ValidUtf8(s: bytes) {
    s == [] || (CharLen(s) > 0 && ValidUtf8(s[CharLen(s)..]))
  }

  predicate Scalar(c: int) {
    0 <= c < 0xD800 || 0xE000 <= c <= 0x10FFFF
  }

  /** The bit layout of section 3 of RFC 3629. */
  function EncodeRune(c: int): (s: bytes)
    requires Scalar(c)
  {
    if c < 0x80 then [c]
    else if c < 0x800 then [0xC0 + c / 64, 0x80 + c % 64]
    else if c < 0x10000 then [0xE0 + c / 4096, 0x80 + c / 64 % 64, 0x80 + c % 64]
    else [0xF0 + c / 262144, 0x80 + c / 4096 % 64, 0x80 + c / 64 % 64, 0x80 + c % 64]
  }

  /** The code point that `s` starts with. */
  function DecodeRune(s: bytes): int
    requires CharLen(s) > 0
  {
    var lead: int := s[0];
    match CharLen(s)
    case 1 => lead
    case 2 => (lead - 0xC0) * 64 + LowBits(s[1])
    case 3 => (lead - 0xE0) * 4096 + LowBits(s[1]) * 64 + LowBits(s[2])
    case _ => (lead - 0xF0) * 262144 + LowBits(s[1]) * 4096 + LowBits(s[2]) * 64 + LowBits(s[3])
  }

  /** The six bits a continuation byte carries. */
  function LowBits(b: byte): int {
    b as int - 0x80
  }

  /** Encoding a scalar value gives exactly one character, which decodes to it. */
  lemma EncodeThenDecode(c: int)
    requires Scalar(c)
    ensures CharLen(EncodeRune(c)) == |EncodeRune(c)| > 0
    ensures DecodeRune(EncodeRune(c)) == c
  {
    var s := EncodeRune(c);
    if c < 0x800 {
    } else if c < 0x10000 {
      assert c / 4096 == c / 64 / 64;
      assert |s| == 3 && Tail(s[1]) && Tail(s[2]);
    } else {
      assert c / 4096 == c / 64 / 64 && c / 262144 == c / 4096 / 64;
      assert |s| == 4 && Tail(s[1]) && Tail(s[2]) && Tail(s[3]);
    }
  }

  /** The byte-range grammar accepts exactly the encodings of scalar values. */
  lemma GrammarIsEncoding(s: bytes)
    ensures CharLen(s) > 0 <==> exists c :: Scalar(c) && EncodeRune(c) <= s
  {
    if CharLen(s) > 0 {
      DecodeThenEncode(s);
    }
    forall c | Scalar(c) && EncodeRune(c) <= s ensures CharLen(s) > 0 {
      EncodeThenDecode(c);
      CharLenPrefix(EncodeRune(c), s[|EncodeRune(c)|..]);
      assert EncodeRune(c) + s[|EncodeRune(c)|..] == s;
    }
  }

  lemma DecodeThenEncode(s: bytes)
    requires CharLen(s) > 0
    ensures Scalar(DecodeRune(s)) && EncodeRune(DecodeRune(s)) == s[..CharLen(s)]
  {
    var lead: int := s[0];
    match CharLen(s)
    case 1 =>
    case 2 => assert DecodeRune(s) / 64 == lead - 0xC0;
    case 3 => DecodeThree(s);
    case _ => DecodeFour(s);
  }

  lemma DecodeThree(s: bytes)
    requires CharLen(s) == 3
    ensures Scalar(DecodeRune(s)) && EncodeRune(DecodeRune(s)) == s[..3]
  {
    var c, lead: int := DecodeRune(s), s[0];
    assert c / 64 == (lead - 0xE0) * 64 + LowBits(s[1]) && c % 64 == LowBits(s[2]);
    assert c / 4096 == lead - 0xE0 && c / 64 % 64 == LowBits(s[1]);
  }

  lemma DecodeFour(s: bytes)
    requires CharLen(s) == 4
    ensures Scalar(DecodeRune(s)) && EncodeRune(DecodeRune(s)) == s[..4]
  {
    var c, lead: int := DecodeRune(s), s[0];
    assert c / 64 == (lead - 0xF0) * 4096 + LowBits(s[1]) * 64 + LowBits(s[2]) && c % 64 == LowBits(s[3]);
    assert c / 4096 == (lead - 0xF0) * 64 + LowBits(s[1]) && c / 64 % 64 == LowBits(s[2]);
    assert c / 262144 == lead - 0xF0 && c / 4096 % 64 == LowBits(s[1]);
  }

  /** What follows a character does not change it. */
  lemma CharLenPrefix(s: bytes, rest: bytes)
    requires CharLen(s) > 0
    ensures CharLen(s + rest) == CharLen(s)
    ensures CharLen(s[..CharLen(s)] + rest) == CharLen(s)
  {
    var n := CharLen(s);
    var t := s[..n] + rest;
    assert t[0] == s[0] && (n > 1 ==> t[1] == s[1]) && (n > 2 ==> t[2] == s[2]) && (n > 3 ==> t[3] == s[3]);
  }

  /** A character followed by valid text is valid text. */
  lemma ValidCons(c: bytes, rest: bytes)
    requires CharLen(c) == |c| > 0
    requires ValidUtf8(rest)
    ensures ValidUtf8(c + rest)
  {
    CharLenPrefix(c, rest);
    assert (c + rest)[|c|..] == rest;
  }

  /** Valid text that is not empty is one character and more valid text. */
  lemma FirstChar(s: bytes) returns (head: bytes, tail: bytes)
    requires s != [] && ValidUtf8(s)
    ensures s == head + tail && CharLen(s) == CharLen(head) == |head| > 0 && ValidUtf8(tail)
  {
    head, tail := s[..CharLen(s)], s[CharLen(s)..];
    CharLenPrefix(s, []);
    assert head + [] == head;
  }

  lemma {:induction false} ValidConcat(a: bytes, b: bytes)
    requires ValidUtf8(a) && ValidUtf8(b)
    ensures ValidUtf8(a + b)
    decreases |a|
  {
    hide ValidUtf8, CharLen;
    if a == [] {
      assert a + b == b;
    } else {
      var head, tail := FirstChar(a);
      ValidConcat(tail, b);
      assert a + b == head + (tail + b);
      ValidCons(head, tail + b);
    }
  }

  lemma {:induction false} AsciiValid(s: bytes)
    requires forall b :: b in s ==> b < 0x80
    ensures ValidUtf8(s)
  {
    if s != [] {
      assert s[0] in s && forall b :: b in s[1..] ==> b in s;
      AsciiValid(s[1..]);
    }
  }
}
