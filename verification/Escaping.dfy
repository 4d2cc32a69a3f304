/**
 The escaping printer of the text encoder and a reader for it.

 The printer escapes the way section 7 of RFC 8259 allows; the reader accepts every
 string body of that section (with strict UTF-8), not just what the printer writes.
 */
module Escaping {
  import opened Options
  import opened Utf8

  const QUOTE: byte := 0x22
  const BACKSLASH: byte := 0x5C
  const SPACE: byte := 0x20
  const LBRACKET: byte := 0x5B
  const RBRACKET: byte := 0x5D
  const LBRACE: byte := 0x7B
  const RBRACE: byte := 0x7D
  const EQUALS: byte := 0x3D
  const COMMA: byte := 0x2C
  const COLON: byte := 0x3A
  const NEWLINE: byte := 0x0A

  /** What is written for a byte that starts no UTF-8 character: backslash, "ufffd". */
  const RUNE_ERROR: bytes := [0x5C, 0x75, 0x66, 0x66, 0x66, 0x64]

  // ---------------------------------------------------------------- printer

  function HexDigit(d: nat): byte
    requires d < 16
  {
    if d < 10 then 0x30 + d else 0x57 + d
  }

  /** What is written for a byte below 0x80. */
  function EscapeByte(b: byte): (r: bytes)
    requires b < 0x80
  {
    if 0x20 <= b && b != BACKSLASH && b != QUOTE then [b]
    else if b == BACKSLASH || b == QUOTE then [BACKSLASH, b]
    else if b == 0x0A then [BACKSLASH, 0x6E]
    else if b == 0x0D then [BACKSLASH, 0x72]
    else if b == 0x09 then [BACKSLASH, 0x74]
    else [BACKSLASH, 0x75, 0x30, 0x30, HexDigit(b / 16), HexDigit(b % 16)]
  }

  /** How many bytes of `s` the printer handles in one turn of its loop. */
  function Chunk(s: bytes): (n: nat)
    requires s != []
    ensures 0 < n <= |s|
  {
    if CharLen(s) == 0 then 1 else CharLen(s)
  }

  /** What it writes in that turn. */
  function EscapeChunk(s: bytes): bytes
    requires s != []
  {
    if s[0] < 0x80 then EscapeByte(s[0])
    else if CharLen(s) == 0 then RUNE_ERROR
    else s[..CharLen(s)]
  }

  function Escape(s: bytes): bytes {
    if s == [] then [] else EscapeChunk(s) + Escape(s[Chunk(s)..])
  }

  /** `s` with every byte that starts no UTF-8 character replaced by U+FFFD. */
  function Sanitize(s: bytes): bytes {
    if s == [] then []
    else SanitizeChunk(s) + Sanitize(s[Chunk(s)..])
  }

  function SanitizeChunk(s: bytes): bytes
    requires s != []
  {
    if CharLen(s) == 0 then REPLACEMENT else s[..CharLen(s)]
  }

  /** Whether the log format wants `s` in double quotes. */
  predicate NeedsQuotes(s: bytes) {
    exists i :: 0 <= i < |s| && Special(s[i])
  }

  predicate Special(b: byte) {
    b <= 0x20 || b == BACKSLASH || b == QUOTE || b == LBRACKET || b == RBRACKET || b == EQUALS
  }

  /** A key or a value as the encoder writes it: escaped, in quotes when it needs them. */
  function Token(s: bytes): bytes {
    if NeedsQuotes(s) then [QUOTE] + Escape(s) + [QUOTE] else Escape(s)
  }

  // ----------------------------------------------------------------- reader

  function HexValue(b: byte): int {
    if 0x30 <= b <= 0x39 then b as int - 0x30
    else if 0x41 <= b <= 0x46 then b as int - 0x37
    else if 0x61 <= b <= 0x66 then b as int - 0x57
    else -1
  }

  /** The value of four hexadecimal digits at the start of `t`; -1 if they are not there. */
  function Hex4(t: bytes): (v: int)
    ensures -1 <= v < 0x10000
  {
    if |t| < 4 || (exists i :: 0 <= i < 4 && HexValue(t[i]) < 0) then -1
    else HexValue(t[0]) * 4096 + HexValue(t[1]) * 256 + HexValue(t[2]) * 16 + HexValue(t[3])
  }

  /** The characters that may follow a backslash on their own, with their meaning. */
  function ShortEscape(b: byte): Option<byte> {
    if b == QUOTE || b == BACKSLASH || b == 0x2F then Some(b)
    else if b == 0x62 then Some(0x08)
    else if b == 0x66 then Some(0x0C)
    else if b == 0x6E then Some(0x0A)
    else if b == 0x72 then Some(0x0D)
    else if b == 0x74 then Some(0x09)
    else None
  }

  /** What one character of a string body stands for, and how many bytes spell it. */
  datatype Piece = Piece(text: bytes, length: nat)

  /** A \u escape; two of them spell a character outside the basic plane. */
  function ReadUnicode(t: bytes): (r: Option<Piece>)
    requires |t| >= 2
    ensures r.Some? ==> 0 < r.value.length <= |t|
  {
    var hi := Hex4(t[2..]);
    if hi < 0 then None
    else if Scalar(hi) then Some(Piece(EncodeRune(hi), 6))
    else if hi < 0xDC00 && |t| >= 12 && t[6] == BACKSLASH && t[7] == 0x75 && 0xDC00 <= Hex4(t[8..]) < 0xE000 then
      Some(Piece(EncodeRune(0x10000 + (hi - 0xD800) * 1024 + (Hex4(t[8..]) - 0xDC00)), 12))
    else None
  }

  function ReadPiece(t: bytes): (r: Option<Piece>)
    requires t != []
    ensures r.Some? ==> 0 < r.value.length <= |t|
  {
    if t[0] == BACKSLASH then
      if |t| < 2 then None
      else if t[1] == 0x75 then ReadUnicode(t)
      else match ShortEscape(t[1]) case None => None case Some(b) => Some(Piece([b], 2))
    else if t[0] < 0x20 || t[0] == QUOTE || CharLen(t) == 0 then None
    else Some(Piece(t[..CharLen(t)], CharLen(t)))
  }

  /** The pieces of `t` up to the first one that starts with a byte of `stop`, or to its end. */
  function Read(t: bytes, stop: set<byte>): (r: Option<Piece>)
    ensures r.Some? ==> r.value.length <= |t|
    decreases |t|
  {
    if t == [] || t[0] in stop then Some(Piece([], 0))
    else match ReadPiece(t)
      case None => None
      case Some(p) =>
        match Read(t[p.length..], stop)
        case None => None
        case Some(q) => Some(Piece(p.text + q.text, p.length + q.length))
  }

  /** A whole string body, as section 7 of RFC 8259 has it between the quotes. */
  function Unescape(t: bytes): Option<bytes> {
    match Read(t, {QUOTE})
    case None => None
    case Some(p) => if p.length == |t| then Some(p.text) else None
  }

  /** A token that ends before the first byte of `stop`, unless it is quoted. */
  function ReadToken(t: bytes, stop: set<byte>): (r: Option<Piece>)
    ensures r.Some? ==> r.value.length <= |t|
  {
    if t != [] && t[0] == QUOTE then
      match Read(t[1..], {QUOTE})
      case None => None
      case Some(p) => if p.length + 1 < |t| then Some(Piece(p.text, p.length + 2)) else None
    else Read(t, stop)
  }

  /** What a token on its own stands for. */
  function DecodeToken(t: bytes): Option<bytes> {
    match ReadToken(t, {})
    case None => None
    case Some(p) => if p.length == |t| then Some(p.text) else None
  }

  // ----------------------------------------------------------- round trips

  /** Reading one printed piece gives what was printed, whatever follows. */
  lemma ReadEscapeByte(b: byte, rest: bytes)
    requires b < 0x80
    ensures ReadPiece(EscapeByte(b) + rest) == Some(Piece([b], |EscapeByte(b)|))
  {
    var e := EscapeByte(b);
    var t := e + rest;
    if |e| == 6 {
      var u := t[2..];
      assert u[0] == 0x30 && u[1] == 0x30 && u[2] == HexDigit(b / 16) && u[3] == HexDigit(b % 16);
      assert HexValue(u[2]) == b / 16 && HexValue(u[3]) == b % 16;
      assert Hex4(u) == b;
    } else if |e| == 1 {
      assert t[..1] == [b];
    }
  }

  lemma ReadRuneError(rest: bytes)
    ensures ReadPiece(RUNE_ERROR + rest) == Some(Piece(REPLACEMENT, |RUNE_ERROR|))
  {
    var t := RUNE_ERROR + rest;
    var u := t[2..];
    assert u[0] == 0x66 && u[1] == 0x66 && u[2] == 0x66 && u[3] == 0x64;
    assert Hex4(u) == 0xFFFD;
    assert EncodeRune(0xFFFD) == REPLACEMENT;
  }

  lemma ReadEscapeChunk(s: bytes, rest: bytes)
    requires s != []
    ensures ReadPiece(EscapeChunk(s) + rest) == Some(Piece(SanitizeChunk(s), |EscapeChunk(s)|))
    ensures EscapeChunk(s) != [] && (EscapeChunk(s)[0] == s[0] || EscapeChunk(s)[0] == BACKSLASH)
    ensures EscapeChunk(s)[0] != QUOTE
  {
    if s[0] < 0x80 {
      ReadEscapeByte(s[0], rest);
      assert s[..1] == [s[0]];
    } else if CharLen(s) == 0 {
      ReadRuneError(rest);
    } else {
      CharLenPrefix(s, rest);
      assert (s[..CharLen(s)] + rest)[..CharLen(s)] == s[..CharLen(s)];
    }
  }

  /** Reading what the printer wrote stops right after it and gives the input, made valid. */
  lemma {:induction false} ReadEscape(s: bytes, stop: set<byte>, rest: bytes)
    requires BACKSLASH !in stop
    requires forall b :: b in s && b in stop ==> b == QUOTE
    requires rest == [] || rest[0] in stop
    ensures Read(Escape(s) + rest, stop) == Some(Piece(Sanitize(s), |Escape(s)|))
    decreases |s|
  {
    hide *;
    EscapeUnfold(s);
    if s == [] {
      assert Escape(s) + rest == rest;
      ReadStop(rest, stop);
    } else {
      var c, tail := EscapeChunk(s), s[Chunk(s)..];
      ReadEscape(tail, stop, rest);
      ReadEscapeChunk(s, Escape(tail) + rest);
      assert s[0] in s;
      ReadStep(c, SanitizeChunk(s), Escape(tail) + rest, stop);
      Assoc(c, Escape(tail), rest);
    }
  }

  lemma EscapeUnfold(s: bytes)
    ensures s == [] ==> Escape(s) == [] && Sanitize(s) == []
    ensures s != [] ==> Escape(s) == EscapeChunk(s) + Escape(s[Chunk(s)..])
    ensures s != [] ==> Sanitize(s) == SanitizeChunk(s) + Sanitize(s[Chunk(s)..])
  {
  }

  lemma ReadStop(t: bytes, stop: set<byte>)
    requires t == [] || t[0] in stop
    ensures Read(t, stop) == Some(Piece([], 0))
  {
  }

  /** One turn of the reader. */
  lemma ReadStep(c: bytes, text: bytes, t: bytes, stop: set<byte>)
    requires c != [] && c[0] !in stop
    requires ReadPiece(c + t) == Some(Piece(text, |c|))
    requires Read(t, stop).Some?
    ensures Read(c + t, stop) == Some(Piece(text + Read(t, stop).value.text, |c| + Read(t, stop).value.length))
  {
    assert (c + t)[|c|..] == t;
  }

  /** Escaping is undone by the reader, for every byte string. */
  lemma UnescapeEscape(s: bytes)
    ensures Unescape(Escape(s)) == Some(Sanitize(s))
  {
    ReadEscape(s, {QUOTE}, []);
    assert Escape(s) + [] == Escape(s);
  }

  /** A printed token is read back whatever follows it, as long as that starts with a stop byte. */
  lemma ReadTokenToken(s: bytes, stop: set<byte>, rest: bytes)
    requires forall b :: b in stop ==> Special(b) && b != BACKSLASH && b != QUOTE
    requires rest == [] || rest[0] in stop
    ensures ReadToken(Token(s) + rest, stop) == Some(Piece(Sanitize(s), |Token(s)|))
  {
    hide Escape, Sanitize, Read;
    if NeedsQuotes(s) {
      var t := Escape(s) + ([QUOTE] + rest);
      ReadEscape(s, {QUOTE}, [QUOTE] + rest);
      assert Token(s) + rest == [QUOTE] + t && ([QUOTE] + t)[1..] == t;
    } else {
      assert forall b :: b in s ==> !Special(b);
      ReadEscape(s, stop, rest);
      BareStart(s);
      assert rest == [] || rest[0] != QUOTE;
      assert Escape(s) + rest == [] || (Escape(s) + rest)[0] != QUOTE;
    }
  }

  lemma BareStart(s: bytes)
    ensures Escape(s) != [] ==> Escape(s)[0] != QUOTE
  {
    if s != [] {
      ReadEscapeChunk(s, []);
    }
  }

  lemma DecodeTokenToken(s: bytes)
    ensures DecodeToken(Token(s)) == Some(Sanitize(s))
  {
    ReadTokenToken(s, {}, []);
    assert Token(s) + [] == Token(s);
  }

  // ------------------------------------------------------ what is preserved

  /** Sanitizing gives valid text, and leaves valid text alone. */
  lemma {:induction false} SanitizeSpec(s: bytes)
    ensures ValidUtf8(Sanitize(s))
    ensures ValidUtf8(s) <==> Sanitize(s) == s
    decreases |s|
  {
    hide *;
    EscapeUnfold(s);
    if s == [] {
      ValidUnfold(s);
    } else {
      var c, tail := SanitizeChunk(s), s[Chunk(s)..];
      SanitizeSpec(tail);
      SanitizeChunkSpec(s, Sanitize(tail));
      ValidUnfold(s);
      ValidCons(c, Sanitize(tail));
    }
  }

  /** A chunk is made one valid character, and is unchanged only if it was one. */
  lemma SanitizeChunkSpec(s: bytes, rest: bytes)
    requires s != []
    ensures CharLen(SanitizeChunk(s)) == |SanitizeChunk(s)| > 0
    ensures SanitizeChunk(s) + rest == s <==> CharLen(s) > 0 && rest == s[Chunk(s)..]
  {
    var c := SanitizeChunk(s);
    CharLenPrefix(c, rest);
    if CharLen(s) > 0 {
      CharLenPrefix(s, []);
      assert s[..CharLen(s)] + [] == s[..CharLen(s)];
      assert s == c + s[Chunk(s)..] && (c + rest)[|c|..] == rest;
    }
  }

  lemma ValidUnfold(s: bytes)
    ensures ValidUtf8(s) <==> s == [] || (CharLen(s) > 0 && ValidUtf8(s[Chunk(s)..]))
  {
  }

  // ------------------------------------------------- which form is written

  /** Quotes are put around a text with a blank, a control byte, a quote, a backslash, a bracket or an equals sign. */
  lemma QuotesExactly(s: bytes)
    ensures Token(s) == [0x22] + Escape(s) + [0x22]
       <==> exists b :: b in s && (b <= 0x20 || b == 0x22 || b == 0x5C || b == 0x5B || b == 0x5D || b == 0x3D)
    ensures Token(s) == Escape(s) || Token(s) == [0x22] + Escape(s) + [0x22]
  {
    BareStart(s);
    hide Escape;
    assert ([0x22] + Escape(s) + [0x22])[0] == QUOTE;
    if i :| 0 <= i < |s| && Special(s[i]) {
      assert s[i] in s;
    }
    if b :| b in s && (b <= 0x20 || b == 0x22 || b == 0x5C || b == 0x5B || b == 0x5D || b == 0x3D) {
      assert Special(b);
    }
  }

  /**
   Of the spellings the reader takes for a byte below 0x80 the printer takes the byte itself;
   for a quote, a backslash, a line feed, a carriage return and a tab the short escape; and for
   any other control byte the long one with digits in lower case.
   */
  lemma EscapeForms(b: byte)
    requires b < 0x80
    ensures var e, short := EscapeByte(b), b == 0x22 || b == 0x5C || b == 0x0A || b == 0x0D || b == 0x09;
            && (forall rest :: ReadPiece(e + rest) == Some(Piece([b], |e|)))
            && |e| == (if short then 2 else if b < 0x20 then 6 else 1)
            && (|e| == 6 ==> e[..4] == [0x5C, 0x75, 0x30, 0x30] && !(0x41 <= e[4] <= 0x46) && !(0x41 <= e[5] <= 0x46))
  {
    hide ReadPiece;
    forall rest ensures ReadPiece(EscapeByte(b) + rest) == Some(Piece([b], |EscapeByte(b)|)) {
      ReadEscapeByte(b, rest);
    }
  }

  /** How a text begins: an ASCII byte in its form, a bad byte as the six bytes of an escape, a character as it is. */
  lemma EscapeStarts(s: bytes)
    requires s != []
    ensures s[0] < 0x80 ==> Escape(s) == EscapeByte(s[0]) + Escape(s[1..])
    ensures CharLen(s) == 0 ==> Escape(s) == [0x5C, 0x75, 0x66, 0x66, 0x66, 0x64] + Escape(s[1..])
    ensures s[0] >= 0x80 && CharLen(s) > 0 ==> Escape(s) == s[..CharLen(s)] + Escape(s[CharLen(s)..])
  {
    EscapeUnfold(s);
    hide Escape;
  }

  /** The characters of a byte string in order, None for a byte that starts none. */
  function Marks(s: bytes): seq<Option<bytes>> {
    if s == [] then [] else [Mark(s)] + Marks(s[Chunk(s)..])
  }

  function Mark(s: bytes): Option<bytes>
    requires s != []
  {
    if CharLen(s) == 0 then None else Some(s[..CharLen(s)])
  }

  /** Two byte strings print alike exactly if they have the same characters, and bad bytes at the same places. */
  lemma {:induction false} EscapeExactly(a: bytes, b: bytes)
    ensures Escape(a) == Escape(b) <==> Marks(a) == Marks(b)
    decreases |a|
  {
    EscapeUnfold(a);
    EscapeUnfold(b);
    if a != [] { ReadEscapeChunk(a, Escape(a[Chunk(a)..])); }
    if b != [] { ReadEscapeChunk(b, Escape(b[Chunk(b)..])); }
    if a != [] && b != [] {
      var x, y := a[Chunk(a)..], b[Chunk(b)..];
      EscapeExactly(x, y);
      SameChunk(a, b);
      hide Escape, EscapeChunk, ReadPiece, SanitizeChunk, Mark;
      if Escape(a) == Escape(b) {
        assert EscapeChunk(a) == Escape(a)[..|EscapeChunk(a)|] == EscapeChunk(b);
        assert Escape(x) == Escape(a)[|EscapeChunk(a)|..] == Escape(y);
      }
      if Marks(a) == Marks(b) {
        assert Marks(a)[0] == Mark(a) && Marks(b)[0] == Mark(b);
        assert Marks(a)[1..] == Marks(x) && Marks(b)[1..] == Marks(y);
      }
    }
  }

  lemma SameChunk(a: bytes, b: bytes)
    requires a != [] && b != []
    ensures EscapeChunk(a) == EscapeChunk(b) && SanitizeChunk(a) == SanitizeChunk(b) <==> Mark(a) == Mark(b)
  {
    if Mark(a) != None && Mark(a) == Mark(b) {
      assert a[0] == Mark(a).value[0] == b[0];
    }
  }

  /** Whether a byte string needs quotes shows in its characters. */
  lemma {:induction false} QuotesShow(s: bytes)
    ensures NeedsQuotes(s) <==> exists i :: 0 <= i < |Marks(s)| && SpecialMark(Marks(s)[i])
  {
    if s != [] {
      var tail := s[Chunk(s)..];
      QuotesShow(tail);
      QuotesUnfold(s);
      hide Mark, NeedsQuotes, SpecialMark;
      assert Marks(s) == [Mark(s)] + Marks(tail);
      assert SpecialMark(Mark(s)) ==> SpecialMark(Marks(s)[0]);
      forall i | 0 <= i < |Marks(tail)| ensures Marks(tail)[i] == Marks(s)[i + 1] {}
    }
  }

  predicate SpecialMark(m: Option<bytes>) {
    m.Some? && |m.value| == 1 && Special(m.value[0])
  }

  lemma QuotesUnfold(s: bytes)
    requires s != []
    ensures NeedsQuotes(s) <==> SpecialMark(Mark(s)) || NeedsQuotes(s[Chunk(s)..])
  {
    var n := Chunk(s);
    forall i | 0 <= i < n ensures Special(s[i]) ==> n == 1 {}
    if i :| 0 <= i < |s| && Special(s[i]) {
      assert i >= n ==> s[n..][i - n] == s[i];
    }
    if i :| 0 <= i < |s[n..]| && Special(s[n..][i]) {
      assert Special(s[n + i]);
    }
  }

  /** Two byte strings give the same token under the same condition. */
  lemma TokenExactly(a: bytes, b: bytes)
    ensures Token(a) == Token(b) <==> Marks(a) == Marks(b)
  {
    EscapeExactly(a, b);
    QuotesShow(a);
    QuotesShow(b);
    BareStart(a);
    BareStart(b);
    hide NeedsQuotes, Escape, Marks;
    if Token(a) == Token(b) && NeedsQuotes(a) && NeedsQuotes(b) {
      assert Escape(a) == Token(a)[1..|Token(a)| - 1] == Escape(b);
    }
  }

  /** Two valid texts that print alike are the same text. */
  lemma EscapeInjective(a: bytes, b: bytes)
    requires ValidUtf8(a) && ValidUtf8(b)
    requires Escape(a) == Escape(b)
    ensures a == b
  {
    UnescapeEscape(a);
    UnescapeEscape(b);
    SanitizeSpec(a);
    SanitizeSpec(b);
  }

  /** Two valid texts that print as the same token are the same text. */
  lemma TokenInjective(a: bytes, b: bytes)
    requires ValidUtf8(a) && ValidUtf8(b)
    requires Token(a) == Token(b)
    ensures a == b
  {
    DecodeTokenToken(a);
    DecodeTokenToken(b);
    SanitizeSpec(a);
    SanitizeSpec(b);
  }

  /** Valid text without control bytes; in particular it has no line break. */
  predicate Clean(s: bytes) {
    ValidUtf8(s) && forall i :: 0 <= i < |s| ==> 0x20 <= s[i]
  }

  lemma CleanConcat(a: bytes, b: bytes)
    requires Clean(a) && Clean(b)
    ensures Clean(a + b)
  {
    ValidConcat(a, b);
  }

  lemma CleanAscii(s: bytes)
    requires forall b :: b in s ==> 0x20 <= b < 0x80
    ensures Clean(s)
  {
    AsciiValid(s);
    assert forall i :: 0 <= i < |s| ==> s[i] in s;
  }

  /** Whatever the input bytes, the printer writes clean text. */
  lemma {:induction false} EscapeClean(s: bytes)
    ensures Clean(Escape(s))
    decreases |s|
  {
    if s != [] {
      EscapeClean(s[Chunk(s)..]);
      EscapeChunkClean(s);
      CleanConcat(EscapeChunk(s), Escape(s[Chunk(s)..]));
    }
  }

  lemma EscapeChunkClean(s: bytes)
    requires s != []
    ensures Clean(EscapeChunk(s))
  {
    var c := EscapeChunk(s);
    if s[0] >= 0x80 && CharLen(s) > 0 {
      CharLenPrefix(s, []);
      assert c + [] == c;
      ValidCons(c, []);
    } else {
      CleanAscii(c);
    }
  }

  lemma TokenClean(s: bytes)
    ensures Clean(Token(s))
  {
    EscapeClean(s);
    if NeedsQuotes(s) {
      CleanAscii([QUOTE]);
      CleanConcat([QUOTE], Escape(s));
      CleanConcat([QUOTE] + Escape(s), [QUOTE]);
    }
  }
}
