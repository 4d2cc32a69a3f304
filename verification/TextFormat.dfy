/**
 What the text encoder writes, as functions over the bytes already in its buffer.

 A marshaler or a field is any script of encoder calls, so what is proved here holds
 after every sequence of calls at every nesting depth.
 */
module TextFormat {
  import opened Options
  import opened Utf8
  import opened Escaping

  /** What Go's formatting of numbers and booleans gives: ASCII letters, digits and signs. */
  type Numeral = t: bytes | forall i :: 0 <= i < |t| ==> 0x20 < t[i] < 0x7F && !Special(t[i]) witness []

  /** What Go's formatting of a time with the encoder's fixed layout gives; it holds spaces. */
  type Stamp = t: bytes | forall i :: 0 <= i < |t| ==> t[i] == 0x20 || (0x20 < t[i] < 0x7F && !Special(t[i])) witness []

  /** The argument of one Append method; Add methods write a key first. */
  datatype Value =
    | Str(text: bytes)                        // strings, durations, callers, levels
    | ByteStr(text: bytes)                    // byte strings, reflected JSON
    | Literal(digits: Numeral)                // booleans, integers, floats, complex numbers
    | Time(stamp: Stamp, nanos: Numeral)       // nanos: what is written when the stamp is empty
    | Array(elements: seq<Call>)
    | Object(members: seq<Call>)

  datatype Call =
    | Append(value: Value)
    | Add(key: bytes, value: Value)
    | OpenNamespace(key: bytes)

  /** A logged field: what its AddTo calls, or an error with its two renderings. */
  datatype Field =
    | Plain(calls: seq<Call>)
    | Error(key: bytes, basic: bytes, verbose: Option<bytes>)

  // ----------------------------------------------------------- the printer

  predicate IsSeparator(b: byte) {
    b == LBRACE || b == LBRACKET || b == COLON || b == COMMA || b == SPACE || b == EQUALS
  }

  /** The comma an element needs after `buf`, if it needs one. */
  function Separator(buf: bytes): bytes {
    if buf == [] || IsSeparator(buf[|buf| - 1]) then [] else [COMMA]
  }

  function PutKey(buf: bytes, key: bytes): bytes {
    buf + Separator(buf) + Token(key) + [EQUALS]
  }

  function PutToken(buf: bytes, text: bytes): bytes {
    buf + Separator(buf) + Token(text)
  }

  function PutLiteral(buf: bytes, digits: bytes): bytes {
    buf + Separator(buf) + digits
  }

  /** The whole buffer of the encoder that a nested array or object is written into. */
  function Inner(v: Value): bytes
    requires v.Array? || v.Object?
    decreases v, 0
  {
    match v
    case Array(elements) => Run([LBRACKET], elements) + [RBRACKET]
    case Object(members) => Run([LBRACE], members) + [RBRACE]
  }

  function PutValue(buf: bytes, v: Value): bytes
    decreases v, 1
  {
    match v
    case Str(text) => PutToken(buf, text)
    case ByteStr(text) => PutToken(buf, text)
    case Literal(digits) => PutLiteral(buf, digits)
    case Time(stamp, nanos) => if stamp == [] then PutLiteral(buf, nanos) else buf + stamp
    case Array(_) => PutToken(buf + Separator(buf), Inner(v))
    case Object(_) => PutToken(buf + Separator(buf), Inner(v))
  }

  function Do(buf: bytes, c: Call): bytes
    decreases c, 2
  {
    match c
    case Append(v) => PutValue(buf, v)
    case Add(key, v) => PutValue(PutKey(buf, key), v)
    case OpenNamespace(key) => PutKey(buf, key) + [LBRACE]
  }

  function Run(buf: bytes, calls: seq<Call>): bytes
    decreases calls, 0
  {
    if calls == [] then buf
    else Do(Run(buf, calls[..|calls| - 1]), calls[|calls| - 1])
  }

  /** The namespaces a script leaves open. */
  function Opened(calls: seq<Call>): nat {
    if calls == [] then 0
    else Opened(calls[..|calls| - 1]) + if calls[|calls| - 1].OpenNamespace? then 1 else 0
  }

  function BeginField(buf: bytes): bytes {
    (if buf == [] then [] else buf + [SPACE]) + [LBRACKET]
  }

  function PutItem(buf: bytes, calls: seq<Call>): bytes {
    Run(BeginField(buf), calls) + [RBRACKET]
  }

  /** Appended to the key of the detailed rendering of an error. */
  const VERBOSE: bytes := [0x56, 0x65, 0x72, 0x62, 0x6F, 0x73, 0x65]

  /** The items one field is written as: one, or two for an error with more to tell. */
  function Items(f: Field, terse: bool): seq<seq<Call>> {
    match f
    case Plain(calls) => [calls]
    case Error(key, basic, verbose) =>
      [[Add(key, Str(basic))]]
      + if !terse && verbose.Some? && verbose.value != basic
        then [[Add(key + VERBOSE, Str(verbose.value))]] else []
  }

  function AllItems(fs: seq<Field>, terse: bool): seq<seq<Call>> {
    if fs == [] then [] else AllItems(fs[..|fs| - 1], terse) + Items(fs[|fs| - 1], terse)
  }

  function PutItems(buf: bytes, items: seq<seq<Call>>): bytes {
    if items == [] then buf
    else PutItem(PutItems(buf, items[..|items| - 1]), items[|items| - 1])
  }

  function OpenedBy(fs: seq<Field>): nat {
    if fs == [] then 0
    else OpenedBy(fs[..|fs| - 1]) + match fs[|fs| - 1] case Plain(calls) => Opened(calls) case Error(_, _, _) => 0
  }

  function PutFields(buf: bytes, fs: seq<Field>, terse: bool): bytes {
    PutItems(buf, AllItems(fs, terse))
  }

  // ------------------------------------------------------------- separators

  /** An element separator is written at most once. */
  lemma SeparatorOnce(buf: bytes)
    ensures Separator(buf + Separator(buf)) == []
  {
  }

  // ------------------------------------------- earlier bytes do not matter

  /** What is written depends on the bytes before only through the last one. */
  lemma {:induction false} DoPrefix(p: bytes, b: bytes, c: Call)
    requires b != []
    ensures Do(p + b, c) == p + Do(b, c) && Do(b, c) != []
  {
    hide *;
    DoUnfold(b, c);
    DoUnfold(p + b, c);
    match c
    case Append(v) => ValuePrefix(p, b, v);
    case Add(key, v) => KeyPrefix(p, b, key); ValuePrefix(p, PutKey(b, key), v);
    case OpenNamespace(key) => KeyPrefix(p, b, key); Assoc(p, PutKey(b, key), [LBRACE]);
  }

  lemma DoUnfold(b: bytes, c: Call)
    ensures Do(b, c) == match c
                        case Append(v) => PutValue(b, v)
                        case Add(key, v) => PutValue(PutKey(b, key), v)
                        case OpenNamespace(key) => PutKey(b, key) + [LBRACE]
  {
  }

  lemma SeparatorPrefix(p: bytes, b: bytes)
    requires b != []
    ensures Separator(p + b) == Separator(b)
  {
  }

  lemma KeyPrefix(p: bytes, b: bytes, key: bytes)
    requires b != []
    ensures PutKey(p + b, key) == p + PutKey(b, key) && PutKey(b, key) != []
  {
    hide Separator, Token;
    SeparatorPrefix(p, b);
  }

  lemma TokenPrefix(p: bytes, b: bytes, text: bytes)
    requires b != []
    ensures PutToken(p + b, text) == p + PutToken(b, text) && PutToken(b, text) != []
  {
    hide Separator, Token;
    SeparatorPrefix(p, b);
  }

  lemma ValuePrefix(p: bytes, b: bytes, v: Value)
    requires b != []
    ensures PutValue(p + b, v) == p + PutValue(b, v) && PutValue(b, v) != []
  {
    hide Separator, Inner, PutToken;
    SeparatorPrefix(p, b);
    match v
    case Str(text) => TokenPrefix(p, b, text);
    case ByteStr(text) => TokenPrefix(p, b, text);
    case Literal(_) =>
    case Time(_, _) =>
    case Array(_) => NestedPrefix(p, b, Inner(v));
    case Object(_) => NestedPrefix(p, b, Inner(v));
  }

  lemma NestedPrefix(p: bytes, b: bytes, inner: bytes)
    requires b != []
    ensures PutToken(p + b + Separator(p + b), inner) == p + PutToken(b + Separator(b), inner)
    ensures PutToken(b + Separator(b), inner) != []
  {
    hide Separator, PutToken;
    SeparatorPrefix(p, b);
    Assoc(p, b, Separator(b));
    TokenPrefix(p, b + Separator(b), inner);
  }

  lemma {:induction false} RunPrefix(p: bytes, b: bytes, calls: seq<Call>)
    requires b != []
    ensures Run(p + b, calls) == p + Run(b, calls) && Run(b, calls) != []
    decreases |calls|
  {
    hide Do;
    if calls != [] {
      var before := calls[..|calls| - 1];
      RunPrefix(p, b, before);
      DoPrefix(p, Run(b, before), calls[|calls| - 1]);
    }
  }

  lemma ItemPrefix(p: bytes, b: bytes, calls: seq<Call>)
    ensures b != [] ==> PutItem(p + b, calls) == p + PutItem(b, calls)
    ensures p != [] && b == [] ==> PutItem(p, calls) == p + [SPACE] + PutItem([], calls)
    ensures PutItem(b, calls) != []
  {
    hide Run;
    if b != [] {
      assert BeginField(p + b) == p + BeginField(b);
      RunPrefix(p, BeginField(b), calls);
    } else if p != [] {
      assert BeginField(p) == p + [SPACE] + [LBRACKET] && BeginField([]) == [LBRACKET];
      RunPrefix(p + [SPACE], [LBRACKET], calls);
    }
  }

  /** Items after other bytes: those bytes, a space, and the items on their own. */
  lemma {:induction false} ItemsPrefix(p: bytes, b: bytes, items: seq<seq<Call>>)
    ensures b != [] ==> PutItems(p + b, items) == p + PutItems(b, items)
    ensures b == [] && p != [] && items != [] ==> PutItems(p, items) == p + [SPACE] + PutItems([], items)
    ensures b != [] || items != [] ==> PutItems(b, items) != []
    decreases |items|
  {
    hide PutItem;
    if items != [] {
      var before, last := items[..|items| - 1], items[|items| - 1];
      ItemsPrefix(p, b, before);
      ItemPrefix([], PutItems(b, before), last);
      if b != [] {
        ItemPrefix(p, PutItems(b, before), last);
      } else if p != [] {
        if before == [] {
          ItemPrefix(p, [], last);
        } else {
          ItemPrefix(p + [SPACE], PutItems([], before), last);
        }
      }
    }
  }

  lemma {:induction false} AllItemsConcat(a: seq<Field>, b: seq<Field>, terse: bool)
    ensures AllItems(a + b, terse) == AllItems(a, terse) + AllItems(b, terse)
    ensures OpenedBy(a + b) == OpenedBy(a) + OpenedBy(b)
    decreases |b|
  {
    hide Items, Opened;
    if b == [] {
      assert a + b == a;
    } else {
      AllItemsConcat(a, b[..|b| - 1], terse);
      assert (a + b)[..|a + b| - 1] == a + b[..|b| - 1] && (a + b)[|a + b| - 1] == b[|b| - 1];
    }
  }

  lemma {:induction false} PutItemsConcat(buf: bytes, a: seq<seq<Call>>, b: seq<seq<Call>>)
    ensures PutItems(buf, a + b) == PutItems(PutItems(buf, a), b)
    decreases |b|
  {
    if b == [] {
      assert a + b == a;
    } else {
      PutItemsConcat(buf, a, b[..|b| - 1]);
      assert (a + b)[..|a + b| - 1] == a + b[..|b| - 1] && (a + b)[|a + b| - 1] == b[|b| - 1];
    }
  }

  /** Writing fields in two goes is writing them in one. */
  lemma PutFieldsConcat(buf: bytes, a: seq<Field>, b: seq<Field>, terse: bool)
    ensures PutFields(buf, a + b, terse) == PutFields(PutFields(buf, a, terse), b, terse)
  {
    AllItemsConcat(a, b, terse);
    PutItemsConcat(buf, AllItems(a, terse), AllItems(b, terse));
  }

  lemma AllItemsSome(fs: seq<Field>, terse: bool)
    requires fs != []
    ensures AllItems(fs, terse) != []
  {
  }

  // --------------------------------------------------------------- cleanness

  /** Calls keep the buffer clean, whatever bytes they are given. */
  lemma {:induction false} DoClean(buf: bytes, c: Call)
    requires Clean(buf)
    ensures Clean(Do(buf, c))
    decreases c, 2
  {
    hide Clean, PutKey, PutValue;
    match c
    case Append(v) => ValueClean(buf, v);
    case Add(key, v) => KeyClean(buf, key); ValueClean(PutKey(buf, key), v);
    case OpenNamespace(key) => KeyClean(buf, key); CleanWith(PutKey(buf, key), [LBRACE]);
  }

  lemma CleanWith(buf: bytes, ascii: bytes)
    requires Clean(buf)
    requires forall i :: 0 <= i < |ascii| ==> 0x20 <= ascii[i] < 0x80
    ensures Clean(buf + ascii)
  {
    CleanAscii(ascii);
    CleanConcat(buf, ascii);
  }

  lemma KeyClean(buf: bytes, key: bytes)
    requires Clean(buf)
    ensures Clean(PutKey(buf, key))
  {
    hide Clean, Token;
    PutTokenClean(buf, key);
    CleanWith(PutToken(buf, key), [EQUALS]);
  }

  lemma PutTokenClean(buf: bytes, text: bytes)
    requires Clean(buf)
    ensures Clean(PutToken(buf, text))
  {
    hide Clean, Token;
    CleanWith(buf, Separator(buf));
    TokenClean(text);
    CleanConcat(buf + Separator(buf), Token(text));
  }

  lemma {:induction false} ValueClean(buf: bytes, v: Value)
    requires Clean(buf)
    ensures Clean(PutValue(buf, v))
  {
    hide Clean, PutToken, Inner;
    CleanWith(buf, Separator(buf));
    match v
    case Str(text) => PutTokenClean(buf, text);
    case ByteStr(text) => PutTokenClean(buf, text);
    case Literal(digits) => CleanWith(buf + Separator(buf), digits);
    case Time(stamp, nanos) => CleanWith(buf, stamp); CleanWith(buf + Separator(buf), nanos);
    case Array(_) => PutTokenClean(buf + Separator(buf), Inner(v));
    case Object(_) => PutTokenClean(buf + Separator(buf), Inner(v));
  }

  lemma {:induction false} RunClean(buf: bytes, calls: seq<Call>)
    requires Clean(buf)
    ensures Clean(Run(buf, calls))
    decreases |calls|
  {
    hide Clean, Do;
    if calls != [] {
      RunClean(buf, calls[..|calls| - 1]);
      DoClean(Run(buf, calls[..|calls| - 1]), calls[|calls| - 1]);
    }
  }

  /** The buffer of a nested encoder is valid UTF-8 without control bytes. */
  lemma InnerClean(v: Value)
    requires v.Array? || v.Object?
    ensures Clean(Inner(v))
  {
    hide Clean, Run;
    var open, calls, close := if v.Array? then LBRACKET else LBRACE,
                              if v.Array? then v.elements else v.members,
                              if v.Array? then RBRACKET else RBRACE;
    CleanAscii([open]);
    RunClean([open], calls);
    CleanWith(Run([open], calls), [close]);
  }

  lemma {:induction false} ItemsClean(buf: bytes, items: seq<seq<Call>>)
    requires Clean(buf)
    ensures Clean(PutItems(buf, items))
    decreases |items|
  {
    hide Clean, Run;
    if items != [] {
      var before := PutItems(buf, items[..|items| - 1]);
      ItemsClean(buf, items[..|items| - 1]);
      CleanWith(before, [SPACE, LBRACKET]);
      CleanAscii([LBRACKET]);
      assert BeginField(before) == if before == [] then [LBRACKET] else before + [SPACE, LBRACKET];
      RunClean(BeginField(before), items[|items| - 1]);
      CleanWith(Run(BeginField(before), items[|items| - 1]), [RBRACKET]);
    }
  }

  // ------------------------------------------------------- nested encoders

  /**
   What an array or object adds to its parent is a separator and one token, and that
   token reads back as exactly the nested encoder's buffer.
   */
  lemma NestedReadsBack(buf: bytes, v: Value)
    requires v.Array? || v.Object?
    ensures exists token :: PutValue(buf, v) == buf + Separator(buf) + token && DecodeToken(token) == Some(Inner(v))
  {
    hide Separator, Inner, Token, DecodeToken, Sanitize;
    SeparatorOnce(buf);
    InnerClean(v);
    SanitizeSpec(Inner(v));
    DecodeTokenToken(Inner(v));
    var b := buf + Separator(buf);
    assert PutValue(buf, v) == b + [] + Token(Inner(v));
    assert b + [] == b;
  }

  /** Printable ASCII without special bytes. */
  predicate Plainly(s: bytes) {
    forall i :: 0 <= i < |s| ==> 0x20 < s[i] < 0x7F && !Special(s[i])
  }

  /**
   Inside an array the elements cannot be told apart: two plain texts look like one text with
   a comma in it.
   */
  lemma ElementsRunTogether(buf: bytes, a: bytes, b: bytes)
    requires Plainly(a) && Plainly(b) && a != [] && !IsSeparator(a[|a| - 1])
    ensures PutValue(buf, Array([Append(Str(a)), Append(Str(b))]))
         == PutValue(buf, Array([Append(Str(a + [COMMA] + b))]))
  {
    var one, two := [Append(Str(a + [COMMA] + b))], [Append(Str(a)), Append(Str(b))];
    assert Run([LBRACKET], one) == Run([LBRACKET], two) by { ElementTexts(a, b); }
    hide Run, Token;
  }

  lemma ElementTexts(a: bytes, b: bytes)
    requires Plainly(a) && Plainly(b) && a != [] && !IsSeparator(a[|a| - 1])
    ensures Run([LBRACKET], [Append(Str(a)), Append(Str(b))]) == Run([LBRACKET], [Append(Str(a + [COMMA] + b))])
  {
    var ab := a + [COMMA] + b;
    assert Plainly(ab);
    hide *;
    RunPlain([LBRACKET], [], a);
    RunPlain([LBRACKET], [], ab);
    RunPlain([LBRACKET], [Append(Str(a))], b);
    assert [] + [Append(Str(a))] == [Append(Str(a))] && [] + [Append(Str(ab))] == [Append(Str(ab))];
    assert [Append(Str(a))] + [Append(Str(b))] == [Append(Str(a)), Append(Str(b))];
    AfterBracket(a);
    assert [LBRACKET] + a + [COMMA] + b == [LBRACKET] + ab;
  }

  lemma AfterBracket(a: bytes)
    requires a != [] && !IsSeparator(a[|a| - 1])
    ensures forall text :: [LBRACKET] + Separator([LBRACKET]) + text == [LBRACKET] + text
    ensures Separator([LBRACKET] + a) == [COMMA]
  {
    assert ([LBRACKET] + a)[|a|] == a[|a| - 1];
  }

  lemma RunPlain(buf: bytes, calls: seq<Call>, text: bytes)
    requires Plainly(text)
    ensures Run(buf, []) == buf
    ensures Run(buf, calls + [Append(Str(text))]) == Run(buf, calls) + Separator(Run(buf, calls)) + text
  {
    PlainToken(text);
    hide Token, Separator;
    var longer := calls + [Append(Str(text))];
    assert longer[..|calls|] == calls && longer[|calls|] == Append(Str(text));
    var before := Run(buf, calls);
    assert Run(buf, longer) == Do(before, Append(Str(text))) == PutValue(before, Str(text)) == PutToken(before, text);
  }

  /** Such a text is its own token. */
  lemma {:induction false} PlainToken(s: bytes)
    requires Plainly(s)
    ensures Token(s) == Escape(s) == s
  {
    if s != [] {
      PlainToken(s[1..]);
      assert EscapeChunk(s) == [s[0]] && CharLen(s) == 1 && !Special(s[0]);
      hide EscapeChunk, CharLen, Special;
      assert s == [s[0]] + s[1..];
    }
  }
}
