/** A parser for log lines, and the proof that it undoes the encoder. */
module LineParser {
  import opened Options
  import opened Utf8
  import opened Escaping
  import opened TextFormat

  /** One bracketed item of a line: `[text]` or `[key=text]`. */
  datatype Item = Bare(text: bytes) | Pair(key: bytes, text: bytes)

  datatype Parsed = Parsed(item: Item, length: nat)

  /** The bytes that end an unquoted token. */
  const STOPS: set<byte> := {EQUALS, RBRACKET}

  function ReadItem(t: bytes): (r: Option<Parsed>)
    ensures r.Some? ==> 0 < r.value.length <= |t|
  {
    if t == [] || t[0] != LBRACKET then None
    else match ReadToken(t[1..], STOPS)
      case None => None
      case Some(k) =>
        var u := t[1 + k.length..];
        if u == [] then None
        else if u[0] == RBRACKET then Some(Parsed(Bare(k.text), k.length + 2))
        else if u[0] != EQUALS then None
        else match ReadToken(u[1..], STOPS)
          case None => None
          case Some(v) =>
            if v.length + 1 < |u| && u[1 + v.length] == RBRACKET
            then Some(Parsed(Pair(k.text, v.text), k.length + v.length + 3)) else None
  }

  /** Items with one space between them. */
  function ReadItems(t: bytes): Option<seq<Item>>
    decreases |t|
  {
    match ReadItem(t)
    case None => None
    case Some(p) =>
      if p.length == |t| then Some([p.item])
      else if t[p.length] != SPACE then None
      else match ReadItems(t[p.length + 1..])
        case None => None
        case Some(rest) => Some([p.item] + rest)
  }

  function ParseItems(t: bytes): Option<seq<Item>> {
    if t == [] then Some([]) else ReadItems(t)
  }

  // ------------------------------------------------------ what is expected

  /** The text a reader should get for a value. */
  function Shown(v: Value): bytes {
    match v
    case Str(text) => Sanitize(text)
    case ByteStr(text) => Sanitize(text)
    case Literal(digits) => digits
    case Time(stamp, nanos) => if stamp == [] then nanos else stamp
    case Array(_) => Inner(v)
    case Object(_) => Inner(v)
  }

  /** An item of one call: a value with or without a key, or the opening of a namespace. */
  predicate Single(calls: seq<Call>) {
    |calls| == 1
  }

  function ShownItem(calls: seq<Call>): Item
    requires Single(calls)
  {
    match calls[0]
    case Append(v) => Bare(Shown(v))
    case Add(key, v) => Pair(Sanitize(key), Shown(v))
    case OpenNamespace(key) => Pair(Sanitize(key), [LBRACE])
  }

  function ShownItems(items: seq<seq<Call>>): seq<Item>
    requires forall i :: 0 <= i < |items| ==> Single(items[i])
  {
    seq(|items|, i requires 0 <= i < |items| => ShownItem(items[i]))
  }

  /** The bytes a value is written as right after a bracket or an equals sign. */
  function Written(v: Value): bytes {
    match v
    case Str(text) => Token(text)
    case ByteStr(text) => Token(text)
    case Literal(digits) => digits
    case Time(stamp, nanos) => if stamp == [] then nanos else stamp
    case Array(_) => Token(Inner(v))
    case Object(_) => Token(Inner(v))
  }

  // ------------------------------------------------------------ round trip

  /** Plain text is escaped to itself. */
  lemma {:induction false} EscapePlain(s: bytes)
    requires forall i :: 0 <= i < |s| ==> 0x20 <= s[i] < 0x7F && s[i] != QUOTE && s[i] != BACKSLASH
    ensures Escape(s) == s && Sanitize(s) == s
  {
    hide Escape, Sanitize;
    EscapeUnfold(s);
    if s != [] {
      EscapePlain(s[1..]);
      assert EscapeChunk(s) == [s[0]] && SanitizeChunk(s) == [s[0]];
    }
  }

  lemma ReadPlain(s: bytes, rest: bytes)
    requires forall i :: 0 <= i < |s| ==> 0x20 <= s[i] < 0x7F && (s[i] == SPACE || !Special(s[i]))
    requires rest != [] && rest[0] in STOPS
    ensures ReadToken(s + rest, STOPS) == Some(Piece(s, |s|))
  {
    hide Escape, Sanitize, Read;
    EscapePlain(s);
    ReadEscape(s, STOPS, rest);
  }

  lemma ReadWritten(v: Value, rest: bytes)
    requires rest != [] && rest[0] in STOPS
    ensures ReadToken(Written(v) + rest, STOPS) == Some(Piece(Shown(v), |Written(v)|))
  {
    hide ReadToken, Token, Sanitize, Inner;
    match v
    case Str(text) => ReadTokenToken(text, STOPS, rest);
    case ByteStr(text) => ReadTokenToken(text, STOPS, rest);
    case Literal(digits) => ReadPlain(digits, rest);
    case Time(stamp, nanos) => ReadPlain(stamp, rest); ReadPlain(nanos, rest);
    case Array(_) => InnerClean(v); SanitizeSpec(Inner(v)); ReadTokenToken(Inner(v), STOPS, rest);
    case Object(_) => InnerClean(v); SanitizeSpec(Inner(v)); ReadTokenToken(Inner(v), STOPS, rest);
  }

  lemma PutValueWritten(buf: bytes, v: Value)
    requires buf != [] && IsSeparator(buf[|buf| - 1])
    ensures PutValue(buf, v) == buf + Written(v)
  {
    hide Token, Inner;
    assert buf + [] == buf;
  }

  /** How an item with one value is spelled. */
  lemma ItemSpelling(calls: seq<Call>)
    requires Single(calls) && !calls[0].OpenNamespace?
    ensures var body := Written(calls[0].value) + [RBRACKET];
            PutItem([], calls)
            == [LBRACKET] + if calls[0].Append? then body else Token(calls[0].key) + ([EQUALS] + body)
  {
    hide Token, Written, PutValue;
    assert BeginField([]) == [LBRACKET];
    assert calls[..0] == [] && Run([LBRACKET], []) == [LBRACKET];
    assert Run([LBRACKET], calls) == Do([LBRACKET], calls[0]);
    match calls[0]
    case Append(v) => PutValueWritten([LBRACKET], v);
    case Add(key, v) =>
      var k := PutKey([LBRACKET], key);
      assert k == [LBRACKET] + Token(key) + [EQUALS] by { assert [LBRACKET] + [] == [LBRACKET]; }
      PutValueWritten(k, v);
  }

  lemma NamespaceSpelling(key: bytes)
    ensures PutItem([], [OpenNamespace(key)]) == [LBRACKET] + (Token(key) + ([EQUALS] + ([LBRACE] + [RBRACKET])))
  {
    hide Token;
    var calls := [OpenNamespace(key)];
    assert BeginField([]) == [LBRACKET];
    assert calls[..0] == [] && Run([LBRACKET], []) == [LBRACKET];
    assert Run([LBRACKET], calls) == Do([LBRACKET], calls[0]);
    assert PutKey([LBRACKET], key) == [LBRACKET] + Token(key) + [EQUALS] by { assert [LBRACKET] + [] == [LBRACKET]; }
  }

  // ------------------------------------------------------- arrays and objects

  /** How a call is spelled on its own. */
  function Spelled(c: Call): bytes {
    match c
    case Append(v) => Written(v)
    case Add(key, v) => Token(key) + [0x3D] + Written(v)
    case OpenNamespace(key) => Token(key) + [0x3D, 0x7B]
  }

  /** The spellings with commas between them. */
  function Joined(calls: seq<Call>): bytes {
    if calls == [] then []
    else if |calls| == 1 then Spelled(calls[0])
    else Joined(calls[..|calls| - 1]) + [0x2C] + Spelled(calls[|calls| - 1])
  }

  /** The spelling takes a comma after it: it is not empty and does not end in a separator itself. */
  predicate TakesComma(c: Call) {
    var s := Spelled(c);
    s != [] && var b := s[|s| - 1];
               b != 0x7B && b != 0x5B && b != 0x3A && b != 0x2C && b != 0x20 && b != 0x3D
  }

  /** A time in the array's own layout, which is written without looking at what stands before it. */
  predicate Raw(c: Call) {
    c.Append? && c.value.Time? && c.value.stamp != []
  }

  /**
   An array is its elements between brackets and an object its members between braces, with
   commas between them, as long as the commas can be told from the texts and no raw time follows.
   */
  lemma NestedSpelled(calls: seq<Call>)
    requires forall i :: 0 <= i < |calls| - 1 ==> TakesComma(calls[i])
    requires forall i :: 1 <= i < |calls| ==> !Raw(calls[i])
    ensures Inner(Array(calls)) == [0x5B] + Joined(calls) + [0x5D]
    ensures Inner(Object(calls)) == [0x7B] + Joined(calls) + [0x7D]
  {
    RunSpelled(0x5B, calls);
    RunSpelled(0x7B, calls);
    hide Run, Joined;
  }

  lemma {:induction false} RunSpelled(open: byte, calls: seq<Call>)
    requires open == 0x5B || open == 0x7B
    requires forall i :: 0 <= i < |calls| - 1 ==> TakesComma(calls[i])
    requires forall i :: 1 <= i < |calls| ==> !Raw(calls[i])
    ensures Run([open], calls) == [open] + Joined(calls)
    ensures calls != [] && Spelled(calls[|calls| - 1]) != [] ==>
              (var j, last := Joined(calls), Spelled(calls[|calls| - 1]);
               j != [] && j[|j| - 1] == last[|last| - 1])
    decreases |calls|
  {
    hide Do, Spelled, Raw;
    if calls != [] {
      var before, last := calls[..|calls| - 1], calls[|calls| - 1];
      RunSpelled(open, before);
      var b := Run([open], before);
      assert Run([open], calls) == Do(b, last);
      if before == [] {
        DoFirst(open, last);
        assert [open] + [] == [open];
      } else {
        assert TakesComma(before[|before| - 1]);
        DoNext(b, last);
        assert b + [0x2C] + Spelled(last) == [open] + (Joined(before) + [0x2C] + Spelled(last));
      }
    }
  }

  lemma DoFirst(open: byte, c: Call)
    requires open == 0x5B || open == 0x7B
    ensures Do([open], c) == [open] + Spelled(c)
  {
    hide Token, Inner, PutValue, Written, PutKey;
    match c
    case Append(v) => PutValueWritten([open], v);
    case Add(key, v) =>
      FirstKey(open, key);
      PutValueWritten(PutKey([open], key), v);
      Assoc([open], Token(key) + [0x3D], Written(v));
    case OpenNamespace(key) => FirstKey(open, key);
  }

  lemma FirstKey(open: byte, key: bytes)
    requires open == 0x5B || open == 0x7B
    ensures PutKey([open], key) == [open] + (Token(key) + [0x3D])
  {
    hide Token;
    assert [open] + [] == [open];
    assert [open] + Token(key) + [0x3D] == [open] + (Token(key) + [0x3D]);
  }

  lemma DoNext(b: bytes, c: Call)
    requires b != [] && !IsSeparator(b[|b| - 1]) && !Raw(c)
    ensures Do(b, c) == b + [0x2C] + Spelled(c)
  {
    hide Token, Inner;
    match c
    case Append(v) => AfterComma(b, v);
    case Add(key, v) =>
      var k := PutKey(b, key);
      assert k == b + [0x2C] + Token(key) + [0x3D];
      PutValueWritten(k, v);
      Assoc(b + [0x2C], Token(key) + [0x3D], Written(v));
      assert k == b + [0x2C] + (Token(key) + [0x3D]);
    case OpenNamespace(key) =>
      assert PutKey(b, key) == b + [0x2C] + Token(key) + [0x3D];
  }

  lemma AfterComma(b: bytes, v: Value)
    requires b != [] && !IsSeparator(b[|b| - 1]) && !Raw(Append(v))
    ensures PutValue(b, v) == b + [0x2C] + Written(v)
  {
    hide Token, Inner;
    assert (b + [COMMA]) + [] == b + [COMMA];
  }

  /** Two times in an array stand side by side. */
  lemma TimesRunTogether(x: Stamp, y: Stamp, nanos: Numeral)
    requires x != [] && y != []
    ensures Inner(Array([Append(Time(x, nanos)), Append(Time(y, nanos))])) == [0x5B] + x + y + [0x5D]
  {
    var calls := [Append(Time(x, nanos)), Append(Time(y, nanos))];
    assert calls[..1] == [Append(Time(x, nanos))] && calls[..1][..0] == [];
    assert Run([0x5B], []) == [0x5B];
    assert Run([0x5B], calls[..1]) == Do([0x5B], calls[0]) == [0x5B] + x;
    assert Run([0x5B], calls) == Do([0x5B] + x, calls[1]) == [0x5B] + x + y;
  }

  /** An item is read back whatever follows it. */
  lemma ReadPutItem(calls: seq<Call>, rest: bytes)
    requires Single(calls)
    ensures ReadItem(PutItem([], calls) + rest) == Some(Parsed(ShownItem(calls), |PutItem([], calls)|))
  {
    hide PutItem, ReadItem, ShownItem, Written, Token;
    assert calls == [calls[0]];
    match calls[0]
    case Append(v) => ItemSpelling(calls); ReadBare(calls, v, rest);
    case Add(key, v) => ItemSpelling(calls); ReadPair(calls, key, v, rest);
    case OpenNamespace(key) => NamespaceSpelling(key); ReadNamespace(calls, key, rest);
  }

  lemma ReadNamespace(calls: seq<Call>, key: bytes, rest: bytes)
    requires calls == [OpenNamespace(key)]
    requires PutItem([], calls) == [LBRACKET] + (Token(key) + ([EQUALS] + ([LBRACE] + [RBRACKET])))
    ensures ReadItem(PutItem([], calls) + rest) == Some(Parsed(ShownItem(calls), |PutItem([], calls)|))
  {
    hide ReadToken, Token, Sanitize, PutItem;
    var w, k, end := [LBRACE], Token(key), [RBRACKET] + rest;
    var u := [EQUALS] + (w + end);
    ReadPlain(w, end);
    ReadTokenToken(key, STOPS, u);
    var t := PutItem([], calls) + rest;
    assert t[1..] == k + u;
    assert t[1 + |k|..] == u && u[1..] == w + end && u[1 + |w|] == RBRACKET;
  }

  lemma ReadBare(calls: seq<Call>, v: Value, rest: bytes)
    requires calls == [Append(v)]
    requires PutItem([], calls) == [LBRACKET] + (Written(v) + [RBRACKET])
    ensures ReadItem(PutItem([], calls) + rest) == Some(Parsed(ShownItem(calls), |PutItem([], calls)|))
  {
    hide ReadToken, Written, Shown, PutItem;
    var w, end := Written(v), [RBRACKET] + rest;
    ReadWritten(v, end);
    var t := PutItem([], calls) + rest;
    assert t[1..] == w + end;
    assert t[1 + |w|..] == end;
  }

  lemma ReadPair(calls: seq<Call>, key: bytes, v: Value, rest: bytes)
    requires calls == [Add(key, v)]
    requires PutItem([], calls) == [LBRACKET] + (Token(key) + ([EQUALS] + (Written(v) + [RBRACKET])))
    ensures ReadItem(PutItem([], calls) + rest) == Some(Parsed(ShownItem(calls), |PutItem([], calls)|))
  {
    hide ReadToken, Token, Sanitize, Written, Shown, PutItem;
    var w, k, end := Written(v), Token(key), [RBRACKET] + rest;
    var u := [EQUALS] + (w + end);
    ReadWritten(v, end);
    ReadTokenToken(key, STOPS, u);
    var t := PutItem([], calls) + rest;
    assert t[1..] == k + u;
    assert t[1 + |k|..] == u && u[1..] == w + end && u[1 + |w|] == RBRACKET;
  }

  /** The first item stands in front of the others. */
  lemma FirstItem(items: seq<seq<Call>>)
    requires items != []
    ensures PutItems([], items)
         == PutItem([], items[0]) + if |items| == 1 then [] else [SPACE] + PutItems([], items[1..])
    ensures |items| > 1 ==> PutItems([], items[1..]) != []
  {
    hide PutItem, PutItems;
    var rest := items[1..];
    assert items == [items[0]] + rest;
    SoleItem([], items[0]);
    PutItemsConcat([], [items[0]], rest);
    ItemPrefix([], [], items[0]);
    ItemsPrefix(PutItem([], items[0]), [], rest);
    NoItems(PutItem([], items[0]));
    ItemsPrefix([], [], rest);
    if rest != [] {
      Assoc(PutItem([], items[0]), [SPACE], PutItems([], rest));
    }
  }

  lemma SoleItem(buf: bytes, calls: seq<Call>)
    ensures PutItems(buf, [calls]) == PutItem(buf, calls)
  {
    assert [calls][..0] == [];
  }

  /**
   Items that hold one value each are parsed back exactly: every key and every value,
   however nested, empty, or full of delimiters; bytes that are not UTF-8 come back as U+FFFD.
   */
  lemma {:induction false} ItemsParseBack(items: seq<seq<Call>>)
    requires forall i :: 0 <= i < |items| ==> Single(items[i])
    ensures ParseItems(PutItems([], items)) == Some(ShownItems(items))
  {
    hide ReadItem, PutItem, PutItems, ShownItem;
    if items == [] {
      NoItems([]);
    } else {
      FirstItem(items);
      var first, rest := PutItem([], items[0]), items[1..];
      ItemPrefix([], [], items[0]);
      if rest == [] {
        ReadPutItem(items[0], []);
        assert first + [] == first;
        assert ShownItems(items) == [ShownItem(items[0])];
      } else {
        ItemsParseBack(rest);
        var t := [SPACE] + PutItems([], rest);
        ReadPutItem(items[0], t);
        assert (first + t)[|first| + 1..] == PutItems([], rest);
        assert ShownItems(items) == [ShownItem(items[0])] + ShownItems(rest);
      }
    }
  }

  lemma NoItems(buf: bytes)
    ensures PutItems(buf, []) == buf
  {
  }

  /** String fields: the keys and values themselves come back when they are valid UTF-8. */
  lemma StringFieldsParseBack(keys: seq<bytes>, values: seq<bytes>, fs: seq<Field>, terse: bool)
    requires |keys| == |values| == |fs|
    requires forall i :: 0 <= i < |fs| ==> fs[i] == Plain([Add(keys[i], Str(values[i]))])
    requires forall i :: 0 <= i < |fs| ==> ValidUtf8(keys[i]) && ValidUtf8(values[i])
    ensures ParseItems(PutFields([], fs, terse))
         == Some(seq(|fs|, i requires 0 <= i < |fs| => Pair(keys[i], values[i])))
  {
    hide ParseItems, PutItems, Sanitize, ValidUtf8;
    var items := AllItems(fs, terse);
    PlainItems(fs, terse);
    ItemsParseBack(items);
    forall i | 0 <= i < |fs| ensures ShownItem(items[i]) == Pair(keys[i], values[i]) {
      SanitizeSpec(keys[i]);
      SanitizeSpec(values[i]);
    }
    assert ShownItems(items) == seq(|fs|, i requires 0 <= i < |fs| => Pair(keys[i], values[i]));
  }

  lemma {:induction false} PlainItems(fs: seq<Field>, terse: bool)
    requires forall i :: 0 <= i < |fs| ==> fs[i].Plain?
    ensures |AllItems(fs, terse)| == |fs|
    ensures forall i :: 0 <= i < |fs| ==> AllItems(fs, terse)[i] == fs[i].calls
  {
    if fs != [] {
      PlainItems(fs[..|fs| - 1], terse);
    }
  }
}
