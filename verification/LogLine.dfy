/** Whole log lines: entry header, logger context, call-site fields, stack trace, line ending. */
module LogLine {
  import opened Options
  import opened Utf8
  import opened Escaping
  import opened TextFormat
  import opened LineParser

  /** The keys and the ending an encoder is configured with; an empty key switches its part off. */
  datatype Config = Config(timeKey: bytes, levelKey: bytes, nameKey: bytes, callerKey: bytes,
                           stacktraceKey: bytes, lineEnding: bytes)

  /** The configuration the encoder is built with from the log settings. */
  function DefaultConfig(disableTimestamp: bool): Config {
    Config(if disableTimestamp then [] else [0x74, 0x69, 0x6D, 0x65],
           [0x6C, 0x65, 0x76, 0x65, 0x6C],
           [0x6E, 0x61, 0x6D, 0x65],
           [0x63, 0x61, 0x6C, 0x6C, 0x65, 0x72],
           [0x73, 0x74, 0x61, 0x63, 0x6B],
           [NEWLINE])
  }

  /** A text the configured formatter makes, with what is written when it makes nothing. */
  datatype Rendered = Rendered(text: bytes, fallback: bytes)

  datatype Severity = DebugLevel | InfoLevel | WarnLevel | ErrorLevel | DPanicLevel | PanicLevel | FatalLevel

  function Rank(l: Severity): int {
    match l
    case DebugLevel => -1
    case InfoLevel => 0
    case WarnLevel => 1
    case ErrorLevel => 2
    case DPanicLevel => 3
    case PanicLevel => 4
    case FatalLevel => 5
  }

  datatype Entry = Entry(stamp: Stamp, nanos: Numeral, level: Rendered, loggerName: bytes,
                         caller: Option<Rendered>, message: bytes, stack: bytes,
                         severity: Severity)

  /** The state of an encoder: what With left in its buffer, and the namespaces that are open. */
  datatype Context = Context(buf: bytes, openNamespaces: nat, terse: bool)

  function Render(r: Rendered): seq<Call> {
    [Append(Str(if r.text == [] then r.fallback else r.text))]
  }

  function When(condition: bool, calls: seq<Call>): seq<seq<Call>> {
    if condition then [calls] else []
  }

  function HeaderItems(cfg: Config, ent: Entry): seq<seq<Call>> {
    When(cfg.timeKey != [], [Append(Time(ent.stamp, ent.nanos))])
    + When(cfg.levelKey != [], Render(ent.level))
    + When(ent.loggerName != [] && cfg.nameKey != [], [Append(Str(ent.loggerName))])
    + (match ent.caller case None => [] case Some(c) => When(cfg.callerKey != [], Render(c)))
    + When(ent.message != [], [Append(Str(ent.message))])
  }

  function Header(cfg: Config, ent: Entry): bytes {
    PutItems([], HeaderItems(cfg, ent))
  }

  function Repeat(b: byte, n: nat): (s: bytes)
    ensures |s| == n && forall i :: 0 <= i < n ==> s[i] == b
  {
    seq(n, _ => b)
  }

  function StackItems(cfg: Config, ent: Entry): seq<seq<Call>> {
    When(ent.stack != [] && cfg.stacktraceKey != [], [Add(cfg.stacktraceKey, Str(ent.stack))])
  }

  function WithContext(header: bytes, context: bytes): bytes {
    if context == [] then header else header + [SPACE] + context
  }

  /** The line without its ending. */
  function Body(cfg: Config, ctx: Context, ent: Entry, fs: seq<Field>): bytes {
    PutItems(PutFields(WithContext(Header(cfg, ent), ctx.buf), fs, ctx.terse)
             + Repeat(RBRACE, ctx.openNamespaces + OpenedBy(fs)),
             StackItems(cfg, ent))
  }

  function Ending(cfg: Config): bytes {
    if cfg.lineEnding != [] then cfg.lineEnding else [NEWLINE]
  }

  function EncodeEntry(cfg: Config, ctx: Context, ent: Entry, fs: seq<Field>): bytes {
    Body(cfg, ctx, ent, fs) + Ending(cfg)
  }

  /** A context extended with fields, as With makes it. */
  function With(ctx: Context, fs: seq<Field>): Context {
    Context(PutFields(ctx.buf, fs, ctx.terse), ctx.openNamespaces + OpenedBy(fs), ctx.terse)
  }

  /** Chained With calls are one With of all the fields. */
  lemma WithCompose(ctx: Context, a: seq<Field>, b: seq<Field>)
    ensures With(With(ctx, a), b) == With(ctx, a + b)
  {
    PutFieldsConcat(ctx.buf, a, b, ctx.terse);
    AllItemsConcat(a, b, ctx.terse);
  }

  /** Some part of the header is switched on by its key and, but for time and level, by the entry. */
  predicate HasHeader(cfg: Config, ent: Entry) {
    || cfg.timeKey != []
    || cfg.levelKey != []
    || (cfg.nameKey != [] && ent.loggerName != [])
    || (cfg.callerKey != [] && ent.caller.Some?)
    || ent.message != []
  }

  lemma HeaderExactly(cfg: Config, ent: Entry)
    ensures Header(cfg, ent) != [] <==> HasHeader(cfg, ent)
  {
    hide PutItems, Render;
    var items := HeaderItems(cfg, ent);
    assert items != [] <==> HasHeader(cfg, ent);
    if items == [] {
      NoItems([]);
    } else {
      StartsWithBracket(items);
    }
  }

  /**
   Fields given to the logger and fields given at the call site are interchangeable
   except in one case: nothing precedes them in the line.
   */
  lemma ContextIsCallSite(cfg: Config, ctx: Context, ent: Entry, a: seq<Field>, b: seq<Field>)
    ensures EncodeEntry(cfg, With(ctx, a), ent, b) == EncodeEntry(cfg, ctx, ent, a + b)
       <==> HasHeader(cfg, ent) || ctx.buf != [] || a == []
  {
    hide EncodeEntry, With, PutFields, Header, HasHeader;
    HeaderExactly(cfg, ent);
    var h, t := Header(cfg, ent), ctx.terse;
    if h != [] || ctx.buf != [] || a == [] {
      InterchangeFields(h, ctx.buf, a, b, t);
      SameLine(cfg, ctx, ent, a, b);
    } else {
      LeadingSpace(cfg, ctx, ent, a, b);
    }
  }

  lemma InterchangeFields(h: bytes, context: bytes, a: seq<Field>, b: seq<Field>, terse: bool)
    requires h != [] || context != [] || a == []
    ensures PutFields(WithContext(h, PutFields(context, a, terse)), b, terse)
         == PutFields(WithContext(h, context), a + b, terse)
  {
    hide PutItems, AllItems;
    PutFieldsConcat(WithContext(h, context), a, b, terse);
    if a == [] {
      NoFields(WithContext(h, context), terse);
      NoFields(context, terse);
    } else {
      AllItemsSome(a, terse);
      ItemsPrefix(h + [SPACE], context, AllItems(a, terse));
      ItemsPrefix(h, [], AllItems(a, terse));
    }
  }

  lemma NoFields(buf: bytes, terse: bool)
    ensures PutFields(buf, [], terse) == buf
  {
  }

  lemma SameLine(cfg: Config, ctx: Context, ent: Entry, a: seq<Field>, b: seq<Field>)
    requires PutFields(WithContext(Header(cfg, ent), PutFields(ctx.buf, a, ctx.terse)), b, ctx.terse)
          == PutFields(WithContext(Header(cfg, ent), ctx.buf), a + b, ctx.terse)
    ensures EncodeEntry(cfg, With(ctx, a), ent, b) == EncodeEntry(cfg, ctx, ent, a + b)
  {
    hide PutFields, Header, StackItems, PutItems;
    AllItemsConcat(a, b, ctx.terse);
  }

  /** With nothing before them, context fields get a space in front that call-site fields do not. */
  lemma LeadingSpace(cfg: Config, ctx: Context, ent: Entry, a: seq<Field>, b: seq<Field>)
    requires Header(cfg, ent) == [] && ctx.buf == [] && a != []
    ensures EncodeEntry(cfg, With(ctx, a), ent, b) != EncodeEntry(cfg, ctx, ent, a + b)
  {
    hide Header, AllItems, PutItems, StackItems, Repeat;
    AllItemsSome(a, ctx.terse);
    AllItemsSome(a + b, ctx.terse);
    StartsWithBracket(AllItems(a, ctx.terse));
    StartsWithBracket(AllItems(a + b, ctx.terse));
    var inContext := [SPACE] + PutFields([], a, ctx.terse);
    KeepsStart(inContext, AllItems(b, ctx.terse));
    KeepsStart(PutFields(inContext, b, ctx.terse) + Repeat(RBRACE, ctx.openNamespaces + OpenedBy(a) + OpenedBy(b)),
               StackItems(cfg, ent));
    KeepsStart(PutFields([], a + b, ctx.terse) + Repeat(RBRACE, ctx.openNamespaces + OpenedBy(a + b)),
               StackItems(cfg, ent));
    assert [] + [SPACE] + PutFields([], a, ctx.terse) == inContext;
    assert EncodeEntry(cfg, With(ctx, a), ent, b)[0] == SPACE;
    assert EncodeEntry(cfg, ctx, ent, a + b)[0] == LBRACKET;
  }

  lemma KeepsStart(buf: bytes, items: seq<seq<Call>>)
    requires buf != []
    ensures PutItems(buf, items) != [] && PutItems(buf, items)[0] == buf[0]
  {
    hide PutItems;
    ItemsPrefix(buf[..1], buf[1..], items);
    ItemsPrefix(buf, [], items);
    assert buf == buf[..1] + buf[1..];
    if buf[1..] == [] {
      assert buf == buf[..1];
      if items == [] { NoItems(buf); }
    }
  }

  lemma StartsWithBracket(items: seq<seq<Call>>)
    requires items != []
    ensures PutItems([], items) != [] && PutItems([], items)[0] == LBRACKET
  {
    hide PutItems, PutItem;
    FirstItem(items);
    ItemStart(items[0]);
  }

  lemma ItemStart(calls: seq<Call>)
    ensures PutItem([], calls) != [] && PutItem([], calls)[0] == LBRACKET
  {
    hide Run;
    assert BeginField([]) == [LBRACKET] + [] == [LBRACKET];
    RunGrows([LBRACKET], calls);
  }

  lemma {:induction false} RunGrows(buf: bytes, calls: seq<Call>)
    requires buf != []
    ensures buf <= Run(buf, calls)
    decreases |calls|
  {
    hide Do, Run;
    if calls == [] {
      RunNone(buf);
    } else {
      RunGrows(buf, calls[..|calls| - 1]);
      RunLast(buf, calls);
      DoGrows(Run(buf, calls[..|calls| - 1]), calls[|calls| - 1]);
    }
  }

  lemma RunNone(buf: bytes)
    ensures Run(buf, []) == buf
  {
  }

  lemma RunLast(buf: bytes, calls: seq<Call>)
    requires calls != []
    ensures Run(buf, calls) == Do(Run(buf, calls[..|calls| - 1]), calls[|calls| - 1])
  {
  }

  lemma DoGrows(buf: bytes, c: Call)
    ensures buf <= Do(buf, c)
  {
    hide Token, Inner;
  }

  /** With the level key set, as it always is by default, the exception cannot arise. */
  lemma ContextIsCallSiteByDefault(disableTimestamp: bool, ctx: Context, ent: Entry, a: seq<Field>, b: seq<Field>)
    ensures var cfg := DefaultConfig(disableTimestamp);
            EncodeEntry(cfg, With(ctx, a), ent, b) == EncodeEntry(cfg, ctx, ent, a + b)
  {
    hide EncodeEntry, With;
    ContextIsCallSite(DefaultConfig(disableTimestamp), ctx, ent, a, b);
  }

  /** The exception is real: with every key empty and an empty entry the two lines differ. */
  lemma ContextIsNotCallSite()
    ensures exists cfg, ctx, ent, a, b :: EncodeEntry(cfg, With(ctx, a), ent, b) != EncodeEntry(cfg, ctx, ent, a + b)
  {
    hide EncodeEntry, With;
    var cfg, ctx := Config([], [], [], [], [], []), Context([], 0, false);
    var ent := Entry([], [], Rendered([], []), [], None, [], [], InfoLevel);
    var a := [Plain([])];
    ContextIsCallSite(cfg, ctx, ent, a, []);
    assert EncodeEntry(cfg, With(ctx, a), ent, []) != EncodeEntry(cfg, ctx, ent, a + []);
  }

  /** The line before its ending is valid UTF-8 without control bytes, whatever is logged. */
  lemma BodyClean(cfg: Config, ctx: Context, ent: Entry, fs: seq<Field>)
    requires Clean(ctx.buf)
    ensures Clean(Body(cfg, ctx, ent, fs))
  {
    hide Clean, PutItems, HeaderItems, StackItems, AllItems;
    CleanAscii([]);
    ItemsClean([], HeaderItems(cfg, ent));
    var h := Header(cfg, ent);
    CleanWith(h, [SPACE]);
    CleanConcat(h + [SPACE], ctx.buf);
    var c := WithContext(h, ctx.buf);
    ItemsClean(c, AllItems(fs, ctx.terse));
    var closing := Repeat(RBRACE, ctx.openNamespaces + OpenedBy(fs));
    CleanWith(PutFields(c, fs, ctx.terse), closing);
    ItemsClean(PutFields(c, fs, ctx.terse) + closing, StackItems(cfg, ent));
  }

  /**
   With a newline as the ending, as by default, an entry takes exactly one line: the newline is
   its last byte and its only control byte.
   */
  lemma OneLine(cfg: Config, ctx: Context, ent: Entry, fs: seq<Field>)
    requires (cfg.lineEnding == [] || cfg.lineEnding == [0x0A]) && Clean(ctx.buf)
    ensures var line := EncodeEntry(cfg, ctx, ent, fs);
            && line != []
            && (forall i :: 0 <= i < |line| ==> (line[i] == NEWLINE <==> i == |line| - 1))
            && (forall i :: 0 <= i < |line| ==> (line[i] < 0x20 <==> i == |line| - 1))
  {
    hide Body, ValidUtf8;
    BodyClean(cfg, ctx, ent, fs);
  }

  /** With keeps the context clean, so every logger's context is clean. */
  lemma WithClean(ctx: Context, fs: seq<Field>)
    requires Clean(ctx.buf)
    ensures Clean(With(ctx, fs).buf)
  {
    hide Clean, PutItems, AllItems;
    ItemsClean(ctx.buf, AllItems(fs, ctx.terse));
  }

  // ------------------------------------------------- a line tells everything

  /** The field makes one call, or is an error. */
  predicate OneCall(f: Field) {
    f.Plain? ==> |f.calls| == 1
  }

  /** The field opens a namespace. */
  predicate Opens(f: Field) {
    f.Plain? && |f.calls| == 1 && f.calls[0].OpenNamespace?
  }

  function Opening(fs: seq<Field>): nat {
    if fs == [] then 0 else (if Opens(fs[0]) then 1 else 0) + Opening(fs[1..])
  }

  ghost predicate AllSingle(items: seq<seq<Call>>) {
    forall i :: 0 <= i < |items| ==> Single(items[i])
  }

  /** Every namespace is counted once. */
  lemma {:induction false} OpeningExactly(fs: seq<Field>)
    requires forall i :: 0 <= i < |fs| ==> OneCall(fs[i])
    ensures OpenedBy(fs) == Opening(fs)
    decreases |fs|
  {
    if fs != [] {
      var first, rest := fs[0], fs[1..];
      OpeningExactly(rest);
      assert fs == [first] + rest && [first][..0] == [];
      AllItemsConcat([first], rest, false);
      if first.Plain? {
        assert first.calls[..0] == [] && Opened(first.calls[..0]) == 0;
      }
    }
  }

  // --------------------------------------------- what a reader gets from a line

  function ShownText(r: Rendered): bytes {
    Sanitize(if r.text == [] then r.fallback else r.text)
  }

  /** The entry: time, level, logger name, caller and message, those that are wanted and there. */
  function ShownEntry(time: bool, level: bool, name: bool, caller: bool, ent: Entry): seq<Item> {
    (if time then [Bare(if ent.stamp == [] then ent.nanos else ent.stamp)] else [])
    + (if level then [Bare(ShownText(ent.level))] else [])
    + (if name && ent.loggerName != [] then [Bare(Sanitize(ent.loggerName))] else [])
    + (if caller && ent.caller.Some? then [Bare(ShownText(ent.caller.value))] else [])
    + (if ent.message == [] then [] else [Bare(Sanitize(ent.message))])
  }

  /** One field: its key and value; an error has a second item for a rendering with more to tell. */
  function ShownField(f: Field, terse: bool): seq<Item>
    requires OneCall(f)
  {
    match f
    case Plain(calls) =>
      (match calls[0]
       case Append(v) => [Bare(Shown(v))]
       case Add(key, v) => [Pair(Sanitize(key), Shown(v))]
       case OpenNamespace(key) => [Pair(Sanitize(key), [0x7B])])
    case Error(key, basic, verbose) =>
      [Pair(Sanitize(key), Sanitize(basic))]
      + (if terse || verbose == None || verbose == Some(basic) then []
         else [Pair(Sanitize(key + [0x56, 0x65, 0x72, 0x62, 0x6F, 0x73, 0x65]), Sanitize(verbose.value))])
  }

  function ShownFields(fs: seq<Field>, terse: bool): seq<Item>
    requires forall i :: 0 <= i < |fs| ==> OneCall(fs[i])
  {
    if fs == [] then [] else ShownField(fs[0], terse) + ShownFields(fs[1..], terse)
  }

  /** The stack trace under its key. */
  function ShownStack(key: bytes, ent: Entry): seq<Item> {
    if key == [] || ent.stack == [] then [] else [Pair(Sanitize(key), Sanitize(ent.stack))]
  }

  lemma ShownConcat(a: seq<seq<Call>>, b: seq<seq<Call>>)
    requires AllSingle(a) && AllSingle(b)
    ensures AllSingle(a + b) && ShownItems(a + b) == ShownItems(a) + ShownItems(b)
  {
    hide ShownItem;
  }

  lemma ShownWhen(items: seq<seq<Call>>, condition: bool, calls: seq<Call>)
    requires AllSingle(items) && Single(calls)
    ensures AllSingle(items + When(condition, calls))
    ensures ShownItems(items + When(condition, calls))
         == ShownItems(items) + if condition then [ShownItem(calls)] else []
  {
    hide ShownItem;
    assert condition ==> ShownItems(When(condition, calls)) == [ShownItem(calls)];
    ShownConcat(items, When(condition, calls));
  }

  /** The items up to the logger name. */
  function FirstItems(cfg: Config, ent: Entry): seq<seq<Call>> {
    When(cfg.timeKey != [], [Append(Time(ent.stamp, ent.nanos))])
    + When(cfg.levelKey != [], Render(ent.level))
    + When(ent.loggerName != [] && cfg.nameKey != [], [Append(Str(ent.loggerName))])
  }

  lemma FirstShown(cfg: Config, ent: Entry)
    ensures AllSingle(FirstItems(cfg, ent))
    ensures ShownItems(FirstItems(cfg, ent))
         == (if cfg.timeKey != [] then [Bare(if ent.stamp == [] then ent.nanos else ent.stamp)] else [])
            + (if cfg.levelKey != [] then [Bare(ShownText(ent.level))] else [])
            + (if cfg.nameKey != [] && ent.loggerName != [] then [Bare(Sanitize(ent.loggerName))] else [])
  {
    hide When, AllSingle, ShownItems, Sanitize;
    var time := When(cfg.timeKey != [], [Append(Time(ent.stamp, ent.nanos))]);
    var level := When(cfg.levelKey != [], Render(ent.level));
    ShownNone();
    ShownWhen([], cfg.timeKey != [], [Append(Time(ent.stamp, ent.nanos))]);
    assert [] + time == time;
    ShownWhen(time, cfg.levelKey != [], Render(ent.level));
    ShownWhen(time + level, ent.loggerName != [] && cfg.nameKey != [], [Append(Str(ent.loggerName))]);
  }

  function CallerItems(cfg: Config, ent: Entry): seq<seq<Call>> {
    match ent.caller
    case None => []
    case Some(c) => When(cfg.callerKey != [], Render(c))
  }

  lemma HeaderSplit(cfg: Config, ent: Entry)
    ensures HeaderItems(cfg, ent)
         == FirstItems(cfg, ent) + CallerItems(cfg, ent) + When(ent.message != [], [Append(Str(ent.message))])
  {
    hide When, Render;
  }

  lemma HeaderShown(cfg: Config, ent: Entry)
    ensures AllSingle(HeaderItems(cfg, ent))
    ensures ShownItems(HeaderItems(cfg, ent))
         == ShownEntry(cfg.timeKey != [], cfg.levelKey != [], cfg.nameKey != [], cfg.callerKey != [], ent)
  {
    var first, caller := FirstItems(cfg, ent), CallerItems(cfg, ent);
    HeaderSplit(cfg, ent);
    FirstShown(cfg, ent);
    hide When, AllSingle, ShownItems, Sanitize, HeaderItems, FirstItems;
    if ent.caller.Some? {
      ShownWhen(first, cfg.callerKey != [], Render(ent.caller.value));
    } else {
      assert first + [] == first;
    }
    ShownWhen(first + caller, ent.message != [], [Append(Str(ent.message))]);
  }

  lemma ShownNone()
    ensures AllSingle([]) && ShownItems([]) == []
  {
  }

  /** The configuration made from the log settings: every part is on, but for the time if it is disabled. */
  lemma DefaultExactly(disableTimestamp: bool)
    ensures var cfg := DefaultConfig(disableTimestamp);
            && (cfg.timeKey == [] <==> disableTimestamp)
            && cfg.levelKey != [] && cfg.nameKey != [] && cfg.callerKey != []
            && cfg.stacktraceKey == [0x73, 0x74, 0x61, 0x63, 0x6B] && cfg.lineEnding == [0x0A]
  {
  }

  lemma StackShown(cfg: Config, ent: Entry)
    ensures var items := StackItems(cfg, ent);
            AllSingle(items) && ShownItems(items) == ShownStack(cfg.stacktraceKey, ent)
            && (items == [] <==> ShownStack(cfg.stacktraceKey, ent) == [])
  {
    hide Sanitize, ShownItems, AllSingle;
    ShownNone();
    ShownWhen([], ent.stack != [] && cfg.stacktraceKey != [], [Add(cfg.stacktraceKey, Str(ent.stack))]);
    assert [] + StackItems(cfg, ent) == StackItems(cfg, ent);
  }

  lemma {:induction false} FieldsShown(fs: seq<Field>, terse: bool)
    requires forall i :: 0 <= i < |fs| ==> OneCall(fs[i])
    ensures AllSingle(AllItems(fs, terse)) && ShownItems(AllItems(fs, terse)) == ShownFields(fs, terse)
    decreases |fs|
  {
    hide ShownItems, AllSingle, ShownField, Items, OneCall;
    if fs == [] {
      ShownNone();
    } else {
      var first, rest := fs[0], fs[1..];
      FieldsShown(rest, terse);
      FieldShown(first, terse);
      assert fs == [first] + rest && [first][..0] == [] && [] + Items(first, terse) == Items(first, terse);
      AllItemsConcat([first], rest, terse);
      ShownConcat(Items(first, terse), AllItems(rest, terse));
    }
  }

  lemma FieldShown(f: Field, terse: bool)
    requires OneCall(f)
    ensures AllSingle(Items(f, terse)) && ShownItems(Items(f, terse)) == ShownField(f, terse)
  {
    hide Sanitize;
    var items := Items(f, terse);
    match f
    case Plain(calls) => assert ShownItems(items) == [ShownItem(calls)];
    case Error(key, basic, verbose) =>
      assert ShownItem(items[0]) == Pair(Sanitize(key), Sanitize(basic));
      if |items| == 1 {
        assert ShownItems(items) == [ShownItem(items[0])];
      } else {
        assert items == [items[0], items[1]];
        assert ShownItems(items) == [ShownItem(items[0]), ShownItem(items[1])];
      }
  }

  /**
   A line with a header, written by a logger whose context is the fields `a`, called with the
   fields `b`, is `x`, a closing brace for each namespace that was opened, `y`, and the line
   ending. Here `x` parses to the entry and the fields, context first, and `y` is the stack
   trace, if any.
   */
  lemma LineExactly(cfg: Config, ent: Entry, a: seq<Field>, b: seq<Field>, terse: bool) returns (x: bytes, y: bytes)
    requires HasHeader(cfg, ent) && forall i :: 0 <= i < |a + b| ==> OneCall((a + b)[i])
    ensures EncodeEntry(cfg, With(Context([], 0, terse), a), ent, b)
         == x + Repeat(0x7D, Opening(a + b)) + y + (if cfg.lineEnding == [] then [0x0A] else cfg.lineEnding)
    ensures var entry := ShownEntry(cfg.timeKey != [], cfg.levelKey != [], cfg.nameKey != [], cfg.callerKey != [], ent);
            ParseItems(x) == Some(entry + ShownFields(a + b, terse))
    ensures var stack := ShownStack(cfg.stacktraceKey, ent);
            if stack == [] then y == [] else y != [] && y[0] == 0x20 && ParseItems(y[1..]) == Some(stack)
  {
    var ctx, fs := Context([], 0, terse), a + b;
    var header, fields, stack := HeaderItems(cfg, ent), AllItems(fs, terse), StackItems(cfg, ent);
    hide ParseItems, HeaderItems, StackItems, PutItems, AllItems, OpenedBy, Opening, ShownItems, AllSingle;
    hide OneCall, ShownEntry, ShownFields, ShownStack, HasHeader, With, Body;
    ContextIsCallSite(cfg, ctx, ent, a, b);
    HeaderShown(cfg, ent);
    FieldsShown(fs, terse);
    StackShown(cfg, ent);
    OpeningExactly(fs);
    ShownConcat(header, fields);
    ItemsRead(header + fields);
    ItemsRead(stack);
    x, y := PutItems([], header + fields), if stack == [] then [] else [SPACE] + PutItems([], stack);
    BodySplit(cfg, ctx, ent, fs);
    assert y != [] ==> y[1..] == PutItems([], stack);
  }

  /** Where a line has a header: header and fields, closing braces, stack trace. */
  lemma BodySplit(cfg: Config, ctx: Context, ent: Entry, fs: seq<Field>)
    requires ctx.buf == [] && HasHeader(cfg, ent)
    ensures var stack := StackItems(cfg, ent);
            Body(cfg, ctx, ent, fs)
            == PutItems([], HeaderItems(cfg, ent) + AllItems(fs, ctx.terse))
               + Repeat(RBRACE, ctx.openNamespaces + OpenedBy(fs))
               + if stack == [] then [] else [SPACE] + PutItems([], stack)
  {
    var header, fields, stack := HeaderItems(cfg, ent), AllItems(fs, ctx.terse), StackItems(cfg, ent);
    SomeHeader(cfg, ent);
    PutItemsConcat([], header, fields);
    ItemsPrefix([], [], header + fields);
    hide PutItems, HeaderItems, StackItems, AllItems, OpenedBy;
    AfterClosing(PutItems([], header + fields) + Repeat(RBRACE, ctx.openNamespaces + OpenedBy(fs)), stack);
  }

  lemma AfterClosing(closed: bytes, stack: seq<seq<Call>>)
    requires closed != []
    ensures PutItems(closed, stack) == closed + if stack == [] then [] else [SPACE] + PutItems([], stack)
  {
    hide PutItems;
    ItemsPrefix(closed, [], stack);
    NoItems(closed);
    assert closed + [] == closed && closed + ([SPACE] + PutItems([], stack)) == closed + [SPACE] + PutItems([], stack);
  }

  lemma SomeHeader(cfg: Config, ent: Entry)
    requires HasHeader(cfg, ent)
    ensures HeaderItems(cfg, ent) != []
  {
  }

  lemma ItemsRead(items: seq<seq<Call>>)
    requires AllSingle(items)
    ensures ParseItems(PutItems([], items)) == Some(ShownItems(items))
  {
    hide ParseItems, PutItems, ShownItems;
    ItemsParseBack(items);
  }

  /** Without namespaces the whole line parses to entry, context, call-site fields and stack trace, in this order. */
  lemma LineParsesBack(disableTimestamp: bool, ent: Entry, a: seq<Field>, b: seq<Field>, terse: bool)
    requires forall i :: 0 <= i < |a + b| ==> OneCall((a + b)[i]) && !Opens((a + b)[i])
    ensures var line := EncodeEntry(DefaultConfig(disableTimestamp), With(Context([], 0, terse), a), ent, b);
            line != [] && ParseItems(line[..|line| - 1])
                          == Some(ShownEntry(!disableTimestamp, true, true, true, ent) + ShownFields(a + b, terse)
                                  + ShownStack([0x73, 0x74, 0x61, 0x63, 0x6B], ent))
  {
    var cfg, ctx, fs := DefaultConfig(disableTimestamp), Context([], 0, terse), a + b;
    DefaultExactly(disableTimestamp);
    NothingOpens(fs);
    BodyRead(cfg, ctx, ent, fs);
    hide ParseItems, Opens, OneCall, ShownEntry, ShownFields, ShownStack, DefaultConfig, With, Body;
    ContextIsCallSiteByDefault(disableTimestamp, ctx, ent, a, b);
    var body := Body(cfg, ctx, ent, fs);
    assert (body + [NEWLINE])[..|body|] == body;
  }

  lemma BodyRead(cfg: Config, ctx: Context, ent: Entry, fs: seq<Field>)
    requires ctx.buf == [] && ctx.openNamespaces == 0 && HasHeader(cfg, ent)
    requires (forall i :: 0 <= i < |fs| ==> OneCall(fs[i])) && Opening(fs) == 0
    ensures ParseItems(Body(cfg, ctx, ent, fs))
         == Some(ShownEntry(cfg.timeKey != [], cfg.levelKey != [], cfg.nameKey != [], cfg.callerKey != [], ent)
                 + ShownFields(fs, ctx.terse) + ShownStack(cfg.stacktraceKey, ent))
  {
    var header, fields, stack := HeaderItems(cfg, ent), AllItems(fs, ctx.terse), StackItems(cfg, ent);
    hide ParseItems, HeaderItems, StackItems, PutItems, AllItems, OpenedBy, Opening, ShownItems, AllSingle;
    hide OneCall, ShownEntry, ShownFields, ShownStack, HasHeader, Body;
    OpeningExactly(fs);
    HeaderShown(cfg, ent);
    FieldsShown(fs, ctx.terse);
    StackShown(cfg, ent);
    ShownConcat(header, fields);
    ShownConcat(header + fields, stack);
    ItemsRead(header + fields + stack);
    BodyItems(cfg, ctx, ent, fs);
  }

  lemma BodyItems(cfg: Config, ctx: Context, ent: Entry, fs: seq<Field>)
    requires ctx.buf == [] && ctx.openNamespaces + OpenedBy(fs) == 0
    ensures Body(cfg, ctx, ent, fs)
         == PutItems([], HeaderItems(cfg, ent) + AllItems(fs, ctx.terse) + StackItems(cfg, ent))
  {
    var header, fields, stack := HeaderItems(cfg, ent), AllItems(fs, ctx.terse), StackItems(cfg, ent);
    hide PutItems, HeaderItems, StackItems, AllItems, OpenedBy;
    PutItemsConcat([], header, fields);
    PutItemsConcat([], header + fields, stack);
    var x := PutItems([], header + fields);
    assert x + Repeat(RBRACE, 0) == x;
  }

  lemma {:induction false} NothingOpens(fs: seq<Field>)
    requires forall i :: 0 <= i < |fs| ==> !Opens(fs[i])
    ensures Opening(fs) == 0
  {
    if fs != [] {
      NothingOpens(fs[1..]);
    }
  }
}
