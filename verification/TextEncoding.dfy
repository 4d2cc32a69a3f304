/**
 The text encoder as it runs: buffers that grow in place, nested encoders and buffers
 that are recycled through pools, and the core that writes finished lines.

 Every method is proved to leave in the buffer what TextFormat and LogLine say.
 */
module TextEncoding {
  import opened Options
  import opened Utf8
  import opened Escaping
  import opened TextFormat
  import opened LineParser
  import opened LogLine

  class Buffer {
    var content: bytes

    constructor ()
      ensures content == []
    {
      content := [];
    }

    method AppendByte(b: byte)
      modifies this
      ensures content == old(content) + [b]
    {
      content := content + [b];
    }

    method Write(s: bytes)
      modifies this
      ensures content == old(content) + s
    {
      content := content + s;
    }
  }

  /** The encoders and buffers that are free for reuse. */
  class Pools {
    var encoders: set<TextEncoder>
    var buffers: set<Buffer>

    /** No free encoder holds on to a buffer. */
    ghost predicate Valid()
      reads this, encoders
    {
      forall e :: e in encoders ==> e.buf == null
    }

    /** An empty buffer nobody else has: a free one, or a new one. */
    method GetBuffer() returns (b: Buffer)
      modifies this`buffers, buffers
      ensures b.content == [] && b !in buffers
      ensures buffers <= old(buffers) && (b in old(buffers) || fresh(b))
    {
      if * {
        if buffers != {} {
          b :| b in buffers;
          buffers := buffers - {b};
          b.content := [];
          return;
        }
      }
      b := new Buffer();
    }

    method FreeBuffer(b: Buffer)
      modifies this`buffers
      ensures buffers == old(buffers) + {b}
    {
      buffers := buffers + {b};
    }

    method GetEncoder() returns (e: TextEncoder)
      modifies this`encoders
      ensures e !in encoders && encoders <= old(encoders) && (e in old(encoders) || fresh(e))
    {
      if * {
        if encoders != {} {
          e :| e in encoders;
          encoders := encoders - {e};
          return;
        }
      }
      e := new TextEncoder();
    }

    /** A free encoder forgets its configuration, its buffer and its namespaces. */
    method PutEncoder(e: TextEncoder)
      modifies this`encoders, e
      ensures encoders == old(encoders) + {e}
      ensures e.config == None && e.buf == null && e.openNamespaces == 0
    {
      e.config := None;
      e.buf := null;
      e.openNamespaces := 0;
      encoders := encoders + {e};
    }
  }

  class TextEncoder {
    var config: Option<Config>
    var buf: Buffer?
    var openNamespaces: nat
    var terse: bool

    constructor ()
      ensures config == None && buf == null && openNamespaces == 0
    {
      config, buf, openNamespaces, terse := None, null, 0, false;
    }

    /** The encoder is in use: it and its buffer are not in the pools. */
    ghost predicate Ready(p: Pools)
      reads this, p, p.encoders
    {
      && p.Valid() && this !in p.encoders
      && buf != null && buf !in p.buffers
      && config.Some?
    }

    ghost function State(): Context
      requires buf != null
      reads this, buf
    {
      Context(buf.content, openNamespaces, terse)
    }

    method AddElementSeparator()
      requires buf != null
      modifies buf
      ensures buf.content == old(buf.content) + Separator(old(buf.content))
      ensures var was := old(buf.content);
              buf.content == if was == [] then was
                             else match was[|was| - 1]
                               case 0x7B | 0x5B | 0x3A | 0x2C | 0x20 | 0x3D => was
                               case _ => was + [0x2C]
    {
      var last := |buf.content| - 1;
      if last < 0 {
        return;
      }
      match buf.content[last] {
        case 0x7B | 0x5B | 0x3A | 0x2C | 0x20 | 0x3D => return;
        case _ => buf.AppendByte(COMMA);
      }
    }

    method NeedDoubleQuotes(s: bytes) returns (r: bool)
      ensures r == NeedsQuotes(s)
      ensures r <==> exists i :: 0 <= i < |s| && (s[i] <= 0x20 || s[i] == 0x5C || s[i] == 0x22
                                                  || s[i] == 0x5B || s[i] == 0x5D || s[i] == 0x3D)
    {
      var i := 0;
      while i < |s|
        invariant 0 <= i <= |s|
        invariant forall j :: 0 <= j < i ==> !Special(s[j])
      {
        var b := s[i];
        if b <= 0x20 {
          return true;
        }
        match b {
          case 0x5C | 0x22 | 0x5B | 0x5D | 0x3D => return true;
          case _ =>
        }
        i := i + 1;
      }
      return false;
    }

    method TryAddRuneSelf(b: byte) returns (done: bool)
      requires buf != null
      modifies buf
      ensures done == (b < 0x80)
      ensures buf.content == old(buf.content) + if done then EscapeByte(b) else []
    {
      if b >= 0x80 {
        return false;
      }
      if 0x20 <= b && b != BACKSLASH && b != QUOTE {
        buf.AppendByte(b);
        return true;
      }
      buf.AppendByte(BACKSLASH);
      match b {
        case 0x5C | 0x22 => buf.AppendByte(b);
        case 0x0A => buf.AppendByte(0x6E);
        case 0x0D => buf.AppendByte(0x72);
        case 0x09 => buf.AppendByte(0x74);
        case _ =>
          buf.Write([0x75, 0x30, 0x30]);
          buf.AppendByte(HexDigit(b / 16));
          buf.AppendByte(HexDigit(b % 16));
      }
      return true;
    }

    /** `size` is what decoding found: 0 stands for an error of one byte. */
    method TryAddRuneError(size: nat) returns (done: bool)
      requires buf != null
      modifies buf
      ensures done == (size == 0)
      ensures buf.content == old(buf.content) + if done then RUNE_ERROR else []
    {
      if size == 0 {
        buf.Write(RUNE_ERROR);
        return true;
      }
      return false;
    }

    /** Escapes a string, character by character. */
    method SafeAddString(s: bytes)
      requires buf != null
      modifies buf
      ensures buf.content == old(buf.content) + Escape(s)
    {
      hide Escape, CharLen, EscapeByte, EscapeChunk, Chunk;
      var i := 0;
      ghost var before, done := buf.content, [];
      assert s[0..] == s;
      while i < |s|
        invariant 0 <= i <= |s|
        invariant done + Escape(s[i..]) == Escape(s)
        invariant buf.content == before + done
      {
        EscapeTurn(s, i, before, done);
        done := done + EscapeChunk(s[i..]);
        var added := TryAddRuneSelf(s[i]);
        if added {
          i := i + 1;
          continue;
        }
        var size := CharLen(s[i..]);
        added := TryAddRuneError(size);
        if added {
          i := i + 1;
          continue;
        }
        buf.Write(s[i..i + size]);
        i := i + size;
      }
      assert s[i..] == [];
      EscapeUnfold([]);
    }

    method SafeAddStringWithQuote(s: bytes)
      requires buf != null
      modifies buf
      ensures buf.content == old(buf.content) + Token(s)
    {
      hide Escape, NeedsQuotes;
      var quotes := NeedDoubleQuotes(s);
      if !quotes {
        SafeAddString(s);
        return;
      }
      buf.AppendByte(QUOTE);
      SafeAddString(s);
      buf.AppendByte(QUOTE);
    }

    method AppendString(val: bytes)
      requires buf != null
      modifies buf
      ensures buf.content == PutToken(old(buf.content), val)
    {
      hide Token, Separator;
      AddElementSeparator();
      SafeAddStringWithQuote(val);
    }

    /** Escapes a byte slice, with a loop of its own: to the same bytes as the string. */
    method SafeAddByteString(s: bytes)
      requires buf != null
      modifies buf
      ensures buf.content == old(buf.content) + Escape(s)
    {
      hide Escape, CharLen, EscapeByte, EscapeChunk, Chunk;
      var i := 0;
      ghost var before, done := buf.content, [];
      assert s[0..] == s;
      while i < |s|
        invariant 0 <= i <= |s|
        invariant done + Escape(s[i..]) == Escape(s)
        invariant buf.content == before + done
      {
        EscapeTurn(s, i, before, done);
        done := done + EscapeChunk(s[i..]);
        var added := TryAddRuneSelf(s[i]);
        if added {
          i := i + 1;
          continue;
        }
        var size := CharLen(s[i..]);
        added := TryAddRuneError(size);
        if added {
          i := i + 1;
          continue;
        }
        buf.Write(s[i..i + size]);
        i := i + size;
      }
      assert s[i..] == [];
      EscapeUnfold([]);
    }

    method AppendByteString(val: bytes)
      requires buf != null
      modifies buf
      ensures buf.content == PutToken(old(buf.content), val)
    {
      hide Escape, NeedsQuotes, Separator;
      AddElementSeparator();
      var quotes := NeedDoubleQuotes(val);
      if !quotes {
        SafeAddByteString(val);
        return;
      }
      buf.AppendByte(QUOTE);
      SafeAddByteString(val);
      buf.AppendByte(QUOTE);
    }

    method AppendLiteral(digits: bytes)
      requires buf != null
      modifies buf
      ensures buf.content == PutLiteral(old(buf.content), digits)
    {
      AddElementSeparator();
      buf.Write(digits);
    }

    method AppendTime(stamp: bytes, nanos: bytes)
      requires buf != null
      modifies buf
      ensures buf.content == if stamp == [] then PutLiteral(old(buf.content), nanos) else old(buf.content) + stamp
    {
      var cur := |buf.content|;
      buf.Write(stamp);
      if cur == |buf.content| {
        assert stamp == [];
        AppendLiteral(nanos);
      }
    }

    method AddKey(key: bytes)
      requires buf != null
      modifies buf
      ensures buf.content == PutKey(old(buf.content), key)
    {
      hide Token, Separator;
      AddElementSeparator();
      SafeAddStringWithQuote(key);
      buf.AppendByte(EQUALS);
    }

    /** A new encoder like this one with an empty buffer, whatever the pooled one was used for. */
    method Cloned(p: Pools) returns (clone: TextEncoder)
      requires Ready(p)
      modifies p, p.encoders, p.buffers
      ensures clone.Ready(p) && Ready(p) && clone != this && clone.buf != buf
      ensures clone in old(p.encoders) || fresh(clone)
      ensures clone.buf in old(p.buffers) || fresh(clone.buf)
      ensures p.encoders <= old(p.encoders) && p.buffers <= old(p.buffers)
      ensures clone.State() == Context([], openNamespaces, terse) && clone.config == config
    {
      clone := p.GetEncoder();
      clone.config := config;
      clone.openNamespaces := openNamespaces;
      clone.terse := terse;
      clone.buf := p.GetBuffer();
    }

    /** A nested encoder with a whole array or object in its buffer. */
    method Nested(open: byte, calls: seq<Call>, close: byte, p: Pools) returns (ne: TextEncoder)
      requires Ready(p)
      modifies p, p.encoders, p.buffers
      ensures ne.Ready(p) && Ready(p) && ne != this && ne.buf != buf
      ensures ne in old(p.encoders) || fresh(ne)
      ensures ne.buf in old(p.buffers) || fresh(ne.buf)
      ensures fresh(p.encoders - old(p.encoders)) && fresh(p.buffers - old(p.buffers))
      ensures ne.buf.content == Run([open], calls) + [close]
      decreases calls, 1
    {
      hide Run;
      ne := Cloned(p);
      ne.buf.AppendByte(open);
      assert ne.buf.content == [open];
      ne.CallAll(calls, p);
      ne.buf.AppendByte(close);
    }

    /** What a nested encoder holds is added as one byte string; the nested encoder is recycled. */
    method AppendInner(ne: TextEncoder, p: Pools)
      requires Ready(p) && ne.Ready(p) && ne != this && ne.buf != buf
      modifies buf, p`encoders, p`buffers, ne
      ensures Ready(p) && unchanged(this)
      ensures p.encoders == old(p.encoders) + {ne} && p.buffers == old(p.buffers) + {old(ne.buf)}
      ensures buf.content == PutToken(old(buf.content), old(ne.buf.content))
    {
      AppendByteString(ne.buf.content);
      p.FreeBuffer(ne.buf);
      p.PutEncoder(ne);
    }

    method AppendArray(elements: seq<Call>, p: Pools)
      requires Ready(p)
      modifies buf, p, p.encoders, p.buffers
      ensures Ready(p) && unchanged(this)
      ensures fresh(p.encoders - old(p.encoders)) && fresh(p.buffers - old(p.buffers))
      ensures buf.content == PutValue(old(buf.content), Array(elements))
      decreases elements, 2
    {
      hide PutToken, Run, Separator;
      AddElementSeparator();
      var ne := Nested(LBRACKET, elements, RBRACKET, p);
      AppendInner(ne, p);
    }

    method AppendObject(members: seq<Call>, p: Pools)
      requires Ready(p)
      modifies buf, p, p.encoders, p.buffers
      ensures Ready(p) && unchanged(this)
      ensures fresh(p.encoders - old(p.encoders)) && fresh(p.buffers - old(p.buffers))
      ensures buf.content == PutValue(old(buf.content), Object(members))
      decreases members, 2
    {
      hide PutToken, Run, Separator;
      AddElementSeparator();
      var ne := Nested(LBRACE, members, RBRACE, p);
      AppendInner(ne, p);
    }

    method AppendValue(v: Value, p: Pools)
      requires Ready(p)
      modifies buf, p, p.encoders, p.buffers
      ensures Ready(p) && unchanged(this)
      ensures fresh(p.encoders - old(p.encoders)) && fresh(p.buffers - old(p.buffers))
      ensures buf.content == PutValue(old(buf.content), v)
      decreases v, 1
    {
      hide PutToken, PutLiteral, Inner;
      match v
      case Str(text) => AppendString(text);
      case ByteStr(text) => AppendByteString(text);
      case Literal(digits) => AppendLiteral(digits);
      case Time(stamp, nanos) => AppendTime(stamp, nanos);
      case Array(elements) => AppendArray(elements, p);
      case Object(members) => AppendObject(members, p);
    }

    /** One encoder call of a marshaler. */
    method Call(c: Call, p: Pools)
      requires Ready(p)
      modifies this`openNamespaces, buf, p, p.encoders, p.buffers
      ensures Ready(p) && buf == old(buf) && config == old(config) && terse == old(terse)
      ensures fresh(p.encoders - old(p.encoders)) && fresh(p.buffers - old(p.buffers))
      ensures buf.content == Do(old(buf.content), c)
      ensures openNamespaces == old(openNamespaces) + if c.OpenNamespace? then 1 else 0
      decreases c, 2
    {
      hide PutKey, PutValue;
      match c
      case Append(v) => AppendValue(v, p);
      case Add(key, v) => AddKey(key); AppendValue(v, p);
      case OpenNamespace(key) =>
        AddKey(key);
        buf.AppendByte(LBRACE);
        openNamespaces := openNamespaces + 1;
    }

    /** Everything a marshaler calls. */
    method CallAll(calls: seq<Call>, p: Pools)
      requires Ready(p)
      modifies this`openNamespaces, buf, p, p.encoders, p.buffers
      ensures Ready(p) && buf == old(buf) && config == old(config) && terse == old(terse)
      ensures fresh(p.encoders - old(p.encoders)) && fresh(p.buffers - old(p.buffers))
      ensures buf.content == Run(old(buf.content), calls)
      ensures openNamespaces == old(openNamespaces) + Opened(calls)
      decreases calls, 0
    {
      hide Do;
      for i := 0 to |calls|
        invariant Ready(p) && buf == old(buf) && config == old(config) && terse == old(terse)
        invariant fresh(p.encoders - old(p.encoders)) && fresh(p.buffers - old(p.buffers))
        invariant buf.content == Run(old(buf.content), calls[..i])
        invariant openNamespaces == old(openNamespaces) + Opened(calls[..i])
      {
        assert calls[..i + 1][..i] == calls[..i];
        Call(calls[i], p);
      }
      assert calls[..|calls|] == calls;
    }

    method BeginQuoteField()
      requires buf != null
      modifies buf
      ensures buf.content == BeginField(old(buf.content))
    {
      if |buf.content| > 0 {
        buf.AppendByte(SPACE);
      }
      buf.AppendByte(LBRACKET);
    }

    method EndQuoteField()
      requires buf != null
      modifies buf
      ensures buf.content == old(buf.content) + [RBRACKET]
    {
      buf.AppendByte(RBRACKET);
    }

    method AddItem(calls: seq<Call>, p: Pools)
      requires Ready(p)
      modifies this`openNamespaces, buf, p, p.encoders, p.buffers
      ensures Ready(p) && buf == old(buf) && config == old(config) && terse == old(terse)
      ensures fresh(p.encoders - old(p.encoders)) && fresh(p.buffers - old(p.buffers))
      ensures buf.content == PutItem(old(buf.content), calls)
      ensures openNamespaces == old(openNamespaces) + Opened(calls)
    {
      hide Run;
      BeginQuoteField();
      CallAll(calls, p);
      EndQuoteField();
    }

    method EncodeError(key: bytes, basic: bytes, verbose: Option<bytes>, p: Pools)
      requires Ready(p)
      modifies this`openNamespaces, buf, p, p.encoders, p.buffers
      ensures Ready(p) && buf == old(buf) && config == old(config) && terse == old(terse)
      ensures fresh(p.encoders - old(p.encoders)) && fresh(p.buffers - old(p.buffers))
      ensures buf.content == PutItems(old(buf.content), Items(Error(key, basic, verbose), terse))
      ensures openNamespaces == old(openNamespaces)
    {
      hide PutItem, PutItems;
      ghost var before := buf.content;
      var first := [Add(key, Str(basic))];
      AddItem(first, p);
      SoleItem(before, first);
      assert Opened(first) == 0;
      assert [first] + [] == [first];
      if terse {
        return;
      }
      if verbose.Some? && verbose.value != basic {
        var second := [Add(key + VERBOSE, Str(verbose.value))];
        AddItem(second, p);
        LastItem(before, [first], second);
        assert Opened(second) == 0;
      }
    }

    method AddFields(fs: seq<Field>, p: Pools)
      requires Ready(p)
      modifies this`openNamespaces, buf, p, p.encoders, p.buffers
      ensures Ready(p) && buf == old(buf) && config == old(config) && terse == old(terse)
      ensures fresh(p.encoders - old(p.encoders)) && fresh(p.buffers - old(p.buffers))
      ensures buf.content == PutFields(old(buf.content), fs, terse)
      ensures openNamespaces == old(openNamespaces) + OpenedBy(fs)
    {
      hide PutItem, PutItems, Opened;
      ghost var before := buf.content;
      NoItems(before);
      for i := 0 to |fs|
        invariant Ready(p) && buf == old(buf) && config == old(config) && terse == old(terse)
        invariant fresh(p.encoders - old(p.encoders)) && fresh(p.buffers - old(p.buffers))
        invariant buf.content == PutItems(before, AllItems(fs[..i], terse))
        invariant openNamespaces == old(openNamespaces) + OpenedBy(fs[..i])
      {
        assert fs[..i + 1][..i] == fs[..i];
        PutItemsConcat(before, AllItems(fs[..i], terse), Items(fs[i], terse));
        if fs[i].Error? {
          EncodeError(fs[i].key, fs[i].basic, fs[i].verbose, p);
        } else {
          SoleItem(buf.content, fs[i].calls);
          AddItem(fs[i].calls, p);
        }
      }
      assert fs[..|fs|] == fs;
    }

    method Clone(p: Pools) returns (clone: TextEncoder)
      requires Ready(p)
      modifies p, p.encoders, p.buffers
      ensures clone.Ready(p) && Ready(p) && clone != this && clone.buf != buf
      ensures clone in old(p.encoders) || fresh(clone)
      ensures clone.buf in old(p.buffers) || fresh(clone.buf)
      ensures p.encoders <= old(p.encoders) && p.buffers <= old(p.buffers)
      ensures clone.State() == State() && clone.config == config
      ensures State() == old(State()) && unchanged(this)
    {
      clone := Cloned(p);
      clone.buf.Write(buf.content);
      assert [] + buf.content == buf.content;
    }

    method CloseOpenNamespaces()
      requires buf != null
      modifies buf
      ensures buf.content == old(buf.content) + Repeat(RBRACE, openNamespaces)
    {
      for i := 0 to openNamespaces
        invariant buf.content == old(buf.content) + Repeat(RBRACE, i)
      {
        buf.AppendByte(RBRACE);
        assert Repeat(RBRACE, i + 1) == Repeat(RBRACE, i) + [RBRACE];
      }
    }

    /** A part of the header that the configured formatter renders, with its fallback. */
    method AddRendered(r: Rendered, p: Pools)
      requires Ready(p)
      modifies buf
      ensures Ready(p)
      ensures buf.content == PutItem(old(buf.content), Render(r))
    {
      hide Token, Separator;
      BeginQuoteField();
      ghost var begun := buf.content;
      var cur := |buf.content|;
      AppendString(r.text);
      if cur == |buf.content| {
        EmptyToken(begun, r.text);
        AppendString(r.fallback);
      } else {
        WrittenToken(begun, r.text);
      }
      RunOne(begun, Render(r)[0]);
      EndQuoteField();
    }

    /** The bracketed items before the context: time, level, logger name, caller, message. */
    method AddHeader(ent: Entry, p: Pools)
      requires Ready(p) && buf.content == []
      modifies this`openNamespaces, buf, p, p.encoders, p.buffers
      ensures Ready(p) && buf == old(buf) && config == old(config) && terse == old(terse)
      ensures fresh(p.encoders - old(p.encoders)) && fresh(p.buffers - old(p.buffers))
      ensures buf.content == Header(config.value, ent)
      ensures openNamespaces == old(openNamespaces)
    {
      hide PutItem, PutItems, Opened, Render, Pools.Valid;
      var cfg := config.value;
      NoItems([]);
      assert [] + When(cfg.timeKey != [], [Append(Time(ent.stamp, ent.nanos))])
          == When(cfg.timeKey != [], [Append(Time(ent.stamp, ent.nanos))]);
      ghost var items := AddItemIf(cfg.timeKey != [], Append(Time(ent.stamp, ent.nanos)), [], p);
      items := AddRenderedIf(cfg.levelKey != [], ent.level, items, p);
      items := AddItemIf(ent.loggerName != [] && cfg.nameKey != [], Append(Str(ent.loggerName)), items, p);
      items := AddCaller(ent.caller, items, p);
      items := AddItemIf(|ent.message| > 0, Append(Str(ent.message)), items, p);
    }

    method AddCaller(caller: Option<Rendered>, ghost before: seq<seq<Call>>, p: Pools)
      returns (ghost items: seq<seq<Call>>)
      requires Ready(p) && buf.content == PutItems([], before)
      modifies buf
      ensures Ready(p)
      ensures items
           == before + match caller case None => [] case Some(r) => When(config.value.callerKey != [], Render(r))
      ensures buf.content == PutItems([], items)
    {
      hide PutItem, PutItems, Render;
      items := before;
      assert before + [] == before;
      if caller.Some? {
        items := AddRenderedIf(config.value.callerKey != [], caller.value, before, p);
      }
    }

    /** One item of the header, under its condition. */
    method AddItemIf(condition: bool, c: Call, ghost before: seq<seq<Call>>, p: Pools)
      returns (ghost items: seq<seq<Call>>)
      requires Ready(p) && buf.content == PutItems([], before) && !c.OpenNamespace?
      modifies this`openNamespaces, buf, p, p.encoders, p.buffers
      ensures Ready(p) && buf == old(buf) && config == old(config) && terse == old(terse)
      ensures fresh(p.encoders - old(p.encoders)) && fresh(p.buffers - old(p.buffers))
      ensures items == before + When(condition, [c])
      ensures buf.content == PutItems([], items)
      ensures openNamespaces == old(openNamespaces)
    {
      hide PutItem, PutItems, Opened;
      if condition {
        AddItem([c], p);
        OpensNone([c]);
        LastItem([], before, [c]);
      } else {
        assert before + [] == before;
      }
      items := before + When(condition, [c]);
    }

    method AddRenderedIf(condition: bool, r: Rendered, ghost before: seq<seq<Call>>, p: Pools)
      returns (ghost items: seq<seq<Call>>)
      requires Ready(p) && buf.content == PutItems([], before)
      modifies buf
      ensures Ready(p)
      ensures items == before + When(condition, Render(r))
      ensures buf.content == PutItems([], items)
    {
      hide PutItem, PutItems, Render;
      if condition {
        AddRendered(r, p);
        LastItem([], before, Render(r));
      } else {
        assert before + [] == before;
      }
      items := before + When(condition, Render(r));
    }

    /** Everything a line holds before its ending, for the context given. */
    method AddBody(context: bytes, ent: Entry, fs: seq<Field>, p: Pools)
      requires Ready(p) && buf.content == []
      modifies this`openNamespaces, buf, p, p.encoders, p.buffers
      ensures Ready(p) && buf == old(buf) && config == old(config)
      ensures fresh(p.encoders - old(p.encoders)) && fresh(p.buffers - old(p.buffers))
      ensures buf.content == Body(config.value, Context(context, old(openNamespaces), terse), ent, fs)
      ensures terse == old(terse)
    {
      hide Header, PutFields, PutItem, PutItems, Repeat, OpenedBy, Opened;
      var cfg := config.value;
      AddHeader(ent, p);
      if |context| > 0 {
        buf.AppendByte(SPACE);
        buf.Write(context);
      }
      AddFields(fs, p);
      CloseOpenNamespaces();
      ghost var closed := buf.content;
      NoItems(closed);
      if ent.stack != [] && cfg.stacktraceKey != [] {
        var calls := [Add(cfg.stacktraceKey, Str(ent.stack))];
        SoleItem(closed, calls);
        AddItem(calls, p);
      }
    }

    /**
     A whole line in a buffer of its own. The receiver is not touched, and the line's
     buffer is neither free nor held by any other encoder the pools know.
     */
    method EncodeEntry(ent: Entry, fs: seq<Field>, p: Pools) returns (line: Buffer)
      requires Ready(p)
      modifies p, p.encoders, p.buffers
      ensures Ready(p) && unchanged(this) && unchanged(buf)
      ensures fresh(p.encoders - old(p.encoders)) && fresh(p.buffers - old(p.buffers))
      ensures line in old(p.buffers) || fresh(line)
      ensures line !in p.buffers && line != buf && forall e :: e in p.encoders ==> e.buf != line
      ensures line.content == LogLine.EncodeEntry(config.value, State(), ent, fs)
    {
      hide Body;
      var final := Cloned(p);
      final.AddBody(buf.content, ent, fs, p);
      if config.value.lineEnding != [] {
        final.buf.Write(config.value.lineEnding);
      } else {
        final.buf.Write([NEWLINE]);
      }
      line := final.buf;
      p.PutEncoder(final);
    }
  }

  /** What an output is asked to do. */
  datatype Output = Line(text: bytes) | Sync

  /** What an entry's line makes of an output, if it can be pushed; a sync follows an entry that may end the program. */
  function Outputs(ok: bool, severity: Severity, line: bytes): seq<Output> {
    if !ok then []
    else match severity
      case DPanicLevel | PanicLevel | FatalLevel => [Line(line), Sync]
      case _ => [Line(line)]
  }

  /** Where lines go; a push may fail. */
  class WriteSyncer {
    /** What was done, in order. */
    var done: seq<Output>

    constructor ()
      ensures done == []
    {
      done := [];
    }

    method Write(line: bytes) returns (ok: bool)
      modifies this
      ensures done == old(done) + if ok then [Line(line)] else []
    {
      ok := *;
      if ok {
        done := done + [Line(line)];
      }
    }

    method Sync()
      modifies this
      ensures done == old(done) + [Output.Sync]
    {
      done := done + [Output.Sync];
    }
  }

  /** A core: an encoder that holds the context, and the output. */
  class TextCore {
    const enc: TextEncoder
    const out: WriteSyncer

    constructor (enc: TextEncoder, out: WriteSyncer)
      ensures this.enc == enc && this.out == out
    {
      this.enc, this.out := enc, out;
    }

    /** A core with more context; this one keeps its own. */
    method With(fs: seq<Field>, p: Pools) returns (core: TextCore)
      requires enc.Ready(p)
      modifies p, p.encoders, p.buffers
      ensures enc.Ready(p) && unchanged(enc) && unchanged(enc.buf)
      ensures fresh(core) && core.enc.Ready(p) && core.enc != enc && core.enc.buf != enc.buf
      ensures fresh(p.encoders - old(p.encoders)) && fresh(p.buffers - old(p.buffers))
      ensures core.enc in old(p.encoders) || fresh(core.enc)
      ensures core.enc.buf in old(p.buffers) || fresh(core.enc.buf)
      ensures core.out == out && core.enc.config == enc.config
      ensures core.enc.State() == LogLine.With(enc.State(), fs)
    {
      var clone := enc.Clone(p);
      clone.AddFields(fs, p);
      core := new TextCore(clone, out);
    }

    /**
     Exactly the entry's line is pushed, in one piece, and the output is synced after an entry
     above the error level; the line's buffer is recycled even if the push fails.
     */
    method Write(ent: Entry, fs: seq<Field>, p: Pools) returns (ok: bool)
      requires enc.Ready(p)
      modifies out, p, p.encoders, p.buffers
      ensures enc.Ready(p) && unchanged(enc) && unchanged(enc.buf)
      ensures fresh(p.encoders - old(p.encoders)) && fresh(p.buffers - old(p.buffers))
      ensures out.done == old(out.done)
            + Outputs(ok, ent.severity, LogLine.EncodeEntry(enc.config.value, enc.State(), ent, fs))
    {
      hide LogLine.EncodeEntry;
      var line := enc.EncodeEntry(ent, fs, p);
      ok := out.Write(line.content);
      p.FreeBuffer(line);
      if !ok {
        return;
      }
      if Rank(ent.severity) > Rank(ErrorLevel) {
        out.Sync();
      }
    }
  }

  /**
   Two children of one core, and the core itself, do not see each other's fields: each line
   is what the parent would have written with the child's fields at the call site.
   */
  method Siblings(parent: TextCore, a: seq<Field>, b: seq<Field>, ent: Entry, p: Pools)
    returns (x: bool, y: bool, z: bool)
    requires parent.enc.Ready(p)
    requires exists off :: parent.enc.config == Some(DefaultConfig(off))
    modifies parent.out, p, p.encoders, p.buffers
    ensures unchanged(parent.enc) && unchanged(parent.enc.buf)
    ensures var cfg, ctx := parent.enc.config.value, parent.enc.State();
            parent.out.done == old(parent.out.done)
              + Outputs(x, ent.severity, LogLine.EncodeEntry(cfg, ctx, ent, a))
              + Outputs(y, ent.severity, LogLine.EncodeEntry(cfg, ctx, ent, b))
              + Outputs(z, ent.severity, LogLine.EncodeEntry(cfg, ctx, ent, []))
  {
    hide LogLine.EncodeEntry, LogLine.With, Outputs, DefaultConfig, Pools.Valid;
    ghost var ctx := parent.enc.State();
    var first := parent.With(a, p);
    var second := parent.With(b, p);
    x := first.Write(ent, [], p);
    y := second.Write(ent, [], p);
    z := parent.Write(ent, [], p);
    ChildLine(parent.enc.config.value, ctx, ent, a);
    ChildLine(parent.enc.config.value, ctx, ent, b);
  }

  /** A child's line is the parent's with the child's fields at the call site. */
  lemma ChildLine(cfg: Config, ctx: Context, ent: Entry, fs: seq<Field>)
    requires exists off :: cfg == DefaultConfig(off)
    ensures LogLine.EncodeEntry(cfg, LogLine.With(ctx, fs), ent, []) == LogLine.EncodeEntry(cfg, ctx, ent, fs)
  {
    hide LogLine.EncodeEntry, LogLine.With;
    var off :| cfg == DefaultConfig(off);
    ContextIsCallSiteByDefault(off, ctx, ent, fs, []);
    assert fs + [] == fs;
  }

  lemma LastItem(buf: bytes, items: seq<seq<Call>>, calls: seq<Call>)
    ensures PutItems(buf, items + [calls]) == PutItem(PutItems(buf, items), calls)
  {
    assert (items + [calls])[..|items|] == items;
  }

  lemma OpensNone(calls: seq<Call>)
    requires |calls| == 1 && !calls[0].OpenNamespace?
    ensures Opened(calls) == 0
  {
  }

  lemma RunOne(buf: bytes, c: Call)
    ensures Run(buf, [c]) == Do(buf, c)
  {
    hide Do;
    assert [c][..0] == [];
  }

  /** After an opening bracket only the empty text writes nothing. */
  lemma EmptyToken(begun: bytes, text: bytes)
    requires begun != [] && begun[|begun| - 1] == LBRACKET
    requires |PutToken(begun, text)| == |begun|
    ensures text == [] && PutToken(begun, text) == begun
  {
    hide Token;
    TokenLength(text);
    assert PutToken(begun, text) == begun + [] + Token(text);
  }

  lemma WrittenToken(begun: bytes, text: bytes)
    requires begun != [] && begun[|begun| - 1] == LBRACKET
    requires |PutToken(begun, text)| != |begun|
    ensures text != []
  {
    hide Token;
    TokenLength(text);
  }

  lemma TokenLength(text: bytes)
    ensures Token(text) == [] <==> text == []
  {
    if text != [] {
      ReadEscapeChunk(text, []);
    }
  }

  /** One turn of the escaping loops: which bytes it writes, and that they bring it closer to the end. */
  lemma EscapeTurn(s: bytes, i: nat, before: bytes, done: bytes)
    requires i < |s|
    ensures var rest := s[i..];
            && done + Escape(rest) == (done + EscapeChunk(rest)) + Escape(s[i + Chunk(rest)..])
            && before + (done + EscapeChunk(rest)) == (before + done) + EscapeChunk(rest)
            && if s[i] < 0x80 then Chunk(rest) == 1 && EscapeChunk(rest) == EscapeByte(s[i])
               else if CharLen(rest) == 0 then Chunk(rest) == 1 && EscapeChunk(rest) == RUNE_ERROR
               else Chunk(rest) == CharLen(rest) && EscapeChunk(rest) == s[i..i + CharLen(rest)]
  {
    hide Escape, EscapeByte;
    var rest := s[i..];
    EscapeUnfold(rest);
    assert rest[Chunk(rest)..] == s[i + Chunk(rest)..];
    Assoc(done, EscapeChunk(rest), Escape(s[i + Chunk(rest)..]));
    Assoc(before, done, EscapeChunk(rest));
    assert rest[..CharLen(rest)] == s[i..i + CharLen(rest)];
  }
}
