/** Managers as the program makes them, and what they answer: from settings to answers, end to end. */
module Startup {
  import opened Options
  import opened KeyFormat
  import opened Events
  import opened Layers
  import opened Batches
  import opened Runs
  import opened Dispatcher
  import opened ConfigManager
  import opened Views

  const HIGH_PRIORITY := 1
  const NORMAL_PRIORITY := 11
  const LOW_PRIORITY := 21

  const ENV_SOURCE := "EnvironmentSource"
  const ETCD_SOURCE := "EtcdSource"

  /** The settings of a source that may be missing or unreadable, as the source stores them. */
  function Stored(format: Formatter, settings: Option<seq<Setting>>): Option<Configs> {
    match settings
    case None => None
    case Some(read) => Some(Twins(format, read))
  }

  /** What a source gives for a key: the last setting that has the normal key in either form. */
  function ValueOf(format: Formatter, settings: Option<seq<Setting>>, key: string): Option<string> {
    match settings
    case None => None
    case Some(read) => LastMatch(format, read, Normalize(key))
  }

  function AddFile(s: State, file: Option<seq<Setting>>): State {
    AddSource(s, FILE_SOURCE, LOW_PRIORITY, map[], Stored(Normalize, file))
  }

  function AddEnv(s: State, format: Formatter, environ: seq<Setting>): State {
    AddSource(s, ENV_SOURCE, NORMAL_PRIORITY, map[], Some(Twins(format, environ)))
  }

  /** The options' way: the files, if asked for, and then the environment, if a formatter is given. */
  function InitState(file: Option<Option<seq<Setting>>>, format: Option<Formatter>, environ: seq<Setting>): State {
    var s := match file case None => INIT case Some(read) => AddFile(INIT, read);
    match format case None => s case Some(f) => AddEnv(s, f, environ)
  }

  /** The parameter table's way: the environment, unless it is skipped, and then the files. */
  function TableState(skipEnv: bool, environ: seq<Setting>, file: Option<seq<Setting>>): State {
    AddFile(if skipEnv then INIT else AddEnv(INIT, EnvFormatter, environ), file)
  }

  method AddFileSource(m: Manager, file: Option<seq<Setting>>) returns (ok: bool)
    requires m.Valid()
    modifies m`sources, m`keySourceMap
    ensures m.Valid() && m.View() == AddFile(old(m.View()), file)
    ensures m.sources.Keys == old(m.sources.Keys) + {FILE_SOURCE}
  {
    hide Twins, AddSource;
    var f := new Source(FILE_SOURCE, LOW_PRIORITY, Normalize);
    ok := m.AddSource(f, file);
  }

  method AddEnvSource(m: Manager, format: Formatter, environ: seq<Setting>) returns (ok: bool)
    requires m.Valid()
    modifies m`sources, m`keySourceMap
    ensures m.Valid() && m.View() == AddEnv(old(m.View()), format, environ)
    ensures ok == (ENV_SOURCE !in old(m.sources))
  {
    hide Twins, AddSource;
    var e := new Source(ENV_SOURCE, NORMAL_PRIORITY, format);
    ok := m.AddSource(e, Some(environ));
  }

  /** A file that cannot be read is an error that is not looked at. */
  method Init(file: Option<Option<seq<Setting>>>, format: Option<Formatter>, environ: seq<Setting>) returns (m: Manager)
    ensures fresh(m) && m.Valid() && m.View() == InitState(file, format, environ)
    ensures file == None && format == None ==> m.sources == map[]
  {
    hide AddFile, AddEnv;
    m := new Manager();
    if file.Some? {
      var _ := AddFileSource(m, file.value);
    }
    if format.Some? {
      var _ := AddEnvSource(m, format.value, environ);
    }
  }

  method InitTable(skipEnv: bool, environ: seq<Setting>, file: Option<seq<Setting>>) returns (m: Manager)
    ensures fresh(m) && m.Valid() && m.View() == TableState(skipEnv, environ, file)
  {
    hide AddFile, AddEnv;
    m := Init(None, None, []);
    if !skipEnv {
      var ok := AddEnvSource(m, EnvFormatter, environ);
      if !ok {
        return;
      }
    }
    var _ := AddFileSource(m, file);
  }

  // ----------------------------------------------- the program's key formatter

  const PREFIX := "milvus."

  function Drop(s: string, c: char): string {
    if s == "" then "" else (if s[0] == c then "" else [s[0]]) + Drop(s[1..], c)
  }

  /** Lower case, without the leading prefix, without the three separators in turn. */
  function EnvFormatter(key: string): string {
    var lower := Lower(key);
    var rest := if PREFIX <= lower then lower[|PREFIX|..] else lower;
    Drop(Drop(Drop(rest, '/'), '_'), '.')
  }

  /** The key of a variable without the program's prefix, in whatever case that is spelled. */
  function Unprefixed(key: string): string {
    if PREFIX <= Lower(key) then key[|PREFIX|..] else key
  }

  /** The program's formatter normalises the variable's name without the prefix. */
  lemma EnvFormatterNormalizes(key: string)
    ensures EnvFormatter(key) == Normalize(Unprefixed(key))
  {
    var lower := Lower(key);
    DropThree(if PREFIX <= lower then lower[|PREFIX|..] else lower);
    if PREFIX <= lower {
      assert Lower(key[|PREFIX|..]) == lower[|PREFIX|..];
    }
  }

  lemma {:induction false} DropThree(s: string)
    ensures Drop(Drop(Drop(s, '/'), '_'), '.') == Strip(s)
  {
    if s != "" {
      var x := Drop(s[1..], '/');
      DropThree(s[1..]);
      if s[0] == '/' {
        assert Drop(s, '/') == x;
      } else {
        assert Drop(s, '/') == [s[0]] + x;
        DropHead(s[0], x, '_');
        if s[0] == '_' {
          assert Drop([s[0]] + x, '_') == Drop(x, '_');
        } else {
          DropHead(s[0], Drop(x, '_'), '.');
        }
      }
      assert "" + Strip(s[1..]) == Strip(s[1..]);
      assert "" + Drop(Drop(x, '_'), '.') == Drop(Drop(x, '_'), '.');
    }
  }

  lemma DropHead(head: char, s: string, c: char)
    ensures Drop([head] + s, c) == (if head == c then "" else [head]) + Drop(s, c)
  {
    assert ([head] + s)[1..] == s;
  }

  // --------------------------------------------------------------- answers

  /** Adding a source touches neither overlays nor forbidden keys, and stores what was loaded. */
  lemma AddedFields(s: State, name: string, priority: int, held: Configs, loaded: Option<Configs>)
    ensures var s' := AddSource(s, name, priority, held, loaded);
            && s'.overlays == s.overlays && s'.forbidden == s.forbidden
            && s'.sources
               == if name in s.sources then s.sources
                  else s.sources[name := if loaded == None then SourceState(priority, held, false)
                                         else SourceState(priority, loaded.value, true)]
  {
  }

  /** What one source of a manager has under a key. */
  function ReadFrom(s: State, source: string, k: string): Option<string> {
    if source in s.sources then Get(s.sources[source].configs, k) else None
  }

  /** Nothing but the environment and the files, untouched. */
  predicate OfTwo(s: State) {
    && s.overlays == map[] && s.forbidden == {}
    && (forall n :: n in s.sources ==> n == ENV_SOURCE || n == FILE_SOURCE)
    && (forall n :: n in s.sources ==>
          s.sources[n].priority == if n == ENV_SOURCE then NORMAL_PRIORITY else LOW_PRIORITY)
  }

  /** With at most two sources a key has the value of the smaller-numbered one, else of the other, else none. */
  lemma AnswerOfTwo(s: State, high: string, low: string, key: string)
    requires IndexOk(s) && s.overlays == map[] && s.forbidden == {}
    requires high != low && forall n :: n in s.sources ==> n == high || n == low
    requires high in s.sources && low in s.sources ==> s.sources[high].priority < s.sources[low].priority
    ensures DistinctPriorities(s.sources)
    ensures var fromHigh := ReadFrom(s, high, Normalize(key));
            Lookup(s, key) == if fromHigh.Some? then fromHigh else ReadFrom(s, low, Normalize(key))
  {
    hide Normalize, IndexOk;
    var k := Normalize(key);
    var b := if Holds(s.sources, high, k) then Some(high) else if Holds(s.sources, low, k) then Some(low) else None;
    LookupIsLayered(s, key, if b == None then None else Some(s.sources[b.value].configs[k]));
    if b.Some? {
      assert IsBest(s.sources, k, b.value);
    }
  }

  lemma InitIndexOk(file: Option<Option<seq<Setting>>>, format: Option<Formatter>, environ: seq<Setting>)
    ensures IndexOk(InitState(file, format, environ))
  {
    hide IndexOk, Twins;
    EmptyIndexOk();
    if file.Some? {
      AddFileIndexOk(INIT, file.value);
    }
    if format.Some? {
      AddKeepsIndex(InitState(file, None, environ), ENV_SOURCE, NORMAL_PRIORITY, map[], Twins(format.value, environ));
    }
  }

  lemma AddFileIndexOk(s: State, file: Option<seq<Setting>>)
    requires IndexOk(s) && FILE_SOURCE !in s.sources
    ensures IndexOk(AddFile(s, file))
  {
    hide IndexOk, Twins;
    match file
    case None => FailedAddExactly(s, FILE_SOURCE, LOW_PRIORITY, map[]);
    case Some(read) => AddKeepsIndex(s, FILE_SOURCE, LOW_PRIORITY, map[], Twins(Normalize, read));
  }

  lemma TableIndexOk(skipEnv: bool, environ: seq<Setting>, file: Option<seq<Setting>>)
    ensures IndexOk(TableState(skipEnv, environ, file))
  {
    hide IndexOk, Twins;
    EmptyIndexOk();
    if !skipEnv {
      AddKeepsIndex(INIT, ENV_SOURCE, NORMAL_PRIORITY, map[], Twins(EnvFormatter, environ));
    }
    AddFileIndexOk(if skipEnv then INIT else AddEnv(INIT, EnvFormatter, environ), file);
  }

  /**
   After Init, for every formatter: a key has the value of the last variable that is spelled as
   its normal form or formatted to it, else the one the files give it, else none.
   */
  lemma InitAnswers(file: Option<Option<seq<Setting>>>, format: Option<Formatter>, environ: seq<Setting>, key: string)
    ensures var fromEnv := match format case None => None case Some(f) => ValueOf(f, Some(environ), key);
            Lookup(InitState(file, format, environ), key)
            == if fromEnv.Some? then fromEnv
               else match file case None => None case Some(read) => ValueOf(Normalize, read, key)
  {
    hide InitState, ReadFrom, LastMatch, Normalize, IndexOk, Lookup;
    InitIndexOk(file, format, environ);
    InitHolds(file, format, environ, Normalize(key));
    AnswerOfTwo(InitState(file, format, environ), ENV_SOURCE, FILE_SOURCE, key);
  }

  /** What the two sources of Init have for a key. */
  lemma InitHolds(file: Option<Option<seq<Setting>>>, format: Option<Formatter>, environ: seq<Setting>, k: string)
    ensures var s := InitState(file, format, environ);
            && OfTwo(s)
            && ReadFrom(s, ENV_SOURCE, k) == (match format case None => None case Some(f) => LastMatch(f, environ, k))
            && ReadFrom(s, FILE_SOURCE, k) == (match file case None => None case Some(read) => FromFile(read, k))
  {
    hide AddEnv, AddFile, OfTwo, ReadFrom, LastMatch, FromFile;
    Nothing(k);
    if file.Some? { FileAdded(INIT, file.value, k); }
    if format.Some? { EnvAdded(InitState(file, None, environ), format.value, environ, k); }
  }

  /** What the files hold under a key. */
  function FromFile(file: Option<seq<Setting>>, k: string): Option<string> {
    match file
    case None => None
    case Some(read) => LastMatch(Normalize, read, k)
  }

  lemma Nothing(k: string)
    ensures OfTwo(INIT) && Missing(INIT, ENV_SOURCE) && Missing(INIT, FILE_SOURCE)
    ensures forall source :: ReadFrom(INIT, source, k) == None
  {
  }

  predicate Missing(s: State, source: string) {
    source !in s.sources
  }

  lemma EnvAdded(s: State, format: Formatter, environ: seq<Setting>, k: string)
    requires OfTwo(s) && Missing(s, ENV_SOURCE)
    ensures var s' := AddEnv(s, format, environ);
            && OfTwo(s') && (Missing(s, FILE_SOURCE) ==> Missing(s', FILE_SOURCE))
            && ReadFrom(s', ENV_SOURCE, k) == LastMatch(format, environ, k)
            && ReadFrom(s', FILE_SOURCE, k) == ReadFrom(s, FILE_SOURCE, k)
  {
    TwinsAt(format, environ, k);
    hide Twins, LastMatch, AddSource;
    AddedFields(s, ENV_SOURCE, NORMAL_PRIORITY, map[], Some(Twins(format, environ)));
  }

  lemma FileAdded(s: State, file: Option<seq<Setting>>, k: string)
    requires OfTwo(s) && Missing(s, FILE_SOURCE)
    ensures var s' := AddFile(s, file);
            && OfTwo(s') && (Missing(s, ENV_SOURCE) ==> Missing(s', ENV_SOURCE))
            && ReadFrom(s', FILE_SOURCE, k) == FromFile(file, k)
            && ReadFrom(s', ENV_SOURCE, k) == ReadFrom(s, ENV_SOURCE, k)
  {
    if file.Some? { TwinsAt(Normalize, file.value, k); }
    hide Twins, LastMatch, Normalize, AddSource;
    AddedFields(s, FILE_SOURCE, LOW_PRIORITY, map[], Stored(Normalize, file));
  }

  /**
   After Init the full view shows a key, in the very spelling a setting has or is formatted to,
   exactly if GetConfig has an answer for it, with that answer; and it shows nothing else.
   */
  lemma InitShows(file: Option<Option<seq<Setting>>>, format: Option<Formatter>, environ: seq<Setting>,
                  k: string, v: string)
    ensures var s := InitState(file, format, environ);
            (k in ConfigsView(s) && ConfigsView(s)[k] == v)
            <==> && Lookup(s, k) == Some(v)
                 && (|| (format.Some? && Given(format.value, environ, k))
                     || (file.Some? && file.value.Some? && Given(Normalize, file.value.value, k)))
  {
    var s := InitState(file, format, environ);
    InitIndexOk(file, format, environ);
    InitHolds(file, format, environ, k);
    if format.Some? { var _ := LastMatchExactly(format.value, environ, k); }
    if file.Some? && file.value.Some? { var _ := LastMatchExactly(Normalize, file.value.value, k); }
    hide InitState, IndexOk, Lookup, LastMatch, Given, Normalize, ConfigsView, Layered;
    ShownOfTwo(s, ENV_SOURCE, FILE_SOURCE, k, v);
  }

  lemma ShownOfTwo(s: State, high: string, low: string, k: string, v: string)
    requires IndexOk(s) && s.overlays == map[] && s.forbidden == {}
    requires forall n :: n in s.sources ==> n == high || n == low
    ensures (k in ConfigsView(s) && ConfigsView(s)[k] == v)
       <==> Lookup(s, k) == Some(v) && (ReadFrom(s, high, k).Some? || ReadFrom(s, low, k).Some?)
  {
    hide IndexOk, Lookup, Normalize, ConfigsView, Layered;
    FullViewExactly(s, k, v);
  }

  /** The value settings give a key through any of its spellings; the last one counts. */
  function SpelledValue(settings: Option<seq<Setting>>, key: string): Option<string> {
    match settings
    case None => None
    case Some(read) => LastSpelling(read, Normalize(key))
  }

  lemma ValueIsSpelled(settings: Option<seq<Setting>>, key: string)
    ensures ValueOf(Normalize, settings, key) == SpelledValue(settings, key)
  {
    NormalizeNormal(key);
    if settings.Some? { LastMatchIsSpelling(settings.value, Normalize(key)); }
  }

  /** With normalisation as the formatter a key, in any spelling, has the value any spelling was given. */
  lemma InitAnswersNormalized(file: Option<Option<seq<Setting>>>, environ: seq<Setting>, key: string)
    ensures var fromEnv := SpelledValue(Some(environ), key);
            Lookup(InitState(file, Some(Normalize), environ), key)
            == if fromEnv.Some? then fromEnv
               else match file case None => None case Some(read) => SpelledValue(read, key)
  {
    hide Normalize, Lookup, ValueOf, SpelledValue, InitState;
    InitAnswers(file, Some(Normalize), environ, key);
    ValueIsSpelled(Some(environ), key);
    if file.Some? { ValueIsSpelled(file.value, key); }
  }

  /** The last variable that is spelled `k`, or is a spelling of `k` once the program's prefix is off. */
  function LastVariable(environ: seq<Setting>, k: string): Option<string> {
    if environ == [] then None
    else
      var last := environ[|environ| - 1];
      if last.key == k || Normalize(Unprefixed(last.key)) == k then Some(last.value)
      else LastVariable(environ[..|environ| - 1], k)
  }

  /** The value is that of the last such variable, at `i`. */
  lemma {:induction false} LastVariableExactly(environ: seq<Setting>, k: string) returns (i: int)
    ensures LastVariable(environ, k) == None ==> forall j :: 0 <= j < |environ| ==> !Names(environ[j].key, k)
    ensures LastVariable(environ, k).Some? ==>
              && 0 <= i < |environ| && LastVariable(environ, k) == Some(environ[i].value)
              && Names(environ[i].key, k) && forall j :: i < j < |environ| ==> !Names(environ[j].key, k)
  {
    hide Normalize, Unprefixed, Names;
    i := -1;
    if environ != [] {
      var n := |environ| - 1;
      i := LastVariableExactly(environ[..n], k);
      NameOf(environ[n].key, k);
      assert forall j :: 0 <= j < n ==> environ[..n][j] == environ[j];
      if Names(environ[n].key, k) {
        i := n;
      }
    }
  }

  lemma NameOf(name: string, k: string)
    ensures Names(name, k) <==> name == k || Normalize(Unprefixed(name)) == k
  {
    hide Normalize;
  }

  /** The variable is spelled `k`, or its name without a leading "milvus." in any case is a spelling of `k`. */
  ghost predicate Names(name: string, k: string) {
    || name == k
    || (if "milvus." <= Lower(name) then Normalize(name[7..]) == k else Normalize(name) == k)
  }

  lemma {:induction false} LastMatchIsVariable(environ: seq<Setting>, k: string)
    ensures LastMatch(EnvFormatter, environ, k) == LastVariable(environ, k)
  {
    hide Normalize, EnvFormatter;
    if environ != [] {
      LastMatchIsVariable(environ[..|environ| - 1], k);
      EnvFormatterNormalizes(environ[|environ| - 1].key);
    }
  }

  /**
   In the program a key has the value of the last variable that names it, with or without the
   prefix, else the one the files give any spelling of it, else none.
   */
  lemma TableAnswers(skipEnv: bool, environ: seq<Setting>, file: Option<seq<Setting>>, key: string)
    ensures var fromEnv := if skipEnv then None else LastVariable(environ, Normalize(key));
            Lookup(TableState(skipEnv, environ, file), key)
            == if fromEnv.Some? then fromEnv else SpelledValue(file, key)
  {
    hide TableState, ReadFrom, LastVariable, SpelledValue, Normalize, IndexOk, Lookup;
    TableIndexOk(skipEnv, environ, file);
    TableHolds(skipEnv, environ, file, key);
    AnswerOfTwo(TableState(skipEnv, environ, file), ENV_SOURCE, FILE_SOURCE, key);
  }

  /** What the table's two sources have for a key. */
  lemma TableHolds(skipEnv: bool, environ: seq<Setting>, file: Option<seq<Setting>>, key: string)
    ensures var s, k := TableState(skipEnv, environ, file), Normalize(key);
            && OfTwo(s)
            && ReadFrom(s, ENV_SOURCE, k) == (if skipEnv then None else LastVariable(environ, k))
            && ReadFrom(s, FILE_SOURCE, k) == SpelledValue(file, key)
  {
    hide AddEnv, AddFile, OfTwo, ReadFrom, LastMatch, LastVariable, FromFile, SpelledValue, Normalize;
    Nothing(Normalize(key));
    var s := if skipEnv then INIT else AddEnv(INIT, EnvFormatter, environ);
    if !skipEnv {
      EnvAdded(INIT, EnvFormatter, environ, Normalize(key));
      LastMatchIsVariable(environ, Normalize(key));
    }
    FileAdded(s, file, Normalize(key));
    FileIsSpelled(file, key);
  }

  lemma FileIsSpelled(file: Option<seq<Setting>>, key: string)
    ensures FromFile(file, Normalize(key)) == SpelledValue(file, key)
  {
    ValueIsSpelled(file, key);
  }

  /**
   One more variable, after any others and over any files: it is read by its name without the
   prefix, and by its own name if and only if that is the same, that is, if the name does not
   start with the prefix; a prefixed name is answered as if the variable were not there.
   */
  lemma PrefixedVariableExactly(environ: seq<Setting>, name: string, value: string, file: Option<seq<Setting>>)
    ensures var s, t := TableState(false, environ + [Setting(name, value)], file), TableState(false, environ, file);
            && Lookup(s, Unprefixed(name)) == Some(value)
            && Lookup(s, name) == (if "milvus." <= Lower(name) then Lookup(t, name) else Some(value))
            && (Lookup(s, name) == Some(value) <==> !("milvus." <= Lower(name)) || Lookup(t, name) == Some(value))
  {
    hide TableState, Lookup, Normalize, SpelledValue, Lower;
    var longer := environ + [Setting(name, value)];
    assert longer[..|environ|] == environ;
    TableAnswers(false, environ, file, name);
    TableAnswers(false, longer, file, name);
    TableAnswers(false, longer, file, Unprefixed(name));
    if PREFIX <= Lower(name) {
      PrefixShows(name);
    }
  }

  /** A name with the prefix is neither normal nor a spelling of its rest. */
  lemma PrefixShows(name: string)
    requires PREFIX <= Lower(name)
    ensures name != Normalize(name) && Normalize(Unprefixed(name)) != Normalize(name)
  {
    var rest := Lower(name)[|PREFIX|..];
    assert Lower(name) == "milvus" + "." + rest && rest == Lower(Unprefixed(name));
    StripDot("milvus", rest);
    NormalizeNormal(name);
    assert LowerChar(name[6]) == Lower(name)[6] == '.';
    assert |Normalize(name)| > 6 ==> !Dropped(Normalize(name)[6]);
  }

  /** The smallest example: the variable is read by the rest of its name, not by the whole name. */
  lemma PrefixedVariable(value: string)
    ensures var s := TableState(false, [Setting("milvus.x", value)], None);
            Lookup(s, "x") == Some(value) && Lookup(s, "milvus.x") == None
  {
    PrefixedNames();
    assert [] + [Setting("milvus.x", value)] == [Setting("milvus.x", value)];
    hide TableState, Lookup, Normalize, Unprefixed;
    PrefixedVariableExactly([], "milvus.x", value, None);
    TableAnswers(false, [], None, "milvus.x");
  }

  lemma PrefixedNames()
    ensures Unprefixed("milvus.x") == Normalize("x") == "x" && Normalize("milvus.x") == "milvusx"
  {
    assert Lower("milvus.x") == "milvus" + "." + "x" && Unprefixed("milvus.x") == "x";
    NormalizeFixes("x");
    StripKeeps("x");
    StripDot("milvus", "x");
    assert "milvus" + "x" == "milvusx";
  }

  lemma {:induction false} StripDot(a: string, b: string)
    requires IsNormal(a)
    ensures Strip(a + "." + b) == a + Strip(b)
  {
    if a == "" {
      assert (a + "." + b)[1..] == b;
    } else {
      StripDot(a[1..], b);
      assert (a + "." + b)[1..] == a[1..] + "." + b;
    }
  }

  /** The two ways of starting, with the same sources, give the same manager. */
  lemma TableIsInit(environ: seq<Setting>, file: Option<seq<Setting>>)
    ensures TableState(false, environ, file) == InitState(Some(file), Some(EnvFormatter), environ)
  {
    hide IndexOk, Twins, Pulled, Lookup;
    var s, t := TableState(false, environ, file), InitState(Some(file), Some(EnvFormatter), environ);
    TableIndexOk(false, environ, file);
    InitIndexOk(Some(file), Some(EnvFormatter), environ);
    AnswerOfTwo(s, ENV_SOURCE, FILE_SOURCE, "");
    assert s.sources == t.sources;
    SameIndexAs(s, t);
  }

  // --------------------------------------------------------- after refreshes

  /**
   When a source has been refreshed, a key that is neither overlaid nor forbidden, and that only
   sources with larger numbers hold besides, has the value its last spelling was given.
   */
  lemma RefreshAnswers(s: State, source: string, settings: seq<Setting>, s': State, log: seq<EventInfo>, key: string)
    requires source in s.sources && s.sources[source].attached
    requires IndexOk(s) && Refreshed(s, source, Twins(Normalize, settings), s', log)
    requires !Forbidden(s, key) && Normalize(key) !in s.overlays
    requires LastSpelling(settings, Normalize(key)).Some?
    requires forall n :: n != source && Holds(s.sources, n, Normalize(key)) ==>
                           s.sources[source].priority < s.sources[n].priority
    ensures Lookup(s', key) == LastSpelling(settings, Normalize(key))
  {
    var k, updated := Normalize(key), Twins(Normalize, settings);
    NormalizeNormal(key);
    TwinsAtNormal(settings, k);
    hide Twins, LastSpelling, Normalize, IndexOk, Lookup, IsLog;
    RefreshKeepsIndex(s, source, updated, s', log);
    forall n ensures Holds(s'.sources, n, k) <==> if n == source then k in updated else Holds(s.sources, n, k) {
      HoldsAfterRefresh(s.sources, source, updated, n, k);
    }
    assert IsBest(s'.sources, k, source) && OneAnswer(s', key);
    SameForbidden(s, s', key);
    LookupExactly(s', key);
    assert Layered(s', key, LastSpelling(settings, k));
  }

  /** A manager with a file source and a key-value source, both loaded. */
  method AddBoth(files: seq<Setting>, store: seq<Setting>) returns (m: Manager, f: Source, g: Source)
    ensures fresh(m) && fresh(m.dispatcher) && fresh(f) && fresh(g)
    ensures m.Valid() && m.sources == map[FILE_SOURCE := f, ETCD_SOURCE := g]
    ensures f.Connected() && f.eh == m && g.Connected() && g.eh == m
    ensures f.priority == LOW_PRIORITY && f.format == Normalize && f.configs == Twins(Normalize, files)
    ensures g.priority == HIGH_PRIORITY && g.format == Normalize && g.configs == Twins(Normalize, store)
    ensures IndexOk(m.View()) && m.overlays == map[] && m.forbiddenKeys == {}
  {
    hide Twins, AddSource, IndexOk, Normalize, Manager.SourceStates, EventDispatcher.Valid;
    EmptyIndexOk();
    m := new Manager();
    f := new Source(FILE_SOURCE, LOW_PRIORITY, Normalize);
    var _ := m.AddSource(f, Some(files));
    AddKeepsIndex(INIT, FILE_SOURCE, LOW_PRIORITY, map[], Twins(Normalize, files));
    ghost var s := m.View();
    g := new Source(ETCD_SOURCE, HIGH_PRIORITY, Normalize);
    var _ := m.AddSource(g, Some(store));
    AddKeepsIndex(s, ETCD_SOURCE, HIGH_PRIORITY, map[], Twins(Normalize, store));
    AddedFields(INIT, FILE_SOURCE, LOW_PRIORITY, map[], Some(Twins(Normalize, files)));
    AddedFields(s, ETCD_SOURCE, HIGH_PRIORITY, map[], Some(Twins(Normalize, store)));
  }

  /** What was set in the key-value store, else in the files, under any spelling of the key. */
  function StoreThenFiles(store: seq<Setting>, files: seq<Setting>, key: string): Option<string> {
    if SpelledValue(Some(store), key).Some? then SpelledValue(Some(store), key) else SpelledValue(Some(files), key)
  }

  /**
   Both sources are refreshed, any of the refreshes failing: a key then has the value of its last
   spelling in the key-value store as last read, else in the files as last read, else none. The
   full view shows it under every spelling that was set, and under its normal form, and the view
   by a prefix shows the rest of every key shown that starts with the prefix.
   */
  method RefreshBoth(files: seq<Setting>, store: seq<Setting>, newFiles: Option<seq<Setting>>,
                     newStore: Option<seq<Setting>>, key: string, prefix: string)
    returns (r: Option<string>, all: Configs, group: Configs)
    ensures var f := if newFiles == None then files else newFiles.value;
            var g := if newStore == None then store else newStore.value;
            && r == StoreThenFiles(g, f, key)
            && (forall k :: k in all <==> Given(Normalize, g, k) || Given(Normalize, f, k))
            && (forall k :: k in all ==> Some(all[k]) == StoreThenFiles(g, f, k))
            && (forall n :: n in group <==> Lower(prefix) + n in all)
            && (forall n :: n in group ==> group[n] == all[Lower(prefix) + n])
  {
    hide Twins, IndexOk, Lookup, SpelledValue, Normalize, ConfigsView, IsView, WithPrefix, RemovePrefix;
    hide Manager.View, EventDispatcher.Valid;
    var m, f, g := AddBoth(files, store);
    RefreshOne(m, f, newFiles);
    RefreshOne(m, g, newStore);
    r := m.GetConfig(key);
    all := m.GetConfigs();
    group := m.GetBy([WithPrefix(prefix), RemovePrefix(prefix)]);
    StoredShows(m, f, g, if newFiles.Some? then newFiles.value else files,
                if newStore.Some? then newStore.value else store, key);
    forall n ensures Get(group, n) == Get(all, Lower(prefix) + n) {
      PrefixView(all, prefix, group, n);
    }
  }

  /** The answers and the full view of a manager with these two sources. */
  lemma StoredShows(m: Manager, f: Source, g: Source, files: seq<Setting>, store: seq<Setting>, key: string)
    requires m.sources == map[FILE_SOURCE := f, ETCD_SOURCE := g]
    requires f.priority == LOW_PRIORITY && f.configs == Twins(Normalize, files)
    requires g.priority == HIGH_PRIORITY && g.configs == Twins(Normalize, store)
    requires IndexOk(m.View()) && m.overlays == map[] && m.forbiddenKeys == {}
    ensures Lookup(m.View(), key) == StoreThenFiles(store, files, key)
    ensures forall k :: k in ConfigsView(m.View()) <==> Given(Normalize, store, k) || Given(Normalize, files, k)
    ensures forall k :: k in ConfigsView(m.View()) ==> Some(ConfigsView(m.View())[k]) == StoreThenFiles(store, files, k)
  {
    var s := m.View();
    hide Twins, LastMatch, Normalize, IndexOk, Lookup, ConfigsView, Given, SpelledValue, StoreThenFiles, Manager.View;
    StoredAnswers(m, f, g, files, store, key);
    forall k
      ensures k in ConfigsView(s) <==> Given(Normalize, store, k) || Given(Normalize, files, k)
      ensures k in ConfigsView(s) ==> Some(ConfigsView(s)[k]) == StoreThenFiles(store, files, k)
    {
      StoredAnswers(m, f, g, files, store, k);
      StoredFields(m, f, g, files, store, k);
      ShownKey(s, files, store, k);
    }
  }

  lemma StoredFields(m: Manager, f: Source, g: Source, files: seq<Setting>, store: seq<Setting>, k: string)
    requires m.sources == map[FILE_SOURCE := f, ETCD_SOURCE := g]
    requires f.configs == Twins(Normalize, files) && g.configs == Twins(Normalize, store)
    requires m.overlays == map[] && m.forbiddenKeys == {}
    ensures var s := m.View();
            && s.overlays == map[] && s.forbidden == {} && s.sources.Keys == {FILE_SOURCE, ETCD_SOURCE}
            && ReadFrom(s, ETCD_SOURCE, k) == LastMatch(Normalize, store, k)
            && ReadFrom(s, FILE_SOURCE, k) == LastMatch(Normalize, files, k)
  {
    TwinsAt(Normalize, files, k);
    TwinsAt(Normalize, store, k);
    hide Twins, LastMatch, Normalize;
  }

  lemma ShownKey(s: State, files: seq<Setting>, store: seq<Setting>, k: string)
    requires IndexOk(s) && s.overlays == map[] && s.forbidden == {} && s.sources.Keys == {FILE_SOURCE, ETCD_SOURCE}
    requires ReadFrom(s, ETCD_SOURCE, k) == LastMatch(Normalize, store, k)
    requires ReadFrom(s, FILE_SOURCE, k) == LastMatch(Normalize, files, k)
    requires Lookup(s, k) == StoreThenFiles(store, files, k)
    ensures k in ConfigsView(s) <==> Given(Normalize, store, k) || Given(Normalize, files, k)
    ensures k in ConfigsView(s) ==> Some(ConfigsView(s)[k]) == StoreThenFiles(store, files, k)
  {
    hide LastMatch, Normalize, IndexOk, Lookup, ConfigsView, Given, SpelledValue, ReadFrom;
    GivenIsSpelled(store, k);
    GivenIsSpelled(files, k);
    if k in ConfigsView(s) {
      ShownOfTwo(s, ETCD_SOURCE, FILE_SOURCE, k, ConfigsView(s)[k]);
    }
    if StoreThenFiles(store, files, k).Some? {
      ShownOfTwo(s, ETCD_SOURCE, FILE_SOURCE, k, StoreThenFiles(store, files, k).value);
    }
  }

  /** A key that was set, or is the normal form of one, has a value. */
  lemma GivenIsSpelled(settings: seq<Setting>, k: string)
    ensures Given(Normalize, settings, k) <==> LastMatch(Normalize, settings, k).Some?
    ensures Given(Normalize, settings, k) ==> SpelledValue(Some(settings), k).Some?
  {
    var _ := LastMatchExactly(Normalize, settings, k);
    if i :| 0 <= i < |settings| && HasForm(Normalize, settings[i], k) {
      NormalizeIdempotent(settings[i].key);
      SpelledSomewhere(settings, Normalize(k), i);
    }
  }

  lemma {:induction false} SpelledSomewhere(settings: seq<Setting>, k: string, i: nat)
    requires i < |settings| && Normalize(settings[i].key) == k
    ensures LastSpelling(settings, k).Some?
  {
    hide Normalize;
    if i < |settings| - 1 {
      SpelledSomewhere(settings[..|settings| - 1], k, i);
    }
  }

  /** A refresh, failing or not, of a connected source keeps the index right. */
  method RefreshOne(m: Manager, source: Source, fetched: Option<seq<Setting>>)
    requires source.Connected() && source.eh == m && IndexOk(m.View())
    modifies source`configs, m, m.dispatcher
    ensures source.Connected() && m.sources == old(m.sources) && IndexOk(m.View())
    ensures m.overlays == old(m.overlays) && m.forbiddenKeys == old(m.forbiddenKeys)
    ensures source.configs == if fetched == None then old(source.configs) else Twins(source.format, fetched.value)
  {
    hide Twins, IndexOk, KeyAfterRefresh, IsLog;
    ghost var s := m.View();
    assert s.sources[source.name].attached;
    var ok, log := source.Refresh(fetched);
    if ok {
      RefreshKeepsIndex(s, source.name, source.configs, m.View(), log);
    }
  }

  lemma StoredAnswers(m: Manager, f: Source, g: Source, files: seq<Setting>, store: seq<Setting>, key: string)
    requires m.sources == map[FILE_SOURCE := f, ETCD_SOURCE := g]
    requires f.priority == LOW_PRIORITY && f.configs == Twins(Normalize, files)
    requires g.priority == HIGH_PRIORITY && g.configs == Twins(Normalize, store)
    requires IndexOk(m.View()) && m.overlays == map[] && m.forbiddenKeys == {}
    ensures Lookup(m.View(), key) == StoreThenFiles(store, files, key)
  {
    var k := Normalize(key);
    NormalizeNormal(key);
    TwinsAtNormal(files, k);
    TwinsAtNormal(store, k);
    hide Twins, LastSpelling, Normalize, IndexOk, Lookup;
    AnswerOfTwo(m.View(), ETCD_SOURCE, FILE_SOURCE, key);
  }
}
