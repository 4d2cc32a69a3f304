/** A batch of events in the middle: what is settled, what is not, and what it adds up to. */
module Batches {
  import opened Options
  import opened KeyFormat
  import opened Events
  import opened Layers

  // --------------------------------------------- configurations as they are read

  /** One setting as a file or a key-value store spells it. */
  datatype Setting = Setting(key: string, value: string)

  /** How a source formats its keys. */
  type Formatter = string -> string

  /** Every setting is stored twice: as it is spelled, and under its formatted key. */
  function Twins(format: Formatter, settings: seq<Setting>): Configs {
    if settings == [] then map[]
    else
      var last := settings[|settings| - 1];
      Twins(format, settings[..|settings| - 1])[last.key := last.value][format(last.key) := last.value]
  }

  /** The value of the last setting that is spelled `k` or whose formatted key is `k`. */
  function LastMatch(format: Formatter, settings: seq<Setting>, k: string): Option<string> {
    if settings == [] then None
    else
      var last := settings[|settings| - 1];
      if last.key == k || format(last.key) == k then Some(last.value)
      else LastMatch(format, settings[..|settings| - 1], k)
  }

  /** The value of the last setting whose key is a spelling of `k`. */
  function LastSpelling(settings: seq<Setting>, k: string): Option<string> {
    if settings == [] then None
    else if Normalize(settings[|settings| - 1].key) == k then Some(settings[|settings| - 1].value)
    else LastSpelling(settings[..|settings| - 1], k)
  }

  /** The value is that of the last setting that has the key in either form, at `i`. */
  lemma {:induction false} LastMatchExactly(format: Formatter, settings: seq<Setting>, k: string) returns (i: int)
    ensures LastMatch(format, settings, k) == None <==> !Given(format, settings, k)
    ensures LastMatch(format, settings, k).Some? ==>
              && 0 <= i < |settings| && LastMatch(format, settings, k) == Some(settings[i].value)
              && HasForm(format, settings[i], k) && forall j :: i < j < |settings| ==> !HasForm(format, settings[j], k)
  {
    hide HasForm;
    i := -1;
    if settings != [] {
      var n := |settings| - 1;
      i := LastMatchExactly(format, settings[..n], k);
      FormOf(format, settings[n], k);
      if HasForm(format, settings[n], k) {
        i := n;
      } else if Given(format, settings[..n], k) {
        assert HasForm(format, settings[i], k);
      }
    }
  }

  /** The setting has the key as its spelling or as its formatted key. */
  predicate HasForm(format: Formatter, setting: Setting, k: string) {
    setting.key == k || format(setting.key) == k
  }

  lemma FormOf(format: Formatter, setting: Setting, k: string)
    ensures HasForm(format, setting, k) <==> setting.key == k || format(setting.key) == k
  {
  }

  /** Some setting has the key in either form. */
  ghost predicate Given(format: Formatter, settings: seq<Setting>, k: string) {
    exists i :: 0 <= i < |settings| && HasForm(format, settings[i], k)
  }

  /** The value is that of the last setting whose key is a spelling of the key, at `i`. */
  lemma {:induction false} LastSpellingExactly(settings: seq<Setting>, k: string) returns (i: int)
    ensures LastSpelling(settings, k) == None ==> forall j :: 0 <= j < |settings| ==> Normalize(settings[j].key) != k
    ensures LastSpelling(settings, k).Some? ==>
              && 0 <= i < |settings| && LastSpelling(settings, k) == Some(settings[i].value)
              && Normalize(settings[i].key) == k && forall j :: i < j < |settings| ==> Normalize(settings[j].key) != k
  {
    hide Normalize;
    i := -1;
    if settings != [] {
      var n := |settings| - 1;
      i := LastSpellingExactly(settings[..n], k);
      assert forall j :: 0 <= j < n ==> settings[..n][j] == settings[j];
      if Normalize(settings[n].key) == k {
        i := n;
      }
    }
  }

  /** A configuration has under every key what was last set under it, in either form. */
  lemma {:induction false} TwinsAt(format: Formatter, settings: seq<Setting>, k: string)
    ensures Get(Twins(format, settings), k) == LastMatch(format, settings, k)
  {
    if settings != [] {
      TwinsAt(format, settings[..|settings| - 1], k);
    }
  }

  /** For a source that normalises, what counts under a normal key is the last spelling of it. */
  lemma {:induction false} LastMatchIsSpelling(settings: seq<Setting>, k: string)
    requires IsNormal(k)
    ensures LastMatch(Normalize, settings, k) == LastSpelling(settings, k)
  {
    hide Normalize, IsNormal;
    if settings != [] {
      LastMatchIsSpelling(settings[..|settings| - 1], k);
      NormalizeFixes(k);
    }
  }

  /** Under a normal key such a configuration has the value that any spelling of the key got last. */
  lemma TwinsAtNormal(settings: seq<Setting>, k: string)
    requires IsNormal(k)
    ensures Get(Twins(Normalize, settings), k) == LastSpelling(settings, k)
  {
    TwinsAt(Normalize, settings, k);
    LastMatchIsSpelling(settings, k);
  }

  // ------------------------------------------------------------- batches

  /** The event concerns a key that may change, and the manager acts on it. */
  predicate Passes(s: State, e: EventInfo) {
    !Forbidden(s, e.key) && Accepts(s.sources, Get(s.index, e.key), e.source, e.kind)
  }

  /** The event as it is dispatched. */
  function PassedOn(s: State, e: EventInfo): EventInfo {
    e.(kind := RevisedKind(Get(s.index, e.key), e.kind), hasUpdated := true)
  }

  function PassedLog(s: State, es: seq<EventInfo>): seq<EventInfo> {
    if es == [] then []
    else
      var last := es[|es| - 1];
      PassedLog(s, es[..|es| - 1]) + if Passes(s, last) then [PassedOn(s, last)] else []
  }

  /** What an event leaves its key bound to, decided on the state before the batch. */
  ghost predicate EventSettled(s: State, e: EventInfo, next: Option<string>) {
    if Forbidden(s, e.key) then next == Get(s.index, e.key)
    else Rebinds(s.sources, Get(s.index, e.key), e.source, e.kind, e.key, next)
  }

  /** In the middle of a batch: the keys of the first `i` events are settled, all others are as they were. */
  ghost predicate Settled(s: State, es: seq<EventInfo>, i: nat, index: map<string, string>)
    requires i <= |es|
  {
    && (forall j :: 0 <= j < i ==> EventSettled(s, es[j], Get(index, es[j].key)))
    && (forall k :: !HasKey(es[..i], k) ==> Get(index, k) == Get(s.index, k))
  }

  /** The next event finds its key as it was before the batch. */
  lemma NextIsUntouched(s: State, es: seq<EventInfo>, i: nat, index: map<string, string>)
    requires i < |es| && DistinctKeys(es) && Settled(s, es, i, index)
    ensures Get(index, es[i].key) == Get(s.index, es[i].key)
  {
    assert forall j :: 0 <= j < |es[..i]| ==> es[..i][j] == es[j];
  }

  /** What is done with an event depends on the index only at its key. */
  lemma SameDecision(s: State, index: map<string, string>, e: EventInfo)
    requires Get(index, e.key) == Get(s.index, e.key)
    ensures var t := s.(index := index);
            && Passes(t, e) == Passes(s, e) && PassedOn(t, e) == PassedOn(s, e)
            && forall next :: EventSettled(t, e, next) <==> EventSettled(s, e, next)
  {
  }

  /** One event more. */
  lemma SettleOne(s: State, es: seq<EventInfo>, i: nat, index: map<string, string>, index': map<string, string>)
    requires i < |es| && DistinctKeys(es) && Settled(s, es, i, index)
    requires EventSettled(s, es[i], Get(index', es[i].key))
    requires forall k :: k != es[i].key ==> Get(index', k) == Get(index, k)
    ensures Settled(s, es, i + 1, index')
  {
    hide EventSettled, Get;
    forall k | !HasKey(es[..i + 1], k) ensures Get(index', k) == Get(s.index, k) {
      assert es[..i + 1][i].key != k;
      forall j | 0 <= j < i ensures es[j].key != k {
        assert es[..i + 1][j].key != k;
      }
      assert !HasKey(es[..i], k);
    }
    forall j | 0 <= j < i + 1 ensures EventSettled(s, es[j], Get(index', es[j].key)) {
      assert j < i ==> es[j].key != es[i].key;
    }
  }

  /** `e` is one of the events, passed on. */
  ghost predicate ComesFrom(s: State, es: seq<EventInfo>, e: EventInfo) {
    exists j :: 0 <= j < |es| && Passes(s, es[j]) && e == PassedOn(s, es[j])
  }

  lemma {:induction false} PassedLogMembers(s: State, es: seq<EventInfo>)
    requires DistinctKeys(es)
    ensures DistinctKeys(PassedLog(s, es))
    ensures forall i :: 0 <= i < |PassedLog(s, es)| ==> ComesFrom(s, es, PassedLog(s, es)[i])
    ensures forall j :: 0 <= j < |es| && Passes(s, es[j]) ==> HasKey(PassedLog(s, es), es[j].key)
  {
    hide Passes;
    if es != [] {
      var before, last := es[..|es| - 1], es[|es| - 1];
      PassedLogMembers(s, before);
      var log := PassedLog(s, before);
      forall e | ComesFrom(s, before, e) ensures ComesFrom(s, es, e) && e.key != last.key {
        var j :| 0 <= j < |before| && Passes(s, before[j]) && e == PassedOn(s, before[j]);
        assert es[j] == before[j];
      }
      if Passes(s, last) {
        assert ComesFrom(s, es, PassedOn(s, last));
      }
      forall j | 0 <= j < |es| && Passes(s, es[j]) ensures HasKey(PassedLog(s, es), es[j].key) {
        HasKeyAppended(log, PassedLog(s, es)[|log|..], es[j].key);
        if j == |before| {
          assert PassedLog(s, es)[|log|].key == last.key;
        } else {
          assert before[j] == es[j];
        }
      }
    }
  }

  lemma HasKeyAppended(a: seq<EventInfo>, b: seq<EventInfo>, k: string)
    ensures HasKey(a, k) ==> HasKey(a + b, k)
  {
    if HasKey(a, k) {
      var i :| 0 <= i < |a| && a[i].key == k;
      assert (a + b)[i].key == k;
    }
  }

  /** When every event of a diff has been handled, in whatever order, the refresh is complete. */
  lemma BatchIsRefresh(s: State, source: string, updated: Configs, es: seq<EventInfo>, s': State)
    requires source in s.sources && s.sources[source].attached
    requires IsDiff(es, source, s.sources[source].configs, updated)
    requires Settled(s, es, |es|, s'.index)
    requires s'.sources == s.sources[source := s.sources[source].(configs := updated)]
    requires s'.overlays == s.overlays && s'.forbidden == s.forbidden
    ensures Refreshed(s, source, updated, s', PassedLog(s, es))
  {
    hide Forbidden, Accepts, Rebinds, PassedLog, Get, Changed;
    assert es[..|es|] == es;
    forall k ensures KeyAfterRefresh(s, source, updated, k, Get(s'.index, k)) {
      if HasKey(es, k) {
        var j :| 0 <= j < |es| && es[j].key == k;
        assert EventSettled(s, es[j], Get(s'.index, k));
      }
    }
    BatchLog(s, source, updated, es);
  }

  lemma BatchLog(s: State, source: string, updated: Configs, es: seq<EventInfo>)
    requires source in s.sources && s.sources[source].attached
    requires IsDiff(es, source, s.sources[source].configs, updated)
    ensures IsLog(s, source, updated, PassedLog(s, es))
  {
    hide Forbidden, Accepts, PassedLog, Get, Changed;
    PassedLogMembers(s, es);
    forall k | Announced(s, source, updated, k) ensures HasKey(PassedLog(s, es), k) {
      var j :| 0 <= j < |es| && es[j].key == k;
      assert Passes(s, es[j]);
    }
  }

  // ------------------------------------------- reading in the middle of a batch

  /**
   `s'` is where the batch ends that is at `index` after `i` events: what is settled stays, the
   other events get settled, and the source's configuration is swapped.
   */
  ghost predicate Completes(s: State, source: string, updated: Configs, es: seq<EventInfo>, i: nat,
                            index: map<string, string>, s': State)
    requires source in s.sources && i <= |es|
  {
    && Settled(s, es, i, index) && Settled(s, es, |es|, s'.index)
    && (forall k :: HasKey(es[..i], k) ==> Get(s'.index, k) == Get(index, k))
    && s' == s.(sources := s.sources[source := s.sources[source].(configs := updated)], index := s'.index)
  }

  /** The event of `k` is handled, and has taken the key from another source before the refreshed one is swapped. */
  ghost predicate Torn(s: State, source: string, updated: Configs, done: seq<EventInfo>, k: string)
    requires source in s.sources
  {
    && k !in s.overlays && !Forbidden(s, k) && k in updated && HasKey(done, k)
    && k in s.index && s.index[k] != source && !Outranks(s.sources, s.index[k], source)
    && s.index[k] in s.sources && Get(s.sources[source].configs, k) != Get(s.sources[s.index[k]].configs, k)
  }

  /**
   In the middle of a batch a key answers as before the refresh or as after it, but for one
   case, when it answers neither: its event has taken it from another source, and the new one
   is still read as it was, which then is another value or, for a new key, none.
   */
  lemma TornReadExactly(s: State, source: string, updated: Configs, es: seq<EventInfo>, i: nat,
                        index: map<string, string>, s': State, key: string)
    requires source in s.sources && s.sources[source].attached && IndexOk(s) && i <= |es|
    requires IsDiff(es, source, s.sources[source].configs, updated) && Completes(s, source, updated, es, i, index, s')
    ensures var k, amid := Normalize(key), Lookup(s.(index := index), key);
            && (amid != Lookup(s, key) && amid != Lookup(s', key) <==> Torn(s, source, updated, es[..i], k))
            && (Torn(s, source, updated, es[..i], k) ==> amid == Get(s.sources[source].configs, k))
  {
    var k := Normalize(key);
    NormalizeIdempotent(key);
    hide Normalize, EventSettled, IndexOk, IsDiff, Get;
    if HasKey(es[..i], k) {
      var j :| 0 <= j < |es[..i]| && es[..i][j].key == k;
      EventOfKey(es, j, source, s.sources[source].configs, updated);
      TornKey(s, source, updated, es[j], index, s', key);
      assert [es[j]][0].key == k;
    }
  }

  lemma EventOfKey(es: seq<EventInfo>, j: nat, source: string, current: Configs, updated: Configs)
    requires IsDiff(es, source, current, updated) && j < |es|
    ensures Changed(current, updated, es[j].key) && es[j] == ChangeEvent(source, current, updated, es[j].key)
  {
  }

  /** One key whose event has been handled. */
  lemma TornKey(s: State, source: string, updated: Configs, e: EventInfo,
                index: map<string, string>, s': State, key: string)
    requires source in s.sources && IndexOk(s) && Normalize(key) == e.key
    requires Changed(s.sources[source].configs, updated, e.key)
    requires e == ChangeEvent(source, s.sources[source].configs, updated, e.key)
    requires EventSettled(s, e, Get(index, e.key)) && Get(s'.index, e.key) == Get(index, e.key)
    requires s' == s.(sources := s.sources[source := s.sources[source].(configs := updated)], index := s'.index)
    ensures var amid, torn := Lookup(s.(index := index), key), Torn(s, source, updated, [e], e.key);
            && (amid != Lookup(s, key) && amid != Lookup(s', key) <==> torn)
            && (torn ==> amid == Get(s.sources[source].configs, e.key))
  {
    NormalizeIdempotent(key);
    hide Normalize;
    assert HasKey([e], e.key) by { assert [e][0].key == e.key; }
    if !Forbidden(s, e.key) {
      assert Agrees(s.sources, e.key, Get(s.index, e.key));
    }
  }

  /** With distinct priorities a torn read finds nothing, although the key is set before the refresh and after it. */
  lemma TornIsNotFound(s: State, source: string, updated: Configs, done: seq<EventInfo>, k: string)
    requires source in s.sources && IndexOk(s) && DistinctPriorities(s.sources) && Torn(s, source, updated, done, k)
    ensures Get(s.sources[source].configs, k) == None
  {
    hide Normalize;
    assert Agrees(s.sources, k, Get(s.index, k));
    assert k in s.sources[source].configs ==> Holds(s.sources, source, k);
  }

  /** A better source gets a key that another one has: in the middle of its refresh the key is not found. */
  lemma TornReadHappens()
    ensures exists s: State, updated, es, index, s': State ::
              && "t" in s.sources && s.sources["t"].attached && IndexOk(s) && |es| == 1
              && IsDiff(es, "t", s.sources["t"].configs, updated) && Completes(s, "t", updated, es, 1, index, s')
              && Lookup(s, "k") == Some("1") && Lookup(s.(index := index), "k") == None && Lookup(s', "k") == Some("2")
  {
    assert IsNormal("k");
    NormalizeFixes("k");
    hide Normalize;
    var updated: Configs, e := map["k" := "2"], EventInfo("t", Create, "k", "2", false);
    var s := INIT.(sources := map["s" := SourceState(2, map["k" := "1"], true), "t" := SourceState(1, map[], true)],
                   index := map["k" := "s"]);
    var index: map<string, string> := map["k" := "t"];
    var s' := s.(sources := s.sources["t" := s.sources["t"].(configs := updated)], index := index);
    forall k ensures Agrees(s.sources, k, Get(s.index, k)) {
      assert Holds(s.sources, "s", k) <==> k == "k";
    }
    assert [e][0].key == "k" && [e][..1] == [e];
    assert HasKey([e], "k") && IsDiff([e], "t", map[], updated);
    assert EventSettled(s, e, Some("t"));
    assert Completes(s, "t", updated, [e], 1, index, s');
    assert Lookup(s, "k") == Some("1") && Lookup(s.(index := index), "k") == None && Lookup(s', "k") == Some("2");
  }
}
