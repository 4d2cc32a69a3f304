/**
 The configuration manager and its sources as they run: maps that are updated in place, a
 refresh that diffs, fires its events and only then swaps the source's configuration.

 Every operation is proved to be the step of the state machine in Layers that it stands for.
 Keys are formatted with Normalize, which KeyFormat.KeyFormatter.FormatKey always returns.
 */
module ConfigManager {
  import opened Options
  import opened KeyFormat
  import opened Events
  import opened Dispatcher
  import opened Layers
  import opened Batches
  import Views

  /** The name every file source has. */
  const FILE_SOURCE := "FileSource"

  /** A source with its formatter for keys and its refresher's event handler. */
  class Source {
    const name: string
    const priority: int
    const format: Formatter
    var configs: Configs
    var eh: Manager?

    constructor (name: string, priority: int, format: Formatter)
      ensures this.name == name && this.priority == priority && this.format == format && configs == map[] && eh == null
    {
      this.name, this.priority, this.format := name, priority, format;
      configs, eh := map[], null;
    }

    function GetConfigurationByKey(key: string): Option<string>
      reads this
    {
      Get(configs, key)
    }

    /** The configuration just read, each setting as it is spelled and under its formatted key. */
    method ReadSettings(settings: seq<Setting>) returns (newConfig: Configs)
      ensures newConfig == Twins(format, settings)
    {
      newConfig := map[];
      for i := 0 to |settings|
        invariant newConfig == Twins(format, settings[..i])
      {
        assert settings[..i + 1][..i] == settings[..i];
        newConfig := newConfig[settings[i].key := settings[i].value];
        newConfig := newConfig[format(settings[i].key) := settings[i].value];
      }
      assert settings[..|settings|] == settings;
    }

    /** The manager it reports to is in order and knows it by its name. */
    ghost predicate Connected()
      reads this, eh, if eh == null then {} else eh.sources.Values + {eh.dispatcher}
    {
      eh != null ==> eh.Valid() && name in eh.sources && eh.sources[name] == this
    }

    /**
     A fetch: an error leaves everything alone, else diff, fire, swap. `log` is what the
     manager dispatched meanwhile.
     */
    method Refresh(fetched: Option<seq<Setting>>) returns (ok: bool, ghost log: seq<EventInfo>)
      requires Connected()
      modifies this`configs, if eh == null then {} else {eh, eh.dispatcher}
      ensures Connected() && ok == fetched.Some?
      ensures configs == if ok then Twins(format, fetched.value) else old(configs)
      ensures eh != null ==>
                && eh.sources == old(eh.sources)
                && eh.dispatcher.history == old(eh.dispatcher.history)
                && (if ok then Refreshed(old(eh.View()), name, configs, eh.View(), log)
                    else eh.View() == old(eh.View()) && log == [])
                && eh.dispatched == old(eh.dispatched) + log
                && eh.dispatcher.ran == old(eh.dispatcher.ran) + RunsOf(eh.dispatcher.history, log)
                && eh.readable == old(eh.readable) + Times(|log|, old(eh.SourceStates()))
    {
      hide Twins, Normalize, Refreshed, RunsOf, Times, EventDispatcher.Valid, Manager.View, Manager.SourceStates;
      if fetched == None {
        if eh != null {
          NothingRuns(eh.dispatcher.history);
        }
        return false, [];
      }
      var newConfig := ReadSettings(fetched.value);
      if eh == null {
        configs := newConfig;
        return true, [];
      }
      log := DiffFireSwap(newConfig);
      return true, log;
    }

    method DiffFireSwap(newConfig: Configs) returns (ghost log: seq<EventInfo>)
      requires eh != null && Connected()
      modifies this`configs, eh, eh.dispatcher
      ensures Connected() && configs == newConfig && eh.sources == old(eh.sources)
      ensures eh.dispatcher.history == old(eh.dispatcher.history)
      ensures name in old(eh.View()).sources && Refreshed(old(eh.View()), name, newConfig, eh.View(), log)
      ensures eh.dispatched == old(eh.dispatched) + log
      ensures eh.dispatcher.ran == old(eh.dispatcher.ran) + RunsOf(eh.dispatcher.history, log)
      ensures eh.readable == old(eh.readable) + Times(|log|, old(eh.SourceStates()))
    {
      hide IsDiff, Normalize, Refreshed, Settled, PassedLog, RunsOf;
      var events := PopulateEvents(name, configs, newConfig);
      ghost var s, es := eh.View(), Infos(events);
      DiffIsNew(es, name, configs, newConfig);
      FireEvents(events);
      Swap(newConfig, s, es);
      log := PassedLog(s, es);
    }

    /** The last act of a refresh, when all its events have been handled. */
    method Swap(newConfig: Configs, ghost s: State, ghost es: seq<EventInfo>)
      requires eh != null && Connected()
      requires eh.View() == s.(index := eh.keySourceMap)
      requires IsDiff(es, name, configs, newConfig) && Settled(s, es, |es|, eh.keySourceMap)
      modifies this`configs
      ensures Connected() && configs == newConfig
      ensures name in s.sources && Refreshed(s, name, newConfig, eh.View(), PassedLog(s, es))
    {
      hide IsDiff, Settled, Refreshed, PassedLog;
      assert s.sources[name] == SourceState(priority, configs, true);
      configs := newConfig;
      eh.Swapped(this);
      BatchIsRefresh(s, name, newConfig, es, eh.View());
    }

    /** Every event of a batch goes to the handler; afterwards all their keys are settled. */
    method FireEvents(events: seq<Event>)
      requires eh != null && Connected()
      requires Distinct(events) && DistinctKeys(Infos(events))
      requires forall i :: 0 <= i < |events| ==> !events[i].hasUpdated
      modifies eh`keySourceMap, eh`dispatched, eh`readable, eh.dispatcher, events
      ensures Connected() && eh.dispatcher.history == old(eh.dispatcher.history)
      ensures eh.View() == old(eh.View()).(index := eh.keySourceMap)
      ensures Settled(old(eh.View()), old(Infos(events)), |events|, eh.keySourceMap)
      ensures var log := PassedLog(old(eh.View()), old(Infos(events)));
              && eh.dispatched == old(eh.dispatched) + log
              && eh.dispatcher.ran == old(eh.dispatcher.ran) + RunsOf(eh.dispatcher.history, log)
              && eh.readable == old(eh.readable) + Times(|log|, old(eh.SourceStates()))
    {
      hide Settled, EventSettled, PassedLog, PassedOn, Passes, Normalize, Selected, RunsOf;
      ghost var s, es := eh.View(), Infos(events);
      BatchStart(s, es);
      for i := 0 to |events|
        invariant Connected() && eh.dispatcher.history == old(eh.dispatcher.history)
        invariant eh.View() == s.(index := eh.keySourceMap)
        invariant forall j :: i <= j < |events| ==> events[j].Info() == es[j]
        invariant Settled(s, es, i, eh.keySourceMap)
        invariant eh.dispatched == old(eh.dispatched) + PassedLog(s, es[..i])
        invariant eh.dispatcher.ran == old(eh.dispatcher.ran) + RunsOf(eh.dispatcher.history, PassedLog(s, es[..i]))
        invariant eh.readable == old(eh.readable) + Times(|PassedLog(s, es[..i])|, s.sources)
      {
        ghost var index := eh.keySourceMap;
        NextIsUntouched(s, es, i, index);
        SameDecision(s, index, es[i]);
        eh.OnEvent(events[i]);
        SettleOne(s, es, i, index, eh.keySourceMap);
        LogOne(s, es, i, eh.dispatcher.history);
      }
      assert es[..|es|] == es;
    }
  }

  /** The same sources, so many times. */
  function Times(n: nat, sources: Sources): (r: seq<Sources>)
    ensures |r| == n && forall i :: 0 <= i < n ==> r[i] == sources
  {
    seq(n, _ => sources)
  }

  /** The events of a diff are about different keys and nobody has acted on them. */
  lemma DiffIsNew(es: seq<EventInfo>, source: string, current: Configs, updated: Configs)
    requires IsDiff(es, source, current, updated)
    ensures DistinctKeys(es) && forall i :: 0 <= i < |es| ==> !es[i].hasUpdated
  {
  }

  lemma BatchStart(s: State, es: seq<EventInfo>)
    ensures Settled(s, es, 0, s.index) && PassedLog(s, es[..0]) == []
    ensures forall history :: RunsOf(history, PassedLog(s, es[..0])) == []
  {
  }

  /** What one more event adds to the log, and to the handler runs. */
  lemma LogOne(s: State, es: seq<EventInfo>, i: nat, history: seq<Op>)
    requires i < |es|
    ensures var log, one := PassedLog(s, es[..i]), if Passes(s, es[i]) then [PassedOn(s, es[i])] else [];
            && PassedLog(s, es[..i + 1]) == log + one
            && RunsOf(history, log + one)
               == RunsOf(history, log)
                  + if Passes(s, es[i]) then RunEach(Selected(history, es[i].key), PassedOn(s, es[i])) else []
  {
    hide Passes, Selected;
    assert es[..i + 1][..i] == es[..i];
    var log, one := PassedLog(s, es[..i]), if Passes(s, es[i]) then [PassedOn(s, es[i])] else [];
    if one == [] {
      assert log + one == log;
    } else {
      assert (log + one)[..|log|] == log;
    }
  }

  lemma NothingRuns(history: seq<Op>)
    ensures RunsOf(history, []) == []
  {
  }

  /** A refresh whose events nobody hears swaps the source's configuration and does no more. */
  lemma UnheardRefresh(s: State, source: string, updated: Configs, s': State)
    requires source in s.sources && !s.sources[source].attached
    requires s' == s.(sources := s.sources[source := s.sources[source].(configs := updated)])
    ensures Refreshed(s, source, updated, s', [])
  {
  }

  class Manager {
    const dispatcher: EventDispatcher
    var sources: map<string, Source>
    var keySourceMap: map<string, string>
    var overlays: Configs
    var forbiddenKeys: set<string>
    /** The events that reached the dispatcher, in order, and the sources as their handlers could read them. */
    ghost var dispatched: seq<EventInfo>
    ghost var readable: seq<Sources>

    constructor ()
      ensures Valid() && View() == INIT && sources == map[] && dispatched == [] && fresh(dispatcher)
    {
      dispatcher := new EventDispatcher();
      sources, keySourceMap, overlays, forbiddenKeys, dispatched, readable := map[], map[], map[], {}, [], [];
    }

    /** Sources are stored under their own names. */
    ghost predicate Valid()
      reads this, dispatcher, sources.Values
    {
      dispatcher.Valid() && forall n :: n in sources ==> sources[n].name == n
    }

    ghost function SourceStates(): Sources
      reads this`sources, sources.Values
    {
      map n | n in sources :: SourceState(sources[n].priority, sources[n].configs, sources[n].eh == this)
    }

    ghost function View(): State
      reads this, sources.Values
    {
      State(SourceStates(), keySourceMap, overlays, forbiddenKeys)
    }

    /** When one source's configuration is swapped, the view has the new one and nothing else new. */
    twostate lemma Swapped(source: Source)
      requires old(source.name in sources && sources[source.name] == source && Valid())
      requires sources == old(sources) && source.eh == old(source.eh)
      requires forall n :: n in sources && n != source.name ==> unchanged(sources[n])
      ensures SourceStates()
           == old(SourceStates())[source.name := old(SourceStates())[source.name].(configs := source.configs)]
    {
    }

    /** When a source has come, the view has it, and the others as they were. */
    twostate lemma Entering(source: Source)
      requires sources == old(sources)[source.name := source] && source.eh != this
      requires forall n :: n in sources && n != source.name ==> unchanged(sources[n])
      ensures SourceStates() == old(SourceStates())[source.name := SourceState(source.priority, source.configs, false)]
    {
    }

    /** A best source for the key other than the one named; the table is traversed in any order. */
    method FindNextBestSource(configKey: string, sourceName: string) returns (best: Source?)
      requires Valid()
      ensures best != null ==> best.name in sources && sources[best.name] == best
      ensures NextBest(SourceStates(), configKey, sourceName, if best == null then None else Some(best.name))
    {
      best := null;
      var rest := sources.Keys;
      ghost var seen: set<string> := {};
      while rest != {}
        invariant rest + seen == sources.Keys && rest !! seen
        invariant best != null ==> best.name in seen && sources[best.name] == best && best.name != sourceName
                                   && configKey in best.configs
        invariant forall n :: n in seen && n != sourceName && configKey in sources[n].configs ==>
                                best != null && best.priority <= sources[n].priority
      {
        var name :| name in rest;
        rest, seen := rest - {name}, seen + {name};
        var value := sources[name];
        if value.name == sourceName {
          continue;
        }
        if value.GetConfigurationByKey(configKey) == None {
          continue;
        }
        if best == null {
          best := value;
        } else if value.priority < best.priority {
          best := value;
        }
      }
    }

    function GetHighPrioritySource(a: string, b: string): (r: Source?)
      reads this, sources.Values
    {
      if a !in sources && b !in sources then null
      else if a !in sources then sources[b]
      else if b !in sources then sources[a]
      else if sources[a].priority < sources[b].priority then sources[a] else sources[b]
    }

    /** The first source wins exactly when it outranks the second. */
    lemma HighPriorityOutranks(a: string, b: string)
      requires Valid() && a != b
      ensures var r := GetHighPrioritySource(a, b);
              (r != null && r.name == a) <==> Outranks(SourceStates(), a, b)
    {
    }

    /** A key loses its source: it goes to the next best one, or out of the index. */
    method Unbind(key: string, sourceName: string)
      requires Valid()
      modifies this`keySourceMap
      ensures Valid() && NextBest(SourceStates(), key, sourceName, Get(keySourceMap, key))
      ensures forall k :: k != key ==> Get(keySourceMap, k) == Get(old(keySourceMap), k)
    {
      hide NextBest;
      var source := FindNextBestSource(key, sourceName);
      if source == null {
        keySourceMap := keySourceMap - {key};
      } else {
        keySourceMap := keySourceMap[key := source.name];
      }
    }

    /** An event that has been acted on before changes nothing more. */
    method UpdateEvent(e: Event) returns (ok: bool)
      requires Valid()
      modifies this`keySourceMap, e
      ensures Valid()
      ensures old(e.hasUpdated) ==> ok && keySourceMap == old(keySourceMap) && e.Info() == old(e.Info())
      ensures !old(e.hasUpdated) ==> ok == Accepts(SourceStates(), Get(old(keySourceMap), e.key), e.source, old(e.kind))
      ensures !old(e.hasUpdated) ==>
                Rebinds(SourceStates(), Get(old(keySourceMap), e.key), e.source, old(e.kind), e.key,
                        Get(keySourceMap, e.key))
      ensures forall k :: k != e.key ==> Get(keySourceMap, k) == Get(old(keySourceMap), k)
      ensures !old(e.hasUpdated) ==>
                e.Info() == if ok then old(e.Info()).(kind := RevisedKind(Get(old(keySourceMap), e.key), old(e.kind)),
                                                      hasUpdated := true)
                            else old(e.Info())
    {
      hide Accepts, Rebinds;
      if e.hasUpdated {
        return true;
      }
      ok := ActOn(e);
    }

    /** One event: whether it is acted on, what its key is bound to then, and the kind it is passed on with. */
    method ActOn(e: Event) returns (ok: bool)
      requires Valid() && !e.hasUpdated
      modifies this`keySourceMap, e
      ensures Valid()
      ensures ok == Accepts(SourceStates(), Get(old(keySourceMap), e.key), e.source, old(e.kind))
      ensures Rebinds(SourceStates(), Get(old(keySourceMap), e.key), e.source, old(e.kind), e.key,
                      Get(keySourceMap, e.key))
      ensures forall k :: k != e.key ==> Get(keySourceMap, k) == Get(old(keySourceMap), k)
      ensures e.Info() == if ok then old(e.Info()).(kind := RevisedKind(Get(old(keySourceMap), e.key), old(e.kind)),
                                                    hasUpdated := true)
                          else old(e.Info())
    {
      hide EventDispatcher.Valid, NextBest;
      match e.kind {
        case Create | Update =>
          if e.key !in keySourceMap {
            keySourceMap := keySourceMap[e.key := e.source];
            e.kind := Create;
          } else if keySourceMap[e.key] == e.source {
            e.kind := Update;
          } else {
            var sourceName := keySourceMap[e.key];
            var prioritySrc := GetHighPrioritySource(sourceName, e.source);
            HighPriorityOutranks(sourceName, e.source);
            if prioritySrc != null && prioritySrc.name == sourceName {
              return false;
            }
            keySourceMap := keySourceMap[e.key := e.source];
            e.kind := Update;
          }
        case Delete =>
          if e.key !in keySourceMap || keySourceMap[e.key] != e.source {
            return false;
          }
          Unbind(e.key, e.source);
      }
      e.hasUpdated := true;
      return true;
    }

    /**
     An event: ignored for a forbidden key, else acted on, and dispatched if it was acted on
     now or before.
     */
    method OnEvent(e: Event)
      requires Valid()
      modifies this`keySourceMap, this`dispatched, this`readable, e, dispatcher
      ensures Valid() && dispatcher.history == old(dispatcher.history)
      ensures View() == old(View()).(index := keySourceMap)
      ensures forall k :: k != e.key ==> Get(keySourceMap, k) == Get(old(keySourceMap), k)
      ensures if old(e.hasUpdated) then keySourceMap == old(keySourceMap)
              else EventSettled(old(View()), old(e.Info()), Get(keySourceMap, e.key))
      ensures var s, info := old(View()), old(e.Info());
              var out := if info.hasUpdated then info else PassedOn(s, info);
              if (if info.hasUpdated then !Forbidden(s, info.key) else Passes(s, info))
              then && dispatched == old(dispatched) + [out]
                   && dispatcher.ran == old(dispatcher.ran) + RunEach(Selected(dispatcher.history, e.key), out)
              else dispatched == old(dispatched) && dispatcher.ran == old(dispatcher.ran)
      ensures readable == old(readable) + Times(|dispatched| - |old(dispatched)|, SourceStates())
    {
      hide Normalize, Rebinds, Accepts, RevisedKind, Selected, RunEach, SourceStates;
      if Normalize(e.key) in forbiddenKeys {
        return;
      }
      var ok := UpdateEvent(e);
      if !ok {
        return;
      }
      dispatched, readable := dispatched + [e.Info()], readable + [SourceStates()];
      dispatcher.Dispatch(e);
    }

    /** The keys a source was loaded with go to it where it wins; they come in any order. */
    method PullSourceConfigs(name: string)
      requires Valid() && name in sources
      modifies this`keySourceMap
      ensures Valid() && keySourceMap == Pulled(SourceStates(), old(keySourceMap), name)
    {
      var source := sources[name];
      var rest := source.configs.Keys;
      while rest != {}
        invariant Valid() && rest <= source.configs.Keys
        invariant forall k :: Get(keySourceMap, k)
                           == if && k in source.configs && k !in rest
                                 && Takes(SourceStates(), Get(old(keySourceMap), k), name)
                              then Some(name) else Get(old(keySourceMap), k)
      {
        var key :| key in rest;
        rest := rest - {key};
        assert Get(keySourceMap, key) == Get(old(keySourceMap), key);
        if key !in keySourceMap {
          keySourceMap := keySourceMap[key := name];
          continue;
        }
        if keySourceMap[key] !in sources {
          keySourceMap := keySourceMap[key := name];
          continue;
        }
        if sources[keySourceMap[key]].priority > source.priority {
          keySourceMap := keySourceMap[key := name];
        }
      }
      SameEntries(keySourceMap, Pulled(SourceStates(), old(keySourceMap), name));
    }

    /** A new source: entered, loaded, pulled from, and connected, unless loading it fails. */
    method AddSource(source: Source, fetched: Option<seq<Setting>>) returns (ok: bool)
      requires Valid()
      requires source.name !in sources ==> Foreign(source)
      modifies this`sources, this`keySourceMap, source
      modifies if source.eh == null then {} else {source.eh, source.eh.dispatcher}
      ensures Valid() && dispatched == old(dispatched)
      ensures ok == (source.name !in old(sources) && fetched.Some?)
      ensures sources == if source.name in old(sources) then old(sources) else old(sources)[source.name := source]
      ensures source.eh == if ok then this else old(source.eh)
      ensures fetched.Some? && ok ==> source.configs == Twins(source.format, fetched.value)
      ensures View() == Layers.AddSource(old(View()), source.name, source.priority, old(source.configs),
                                         if fetched == None then None else Some(Twins(source.format, fetched.value)))
    {
      hide Twins, Pulled, Takes;
      if source.name in sources {
        return false;
      }
      ghost var s, held := View(), source.configs;
      ok := Enter(source, fetched);
      if ok {
        Attach(source, s, held);
      }
    }

    /** The source reports to no manager, or to another one. */
    ghost predicate Foreign(source: Source)
      reads source, source.eh, if source.eh == null then {} else source.eh.sources.Values + {source.eh.dispatcher}
    {
      && source.Connected() && source.eh != this
      && (source.eh != null ==> source.eh.dispatcher != dispatcher)
    }

    /** The first half of adding a source: it is in the table, and loaded if it can be. */
    method Enter(source: Source, fetched: Option<seq<Setting>>) returns (loaded: bool)
      requires Valid() && source.name !in sources && Foreign(source)
      modifies this`sources, source`configs, if source.eh == null then {} else {source.eh, source.eh.dispatcher}
      ensures Valid() && sources == old(sources)[source.name := source]
      ensures keySourceMap == old(keySourceMap) && overlays == old(overlays) && forbiddenKeys == old(forbiddenKeys)
      ensures dispatched == old(dispatched)
      ensures loaded == fetched.Some?
      ensures source.configs == if loaded then Twins(source.format, fetched.value) else old(source.configs)
      ensures SourceStates() == old(SourceStates())[source.name := SourceState(source.priority, source.configs, false)]
    {
      hide Twins, Refreshed, RunsOf, EventDispatcher.Valid, SourceStates;
      sources := sources[source.name := source];
      var ok, _ := source.Refresh(fetched);
      Entering(source);
      return ok;
    }

    /** The second half of adding a source that has been loaded: pull its keys, and connect it. */
    method Attach(source: Source, ghost s: State, ghost held: Configs)
      requires Valid() && source.name in sources && sources[source.name] == source && source.eh != this
      requires source.name !in s.sources
      requires View() == s.(sources := s.sources[source.name := SourceState(source.priority, source.configs, false)])
      modifies this`keySourceMap, source`eh
      ensures Valid() && source.eh == this
      ensures View() == Layers.AddSource(s, source.name, source.priority, held, Some(source.configs))
    {
      hide Pulled, EventDispatcher.Valid;
      PullAsAttached(source.name);
      ghost var states := s.sources[source.name := SourceState(source.priority, source.configs, true)];
      assert SourceStates()[source.name := SourceState(source.priority, source.configs, true)] == states;
      PullSourceConfigs(source.name);
      source.eh := this;
      assert SourceStates() == states;
    }

    /** Pulling does not look at whether the source is attached yet. */
    lemma PullAsAttached(name: string)
      requires Valid() && name in sources
      ensures var sources' := SourceStates();
              Pulled(sources', keySourceMap, name)
              == Pulled(sources'[name := sources'[name].(attached := true)], keySourceMap, name)
    {
      var a := SourceStates();
      var b := a[name := a[name].(attached := true)];
      SameEntries(Pulled(a, keySourceMap, name), Pulled(b, keySourceMap, name));
    }

    ghost function FileFrame(): set<object>
      reads this, sources.Values
    {
      if FILE_SOURCE !in sources then {}
      else
        var s := sources[FILE_SOURCE];
        {s} + if s.eh == null then {} else {s.eh, s.eh.dispatcher}
    }

    /**
     The file-only view loads the file source again. Its events arrive only if adding it
     succeeded; either way this is a refresh of the source, and an error leaves all as it was.
     */
    method FileConfigs(fetched: Option<seq<Setting>>) returns (config: Configs, ghost log: seq<EventInfo>)
      requires Valid()
      requires FILE_SOURCE in sources ==> sources[FILE_SOURCE].eh == this || Foreign(sources[FILE_SOURCE])
      modifies this, dispatcher, FileFrame()
      ensures Valid() && sources == old(sources) && dispatcher.history == old(dispatcher.history)
      ensures if FILE_SOURCE in sources && fetched.Some?
              then && config == Twins(sources[FILE_SOURCE].format, fetched.value)
                   && Refreshed(old(View()), FILE_SOURCE, config, View(), log)
              else config == map[] && View() == old(View()) && log == []
      ensures dispatched == old(dispatched) + log
      ensures dispatcher.ran == old(dispatcher.ran) + RunsOf(dispatcher.history, log)
    {
      hide Twins, Refreshed, RunsOf, EventDispatcher.Valid;
      NothingRuns(dispatcher.history);
      if FILE_SOURCE !in sources {
        return map[], [];
      }
      var s := sources[FILE_SOURCE];
      ghost var before := View();
      var ok;
      ok, log := s.Refresh(fetched);
      if !ok {
        return map[], [];
      }
      if s.eh != this {
        Swapped(s);
        log := [];
        UnheardRefresh(before, FILE_SOURCE, s.configs, View());
      }
      return s.configs, log;
    }

    method GetConfig(key: string) returns (r: Option<string>)
      requires Valid()
      ensures r == Lookup(View(), key)
    {
      hide Normalize;
      var realKey := Normalize(key);
      if realKey in overlays {
        if overlays[realKey] == TOMBSTONE {
          return None;
        }
        return Some(overlays[realKey]);
      }
      if realKey !in keySourceMap {
        return None;
      }
      return GetConfigValueBySource(realKey, keySourceMap[realKey]);
    }

    function GetConfigValueBySource(configKey: string, sourceName: string): Option<string>
      reads this, sources.Values
    {
      if sourceName !in sources then None else sources[sourceName].GetConfigurationByKey(configKey)
    }

    /** All indexed keys that answer, and all overlays. */
    method GetConfigs() returns (config: Configs)
      requires Valid()
      ensures config == Views.ConfigsView(View())
    {
      hide Lookup;
      config := IndexedConfigs();
      ghost var indexed := config;
      var rest := overlays.Keys;
      while rest != {}
        invariant rest <= overlays.Keys
        invariant config == indexed + (overlays - rest)
      {
        var key :| key in rest;
        rest := rest - {key};
        config := config[key := overlays[key]];
      }
      assert overlays - {} == overlays;
    }

    method IndexedConfigs() returns (config: Configs)
      requires Valid()
      ensures config == map k | k in keySourceMap && Lookup(View(), k).Some? :: Lookup(View(), k).value
    {
      hide Lookup;
      config := map[];
      var rest := keySourceMap.Keys;
      while rest != {}
        invariant rest <= keySourceMap.Keys
        invariant config == map k | k in keySourceMap && k !in rest && Lookup(View(), k).Some?
                                :: Lookup(View(), k).value
      {
        var key :| key in rest;
        rest := rest - {key};
        var value := GetConfig(key);
        if value.Some? {
          config := config[key := value.value];
        }
      }
    }

    method GetBy(filters: seq<Views.Filter>) returns (matched: Configs)
      requires Valid()
      ensures Views.IsView(Views.ConfigsView(View()), filters, matched)
    {
      var configs := GetConfigs();
      matched := Views.FilterConfigs(configs, filters);
    }

    method SetConfig(key: string, value: string)
      requires Valid()
      modifies this`overlays
      ensures Valid() && Step(old(View()), Action.SetConfig(key, value), View(), [])
    {
      overlays := overlays[Normalize(key) := value];
    }

    method SetMapConfig(key: string, value: string)
      requires Valid()
      modifies this`overlays
      ensures Valid() && Step(old(View()), Action.SetMapConfig(key, value), View(), [])
    {
      overlays := overlays[Lower(key) := value];
    }

    method DeleteConfig(key: string)
      requires Valid()
      modifies this`overlays
      ensures Valid() && Step(old(View()), Action.DeleteConfig(key), View(), [])
    {
      overlays := overlays[Normalize(key) := TOMBSTONE];
    }

    method ResetConfig(key: string)
      requires Valid()
      modifies this`overlays
      ensures Valid() && Step(old(View()), Action.ResetConfig(key), View(), [])
    {
      overlays := overlays - {Normalize(key)};
    }

    method ForbidUpdate(key: string)
      requires Valid()
      modifies this`forbiddenKeys
      ensures Valid() && Step(old(View()), Action.ForbidUpdate(key), View(), [])
    {
      forbiddenKeys := forbiddenKeys + {Normalize(key)};
    }
  }
}
