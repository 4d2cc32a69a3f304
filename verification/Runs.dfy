/** What holds of the layered configuration over whole runs, from an empty manager on. */
module Runs {
  import opened Options
  import opened KeyFormat
  import opened Events
  import opened Layers

  // ----------------------------------------------------- adding keeps the index

  lemma PulledAgrees(s: State, name: string, priority: int, configs: Configs, k: string)
    requires name !in s.sources
    requires Agrees(s.sources, k, Get(s.index, k))
    ensures var s' := Entered(s, name, priority, map[], Some(configs));
            Agrees(s'.sources, k, Get(s'.index, k))
  {
    var s' := Entered(s, name, priority, map[], Some(configs));
    forall m ensures Holds(s'.sources, m, k) <==> if m == name then k in configs else Holds(s.sources, m, k) {}
    var b := Get(s'.index, k);
    if b == None {
      forall m ensures !Holds(s'.sources, m, k) {
        assert Holds(s.sources, m, k) ==> m == name;
      }
    }
  }

  /** A source that loads keeps the index correct, for the keys it brings and for all others. */
  lemma LoadKeepsIndex(s: State, name: string, priority: int, held: Configs, configs: Configs)
    requires IndexOk(s)
    ensures IndexOk(Entered(s, name, priority, held, Some(configs)))
  {
    hide Agrees, Forbidden, Pulled;
    var s' := Entered(s, name, priority, held, Some(configs));
    if name !in s.sources {
      assert s' == Entered(s, name, priority, map[], Some(configs));
      forall k | !Forbidden(s', k) ensures Agrees(s'.sources, k, Get(s'.index, k)) {
        SameForbidden(s, s', k);
        PulledAgrees(s, name, priority, configs, k);
      }
    }
  }

  /** Handing a source the manager changes nothing the index depends on. */
  lemma AttachKeepsIndex(s: State, name: string)
    requires IndexOk(s) && name in s.sources
    ensures IndexOk(Attached(s, name))
  {
    hide Forbidden;
    var s' := Attached(s, name);
    forall k | !Forbidden(s', k) ensures Agrees(s'.sources, k, Get(s'.index, k)) {
      SameForbidden(s, s', k);
      assert Agrees(s.sources, k, Get(s.index, k));
      forall m ensures Holds(s'.sources, m, k) <==> Holds(s.sources, m, k) {}
    }
  }

  lemma AddKeepsIndex(s: State, name: string, priority: int, held: Configs, configs: Configs)
    requires IndexOk(s)
    ensures IndexOk(AddSource(s, name, priority, held, Some(configs)))
  {
    hide IndexOk, Pulled;
    LoadKeepsIndex(s, name, priority, held, configs);
    if name !in s.sources {
      AttachKeepsIndex(Entered(s, name, priority, held, Some(configs)), name);
    }
  }

  /**
   A source that fails to load keeps the index correct exactly when every key it came with,
   unless forbidden, is already read from a source with no larger priority number.
   */
  lemma FailedAddExactly(s: State, name: string, priority: int, held: Configs)
    requires IndexOk(s) && name !in s.sources
    ensures IndexOk(Entered(s, name, priority, held, None))
       <==> forall k :: k in held && !Forbidden(s, k) ==> k in s.index && s.sources[s.index[k]].priority <= priority
  {
    hide Forbidden;
    var s' := Entered(s, name, priority, held, None);
    forall k | !Forbidden(s, k)
      ensures Agrees(s'.sources, k, Get(s'.index, k))
         <==> (k in held ==> k in s.index && s.sources[s.index[k]].priority <= priority)
    {
      FailedAddKey(s, name, priority, held, k);
    }
    forall k ensures Forbidden(s', k) <==> Forbidden(s, k) {
      SameForbidden(s, s', k);
    }
    if IndexOk(s') {
      forall k | k in held && !Forbidden(s, k) ensures k in s.index && s.sources[s.index[k]].priority <= priority {
        assert Agrees(s'.sources, k, Get(s'.index, k));
      }
    }
  }

  lemma FailedAddKey(s: State, name: string, priority: int, held: Configs, k: string)
    requires name !in s.sources && Agrees(s.sources, k, Get(s.index, k))
    ensures k in s.index ==> s.index[k] in s.sources
    ensures (var s' := Entered(s, name, priority, held, None); Agrees(s'.sources, k, Get(s'.index, k)))
       <==> (k in held ==> k in s.index && s.sources[s.index[k]].priority <= priority)
  {
    var s' := Entered(s, name, priority, held, None);
    forall m ensures Holds(s'.sources, m, k) <==> if m == name then k in held else Holds(s.sources, m, k) {}
    if k in held {
      assert Holds(s'.sources, name, k);
    }
    if k !in held && k !in s.index {
      forall m ensures !Holds(s'.sources, m, k) {
        assert !Holds(s.sources, m, k);
      }
    }
  }

  /**
   A refresh whose events reach nobody, as one between loading a source and handing it the
   manager, keeps the index correct exactly when each key it adds is read from a source with
   no larger number and no key it drops is read from it.
   */
  lemma SilentRefreshExactly(s: State, source: string, updated: Configs, s': State, log: seq<EventInfo>)
    requires source in s.sources && !s.sources[source].attached
    requires IndexOk(s) && Refreshed(s, source, updated, s', log)
    ensures IndexOk(s')
       <==> forall k :: !Forbidden(s, k) ==> Undisturbed(s, source, updated, k)
  {
    hide Forbidden, Undisturbed, Agrees;
    forall k ensures Forbidden(s', k) <==> Forbidden(s, k) {
      SameForbidden(s, s', k);
    }
    forall k | !Forbidden(s, k)
      ensures Agrees(s'.sources, k, Get(s'.index, k)) <==> Undisturbed(s, source, updated, k)
    {
      assert KeyAfterRefresh(s, source, updated, k, Get(s'.index, k));
      SilentKey(s, source, updated, k);
    }
    if IndexOk(s') {
      forall k | !Forbidden(s, k) ensures Undisturbed(s, source, updated, k) {
        assert Agrees(s'.sources, k, Get(s'.index, k));
      }
    }
  }

  predicate Undisturbed(s: State, source: string, updated: Configs, k: string)
    requires source in s.sources
  {
    var current := s.sources[source];
    && (k in updated && k !in current.configs ==>
          k in s.index && s.index[k] in s.sources && s.sources[s.index[k]].priority <= current.priority)
    && (k in current.configs && k !in updated ==> Get(s.index, k) != Some(source))
  }

  lemma SilentKey(s: State, source: string, updated: Configs, k: string)
    requires source in s.sources && Agrees(s.sources, k, Get(s.index, k))
    ensures Agrees(s.sources[source := s.sources[source].(configs := updated)], k, Get(s.index, k))
       <==> Undisturbed(s, source, updated, k)
  {
    var after := s.sources[source := s.sources[source].(configs := updated)];
    forall m ensures Holds(after, m, k) <==> if m == source then k in updated else Holds(s.sources, m, k) {
      HoldsAfterRefresh(s.sources, source, updated, m, k);
    }
    if k in updated {
      assert Holds(after, source, k);
    }
    if Undisturbed(s, source, updated, k) && Get(s.index, k) == None {
      forall m ensures !Holds(after, m, k) {
        assert !Holds(s.sources, m, k);
      }
    }
  }

  /**
   Such a refresh happens: adding the file source fails, it is loaded again by the file-only
   view, and the key it then holds is not found.
   */
  lemma SilentRefreshBreaks()
    ensures exists run: seq<Transition> ::
              && |run| == 2 && IsRun(INIT, run) && IndexOk(run[0].after) && !IndexOk(run[1].after)
              && Holds(run[1].after.sources, "FileSource", "ab") && Lookup(run[1].after, "ab") == None
  {
    var configs: Configs := map["ab" := "1"];
    var s, s' := FileOnly(map[]), FileOnly(configs);
    var t := Transition(Load("FileSource", 21, map[], None), s, []);
    var t' := Transition(Refresh("FileSource", Some(configs)), s', []);
    FileReloaded(configs);
    assert Holds(s'.sources, "FileSource", "ab") && !Forbidden(s', "ab");
    assert !Agrees(s'.sources, "ab", Get(s'.index, "ab"));
    FileFailed();
    hide *;
    NoSteps();
    Onward(INIT, [], t);
    Onward(INIT, [] + [t], t');
    assert [] + [t] + [t'] == [t, t'];
  }

  /** A manager with nothing but a file source that nobody hears. */
  function FileOnly(configs: Configs): State {
    INIT.(sources := map["FileSource" := SourceState(21, configs, false)])
  }

  lemma FileFailed()
    ensures Step(INIT, Load("FileSource", 21, map[], None), FileOnly(map[]), []) && IndexOk(FileOnly(map[]))
  {
  }

  lemma FileReloaded(configs: Configs)
    ensures Step(FileOnly(map[]), Refresh("FileSource", Some(configs)), FileOnly(configs), [])
  {
    assert Refreshed(FileOnly(map[]), "FileSource", configs, FileOnly(configs), []);
  }

  // ------------------------------------------------------------------- runs

  /**
   The two steps that can spoil the index do not: what a source that fails to load came with
   is read from sources with no larger numbers, and a refresh that nobody hears disturbs no key.
   */
  ghost predicate Harmless(s: State, a: Action) {
    match a
    case Load(name, priority, held, None) =>
      name in s.sources
      || forall k :: k in held && !Forbidden(s, k) ==> k in s.index && s.index[k] in s.sources
                                                       && s.sources[s.index[k]].priority <= priority
    case Refresh(name, Some(updated)) =>
      name in s.sources && !s.sources[name].attached ==>
        forall k :: !Forbidden(s, k) ==> Undisturbed(s, name, updated, k)
    case _ => true
  }

  /** A step from a state with a correct index leaves it correct if and only if it is harmless. */
  lemma StepIndexExactly(s: State, a: Action, s': State, log: seq<EventInfo>)
    requires IndexOk(s) && Step(s, a, s', log)
    ensures IndexOk(s') <==> Harmless(s, a)
  {
    hide Agrees, Forbidden, Refreshed, Entered, Undisturbed;
    match a
    case Load(name, priority, held, None) =>
      if name in s.sources {
        TakenName(s, name, priority, held, None);
      } else {
        FailedAddExactly(s, name, priority, held);
        IndexedKnown(s);
      }
    case Load(name, priority, held, Some(configs)) => LoadKeepsIndex(s, name, priority, held, configs);
    case Attach(name) => AttachKeepsIndex(s, name);
    case Refresh(name, None) =>
    case Refresh(name, Some(updated)) =>
      if s.sources[name].attached {
        RefreshKeepsIndex(s, name, updated, s', log);
      } else {
        SilentRefreshExactly(s, name, updated, s', log);
      }
    case SetConfig(_, _) => SameIndex(s, s');
    case SetMapConfig(_, _) => SameIndex(s, s');
    case DeleteConfig(_) => SameIndex(s, s');
    case ResetConfig(_) => SameIndex(s, s');
    case ForbidUpdate(_) => SameIndex(s, s');
  }

  lemma IndexedKnown(s: State)
    requires IndexOk(s)
    ensures forall k :: k in s.index && !Forbidden(s, k) ==> s.index[k] in s.sources
  {
    hide Forbidden;
    forall k | k in s.index && !Forbidden(s, k) ensures s.index[k] in s.sources {
      assert Agrees(s.sources, k, Get(s.index, k));
    }
  }

  /** Adding a source is these two steps, the second only if it loads and its name is free. */
  lemma AddIsTwoSteps(s: State, name: string, priority: int, held: Configs, loaded: Option<Configs>)
    ensures var s', s'' := Entered(s, name, priority, held, loaded), AddSource(s, name, priority, held, loaded);
            && Step(s, Load(name, priority, held, loaded), s', [])
            && (if name in s.sources || loaded == None then s'' == s' else Step(s', Attach(name), s'', []))
  {
  }

  /** A second source of the same name is refused and changes nothing. */
  lemma TakenName(s: State, name: string, priority: int, held: Configs, loaded: Option<Configs>)
    requires name in s.sources
    ensures Entered(s, name, priority, held, loaded) == s
  {
  }

  lemma SameIndex(s: State, s': State)
    requires IndexOk(s)
    requires s'.sources == s.sources && s'.index == s.index && s.forbidden <= s'.forbidden
    ensures IndexOk(s')
  {
    hide Agrees;
  }

  ghost predicate HarmlessRun(s: State, run: seq<Transition>) {
    run == [] ||
    (var before, last := run[..|run| - 1], run[|run| - 1];
     HarmlessRun(s, before) && Harmless(After(s, before), last.action))
  }

  /** The index is right before the run and after every step of it. */
  ghost predicate IndexOkThroughout(s: State, run: seq<Transition>) {
    IndexOk(After(s, run)) && (run == [] || IndexOkThroughout(s, run[..|run| - 1]))
  }

  /**
   The index agrees with the slow definition, for every key never forbidden, throughout a run
   from the empty manager if and only if every step of the run is harmless.
   */
  lemma {:induction false} ReachableIndexExactly(run: seq<Transition>)
    requires IsRun(INIT, run)
    ensures IndexOkThroughout(INIT, run) <==> HarmlessRun(INIT, run)
  {
    hide Step, IndexOk, Harmless;
    if run == [] {
      EmptyIndexOk();
    } else {
      var before, last := run[..|run| - 1], run[|run| - 1];
      ReachableIndexExactly(before);
      if IndexOk(After(INIT, before)) {
        StepIndexExactly(After(INIT, before), last.action, last.after, last.log);
      }
      assert IndexOkThroughout(INIT, before) ==> IndexOk(After(INIT, before));
    }
  }

  lemma ReachableIndexOk(run: seq<Transition>)
    requires IsRun(INIT, run) && HarmlessRun(INIT, run)
    ensures IndexOk(After(INIT, run))
  {
    hide IndexOk, Step, Harmless;
    ReachableIndexExactly(run);
  }

  lemma EmptyIndexOk()
    ensures IndexOk(INIT)
  {
  }

  /**
   In every reachable state reading goes through the layers, and nothing else does exactly if no
   two best sources of the key differ in its value.
   */
  lemma ReachableLookup(run: seq<Transition>, key: string)
    requires IsRun(INIT, run) && HarmlessRun(INIT, run) && !Forbidden(After(INIT, run), key)
    ensures var s := After(INIT, run);
            && Layered(s, key, Lookup(s, key))
            && ((forall r :: Layered(s, key, r) <==> r == Lookup(s, key)) <==> OneAnswer(s, key))
  {
    hide *;
    ReachableIndexOk(run);
    LookupRefines(After(INIT, run), key);
    LookupExactly(After(INIT, run), key);
  }

  /** A refresh in a reachable state notifies exactly, and any change of an answer is among the notifications. */
  lemma ReachableNotifications(run: seq<Transition>, source: string, updated: Configs, key: string)
    requires IsRun(INIT, run) && run != [] && HarmlessRun(INIT, run[..|run| - 1])
    requires run[|run| - 1].action == Refresh(source, Some(updated))
    ensures var s, last := After(INIT, run[..|run| - 1]), run[|run| - 1];
            && (HasKey(last.log, key) <==> Notified(s, source, updated, last.after, key))
            && (s.sources[source].attached && !Forbidden(s, key) && Lookup(s, key) != Lookup(last.after, key)
                ==> HasKey(last.log, Normalize(key)))
  {
    hide Lookup, HasKey, Forbidden, Refreshed, Agrees, Notified;
    var before, last := run[..|run| - 1], run[|run| - 1];
    ReachableIndexOk(before);
    var s := After(INIT, before);
    NotifiedExactly(s, source, updated, last.after, last.log, key);
    if s.sources[source].attached && !Forbidden(s, key) && Lookup(s, key) != Lookup(last.after, key) {
      ChangesAreAnnounced(s, source, updated, last.after, last.log, key);
    }
  }

  // -------------------------------------------------------------------- overlays

  /**
   Overlays, whatever spelling is used: a set key has its value (the tombstone value means
   none), a deleted key has none, a reset key has what the index gives, a set undone by a
   reset leaves no trace on a key that had no overlay, and no other key is touched.
   */
  lemma OverlayLaws(s: State, key: string, value: string, spelling: string,
                    overlaid: State, deleted: State, reset: State)
    requires Step(s, SetConfig(key, value), overlaid, [])
    requires Step(s, DeleteConfig(key), deleted, [])
    requires Step(overlaid, ResetConfig(key), reset, [])
    ensures Normalize(spelling) == Normalize(key) ==>
              && Lookup(overlaid, spelling) == (if value == "TOMB_VAULE" then None else Some(value))
              && Lookup(deleted, spelling) == None
              && Lookup(reset, spelling) == Lookup(s.(overlays := map[]), spelling)
    ensures Normalize(spelling) != Normalize(key) ==>
              Lookup(overlaid, spelling) == Lookup(deleted, spelling) == Lookup(reset, spelling) == Lookup(s, spelling)
    ensures Normalize(key) !in s.overlays ==> reset == s
    ensures overlaid == s.(overlays := overlaid.overlays) && deleted == s.(overlays := deleted.overlays)
  {
    hide Normalize;
    if Normalize(key) !in s.overlays {
      assert s.overlays[Normalize(key) := value] - {Normalize(key)} == s.overlays;
    }
  }

  // -------------------------------------------------------------- forbidden keys

  /** After ForbidUpdate a spelling is forbidden exactly if it was before or is one of the key's; nothing else moves. */
  lemma ForbidExactly(s: State, key: string, s': State, log: seq<EventInfo>, spelling: string)
    requires Step(s, ForbidUpdate(key), s', log)
    ensures Forbidden(s', spelling) <==> Forbidden(s, spelling) || Normalize(spelling) == Normalize(key)
    ensures s' == s.(forbidden := s'.forbidden) && log == []
  {
    hide Normalize;
  }

  /** In any run a key is forbidden exactly if ForbidUpdate was called with a spelling of it. */
  lemma {:induction false} ForbiddenByCall(run: seq<Transition>, k: string)
    requires IsRun(INIT, run)
    ensures Forbidden(After(INIT, run), k)
       <==> exists i :: 0 <= i < |run| && run[i].action.ForbidUpdate? && Normalize(run[i].action.key) == Normalize(k)
  {
    hide Normalize;
    if run != [] {
      var before, last := run[..|run| - 1], run[|run| - 1];
      ForbiddenByCall(before, k);
      ForbiddenOne(After(INIT, before), last, k);
      hide Step, Forbidden;
      if i :| 0 <= i < |before| && before[i].action.ForbidUpdate? && Normalize(before[i].action.key) == Normalize(k) {
        assert run[i] == before[i];
      }
    }
  }

  lemma ForbiddenOne(s: State, t: Transition, k: string)
    requires Step(s, t.action, t.after, t.log)
    ensures Forbidden(t.after, k)
       <==> Forbidden(s, k) || (t.action.ForbidUpdate? && Normalize(t.action.key) == Normalize(k))
  {
    hide Normalize;
  }

  /** From ForbidUpdate on no event for any spelling of the key is dispatched, in any run. */
  lemma SilentAfterForbid(s: State, key: string, s': State, run: seq<Transition>, i: nat, j: nat)
    requires Step(s, ForbidUpdate(key), s', []) && IsRun(s', run)
    requires i < |run| && j < |run[i].log|
    ensures Normalize(run[i].log[j].key) != Normalize(key)
  {
    var k := run[i].log[j].key;
    assert HasKey(run[i].log, k);
    ForbidExactly(s, key, s', [], key);
    hide *;
    if Normalize(k) == Normalize(key) {
      ForbiddenExactly(s', run, key, k);
    }
  }

  /** The step loads a source of a new name that takes the key from whatever it is read from. */
  predicate Captures(s: State, a: Action, k: string) {
    && a.Load? && a.name !in s.sources && a.loaded.Some? && k in a.loaded.value
    && match Get(s.index, k)
       case None => true
       case Some(n) => n != a.name && (n in s.sources ==> s.sources[n].priority > a.priority)
  }

  ghost predicate NoneCaptures(s: State, run: seq<Transition>, k: string) {
    run == [] ||
    (var before, last := run[..|run| - 1], run[|run| - 1];
     NoneCaptures(s, before, k) && !Captures(After(s, before), last.action, k))
  }

  /** The key is bound to `b` before the run and after every step of it. */
  ghost predicate BoundThroughout(s: State, run: seq<Transition>, k: string, b: Option<string>) {
    Get(After(s, run).index, k) == b && (run == [] || BoundThroughout(s, run[..|run| - 1], k, b))
  }

  /**
   Once forbidden, always forbidden, and no step dispatches an event for any spelling of the
   key. Its source stays the same throughout a run if and only if no step of it captures the
   key: forbidding does not stop a source that is added later.
   */
  lemma {:induction false} ForbiddenExactly(s: State, run: seq<Transition>, key: string, spelling: string)
    requires IsRun(s, run) && Forbidden(s, key) && Normalize(spelling) == Normalize(key)
    ensures Forbidden(After(s, run), key)
    ensures forall i :: 0 <= i < |run| ==> !HasKey(run[i].log, spelling)
    ensures BoundThroughout(s, run, spelling, Get(s.index, spelling)) <==> NoneCaptures(s, run, spelling)
  {
    hide Step, Normalize, HasKey, Captures, Get;
    if run != [] {
      var before, last := run[..|run| - 1], run[|run| - 1];
      ForbiddenExactly(s, before, key, spelling);
      ForbiddenStep(After(s, before), last.action, last.after, last.log, spelling);
      assert forall i :: 0 <= i < |before| ==> before[i] == run[i];
    }
  }

  lemma ForbiddenStep(s: State, a: Action, s': State, log: seq<EventInfo>, k: string)
    requires Step(s, a, s', log) && Forbidden(s, k)
    ensures Normalize(k) in s'.forbidden && !HasKey(log, k)
    ensures Get(s'.index, k) == Get(s.index, k) <==> !Captures(s, a, k)
  {
    hide Normalize;
    if a.Refresh? && a.fetched.Some? {
      assert KeyAfterRefresh(s, a.name, a.fetched.value, k, Get(s'.index, k));
      assert !Announced(s, a.name, a.fetched.value, k);
    }
  }

  /**
   Forbidding a key does not freeze its value, though that is what it is documented to do:
   the answer is still read from the bound source as it is now. A refresh leaves the answer
   alone exactly if the key is overlaid, or bound to another source, or has the same value in
   the new configuration.
   */
  lemma ForbiddenValueExactly(s: State, source: string, updated: Configs, s': State, log: seq<EventInfo>, key: string)
    requires source in s.sources && Refreshed(s, source, updated, s', log) && Forbidden(s, key)
    ensures var k := Normalize(key);
            Lookup(s', key) == Lookup(s, key)
            <==> k in s.overlays || Get(s.index, k) != Some(source) || !Changed(s.sources[source].configs, updated, k)
  {
    var k := Normalize(key);
    NormalizeIdempotent(key);
    hide Normalize;
    assert KeyAfterRefresh(s, source, updated, k, Get(s'.index, k));
    if k in s.index {
      HoldsAfterRefresh(s.sources, source, updated, s.index[k], k);
    }
  }

  /** A manager whose source "s" gives the key "k" the value, its events arriving or not, the key forbidden or not. */
  function OneKey(value: string, attached: bool, forbidden: set<string>): State {
    State(map["s" := SourceState(1, map["k" := value], attached)], map["k" := "s"], map[], forbidden)
  }

  lemma OneKeyLoaded(value: string)
    ensures Step(INIT, Load("s", 1, map[], Some(map["k" := value])), OneKey(value, false, {}), [])
    ensures Step(OneKey(value, false, {}), Attach("s"), OneKey(value, true, {}), [])
  {
    SameEntries(Entered(INIT, "s", 1, map[], Some(map["k" := value])).index, map["k" := "s"]);
  }

  lemma KIsNormal()
    ensures Normalize("k") == "k"
  {
    assert IsNormal("k");
    NormalizeFixes("k");
  }

  lemma OneKeyForbidden(value: string, attached: bool)
    ensures Step(OneKey(value, attached, {}), ForbidUpdate("k"), OneKey(value, attached, {"k"}), [])
  {
    hide Normalize;
    KIsNormal();
    assert {} + {"k"} == {"k"};
  }

  lemma OneKeyRefreshed(value: string, updated: string)
    ensures Step(OneKey(value, true, {"k"}), Refresh("s", Some(map["k" := updated])), OneKey(updated, true, {"k"}), [])
  {
    hide Normalize;
    KIsNormal();
    var s, s', configs := OneKey(value, true, {"k"}), OneKey(updated, true, {"k"}), map["k" := updated];
    forall k ensures KeyAfterRefresh(s, "s", configs, k, Get(s'.index, k)) && !Announced(s, "s", configs, k) {
      if k != "k" {
        assert !Changed(s.sources["s"].configs, configs, k);
      }
    }
    assert s'.sources == s.sources["s" := s.sources["s"].(configs := configs)];
    assert Refreshed(s, "s", configs, s', []);
  }

  lemma OneKeyAnswer(value: string, attached: bool, forbidden: set<string>)
    ensures Lookup(OneKey(value, attached, forbidden), "k") == Some(value)
    ensures Forbidden(OneKey(value, attached, forbidden), "k") <==> "k" in forbidden
  {
    hide Normalize;
    KIsNormal();
  }

  lemma Onward(s: State, run: seq<Transition>, t: Transition)
    requires IsRun(s, run) && Step(After(s, run), t.action, t.after, t.log)
    ensures IsRun(s, run + [t]) && After(s, run + [t]) == t.after
  {
    hide Step;
    assert (run + [t])[..|run|] == run;
  }

  /** A run after which "k" is forbidden and read from the source "s". */
  lemma ForbiddenRun(value: string) returns (run: seq<Transition>)
    ensures IsRun(INIT, run) && After(INIT, run) == OneKey(value, true, {"k"})
  {
    hide Step, OneKey, After;
    run := [];
    assert IsRun(INIT, run) && After(INIT, run) == INIT by { NoSteps(); }
    OneKeyLoaded(value);
    OneKeyForbidden(value, true);
    for i := 0 to 3
      invariant IsRun(INIT, run)
      invariant After(INIT, run) == match i case 0 => INIT case 1 => OneKey(value, false, {})
                                            case 2 => OneKey(value, true, {}) case _ => OneKey(value, true, {"k"})
    {
      var t := match i
               case 0 => Transition(Load("s", 1, map[], Some(map["k" := value])), OneKey(value, false, {}), [])
               case 1 => Transition(Attach("s"), OneKey(value, true, {}), [])
               case _ => Transition(ForbidUpdate("k"), OneKey(value, true, {"k"}), []);
      Onward(INIT, run, t);
      run := run + [t];
    }
  }

  lemma NoSteps()
    ensures IsRun(INIT, []) && After(INIT, []) == INIT
  {
  }

  /** A source is added, its key is forbidden, and a refresh changes the answer all the same. */
  lemma ForbiddenValueChanges()
    ensures exists run: seq<Transition>, t: Transition ::
              && IsRun(INIT, run + [t]) && Forbidden(After(INIT, run), "k") && t.action.Refresh?
              && Lookup(After(INIT, run), "k") == Some("1") && Lookup(t.after, "k") == Some("2")
  {
    hide *;
    var run := ForbiddenRun("1");
    var t := Transition(Refresh("s", Some(map["k" := "2"])), OneKey("2", true, {"k"}), []);
    OneKeyRefreshed("1", "2");
    OneKeyAnswer("1", true, {"k"});
    OneKeyAnswer("2", true, {"k"});
    Onward(INIT, run, t);
  }

  /** A source is added, its key is forbidden, and a second source is added that takes the key. */
  lemma ForbiddenIsCaptured()
    ensures exists run: seq<Transition>, t: Transition ::
              && IsRun(INIT, run + [t]) && Forbidden(After(INIT, run), "k")
              && Get(After(INIT, run).index, "k") == Some("s") && Get(t.after.index, "k") == Some("t")
  {
    hide Step, IsRun, After, Forbidden;
    var run := ForbiddenRun("1");
    var s := OneKey("1", true, {"k"});
    var a := Load("t", 0, map[], Some(map["k" := "2"]));
    var t := Transition(a, Entered(s, "t", 0, map[], Some(map["k" := "2"])), []);
    OneKeyAnswer("1", true, {"k"});
    assert Step(s, a, t.after, []) by { LoadStep(s, a); }
    Onward(INIT, run, t);
  }

  lemma LoadStep(s: State, a: Action)
    requires a.Load?
    ensures Step(s, a, Entered(s, a.name, a.priority, a.held, a.loaded), [])
  {
  }

  // -------------------------------------------------------------- source order

  /** A source to be added, and what loading it gives: None for an error. */
  datatype Supply = Supply(name: string, priority: int, loaded: Option<Configs>)

  /** Adding new sources one after the other, whether or not they load. */
  function AddAll(s: State, supplies: seq<Supply>): State {
    if supplies == [] then s
    else
      var last := supplies[|supplies| - 1];
      AddSource(AddAll(s, supplies[..|supplies| - 1]), last.name, last.priority, map[], last.loaded)
  }

  ghost predicate DistinctNames(supplies: seq<Supply>) {
    forall i, j :: 0 <= i < j < |supplies| ==> supplies[i].name != supplies[j].name
  }

  /** The same supplies in another order. */
  ghost predicate Reordered(a: seq<Supply>, b: seq<Supply>) {
    DistinctNames(b) && forall x :: x in a <==> x in b
  }

  function StateOf(x: Supply): SourceState {
    SourceState(x.priority, if x.loaded == None then map[] else x.loaded.value, x.loaded.Some?)
  }

  ghost predicate Named(supplies: seq<Supply>, n: string) {
    exists i :: 0 <= i < |supplies| && supplies[i].name == n
  }

  lemma NobodyNamed()
    ensures forall n :: !Named([], n)
  {
  }

  lemma NamedOne(supplies: seq<Supply>)
    requires supplies != []
    ensures var before, last := supplies[..|supplies| - 1], supplies[|supplies| - 1];
            && (forall n :: Named(supplies, n) <==> Named(before, n) || n == last.name)
            && (DistinctNames(supplies) ==> !Named(before, last.name))
            && (forall i :: 0 <= i < |supplies| ==> Named(supplies, supplies[i].name))
  {
    var before := supplies[..|supplies| - 1];
    forall n | Named(before, n) ensures Named(supplies, n) {
      var i :| 0 <= i < |before| && before[i].name == n;
      assert supplies[i].name == n;
    }
    forall n | Named(supplies, n) && n != supplies[|before|].name ensures Named(before, n) {
      var i :| 0 <= i < |supplies| && supplies[i].name == n;
      assert before[i].name == n;
    }
  }

  lemma {:induction false} AddAllSpec(supplies: seq<Supply>)
    requires DistinctNames(supplies)
    ensures var s := AddAll(INIT, supplies);
            && IndexOk(s) && s.overlays == map[] && s.forbidden == {}
            && (forall n :: n in s.sources <==> Named(supplies, n))
            && (forall i :: 0 <= i < |supplies| ==> s.sources[supplies[i].name] == StateOf(supplies[i]))
  {
    hide IndexOk, AddSource, StateOf, Normalize, Named;
    if supplies == [] {
      NobodyNamed();
      EmptyIndexOk();
    } else {
      var before, last := supplies[..|supplies| - 1], supplies[|supplies| - 1];
      AddAllSpec(before);
      var s := AddAll(INIT, before);
      NamedOne(supplies);
      AddOneSpec(s, last);
      assert forall i :: 0 <= i < |before| ==> supplies[i] == before[i];
    }
  }

  lemma AddOneSpec(s: State, x: Supply)
    requires IndexOk(s) && x.name !in s.sources
    ensures var s' := AddSource(s, x.name, x.priority, map[], x.loaded);
            && IndexOk(s') && s'.overlays == s.overlays && s'.forbidden == s.forbidden
            && s'.sources == s.sources[x.name := StateOf(x)]
  {
    hide IndexOk, Pulled;
    match x.loaded
    case None => FailedAddExactly(s, x.name, x.priority, map[]);
    case Some(configs) => AddKeepsIndex(s, x.name, x.priority, map[], configs);
  }

  /** No key has two best sources. */
  ghost predicate OneBest(sources: Sources) {
    forall k, m, n :: IsBest(sources, k, m) && IsBest(sources, k, n) ==> m == n
  }

  /**
   The order in which sources are added does not matter if and only if no key has two best
   sources; equal priorities do no harm on other keys.
   */
  lemma SourceOrderExactly(a: seq<Supply>)
    requires DistinctNames(a)
    ensures (forall b :: Reordered(a, b) ==> AddAll(INIT, a) == AddAll(INIT, b)) <==> OneBest(AddAll(INIT, a).sources)
  {
    hide AddAll, OneBest, Reordered;
    if OneBest(AddAll(INIT, a).sources) {
      forall b | Reordered(a, b) ensures AddAll(INIT, a) == AddAll(INIT, b) {
        OrderIrrelevant(a, b);
      }
    }
    if forall b :: Reordered(a, b) ==> AddAll(INIT, a) == AddAll(INIT, b) {
      assert OneBest(AddAll(INIT, a).sources) by { OrderDecidesTies(a); }
    }
  }

  lemma OrderIrrelevant(a: seq<Supply>, b: seq<Supply>)
    requires DistinctNames(a) && Reordered(a, b) && OneBest(AddAll(INIT, a).sources)
    ensures AddAll(INIT, a) == AddAll(INIT, b)
  {
    hide IndexOk, AddAll, OneBest;
    var s, t := AddAll(INIT, a), AddAll(INIT, b);
    AddAllSpec(a);
    AddAllSpec(b);
    SourcesIncluded(a, b);
    SourcesIncluded(b, a);
    assert s.sources == t.sources;
    SameIndexAs(s, t);
  }

  lemma SourcesIncluded(a: seq<Supply>, b: seq<Supply>)
    requires DistinctNames(a) && DistinctNames(b)
    requires forall x :: x in a ==> x in b
    ensures forall n :: n in AddAll(INIT, a).sources ==>
              n in AddAll(INIT, b).sources && AddAll(INIT, b).sources[n] == AddAll(INIT, a).sources[n]
  {
    hide IndexOk, AddAll, StateOf;
    AddAllSpec(a);
    AddAllSpec(b);
    forall n | n in AddAll(INIT, a).sources
      ensures n in AddAll(INIT, b).sources && AddAll(INIT, b).sources[n] == AddAll(INIT, a).sources[n]
    {
      var i :| 0 <= i < |a| && a[i].name == n;
      assert a[i] in b;
      var j :| 0 <= j < |b| && b[j] == a[i];
    }
  }

  /** Where no key has two best sources the index is a function of the sources. */
  lemma SameIndexAs(s: State, t: State)
    requires s.sources == t.sources && OneBest(s.sources)
    requires IndexOk(s) && IndexOk(t) && s.forbidden == t.forbidden == {}
    ensures s.index == t.index
  {
    hide IsBest, Normalize;
    forall k ensures Get(s.index, k) == Get(t.index, k) {
      assert !Forbidden(s, k) && !Forbidden(t, k);
      assert Agrees(s.sources, k, Get(s.index, k)) && Agrees(s.sources, k, Get(t.index, k));
      BestOrNobody(s.sources, k);
    }
    SameEntries(s.index, t.index);
  }

  lemma BestOrNobody(sources: Sources, k: string)
    ensures NobodyHolds(sources, k) ==> forall n :: !IsBest(sources, k, n)
  {
  }

  /** If every order gives the same manager, no key has two best sources: each would win if it came first. */
  lemma OrderDecidesTies(a: seq<Supply>)
    requires DistinctNames(a)
    requires forall b :: Reordered(a, b) ==> AddAll(INIT, a) == AddAll(INIT, b)
    ensures OneBest(AddAll(INIT, a).sources)
  {
    hide AddAll, Reordered, IsBest;
    var sources := AddAll(INIT, a).sources;
    forall k, m, n | IsBest(sources, k, m) && IsBest(sources, k, n) ensures m == n {
      BestInFront(a, k, m);
      BestInFront(a, k, n);
    }
  }

  /** Some order has the best source `n` of a key first, and gives it the key. */
  lemma BestInFront(a: seq<Supply>, k: string, n: string)
    requires DistinctNames(a) && IsBest(AddAll(INIT, a).sources, k, n)
    ensures exists b :: Reordered(a, b) && Get(AddAll(INIT, b).index, k) == Some(n)
  {
    hide AddAll, IndexOk, Reordered;
    AddAllSpec(a);
    var i :| 0 <= i < |a| && a[i].name == n;
    var b := [a[i]] + a[..i] + a[i + 1..];
    ToFront(a, i);
    forall j | 0 <= j < |b| && b[j].loaded.Some? && k in b[j].loaded.value ensures b[0].priority <= b[j].priority {
      assert b[j] in a by { SameSupplies(a, b); }
      var x :| 0 <= x < |a| && a[x] == b[j];
      assert Holds(AddAll(INIT, a).sources, a[x].name, k);
    }
    assert DistinctNames(b) by { SameSupplies(a, b); }
    FirstWins(b, k);
  }

  lemma SameSupplies(a: seq<Supply>, b: seq<Supply>)
    requires Reordered(a, b)
    ensures DistinctNames(b) && forall x :: x in a <==> x in b
  {
  }

  lemma ToFront(a: seq<Supply>, i: nat)
    requires DistinctNames(a) && i < |a|
    ensures Reordered(a, [a[i]] + a[..i] + a[i + 1..])
  {
    var b := [a[i]] + a[..i] + a[i + 1..];
    forall j | 0 <= j < |a| ensures a[j] in b {
      assert a[j] == b[if j == i then 0 else if j < i then j + 1 else j];
    }
  }

  /** A first source that holds a key, unbeaten on it, keeps it. */
  lemma {:induction false} FirstWins(b: seq<Supply>, k: string)
    requires b != [] && DistinctNames(b) && b[0].loaded.Some? && k in b[0].loaded.value
    requires forall j :: 0 <= j < |b| && b[j].loaded.Some? && k in b[j].loaded.value ==> b[0].priority <= b[j].priority
    ensures Get(AddAll(INIT, b).index, k) == Some(b[0].name)
  {
    hide IndexOk, Named, Normalize;
    var before, last := b[..|b| - 1], b[|b| - 1];
    NamedOne(b);
    if before == [] {
      assert AddAll(INIT, before) == INIT;
    } else {
      FirstWins(before, k);
      AddAllSpec(before);
      assert AddAll(INIT, before).sources[before[0].name] == StateOf(b[0]);
    }
  }

  /** With equal priorities on one key the order does matter. */
  lemma TieOrderMatters()
    ensures exists a: Supply, b: Supply ::
              Reordered([a, b], [b, a]) && AddAll(INIT, [a, b]).index != AddAll(INIT, [b, a]).index
  {
    hide AddAll;
    var a, b := Supply("a", 1, Some(map["k" := "1"])), Supply("b", 1, Some(map["k" := "2"]));
    assert DistinctNames([a, b]) && DistinctNames([b, a]);
    FirstWins([a, b], "k");
    FirstWins([b, a], "k");
  }
}
