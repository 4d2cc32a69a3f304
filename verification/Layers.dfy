/**
 The layered configuration as a state machine: sources with priorities, the index from a key
 to the source it is read from, overlays and forbidden keys.

 The index is kept up to date event by event; what it must agree with is the slow definition:
 look at all sources that hold the key and take the one with the smallest priority number.
 */
module Layers {
  import opened Options
  import opened KeyFormat
  import opened Events

  /** What DeleteConfig stores as an overlay. */
  const TOMBSTONE := "TOMB_VAULE"

  /** A source: `attached` says that its events reach the manager. */
  datatype SourceState = SourceState(priority: int, configs: Configs, attached: bool)

  type Sources = map<string, SourceState>

  datatype State = State(sources: Sources, index: map<string, string>, overlays: Configs, forbidden: set<string>)

  const INIT := State(map[], map[], map[], {})

  // ------------------------------------------------------ slow definition

  predicate Holds(sources: Sources, n: string, k: string) {
    n in sources && k in sources[n].configs
  }

  /** `n` holds the key and nobody with a smaller priority number does. */
  ghost predicate IsBest(sources: Sources, k: string, n: string) {
    && Holds(sources, n, k)
    && forall m :: Holds(sources, m, k) ==> sources[n].priority <= sources[m].priority
  }

  ghost predicate NobodyHolds(sources: Sources, k: string) {
    forall n :: !Holds(sources, n, k)
  }

  ghost predicate DistinctPriorities(sources: Sources) {
    forall a, b :: a in sources && b in sources && a != b ==> sources[a].priority != sources[b].priority
  }

  /** The index entry `b` of the key is what the slow definition gives. */
  ghost predicate Agrees(sources: Sources, k: string, b: Option<string>) {
    match b
    case None => NobodyHolds(sources, k)
    case Some(n) => IsBest(sources, k, n)
  }

  predicate Forbidden(s: State, k: string) {
    Normalize(k) in s.forbidden
  }

  /** The index agrees with the slow definition for every key that was never forbidden. */
  ghost predicate IndexOk(s: State) {
    forall k :: !Forbidden(s, k) ==> Agrees(s.sources, k, Get(s.index, k))
  }

  // ------------------------------------------------------- one event

  /** The first source wins against the second: it is known, and not beaten or tied. */
  predicate Outranks(sources: Sources, a: string, b: string) {
    a in sources && (b in sources ==> sources[a].priority < sources[b].priority)
  }

  /** Whether a manager acts on an event about a key that is bound to `cur`. */
  predicate Accepts(sources: Sources, cur: Option<string>, source: string, kind: Kind) {
    match kind
    case Delete => cur == Some(source)
    case _ => cur == None || cur == Some(source) || !Outranks(sources, cur.value, source)
  }

  /** `next` is a best source for the key among all but `source`, or None if there is none. */
  ghost predicate NextBest(sources: Sources, k: string, source: string, next: Option<string>) {
    match next
    case None => forall m :: m != source ==> !Holds(sources, m, k)
    case Some(n) =>
      && n != source && Holds(sources, n, k)
      && forall m :: m != source && Holds(sources, m, k) ==> sources[n].priority <= sources[m].priority
  }

  /** What the key is bound to after an event. */
  ghost predicate Rebinds(sources: Sources, cur: Option<string>, source: string, kind: Kind, k: string,
                          next: Option<string>)
  {
    if !Accepts(sources, cur, source, kind) then next == cur
    else if kind == Delete then NextBest(sources, k, source, next)
    else next == Some(source)
  }

  /** The kind an accepted event is passed on with. */
  function RevisedKind(cur: Option<string>, kind: Kind): Kind {
    if kind == Delete then Delete else if cur == None then Create else Update
  }

  // ---------------------------------------------------- one refresh of a source

  /** The refresh of `source` to `updated` announces a change of `k`. */
  predicate Announced(s: State, source: string, updated: Configs, k: string)
    requires source in s.sources
  {
    && s.sources[source].attached && !Forbidden(s, k)
    && Changed(s.sources[source].configs, updated, k)
    && Accepts(s.sources, Get(s.index, k), source, ChangeKind(s.sources[source].configs, updated, k))
  }

  /** The event that is dispatched for it. */
  function Announcement(s: State, source: string, updated: Configs, k: string): EventInfo
    requires source in s.sources && Changed(s.sources[source].configs, updated, k)
  {
    ChangeEvent(source, s.sources[source].configs, updated, k)
      .(kind := RevisedKind(Get(s.index, k), ChangeKind(s.sources[source].configs, updated, k)), hasUpdated := true)
  }

  ghost predicate KeyAfterRefresh(s: State, source: string, updated: Configs, k: string, next: Option<string>)
    requires source in s.sources
  {
    var current := s.sources[source].configs;
    if s.sources[source].attached && !Forbidden(s, k) && Changed(current, updated, k)
    then Rebinds(s.sources, Get(s.index, k), source, ChangeKind(current, updated, k), k, next)
    else next == Get(s.index, k)
  }

  /** Every announced key has one event in `log`, and nothing else has. */
  ghost predicate IsLog(s: State, source: string, updated: Configs, log: seq<EventInfo>)
    requires source in s.sources
  {
    && DistinctKeys(log)
    && (forall i :: 0 <= i < |log| ==>
          (Announced(s, source, updated, log[i].key) && log[i] == Announcement(s, source, updated, log[i].key)))
    && (forall k :: Announced(s, source, updated, k) ==> HasKey(log, k))
  }

  /** A whole batch: every key settled by its own event, whatever the order of the events. */
  ghost predicate Refreshed(s: State, source: string, updated: Configs, s': State, log: seq<EventInfo>)
    requires source in s.sources
  {
    && s'.sources == s.sources[source := s.sources[source].(configs := updated)]
    && s'.overlays == s.overlays && s'.forbidden == s.forbidden
    && (forall k :: KeyAfterRefresh(s, source, updated, k, Get(s'.index, k)))
    && IsLog(s, source, updated, log)
  }

  // ------------------------------------------------------ adding a source

  /** Pulling a new source's keys: a key goes to it unless a known source with no larger number has it. */
  function Pulled(sources: Sources, index: map<string, string>, name: string): (r: map<string, string>)
    requires name in sources
    ensures forall k :: Get(r, k) == if k in sources[name].configs && Takes(sources, Get(index, k), name)
                                       then Some(name) else Get(index, k)
  {
    map k | k in index.Keys + sources[name].configs.Keys ::
      if k in sources[name].configs && Takes(sources, Get(index, k), name) then name else index[k]
  }

  predicate Takes(sources: Sources, cur: Option<string>, name: string)
    requires name in sources
  {
    match cur
    case None => true
    case Some(n) => n in sources ==> sources[n].priority > sources[name].priority
  }

  /**
   A source with the configurations `held` is entered and loaded; `loaded` is what fetching
   gives, None for an error. Its keys are pulled, but nobody hears its events yet. A failed
   source stays in the table without its keys being pulled; a name that is taken changes nothing.
   */
  function Entered(s: State, name: string, priority: int, held: Configs, loaded: Option<Configs>): State {
    if name in s.sources then s
    else match loaded
      case None => s.(sources := s.sources[name := SourceState(priority, held, false)])
      case Some(configs) =>
        var sources := s.sources[name := SourceState(priority, configs, false)];
        s.(sources := sources, index := Pulled(sources, s.index, name))
  }

  /** The source is handed the manager: from now on its events arrive. */
  function Attached(s: State, name: string): State
    requires name in s.sources
  {
    s.(sources := s.sources[name := s.sources[name].(attached := true)])
  }

  /** Adding a source: loading it and, unless that fails or its name is taken, handing it the manager. */
  function AddSource(s: State, name: string, priority: int, held: Configs, loaded: Option<Configs>): State {
    var s' := Entered(s, name, priority, held, loaded);
    if name in s.sources || loaded == None then s' else Attached(s', name)
  }

  // ---------------------------------------------------------------- runs

  datatype Action =
    | Load(name: string, priority: int, held: Configs, loaded: Option<Configs>)
    | Attach(name: string)
    | Refresh(name: string, fetched: Option<Configs>)
    | SetConfig(key: string, value: string)
    | SetMapConfig(key: string, value: string)
    | DeleteConfig(key: string)
    | ResetConfig(key: string)
    | ForbidUpdate(key: string)

  /**
   One step of a run. Any source may refresh, its events reaching the manager or not: its
   refresher runs before it is handed the manager, and the file-only view loads the file
   source even if adding it failed.
   */
  ghost predicate Step(s: State, a: Action, s': State, log: seq<EventInfo>) {
    match a
    case Load(name, priority, held, loaded) => s' == Entered(s, name, priority, held, loaded) && log == []
    case Attach(name) => name in s.sources && s' == Attached(s, name) && log == []
    case Refresh(name, fetched) =>
      && name in s.sources
      && (match fetched
          case None => s' == s && log == []
          case Some(updated) => Refreshed(s, name, updated, s', log))
    case SetConfig(key, value) => s' == s.(overlays := s.overlays[Normalize(key) := value]) && log == []
    case SetMapConfig(key, value) => s' == s.(overlays := s.overlays[Lower(key) := value]) && log == []
    case DeleteConfig(key) => s' == s.(overlays := s.overlays[Normalize(key) := TOMBSTONE]) && log == []
    case ResetConfig(key) => s' == s.(overlays := s.overlays - {Normalize(key)}) && log == []
    case ForbidUpdate(key) => s' == s.(forbidden := s.forbidden + {Normalize(key)}) && log == []
  }

  datatype Transition = Transition(action: Action, after: State, log: seq<EventInfo>)

  function After(s: State, run: seq<Transition>): State {
    if run == [] then s else run[|run| - 1].after
  }

  ghost predicate IsRun(s: State, run: seq<Transition>) {
    run == [] ||
    (var before, last := run[..|run| - 1], run[|run| - 1];
     IsRun(s, before) && Step(After(s, before), last.action, last.after, last.log))
  }

  // ----------------------------------------------- the index stays correct

  /** Only the refreshed source's own entry of a key changes hands. */
  lemma HoldsAfterRefresh(sources: Sources, source: string, updated: Configs, m: string, k: string)
    requires source in sources
    ensures var after := sources[source := sources[source].(configs := updated)];
            Holds(after, m, k) <==> if m == source then k in updated else Holds(sources, m, k)
  {
  }

  /** One event brings its key from agreement with the old configuration to agreement with the new one. */
  lemma KeyRefreshed(s: State, source: string, updated: Configs, k: string, next: Option<string>)
    requires source in s.sources && s.sources[source].attached
    requires Agrees(s.sources, k, Get(s.index, k)) && !Forbidden(s, k)
    requires KeyAfterRefresh(s, source, updated, k, next)
    ensures Agrees(s.sources[source := s.sources[source].(configs := updated)], k, next)
  {
    var after := s.sources[source := s.sources[source].(configs := updated)];
    forall m ensures Holds(after, m, k) <==> if m == source then k in updated else Holds(s.sources, m, k) {
      HoldsAfterRefresh(s.sources, source, updated, m, k);
    }
    if next == None {
      forall m ensures !Holds(after, m, k) {
        assert Holds(s.sources, m, k) ==> m == source;
      }
    }
  }

  /**
   What a refresh binds a key to. A key the source now holds is the source's, unless it is read
   from one with a smaller number; with equal numbers the refreshed source gets it. A key the
   source drops goes to a best one of the others if it was the source's. Nothing else moves.
   */
  lemma BindsExactly(s: State, source: string, updated: Configs, s': State, log: seq<EventInfo>, k: string)
    requires source in s.sources && IndexOk(s) && Refreshed(s, source, updated, s', log)
    ensures var before, after, current := Get(s.index, k), Get(s'.index, k), s.sources[source];
            if !current.attached || Normalize(k) in s.forbidden || Get(current.configs, k) == Get(updated, k) then
              after == before
            else if k in updated then
              after == if before == None || s.sources[before.value].priority >= current.priority
                       then Some(source) else before
            else if before != Some(source) then
              after == before
            else if after == None then
              forall n :: n in s.sources && k in s.sources[n].configs ==> n == source
            else
              && after.value in s.sources && after != Some(source) && k in s.sources[after.value].configs
              && forall n :: n in s.sources && k in s.sources[n].configs && n != source ==>
                               s.sources[after.value].priority <= s.sources[n].priority
  {
    hide Normalize;
    assert KeyAfterRefresh(s, source, updated, k, Get(s'.index, k));
    if !Forbidden(s, k) {
      assert Agrees(s.sources, k, Get(s.index, k));
      forall n | n in s.sources && k in s.sources[n].configs ensures Holds(s.sources, n, k) {}
    }
  }

  /** A whole refresh keeps the index correct. */
  lemma RefreshKeepsIndex(s: State, source: string, updated: Configs, s': State, log: seq<EventInfo>)
    requires source in s.sources && s.sources[source].attached
    requires IndexOk(s) && Refreshed(s, source, updated, s', log)
    ensures IndexOk(s')
  {
    hide Agrees, KeyAfterRefresh, Forbidden;
    forall k | !Forbidden(s', k) ensures Agrees(s'.sources, k, Get(s'.index, k)) {
      SameForbidden(s, s', k);
      KeyRefreshed(s, source, updated, k, Get(s'.index, k));
    }
  }

  lemma SameForbidden(s: State, s': State, k: string)
    requires s.forbidden == s'.forbidden
    ensures Forbidden(s, k) <==> Forbidden(s', k)
  {
  }

  /** The refresh takes the key away from the source, and two others are equally good for it. */
  ghost predicate Contested(s: State, source: string, updated: Configs, k: string)
    requires source in s.sources
  {
    && Announced(s, source, updated, k) && k !in updated
    && exists a, b :: NextBest(s.sources, k, source, a) && NextBest(s.sources, k, source, b) && a != b
  }

  /**
   The outcome of a batch, and its events, do not depend on the order of the events and of the
   sources' table if and only if no key is contested.
   */
  lemma RefreshExactly(s: State, source: string, updated: Configs, s1: State, log1: seq<EventInfo>)
    requires source in s.sources && Refreshed(s, source, updated, s1, log1)
    ensures (forall s2, log2 :: Refreshed(s, source, updated, s2, log2) ==>
               s2 == s1 && forall e :: e in log2 <==> e in log1)
       <==> forall k :: !Contested(s, source, updated, k)
  {
    hide Refreshed, Contested;
    if forall k :: !Contested(s, source, updated, k) {
      forall s2, log2 | Refreshed(s, source, updated, s2, log2)
        ensures s2 == s1 && forall e :: e in log2 <==> e in log1
      {
        OneOutcome(s, source, updated, s1, log1, s2, log2);
      }
    }
    if k :| Contested(s, source, updated, k) {
      var s2 := AnotherOutcome(s, source, updated, s1, log1, k);
    }
  }

  lemma OneOutcome(s: State, source: string, updated: Configs, s1: State, log1: seq<EventInfo>,
                   s2: State, log2: seq<EventInfo>)
    requires source in s.sources && forall k :: !Contested(s, source, updated, k)
    requires Refreshed(s, source, updated, s1, log1) && Refreshed(s, source, updated, s2, log2)
    ensures s1 == s2 && forall e :: e in log2 <==> e in log1
  {
    hide NextBest, Forbidden, Announcement;
    forall k ensures Get(s1.index, k) == Get(s2.index, k) {
      assert KeyAfterRefresh(s, source, updated, k, Get(s1.index, k));
      assert KeyAfterRefresh(s, source, updated, k, Get(s2.index, k));
      assert !Contested(s, source, updated, k);
    }
    SameEntries(s1.index, s2.index);
    SameLog(s, source, updated, log1, log2);
    SameLog(s, source, updated, log2, log1);
  }

  lemma AnotherOutcome(s: State, source: string, updated: Configs, s1: State, log1: seq<EventInfo>, k: string)
    returns (s2: State)
    requires source in s.sources && Refreshed(s, source, updated, s1, log1) && Contested(s, source, updated, k)
    ensures Refreshed(s, source, updated, s2, log1) && s2 != s1
  {
    hide NextBest, Forbidden, IsLog;
    var a, b :| NextBest(s.sources, k, source, a) && NextBest(s.sources, k, source, b) && a != b;
    var other := if Get(s1.index, k) == a then b else a;
    s2 := s1.(index := if other == None then s1.index - {k} else s1.index[k := other.value]);
    forall x ensures KeyAfterRefresh(s, source, updated, x, Get(s2.index, x)) {
      assert KeyAfterRefresh(s, source, updated, x, Get(s1.index, x));
    }
  }

  /** Two sources of equal priority wait for a key the best one loses: either may get it. */
  lemma ContestHappens()
    ensures exists s: State, updated, k :: "a" in s.sources && IndexOk(s) && Contested(s, "a", updated, k)
  {
    var configs: Configs := map["k" := "1"];
    var s := INIT.(sources := map["a" := SourceState(1, configs, true), "b" := SourceState(2, configs, true),
                                  "c" := SourceState(2, configs, true)],
                   index := map["k" := "a"]);
    forall k ensures Agrees(s.sources, k, Get(s.index, k)) {
      assert Holds(s.sources, "a", k) <==> k == "k";
    }
    hide IndexOk, Agrees, Normalize;
    assert NextBest(s.sources, "k", "a", Some("b")) && NextBest(s.sources, "k", "a", Some("c"));
    assert Announced(s, "a", map[], "k");
    assert Contested(s, "a", map[], "k");
  }

  lemma SameLog(s: State, source: string, updated: Configs, log1: seq<EventInfo>, log2: seq<EventInfo>)
    requires source in s.sources && IsLog(s, source, updated, log1) && IsLog(s, source, updated, log2)
    ensures forall e :: e in log1 ==> e in log2
  {
    hide Announced;
    forall e | e in log1 ensures e in log2 {
      var i :| 0 <= i < |log1| && log1[i] == e;
      assert HasKey(log2, e.key);
      var j :| 0 <= j < |log2| && log2[j].key == e.key;
    }
  }

  // -------------------------------------------------------- notifications

  /** A refresh notifies of a key: the key is not forbidden, and its source or its value there changes. */
  ghost predicate Notified(s: State, source: string, updated: Configs, s': State, k: string) {
    && source in s.sources && s.sources[source].attached && !Forbidden(s, k)
    && (|| Get(s.index, k) != Get(s'.index, k)
        || (Get(s.index, k) == Some(source) && Changed(s.sources[source].configs, updated, k)))
  }

  /**
   No missed and no spurious notification: a refresh dispatches an event for a key exactly
   when its events arrive, the key is not forbidden, and either its source changes or it is
   read from the refreshed source and its value there changes.
   */
  lemma NotifiedExactly(s: State, source: string, updated: Configs, s': State, log: seq<EventInfo>, k: string)
    requires source in s.sources
    requires IndexOk(s) && Refreshed(s, source, updated, s', log)
    ensures HasKey(log, k) <==> Notified(s, source, updated, s', k)
  {
    hide Forbidden;
    assert HasKey(log, k) <==> Announced(s, source, updated, k);
    assert KeyAfterRefresh(s, source, updated, k, Get(s'.index, k));
    if !Forbidden(s, k) {
      assert Agrees(s.sources, k, Get(s.index, k));
    }
  }

  // ---------------------------------------------------------------- lookup

  /** What GetConfig answers. */
  function Lookup(s: State, key: string): Option<string> {
    var k := Normalize(key);
    if k in s.overlays then if s.overlays[k] == TOMBSTONE then None else Some(s.overlays[k])
    else match Get(s.index, k)
      case None => None
      case Some(n) => if Holds(s.sources, n, k) then Some(s.sources[n].configs[k]) else None
  }

  /** The layered view without any index: overlay first, then the best source that holds the key. */
  ghost predicate Layered(s: State, key: string, r: Option<string>) {
    var k := Normalize(key);
    if k in s.overlays then r == if s.overlays[k] == TOMBSTONE then None else Some(s.overlays[k])
    else match r
      case None => NobodyHolds(s.sources, k)
      case Some(v) => exists n :: IsBest(s.sources, k, n) && s.sources[n].configs[k] == v
  }

  /** Reading through the index is reading through the layers, with equal priorities too. */
  lemma LookupRefines(s: State, key: string)
    requires IndexOk(s) && !Forbidden(s, key)
    ensures Layered(s, key, Lookup(s, key))
  {
    var k := Normalize(key);
    NormalizeIdempotent(key);
    assert !Forbidden(s, k);
    assert Agrees(s.sources, k, Get(s.index, k));
  }

  /** The layers have one answer: an overlay decides, or all best sources give the same value. */
  ghost predicate OneAnswer(s: State, key: string) {
    var k := Normalize(key);
    k in s.overlays ||
    forall m, n :: IsBest(s.sources, k, m) && IsBest(s.sources, k, n) ==>
                     s.sources[m].configs[k] == s.sources[n].configs[k]
  }

  /** The layers have no other answer exactly if no two best sources differ in theirs. */
  lemma LookupExactly(s: State, key: string)
    requires IndexOk(s) && !Forbidden(s, key)
    ensures (forall r :: Layered(s, key, r) <==> r == Lookup(s, key)) <==> OneAnswer(s, key)
  {
    LookupRefines(s, key);
    hide Normalize, IndexOk;
    var k, l := Normalize(key), Lookup(s, key);
    if k !in s.overlays {
      if OneAnswer(s, key) {
        forall r ensures Layered(s, key, r) <==> r == l {}
      }
      if forall r :: Layered(s, key, r) <==> r == l {
        forall n | IsBest(s.sources, k, n) ensures Some(s.sources[n].configs[k]) == l {
          assert Layered(s, key, Some(s.sources[n].configs[k]));
        }
      }
    }
  }

  /** With distinct priorities there is one answer. */
  lemma LookupIsLayered(s: State, key: string, r: Option<string>)
    requires IndexOk(s) && DistinctPriorities(s.sources) && !Forbidden(s, key)
    ensures Layered(s, key, r) <==> r == Lookup(s, key)
  {
    hide Normalize, IndexOk, Layered, Lookup;
    LookupExactly(s, key);
  }

  /** Whenever the answer for a key changes in a refresh, an event for its normal form is dispatched. */
  lemma ChangesAreAnnounced(s: State, source: string, updated: Configs, s': State, log: seq<EventInfo>, key: string)
    requires source in s.sources && s.sources[source].attached
    requires IndexOk(s) && Refreshed(s, source, updated, s', log)
    requires !Forbidden(s, key) && Lookup(s, key) != Lookup(s', key)
    ensures HasKey(log, Normalize(key))
  {
    var k := Normalize(key);
    NormalizeIdempotent(key);
    NotifiedExactly(s, source, updated, s', log, k);
  }
}
