/** Change events, and the diff of two configurations that produces them. */
module Events {
  import opened Options

  datatype Kind = Create | Update | Delete

  type Configs = map<string, string>

  /** What an event says at one moment. */
  datatype EventInfo = EventInfo(source: string, kind: Kind, key: string, value: string, hasUpdated: bool)

  /** An event; a manager revises its kind and marks it when it acts on it. */
  class Event {
    const source: string
    const key: string
    const value: string
    var kind: Kind
    var hasUpdated: bool

    constructor (source: string, kind: Kind, key: string, value: string)
      ensures Info() == EventInfo(source, kind, key, value, false)
    {
      this.source, this.kind, this.key, this.value, this.hasUpdated := source, kind, key, value, false;
    }

    function Info(): (r: EventInfo)
      reads this
    {
      EventInfo(source, kind, key, value, hasUpdated)
    }
  }

  function Infos(events: seq<Event>): (r: seq<EventInfo>)
    reads events
    ensures |r| == |events| && forall i :: 0 <= i < |r| ==> r[i] == events[i].Info()
  {
    seq(|events|, i requires 0 <= i < |events| reads events => events[i].Info())
  }

  ghost predicate Distinct(events: seq<Event>) {
    forall i, j :: 0 <= i < j < |events| ==> events[i] != events[j]
  }

  function Get(m: Configs, k: string): Option<string> {
    if k in m then Some(m[k]) else None
  }

  /** The key's entry differs between two configurations: new, gone, or with another value. */
  predicate Changed(current: Configs, updated: Configs, k: string) {
    Get(current, k) != Get(updated, k)
  }

  function ChangeKind(current: Configs, updated: Configs, k: string): Kind {
    if k !in updated then Delete else if k in current then Update else Create
  }

  /** The value an event reports: the new one, or the one that is gone. */
  function ChangeValue(current: Configs, updated: Configs, k: string): string
    requires Changed(current, updated, k)
  {
    if k in updated then updated[k] else current[k]
  }

  function ChangeEvent(source: string, current: Configs, updated: Configs, k: string): EventInfo
    requires Changed(current, updated, k)
  {
    EventInfo(source, ChangeKind(current, updated, k), k, ChangeValue(current, updated, k), false)
  }

  ghost predicate DistinctKeys(es: seq<EventInfo>) {
    forall i, j :: 0 <= i < j < |es| ==> es[i].key != es[j].key
  }

  ghost predicate HasKey(es: seq<EventInfo>, k: string) {
    exists i :: 0 <= i < |es| && es[i].key == k
  }

  /** `es` is a diff, in some order: one event for each changed key. */
  ghost predicate IsDiff(es: seq<EventInfo>, source: string, current: Configs, updated: Configs) {
    && DistinctKeys(es)
    && (forall i :: 0 <= i < |es| ==>
          Changed(current, updated, es[i].key) && es[i] == ChangeEvent(source, current, updated, es[i].key))
    && (forall k :: Changed(current, updated, k) ==> HasKey(es, k))
  }

  /** The diff as far as the keys of `seen` go. */
  ghost predicate PartialDiff(es: seq<EventInfo>, source: string, current: Configs, updated: Configs,
                              seen: set<string>)
  {
    && DistinctKeys(es)
    && (forall i :: 0 <= i < |es| ==>
          (es[i].key in seen && Changed(current, updated, es[i].key)
           && es[i] == ChangeEvent(source, current, updated, es[i].key)))
    && (forall k :: k in seen && Changed(current, updated, k) ==> HasKey(es, k))
  }

  /** One event for every changed key. */
  method PopulateEvents(source: string, current: Configs, updated: Configs) returns (events: seq<Event>)
    ensures Distinct(events) && AllFresh(events)
    ensures IsDiff(Infos(events), source, current, updated)
  {
    hide PartialDiff, IsDiff;
    events := AnnounceUpdated(source, current, updated);
    events := AnnounceDeleted(source, current, updated, events);
    AllSeen(Infos(events), source, current, updated);
  }

  twostate predicate AllFresh(new events: seq<Event>, from: nat := 0) {
    forall i :: from <= i < |events| ==> fresh(events[i])
  }

  /** New keys and new values; a map is traversed in an order nobody promises. */
  method AnnounceUpdated(source: string, current: Configs, updated: Configs) returns (events: seq<Event>)
    ensures Distinct(events) && AllFresh(events)
    ensures PartialDiff(Infos(events), source, current, updated, updated.Keys)
  {
    hide PartialDiff, Distinct;
    events := [];
    NoEvents();
    NoneSeen(source, current, updated);
    var rest, seen := updated.Keys, {};
    while rest != {}
      invariant rest !! seen && rest + seen == updated.Keys
      invariant Distinct(events) && AllFresh(events)
      invariant PartialDiff(Infos(events), source, current, updated, seen)
    {
      var key :| key in rest;
      ghost var es := Infos(events);
      rest := rest - {key};
      if key !in current {
        events := Announce(events, source, Create, key, updated[key]);
      } else if current[key] != updated[key] {
        events := Announce(events, source, Update, key, updated[key]);
      }
      Extend(es, Infos(events), source, current, updated, seen, key);
      seen := seen + {key};
    }
    assert seen == updated.Keys;
  }

  /** Keys that are gone. */
  method AnnounceDeleted(source: string, current: Configs, updated: Configs, before: seq<Event>)
    returns (events: seq<Event>)
    requires Distinct(before)
    requires PartialDiff(Infos(before), source, current, updated, updated.Keys)
    ensures before <= events && Distinct(events) && AllFresh(events, |before|)
    ensures PartialDiff(Infos(events), source, current, updated, updated.Keys + current.Keys)
  {
    hide PartialDiff, Distinct;
    events := before;
    var rest := current.Keys;
    ghost var seen := updated.Keys;
    while rest != {}
      invariant rest <= current.Keys
      invariant seen == updated.Keys + (current.Keys - rest)
      invariant before <= events && Distinct(events) && AllFresh(events, |before|)
      invariant PartialDiff(Infos(events), source, current, updated, seen)
    {
      var key :| key in rest;
      ghost var es := Infos(events);
      rest := rest - {key};
      if key !in updated {
        events := Announce(events, source, Delete, key, current[key]);
        Extend(es, Infos(events), source, current, updated, seen, key);
      } else {
        assert seen + {key} == seen;
      }
      seen := seen + {key};
    }
    assert seen == updated.Keys + current.Keys;
  }

  method Announce(events: seq<Event>, source: string, kind: Kind, key: string, value: string)
    returns (longer: seq<Event>)
    requires Distinct(events)
    ensures Distinct(longer)
    ensures |longer| == |events| + 1 && longer[..|events|] == events && fresh(longer[|events|])
    ensures Infos(longer) == Infos(events) + [EventInfo(source, kind, key, value, false)]
  {
    var e := new Event(source, kind, key, value);
    longer := events + [e];
  }

  lemma NoEvents()
    ensures Distinct([])
  {
  }

  lemma NoneSeen(source: string, current: Configs, updated: Configs)
    ensures PartialDiff([], source, current, updated, {})
  {
  }

  lemma AllSeen(es: seq<EventInfo>, source: string, current: Configs, updated: Configs)
    requires PartialDiff(es, source, current, updated, updated.Keys + current.Keys)
    ensures IsDiff(es, source, current, updated)
  {
    assert forall k :: Changed(current, updated, k) ==> k in updated.Keys + current.Keys;
  }

  lemma Extend(es: seq<EventInfo>, es': seq<EventInfo>, source: string, current: Configs, updated: Configs,
               seen: set<string>, k: string)
    requires PartialDiff(es, source, current, updated, seen) && k !in seen
    requires es' == es + if Changed(current, updated, k) then [ChangeEvent(source, current, updated, k)] else []
    ensures PartialDiff(es', source, current, updated, seen + {k})
  {
    forall k' | k' in seen + {k} && Changed(current, updated, k') ensures HasKey(es', k') {
      if k' == k {
        assert es'[|es|].key == k;
      } else {
        var i :| 0 <= i < |es| && es[i].key == k';
        assert es'[i].key == k';
      }
    }
  }

  // ------------------------------------------------------- diff and patch

  function ApplyOne(e: EventInfo, m: Configs): Configs {
    if e.kind == Delete then m - {e.key} else m[e.key := e.value]
  }

  function Apply(es: seq<EventInfo>, m: Configs): Configs {
    if es == [] then m else ApplyOne(es[|es| - 1], Apply(es[..|es| - 1], m))
  }

  lemma {:induction false} ApplyElsewhere(es: seq<EventInfo>, m: Configs, k: string)
    requires !HasKey(es, k)
    ensures Get(Apply(es, m), k) == Get(m, k)
  {
    if es != [] {
      assert es[|es| - 1].key != k;
      var before := es[..|es| - 1];
      assert forall i :: 0 <= i < |before| ==> before[i] == es[i];
      ApplyElsewhere(before, m, k);
    }
  }

  lemma {:induction false} ApplyAt(es: seq<EventInfo>, m: Configs, i: nat)
    requires i < |es| && DistinctKeys(es)
    ensures Get(Apply(es, m), es[i].key) == if es[i].kind == Delete then None else Some(es[i].value)
  {
    var before := es[..|es| - 1];
    if i < |es| - 1 {
      ApplyAt(before, m, i);
      assert before[i] == es[i];
    }
  }

  /** The event tells the truth about its key, and nobody has acted on it. */
  predicate Tells(e: EventInfo, source: string, current: Configs, updated: Configs) {
    && e.source == source && !e.hasUpdated
    && match e.kind
       case Create => e.key !in current && e.key in updated && e.value == updated[e.key]
       case Update => e.key in current && e.key in updated && e.value == updated[e.key] != current[e.key]
       case Delete => e.key in current && e.key !in updated && e.value == current[e.key]
  }

  /** A diff is one true event for each key that is new, gone or of another value, and nothing else. */
  lemma DiffExactly(es: seq<EventInfo>, source: string, current: Configs, updated: Configs)
    ensures IsDiff(es, source, current, updated)
       <==> && (forall i, j :: 0 <= i < j < |es| ==> es[i].key != es[j].key)
            && (forall i :: 0 <= i < |es| ==> Tells(es[i], source, current, updated))
            && (forall k :: k in current && (k !in updated || updated[k] != current[k]) ==> HasKey(es, k))
            && (forall k :: k in updated && k !in current ==> HasKey(es, k))
  {
    forall e: EventInfo
      ensures Tells(e, source, current, updated)
         <==> Changed(current, updated, e.key) && e == ChangeEvent(source, current, updated, e.key)
    {
    }
  }

  /** Applying a diff, in whatever order its events come, turns the old configuration into the new one. */
  lemma DiffPatches(es: seq<EventInfo>, source: string, current: Configs, updated: Configs)
    requires IsDiff(es, source, current, updated)
    ensures Apply(es, current) == updated
  {
    var patched := Apply(es, current);
    forall k ensures Get(patched, k) == Get(updated, k) {
      if Changed(current, updated, k) {
        var i :| 0 <= i < |es| && es[i].key == k;
        ApplyAt(es, current, i);
      } else {
        ApplyElsewhere(es, current, k);
      }
    }
    SameEntries(patched, updated);
  }

  lemma SameEntries(a: Configs, b: Configs)
    requires forall k :: Get(a, k) == Get(b, k)
    ensures a == b
  {
    forall k ensures k in a <==> k in b {
      assert Get(a, k) == Get(b, k);
    }
    forall k | k in a ensures a[k] == b[k] {
      assert Get(a, k) == Get(b, k);
    }
  }

  /** Nothing is announced exactly when nothing changed. */
  lemma EmptyDiff(es: seq<EventInfo>, source: string, current: Configs, updated: Configs)
    requires IsDiff(es, source, current, updated)
    ensures es == [] <==> current == updated
  {
    if es == [] {
      forall k ensures Get(current, k) == Get(updated, k) {
        assert !HasKey(es, k);
      }
      SameEntries(current, updated);
    } else {
      assert Changed(current, updated, es[0].key);
    }
  }
}
