/** Which handlers run: the manager's notifications and the dispatcher's selection together. */
module Handlers {
  import opened Options
  import opened KeyFormat
  import opened Events
  import opened Layers
  import opened Dispatcher
  import opened Runs

  /** A batch runs a handler on an event exactly if the event is dispatched and its key selects the handler. */
  lemma {:induction false} RunsOfMembers(history: seq<Op>, log: seq<EventInfo>, h: Handler, e: EventInfo)
    ensures Ran(h, e) in RunsOf(history, log) <==> e in log && h in Selected(history, e.key)
  {
    hide Selected;
    if log != [] {
      var before, last := log[..|log| - 1], log[|log| - 1];
      RunsOfMembers(history, before, h, e);
      RunsMembers(Selected(history, last.key), last, h, e);
      assert e in log <==> e in before || e == last by {
        assert log == before + [last];
      }
    }
  }

  lemma RunsMembers(hs: seq<Handler>, event: EventInfo, h: Handler, e: EventInfo)
    ensures Ran(h, e) in RunEach(hs, event) <==> e == event && h in hs
  {
    if e == event && h in hs {
      var i :| 0 <= i < |hs| && hs[i] == h;
      assert RunEach(hs, event)[i] == Ran(h, e);
    }
  }

  /** The event tells what the refresh did: a value and whether the key was bound before, or the value that is gone. */
  ghost predicate Reports(s: State, source: string, updated: Configs, e: EventInfo) {
    && e.source == source && e.hasUpdated
    && (if e.key in updated
        then e.value == updated[e.key] && e.kind == (if e.key in s.index then Update else Create)
        else Holds(s.sources, source, e.key) && e.value == s.sources[source].configs[e.key] && e.kind == Kind.Delete)
  }

  /**
   Whatever happened before, and whatever was registered and unregistered: a refresh runs a
   handler on an event for a key if and only if the key is notified and the handler listens to
   it, and the event says what happened to the key.
   */
  lemma RefreshRunsExactly(run: seq<Transition>, source: string, updated: Configs,
                           history: seq<Op>, h: Handler, k: string)
    requires IsRun(INIT, run) && run != [] && HarmlessRun(INIT, run[..|run| - 1])
    requires run[|run| - 1].action == Refresh(source, Some(updated))
    ensures var s, last := After(INIT, run[..|run| - 1]), run[|run| - 1];
            && ((exists e: EventInfo :: e.key == k && Ran(h, e) in RunsOf(history, last.log))
                <==> Notified(s, source, updated, last.after, k) && Listens(history, k, h))
            && (forall e: EventInfo :: e.key == k && Ran(h, e) in RunsOf(history, last.log) ==>
                  Reports(s, source, updated, e))
  {
    hide RunsOf, Selected, Surviving, EverAdded, Prefixes, Normalize;
    hide Lookup, Forbidden, KeyAfterRefresh, Announced, Announcement, Notified, Listens;
    var s, last := After(INIT, run[..|run| - 1]), run[|run| - 1];
    ReachableNotifications(run, source, updated, k);
    SelectedExactly(history, k, h);
    forall e: EventInfo
      ensures Ran(h, e) in RunsOf(history, last.log) <==> e in last.log && h in Selected(history, e.key)
    {
      RunsOfMembers(history, last.log, h, e);
    }
    if HasKey(last.log, k) && h in Selected(history, k) {
      var i :| 0 <= i < |last.log| && last.log[i].key == k;
      assert last.log[i] in last.log;
    }
    forall e: EventInfo | e in last.log ensures Reports(s, source, updated, e) {
      LoggedReports(s, source, updated, last.after, last.log, e);
    }
  }

  lemma LoggedReports(s: State, source: string, updated: Configs, s': State, log: seq<EventInfo>, e: EventInfo)
    requires source in s.sources && Refreshed(s, source, updated, s', log) && e in log
    ensures Reports(s, source, updated, e)
  {
    hide Forbidden, KeyAfterRefresh;
    assert e == Announcement(s, source, updated, e.key);
  }

  /** Once a key is forbidden, no refresh runs a handler for any spelling of it, whatever is registered. */
  lemma ForbiddenRunsNothing(s: State, run: seq<Transition>, key: string, i: int, history: seq<Op>, r: Ran)
    requires IsRun(s, run) && Forbidden(s, key)
    requires 0 <= i < |run| && r in RunsOf(history, run[i].log)
    ensures Normalize(r.event.key) != Normalize(key)
  {
    hide *;
    RunsOfMembers(history, run[i].log, r.handler, r.event);
    if Normalize(r.event.key) == Normalize(key) {
      ForbiddenExactly(s, run, key, r.event.key);
      KeyOfMember(run[i].log, r.event);
    }
  }

  /** From ForbidUpdate on no handler is run for any spelling of the key, in any run. */
  lemma NothingRunsAfterForbid(s: State, key: string, s': State, run: seq<Transition>, i: int, history: seq<Op>, r: Ran)
    requires Step(s, ForbidUpdate(key), s', []) && IsRun(s', run)
    requires 0 <= i < |run| && r in RunsOf(history, run[i].log)
    ensures Normalize(r.event.key) != Normalize(key)
  {
    hide *;
    ForbidExactly(s, key, s', [], key);
    ForbiddenRunsNothing(s', run, key, i, history, r);
  }

  lemma KeyOfMember(log: seq<EventInfo>, e: EventInfo)
    requires e in log
    ensures HasKey(log, e.key)
  {
  }
}
