/**
 The life of a refresher under every interleaving of its steps: callers of start and stop,
 and the refresh loop, which calls stop itself when a fetch fails.

 The once flags, the done channel and the wait group are modelled step by step; a call that
 has to wait is a step that is not enabled.
 */
module Lifecycle {
  import opened Options

  datatype Once = NotRun | Running | Done

  /** Where the loop is: not spawned, waiting in its select, in a fetch, in its own call of stop, or over. */
  datatype Loop = NotSpawned | AtSelect | Fetching | Stopping | Exited

  /** Who runs the body of stop. */
  datatype Stopper = Nobody | Caller | TheLoop

  datatype State = State(
    periodic: bool,      // a positive refresh interval
    initOnce: Once,
    stopOnce: Once,
    stopper: Stopper,
    closed: bool,        // the done channel
    wg: nat,
    loop: Loop,
    // what has happened so far
    spawned: nat,
    failed: bool,        // a fetch has failed
    stopReturned: bool,  // a caller's stop has returned
    startedLate: bool)   // the loop was registered after stop had finished waiting

  datatype Step =
    | StartRegister   // start takes its once flag and adds to the wait group
    | StartSpawn      // and spawns the loop
    | StopTake        // a caller's stop takes its once flag
    | StopClose       // closes the done channel
    | StopReturn      // and returns when the wait group is empty
    | StopAgain       // a later call of stop returns at once
    | FetchBegin      // the loop's select picks the ticker
    | FetchOk
    | FetchFail       // a failed fetch: the loop logs it and calls stop
    | LoopStopTake    // that call takes the once flag
    | LoopStopReturn  // that call returns
    | LoopExit        // the loop's select picks the done channel

  function Initial(periodic: bool): State {
    State(periodic, NotRun, NotRun, Nobody, false, 0, NotSpawned, 0, false, false, false)
  }

  predicate Enabled(s: State, a: Step) {
    match a
    case StartRegister => s.periodic && s.initOnce == NotRun
    case StartSpawn => s.initOnce == Running
    case StopTake => s.stopOnce == NotRun
    case StopClose => s.stopOnce == Running && !s.closed
    case StopReturn => s.stopOnce == Running && s.closed && s.stopper == Caller && s.wg == 0
    case StopAgain => s.stopOnce == Done
    case FetchBegin => s.loop == AtSelect
    case FetchOk => s.loop == Fetching
    case FetchFail => s.loop == Fetching
    case LoopStopTake => s.loop == Stopping && s.stopOnce == NotRun
    case LoopStopReturn =>
      && s.loop == Stopping
      && (s.stopOnce == Done || (s.stopOnce == Running && s.stopper == TheLoop && s.closed && s.wg == 0))
    case LoopExit => s.loop == AtSelect && s.closed
  }

  function Next(s: State, a: Step): State
    requires Enabled(s, a)
  {
    match a
    case StartRegister => s.(initOnce := Running, wg := s.wg + 1, startedLate := s.stopOnce == Done)
    case StartSpawn => s.(initOnce := Done, loop := AtSelect, spawned := s.spawned + 1)
    case StopTake => s.(stopOnce := Running, stopper := Caller)
    case StopClose => s.(closed := true)
    case StopReturn => s.(stopOnce := Done, stopReturned := true)
    case StopAgain => s.(stopReturned := true)
    case FetchBegin => s.(loop := Fetching)
    case FetchOk => s.(loop := AtSelect)
    case FetchFail => s.(loop := Stopping, failed := true)
    case LoopStopTake => s.(stopOnce := Running, stopper := TheLoop)
    case LoopStopReturn => s.(loop := AtSelect, stopOnce := Done)
    case LoopExit => if s.wg > 0 then s.(loop := Exited, wg := s.wg - 1) else s.(loop := Exited)
  }

  /** The state after `steps`, if they can be taken one after the other from `s`. */
  function Exec(s: State, steps: seq<Step>): Option<State> {
    if steps == [] then Some(s)
    else
      var before := Exec(s, steps[..|steps| - 1]);
      if before.Some? && Enabled(before.value, steps[|steps| - 1])
      then Some(Next(before.value, steps[|steps| - 1])) else None
  }

  ghost predicate Reachable(s: State) {
    exists periodic, steps :: Exec(Initial(periodic), steps) == Some(s)
  }

  lemma Extend(s: State, steps: seq<Step>, t: State, a: Step)
    requires Exec(s, steps) == Some(t) && Enabled(t, a)
    ensures Exec(s, steps + [a]) == Some(Next(t, a))
  {
    assert (steps + [a])[..|steps|] == steps;
  }

  /** A step first, and then a run. */
  lemma {:induction false} Precede(s: State, a: Step, steps: seq<Step>)
    requires Enabled(s, a)
    ensures Exec(s, [a] + steps) == Exec(Next(s, a), steps)
  {
    hide Enabled, Next;
    if steps == [] {
      assert [a] + steps == [a] && [a][..0] == [];
    } else {
      Precede(s, a, steps[..|steps| - 1]);
      assert ([a] + steps)[..|steps|] == [a] + steps[..|steps| - 1];
    }
  }

  // -------------------------------------------------------------- invariant

  predicate LoopAlive(s: State) {
    s.loop == AtSelect || s.loop == Fetching || s.loop == Stopping
  }

  /** What every reachable state satisfies. */
  predicate Inv(s: State) {
    && (s.initOnce == NotRun ==> s.loop == NotSpawned && s.wg == 0 && s.spawned == 0 && !s.startedLate)
    && (s.initOnce == Running ==> s.loop == NotSpawned && s.wg == 1 && s.spawned == 0)
    && (s.initOnce == Done ==> s.loop != NotSpawned && s.spawned == 1 && s.wg == if s.loop == Exited then 0 else 1)
    && (s.initOnce != NotRun ==> s.periodic)
    && (s.stopOnce == NotRun ==> s.stopper == Nobody && !s.closed)
    && (s.stopOnce == Running ==> s.stopper != Nobody)
    && (s.stopOnce == Done ==> s.closed && s.stopper == Caller)
    && (s.stopReturned ==> s.stopOnce == Done)
    && (s.stopper == TheLoop ==> s.loop == Stopping && s.stopOnce == Running)
    && (s.startedLate ==> s.stopOnce == Done)
    && (s.loop == Stopping ==> s.failed)
    // unless it was registered late, a loop that lives keeps stop from finishing, and a failure ends it
    && (!s.startedLate && s.initOnce != NotRun && s.loop != Exited ==> s.stopOnce != Done)
    && (!s.startedLate && s.failed ==> s.loop == Stopping)
  }

  lemma StepKeepsInv(s: State, a: Step)
    requires Inv(s) && Enabled(s, a)
    ensures Inv(Next(s, a))
  {
  }

  lemma {:induction false} RunKeepsInv(s: State, steps: seq<Step>, t: State)
    requires Inv(s) && Exec(s, steps) == Some(t)
    ensures Inv(t)
    ensures s.initOnce != NotRun ==> t.startedLate == s.startedLate && t.initOnce != NotRun
    ensures s.stopReturned ==> t.stopReturned
  {
    hide Inv;
    if steps != [] {
      var before := Exec(s, steps[..|steps| - 1]).value;
      RunKeepsInv(s, steps[..|steps| - 1], before);
      StepKeepsInv(before, steps[|steps| - 1]);
      OnceStays(before, steps[|steps| - 1]);
    }
  }

  lemma OnceStays(s: State, a: Step)
    requires Enabled(s, a)
    ensures s.initOnce != NotRun ==> Next(s, a).startedLate == s.startedLate && Next(s, a).initOnce != NotRun
    ensures s.stopReturned ==> Next(s, a).stopReturned
  {
  }

  lemma ReachableInv(s: State)
    requires Reachable(s)
    ensures Inv(s)
  {
    hide Inv;
    var periodic, steps :| Exec(Initial(periodic), steps) == Some(s);
    InitialInv(periodic);
    RunKeepsInv(Initial(periodic), steps, s);
  }

  lemma InitialInv(periodic: bool)
    ensures Inv(Initial(periodic))
  {
  }

  /** However many callers call start, at most one loop is ever started, and none without an interval. */
  lemma AtMostOneLoop(s: State)
    requires Reachable(s)
    ensures s.spawned <= 1 && (s.spawned == 1 ==> s.periodic)
  {
    ReachableInv(s);
  }

  // ------------------------------------------------- fetches after a failure

  /** From `s` some continuation begins a fetch after one has failed. */
  ghost predicate MayRefetch(s: State) {
    exists steps :: Exec(s, steps).Some? && Exec(s, steps).value.failed && Enabled(Exec(s, steps).value, FetchBegin)
  }

  /**
   After a failed fetch no fetch begins, with one exception: a loop that is registered after
   stop has finished waiting. Its own call of stop then returns at once and it goes on. So a
   fetch after a failed one is to come exactly if such a loop is there and not over, or no
   loop was registered yet and start still can.
   */
  lemma RefetchExactly(s: State)
    requires Reachable(s)
    ensures MayRefetch(s) <==> (s.initOnce == NotRun && s.periodic) || (s.startedLate && s.loop != Exited)
  {
    hide Exec, MayRefetch;
    ReachableInv(s);
    if (s.initOnce == NotRun && s.periodic) || (s.startedLate && s.loop != Exited) {
      LateLoopRefetches(s);
    } else if Over(s) {
      OverFetchesNothing(s);
      RefetchIsFetch(s);
    } else {
      EarlyLoopStops(s);
    }
  }

  lemma RefetchIsFetch(s: State)
    ensures MayRefetch(s) ==> MayFetch(s)
  {
    hide Exec;
  }

  lemma EarlyLoopStops(s: State)
    requires Inv(s) && s.initOnce != NotRun && !s.startedLate
    ensures !MayRefetch(s)
  {
    hide Exec;
    if steps :| Exec(s, steps).Some? && Exec(s, steps).value.failed && Enabled(Exec(s, steps).value, FetchBegin) {
      RunKeepsInv(s, steps, Exec(s, steps).value);
    }
  }

  lemma RefetchAfter(s: State, a: Step)
    requires Enabled(s, a) && MayRefetch(Next(s, a))
    ensures MayRefetch(s)
  {
    hide Exec, Next;
    var t := Next(s, a);
    var steps :| Exec(t, steps).Some? && Exec(t, steps).value.failed && Enabled(Exec(t, steps).value, FetchBegin);
    Precede(s, a, steps);
  }

  lemma LateLoopRefetches(s: State)
    requires Inv(s) && ((s.initOnce == NotRun && s.periodic) || (s.startedLate && s.loop != Exited))
    ensures MayRefetch(s)
    decreases match s.stopOnce case NotRun => 3 case Running => if s.closed then 1 else 2 case Done => 0,
              match s.initOnce case NotRun => 5 case Running => 4
              case Done => match s.loop case AtSelect => 3 case Fetching => 2 case _ => 1
  {
    hide MayRefetch;
    if s.loop == Stopping {
      RefetchNow(Next(s, LoopStopReturn));
      RefetchAfter(s, LoopStopReturn);
    } else {
      var a := if s.stopOnce == NotRun then StopTake
               else if s.stopOnce == Running then if s.closed then StopReturn else StopClose
               else if s.initOnce == NotRun then StartRegister
               else if s.initOnce == Running then StartSpawn
               else if s.loop == AtSelect then FetchBegin else FetchFail;
      StepKeepsInv(s, a);
      LateLoopRefetches(Next(s, a));
      RefetchAfter(s, a);
    }
  }

  lemma RefetchNow(s: State)
    requires s.failed && s.loop == AtSelect
    ensures MayRefetch(s)
  {
    assert Exec(s, []) == Some(s);
  }

  /** The exception is real: stop runs to its end, then start, and the loop fetches, and outlives a failed fetch. */
  lemma LateStartHappens()
    ensures exists s :: Reachable(s) && s.stopReturned && LoopAlive(s) && s.startedLate && MayFetch(s) && MayRefetch(s)
  {
    var s := Initial(true);
    var steps, t := [], s;
    assert Exec(s, steps) == Some(t);
    hide Exec;
    for i := 0 to 5
      invariant Exec(s, steps) == Some(t)
      invariant t == match i
                     case 0 => s
                     case 1 => s.(stopOnce := Running, stopper := Caller)
                     case 2 => s.(stopOnce := Running, stopper := Caller, closed := true)
                     case 3 => s.(stopOnce := Done, stopper := Caller, closed := true, stopReturned := true)
                     case 4 => s.(stopOnce := Done, stopper := Caller, closed := true, stopReturned := true,
                                  initOnce := Running, wg := 1, startedLate := true)
                     case _ => s.(stopOnce := Done, stopper := Caller, closed := true, stopReturned := true,
                                  initOnce := Done, wg := 1, startedLate := true, loop := AtSelect, spawned := 1)
    {
      var a := [StopTake, StopClose, StopReturn, StartRegister, StartSpawn][i];
      Extend(s, steps, t, a);
      steps, t := steps + [a], Next(t, a);
    }
    assert Reachable(t);
    RefetchExactly(t);
    RefetchIsFetch(t);
  }

  // ---------------------------------------------------------------- stopping

  /** When stop has returned, a loop registered before that is over: no fetch begins any more, ever. */
  lemma NoFetchAfterStop(s: State, steps: seq<Step>, t: State)
    requires Reachable(s) && s.stopReturned && s.initOnce != NotRun && !s.startedLate
    requires Exec(s, steps) == Some(t)
    ensures !LoopAlive(t) && !Enabled(t, FetchBegin)
  {
    hide Exec;
    ReachableInv(s);
    RunKeepsInv(s, steps, t);
  }

  /** From `s` some continuation begins a fetch. */
  ghost predicate MayFetch(s: State) {
    exists steps :: Exec(s, steps).Some? && Enabled(Exec(s, steps).value, FetchBegin)
  }

  /** There is no loop, and there will be none. */
  predicate Over(s: State) {
    if s.initOnce == NotRun then !s.periodic && s.loop == NotSpawned else s.initOnce == Done && s.loop == Exited
  }

  /** A fetch can still begin exactly if there is or can be a loop, and none has failed or the loop is late. */
  lemma FetchExactly(s: State)
    requires Reachable(s)
    ensures MayFetch(s) <==> !Over(s) && (!s.failed || s.startedLate)
  {
    hide Exec, MayFetch;
    ReachableInv(s);
    if Over(s) {
      OverFetchesNothing(s);
    } else if s.failed && !s.startedLate {
      BlockedFetchesNothing(s);
    } else {
      LoopFetches(s);
    }
  }

  /**
   After stop has returned that is exactly if start can still register a loop, or one was
   registered late and is not over.
   */
  lemma FetchAfterStopExactly(s: State)
    requires Reachable(s) && s.stopReturned
    ensures MayFetch(s) <==> (s.initOnce == NotRun && s.periodic) || (s.startedLate && s.loop != Exited)
  {
    hide Reachable, MayFetch;
    ReachableInv(s);
    FetchExactly(s);
  }

  lemma BlockedFetchesNothing(s: State)
    requires Inv(s) && s.failed && !s.startedLate
    ensures !MayFetch(s)
  {
    hide Exec;
    forall steps | Exec(s, steps).Some? ensures !Enabled(Exec(s, steps).value, FetchBegin) {
      FailureStays(s, steps, Exec(s, steps).value);
    }
  }

  lemma OverFetchesNothing(s: State)
    requires Over(s)
    ensures !MayFetch(s)
  {
    forall steps | Exec(s, steps).Some? ensures !Enabled(Exec(s, steps).value, FetchBegin) {
      OverStays(s, steps);
    }
  }

  lemma {:induction false} OverStays(s: State, steps: seq<Step>)
    requires Over(s) && Exec(s, steps).Some?
    ensures Over(Exec(s, steps).value)
  {
    hide Over, Enabled, Next;
    if steps != [] {
      var before, last := steps[..|steps| - 1], steps[|steps| - 1];
      OverStays(s, before);
      OverStep(Exec(s, before).value, last);
    }
  }

  lemma OverStep(s: State, a: Step)
    requires Over(s) && Enabled(s, a)
    ensures Over(Next(s, a))
  {
  }

  lemma LoopFetches(s: State)
    requires Inv(s) && !Over(s) && (!s.failed || s.startedLate)
    ensures MayFetch(s)
    decreases match s.initOnce case NotRun => 5 case Running => 4
              case Done => match s.loop case Fetching => 2 case Stopping => 2 case _ => 1
  {
    hide MayFetch;
    if s.loop == AtSelect {
      FetchNow(s);
    } else {
      var a := if s.initOnce == NotRun then StartRegister
               else if s.initOnce == Running then StartSpawn
               else if s.loop == Fetching then FetchOk else LoopStopReturn;
      StepKeepsInv(s, a);
      LoopFetches(Next(s, a));
      FetchAfter(s, a);
    }
  }

  lemma FetchNow(s: State)
    requires s.loop == AtSelect
    ensures MayFetch(s)
  {
    assert Exec(s, []) == Some(s);
  }

  lemma FetchAfter(s: State, a: Step)
    requires Enabled(s, a) && MayFetch(Next(s, a))
    ensures MayFetch(s)
  {
    hide Exec, Next;
    var steps :| Exec(Next(s, a), steps).Some? && Enabled(Exec(Next(s, a), steps).value, FetchBegin);
    Precede(s, a, steps);
  }

  /** In at most `n` steps a caller's stop can return, with the loop over. */
  ghost predicate CanStop(s: State, n: nat) {
    exists steps :: |steps| <= n && Exec(s, steps).Some? && Exec(s, steps).value.stopReturned
                    && !LoopAlive(Exec(s, steps).value)
  }

  lemma CanStopAfter(s: State, a: Step, n: nat)
    requires Enabled(s, a) && CanStop(Next(s, a), n)
    ensures CanStop(s, n + 1)
  {
    hide Exec, Next;
    var t := Next(s, a);
    var steps :| |steps| <= n && Exec(t, steps).Some? && Exec(t, steps).value.stopReturned
                 && !LoopAlive(Exec(t, steps).value);
    Precede(s, a, steps);
  }

  lemma CanStopNow(s: State)
    requires s.stopReturned && !LoopAlive(s)
    ensures CanStop(s, 0)
  {
    assert Exec(s, []) == Some(s);
  }

  /** What is left to do until stop returns: spawn, take the flag, close, end the fetch, leave, return. */
  function Todo(s: State): nat {
    1 + (if s.initOnce == Running then 2 else 0)
    + (if s.stopOnce == NotRun then 1 else 0)
    + (if s.closed then 0 else 1)
    + (match s.loop case Fetching => 2 case Stopping => 2 case AtSelect => 1 case _ => 0)
  }

  /**
   Stop can return, and then in at most five steps and with the loop over, exactly if no fetch
   has failed or the loop was registered late.
   */
  lemma StopExactly(s: State)
    requires Reachable(s)
    ensures (exists n: nat :: CanStop(s, n)) <==> !s.failed || s.startedLate
    ensures (exists n: nat :: CanStop(s, n)) <==> CanStop(s, 5)
  {
    hide Exec;
    ReachableInv(s);
    if !s.failed || s.startedLate {
      StopPlan(s);
      assert Todo(s) <= 5;
    } else if n: nat :| CanStop(s, n) {
      var steps :| |steps| <= n && Exec(s, steps).Some? && Exec(s, steps).value.stopReturned
                   && !LoopAlive(Exec(s, steps).value);
      FailureStays(s, steps, Exec(s, steps).value);
    }
  }

  lemma StopPlan(s: State)
    requires Inv(s) && (!s.failed || s.startedLate)
    ensures CanStop(s, Todo(s))
    decreases Todo(s), 1
  {
    hide CanStop;
    if s.initOnce == Running {
      StopPlanStep(s, StartSpawn);
    } else if s.stopOnce == NotRun {
      StopPlanStep(s, StopTake);
    } else if !s.closed {
      StopPlanStep(s, StopClose);
    } else if s.loop == Fetching {
      StopPlanStep(s, FetchOk);
    } else if s.loop == Stopping {
      StopPlanStep(s, LoopStopReturn);
    } else if s.loop == AtSelect {
      StopPlanStep(s, LoopExit);
    } else {
      var a := if s.stopOnce == Done then StopAgain else StopReturn;
      CanStopNow(Next(s, a));
      CanStopAfter(s, a, 0);
    }
  }

  lemma StopPlanStep(s: State, a: Step)
    requires Inv(s) && Enabled(s, a)
    requires var t := Next(s, a); (!t.failed || t.startedLate) && Todo(t) + 1 == Todo(s)
    ensures CanStop(s, Todo(s))
    decreases Todo(s), 0
  {
    hide CanStop;
    StepKeepsInv(s, a);
    StopPlan(Next(s, a));
    CanStopAfter(s, a, Todo(Next(s, a)));
  }

  /**
   A failed fetch in a loop that is not late: the loop's own stop waits for the loop itself,
   so neither it nor any caller's stop returns, ever.
   */
  lemma FailureBlocksStop(s: State, steps: seq<Step>, t: State)
    requires Reachable(s) && s.failed && !s.startedLate
    requires Exec(s, steps) == Some(t)
    ensures t.loop == Stopping && !t.stopReturned
  {
    hide Exec;
    ReachableInv(s);
    FailureStays(s, steps, t);
  }

  lemma {:induction false} FailureStays(s: State, steps: seq<Step>, t: State)
    requires Inv(s) && s.failed && !s.startedLate && Exec(s, steps) == Some(t)
    ensures Inv(t) && t.failed && !t.startedLate && t.loop == Stopping && !t.stopReturned
  {
    if steps != [] {
      var before := Exec(s, steps[..|steps| - 1]).value;
      FailureStays(s, steps[..|steps| - 1], before);
      StepKeepsInv(before, steps[|steps| - 1]);
    }
  }

  /**
   The first fetch of an ordinary loop may fail. The loop then stops itself, without any other
   caller: it closes the channel and waits for itself, and no stop ever returns.
   */
  lemma BlockedStopHappens()
    ensures exists s :: Reachable(s) && s.failed && !s.startedLate && !(exists n: nat :: CanStop(s, n))
                        && s.stopper == TheLoop && s.closed && s.loop == Stopping && s.wg == 1
  {
    var s := Initial(true);
    var steps, t := [], s;
    assert Exec(s, steps) == Some(t);
    hide Exec;
    for i := 0 to 6
      invariant Exec(s, steps) == Some(t)
      invariant t == match i
                     case 0 => s
                     case 1 => s.(initOnce := Running, wg := 1)
                     case 2 => s.(initOnce := Done, wg := 1, loop := AtSelect, spawned := 1)
                     case 3 => s.(initOnce := Done, wg := 1, loop := Fetching, spawned := 1)
                     case 4 => s.(initOnce := Done, wg := 1, loop := Stopping, spawned := 1, failed := true)
                     case 5 => s.(initOnce := Done, wg := 1, loop := Stopping, spawned := 1, failed := true,
                                  stopOnce := Running, stopper := TheLoop)
                     case _ => s.(initOnce := Done, wg := 1, loop := Stopping, spawned := 1, failed := true,
                                  stopOnce := Running, stopper := TheLoop, closed := true)
    {
      var a := [StartRegister, StartSpawn, FetchBegin, FetchFail, LoopStopTake, StopClose][i];
      Extend(s, steps, t, a);
      steps, t := steps + [a], Next(t, a);
    }
    assert Reachable(t);
    StopExactly(t);
  }
}
