/**
 Re-configuring a key-value source: UpdateOptions holds the source's lock while it stops the
 old refresher, and a fetch of that refresher needs the lock, too. The life of the refresher
 is the one in Lifecycle, with a fetch in its phases and with the lock.
 */
module Reconfiguring {
  import opened Options
  import L = Lifecycle

  /** Where a fetch is: none, before it reads the key prefix, waiting for the reply, or swapping the configuration. */
  datatype Phase = Idle | Asking | Away | Writing

  datatype Holder = Free | Updater | Loop

  datatype Update = Before | InStop | Over

  datatype State = State(life: L.State, phase: Phase, lock: Holder, update: Update)

  datatype Step =
    | Life(step: L.Step)  // a step of the refresher outside its fetches, or of a caller of start or stop
    | FetchBegin          // the loop's select picks the ticker
    | ReadPrefix          // the fetch takes the read lock and releases it
    | FetchFail           // the request fails
    | FetchLock           // the reply is there, and the fetch takes the lock
    | FetchSwap           // it has fired its events, swaps and releases the lock
    | UpdateLock          // UpdateOptions, with another interval, takes the lock and calls stop
    | UpdateOver          // that call returns, and the lock is released with a new refresher in place

  function Initial(periodic: bool): State {
    State(L.Initial(periodic), Idle, Free, Before)
  }

  predicate OutsideFetch(a: L.Step) {
    !a.FetchBegin? && !a.FetchOk? && !a.FetchFail?
  }

  predicate Enabled(s: State, a: Step) {
    match a
    case Life(step) => OutsideFetch(step) && L.Enabled(s.life, step)
    case FetchBegin => L.Enabled(s.life, L.FetchBegin)
    case ReadPrefix => s.phase == Asking && s.lock == Free
    case FetchFail => s.phase == Away && L.Enabled(s.life, L.FetchFail)
    case FetchLock => s.phase == Away && s.lock == Free
    case FetchSwap => s.phase == Writing && L.Enabled(s.life, L.FetchOk)
    case UpdateLock => s.update == Before && s.lock == Free
    case UpdateOver => s.update == InStop && s.life.stopOnce == L.Done
  }

  function Next(s: State, a: Step): State
    requires Enabled(s, a)
  {
    match a
    case Life(step) => s.(life := L.Next(s.life, step))
    case FetchBegin => s.(life := L.Next(s.life, L.FetchBegin), phase := Asking)
    case ReadPrefix => s.(phase := Away)
    case FetchFail => s.(life := L.Next(s.life, L.FetchFail), phase := Idle)
    case FetchLock => s.(phase := Writing, lock := Loop)
    case FetchSwap => s.(life := L.Next(s.life, L.FetchOk), phase := Idle, lock := Free)
    case UpdateLock => s.(lock := Updater, update := InStop)
    case UpdateOver => s.(lock := Free, update := Over)
  }

  function Exec(s: State, steps: seq<Step>): Option<State> {
    if steps == [] then Some(s)
    else
      var before := Exec(s, steps[..|steps| - 1]);
      if before.Some? && Enabled(before.value, steps[|steps| - 1])
      then Some(Next(before.value, steps[|steps| - 1])) else None
  }

  ghost predicate Reachable(s: State) {
    exists periodic, steps :: Exec(Initial(periodic), steps) == Some(s)
  }

  lemma Extend(s: State, steps: seq<Step>, t: State, a: Step)
    requires Exec(s, steps) == Some(t) && Enabled(t, a)
    ensures Exec(s, steps + [a]) == Some(Next(t, a))
  {
    assert (steps + [a])[..|steps|] == steps;
  }

  /** The refresher's invariant, a phase exactly while it fetches, and the lock with whom it belongs to. */
  predicate Inv(s: State) {
    && L.Inv(s.life)
    && (s.phase == Idle <==> s.life.loop != L.Fetching)
    && (s.lock == Loop <==> s.phase == Writing)
    && (s.lock == Updater <==> s.update == InStop)
  }

  lemma StepKeepsInv(s: State, a: Step)
    requires Inv(s) && Enabled(s, a)
    ensures Inv(Next(s, a))
  {
    hide L.Inv;
    match a
    case Life(step) => L.StepKeepsInv(s.life, step); FetchAlone(s.life, step);
    case FetchBegin => L.StepKeepsInv(s.life, L.FetchBegin);
    case FetchFail => L.StepKeepsInv(s.life, L.FetchFail);
    case FetchSwap => L.StepKeepsInv(s.life, L.FetchOk);
    case _ =>
  }

  lemma FetchAlone(s: L.State, a: L.Step)
    requires L.Inv(s) && L.Enabled(s, a) && OutsideFetch(a)
    ensures L.Next(s, a).loop == L.Fetching <==> s.loop == L.Fetching
  {
  }

  lemma {:induction false} RunKeepsInv(s: State, steps: seq<Step>)
    requires Inv(s) && Exec(s, steps).Some?
    ensures Inv(Exec(s, steps).value)
  {
    hide Inv, Next, Enabled;
    if steps != [] {
      RunKeepsInv(s, steps[..|steps| - 1]);
      StepKeepsInv(Exec(s, steps[..|steps| - 1]).value, steps[|steps| - 1]);
    }
  }

  lemma ReachableInv(s: State)
    requires Reachable(s)
    ensures Inv(s)
  {
    var periodic, steps :| Exec(Initial(periodic), steps) == Some(s);
    L.InitialInv(periodic);
    RunKeepsInv(Initial(periodic), steps);
  }

  /** From `s` UpdateOptions can get over its call of stop. */
  ghost predicate CanFinish(s: State) {
    exists steps :: Exec(s, steps).Some? && Exec(s, steps).value.update == Over
  }

  /** No fetch of the loop is under way or has failed, or stop is over already. */
  predicate LoopYields(s: State) {
    s.life.stopOnce == L.Done || (s.phase == Idle && s.life.loop != L.Stopping)
  }

  /**
   While UpdateOptions waits in stop, with the lock in its hands, it can get on exactly if stop
   was over before, or the loop is neither in a fetch nor in its own call of stop. Otherwise
   the lock is never released, and with it every reader of the source waits for ever; a fetch
   that has not read the prefix yet gets no further.
   */
  lemma UpdateExactly(s: State)
    requires Reachable(s) && s.update == InStop
    ensures CanFinish(s) <==> LoopYields(s)
    ensures !LoopYields(s) ==> forall steps :: Exec(s, steps).Some? ==> Exec(s, steps).value.lock == Updater
    ensures !LoopYields(s) && s.phase == Asking ==>
              forall steps :: Exec(s, steps).Some? ==> Exec(s, steps).value.phase == Asking
  {
    assert Exec(s, []) == Some(s);
    hide Exec, L.Inv;
    ReachableInv(s);
    if LoopYields(s) {
      Finishes(s, s, []);
    } else {
      forall steps | Exec(s, steps).Some?
        ensures Exec(s, steps).value.lock == Updater && Exec(s, steps).value.update == InStop
        ensures s.phase == Asking ==> Exec(s, steps).value.phase == Asking
      {
        StuckStays(s, steps);
      }
    }
  }

  /** UpdateOptions and a fetch, or a loop that waits for itself, wait for each other. */
  predicate Stuck(s: State) {
    Inv(s) && s.update == InStop && !LoopYields(s)
  }

  lemma StuckStep(s: State, a: Step)
    requires Stuck(s) && Enabled(s, a)
    ensures Stuck(Next(s, a)) && (s.phase == Asking ==> Next(s, a).phase == Asking)
  {
    StepKeepsInv(s, a);
  }

  lemma {:induction false} StuckStays(s: State, steps: seq<Step>)
    requires Stuck(s) && Exec(s, steps).Some?
    ensures Stuck(Exec(s, steps).value) && (s.phase == Asking ==> Exec(s, steps).value.phase == Asking)
  {
    hide Stuck, Next, Enabled;
    if steps != [] {
      StuckStays(s, steps[..|steps| - 1]);
      StuckStep(Exec(s, steps[..|steps| - 1]).value, steps[|steps| - 1]);
    }
  }

  /** From `t`, which is reached from `s`, the rest of the way: spawn, take the flag, close, leave, return. */
  lemma Finishes(s: State, t: State, steps: seq<Step>)
    requires Inv(t) && t.update == InStop && LoopYields(t)
    requires Exec(s, steps) == Some(t)
    ensures CanFinish(s)
    decreases match t.life.stopOnce case NotRun => 2 case Running => 1 case Done => 0,
              if t.life.closed then 0 else 1,
              match t.life.loop case NotSpawned => 2 case AtSelect => 1 case _ => 0,
              if t.life.initOnce == L.Running then 1 else 0
  {
    var a := if t.life.stopOnce == L.Done then UpdateOver
             else if t.life.stopOnce == L.NotRun then Life(L.StopTake)
             else if !t.life.closed then Life(L.StopClose)
             else if t.life.initOnce == L.Running then Life(L.StartSpawn)
             else if t.life.loop == L.AtSelect then Life(L.LoopExit)
             else Life(L.StopReturn);
    StepKeepsInv(t, a);
    Extend(s, steps, t, a);
    if a != UpdateOver {
      Finishes(s, Next(t, a), steps + [a]);
    }
  }

  /** A fetch is under way, none has failed, stop alone could return: and re-configuring never ends. */
  lemma BlockedUpdateHappens()
    ensures exists s :: Reachable(s) && s.update == InStop && !s.life.failed && L.CanStop(s.life, 5) && !CanFinish(s)
  {
    var s := Initial(true);
    var steps, t := [], s;
    assert Exec(s, steps) == Some(t);
    hide Exec;
    for i := 0 to 4
      invariant Exec(s, steps) == Some(t)
      invariant t == match i
                     case 0 => s
                     case 1 => s.(life := s.life.(initOnce := L.Running, wg := 1))
                     case 2 => s.(life := s.life.(initOnce := L.Done, wg := 1, loop := L.AtSelect, spawned := 1))
                     case 3 => s.(life := s.life.(initOnce := L.Done, wg := 1, loop := L.Fetching, spawned := 1),
                                  phase := Asking)
                     case _ => s.(life := s.life.(initOnce := L.Done, wg := 1, loop := L.Fetching, spawned := 1),
                                  phase := Asking, lock := Updater, update := InStop)
    {
      var a := [Life(L.StartRegister), Life(L.StartSpawn), FetchBegin, UpdateLock][i];
      Extend(s, steps, t, a);
      steps, t := steps + [a], Next(t, a);
    }
    assert Reachable(t);
    ReachableInv(t);
    UpdateExactly(t);
    L.StopPlan(t.life);
  }
}
