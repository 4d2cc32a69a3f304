/** The event dispatcher: handlers by key, and by key prefix. */
module Dispatcher {
  import opened KeyFormat
  import opened Events

  /** A handler: the identity it is unregistered by, and which callback it is. */
  datatype Handler = Handler(identity: string, callback: nat)

  /** One run of a handler. */
  datatype Ran = Ran(handler: Handler, event: EventInfo)

  datatype Op =
    | Register(key: string, handler: Handler)
    | RegisterForKeyPrefix(key: string, handler: Handler)
    | Unregister(key: string, identity: string)

  predicate HasPrefix(s: string, prefix: string) {
    prefix <= s
  }

  // ----------------------------------- what a history of calls amounts to

  predicate Adds(op: Op, k: string) {
    !op.Unregister? && Normalize(op.key) == k
  }

  predicate Removes(op: Op, k: string, identity: string) {
    op.Unregister? && Normalize(op.key) == k && op.identity == identity
  }

  /** Some call of `ops` unregisters `identity` from `k`. */
  ghost predicate RemovedIn(ops: seq<Op>, k: string, identity: string) {
    exists i :: 0 <= i < |ops| && Removes(ops[i], k, identity)
  }

  ghost predicate EverAdded(ops: seq<Op>, k: string) {
    exists i :: 0 <= i < |ops| && Adds(ops[i], k)
  }

  /** The handlers added to `k` and not unregistered since, in the order they were added. */
  ghost function Surviving(ops: seq<Op>, k: string): seq<Handler> {
    if ops == [] then []
    else (if Adds(ops[0], k) && !RemovedIn(ops[1..], k, ops[0].handler.identity) then [ops[0].handler] else [])
         + Surviving(ops[1..], k)
  }

  /** The prefixes that were registered, in order, repetitions included. */
  ghost function Prefixes(ops: seq<Op>): seq<string> {
    if ops == [] then []
    else Prefixes(ops[..|ops| - 1])
         + if ops[|ops| - 1].RegisterForKeyPrefix? then [Normalize(ops[|ops| - 1].key)] else []
  }

  /** The lists of all matching prefixes, one after the other. */
  ghost function ByPrefix(ops: seq<Op>, prefixes: seq<string>, k: string): seq<Handler> {
    if prefixes == [] then []
    else ByPrefix(ops, prefixes[..|prefixes| - 1], k)
         + if HasPrefix(k, prefixes[|prefixes| - 1]) then Surviving(ops, prefixes[|prefixes| - 1]) else []
  }

  /** The handlers an event on `key` runs: those of the key if it was ever registered, else those of its prefixes. */
  ghost function Selected(ops: seq<Op>, key: string): seq<Handler> {
    var k := Normalize(key);
    if EverAdded(ops, k) then Surviving(ops, k) else ByPrefix(ops, Prefixes(ops), k)
  }

  function Without(hs: seq<Handler>, identity: string): seq<Handler> {
    if hs == [] then []
    else (if hs[0].identity == identity then [] else [hs[0]]) + Without(hs[1..], identity)
  }

  lemma {:induction false} WithoutConcat(a: seq<Handler>, b: seq<Handler>, identity: string)
    ensures Without(a + b, identity) == Without(a, identity) + Without(b, identity)
  {
    if a == [] {
      assert a + b == b;
    } else {
      assert (a + b)[1..] == a[1..] + b;
      WithoutConcat(a[1..], b, identity);
    }
  }

  /** One more call appends its handler, or filters the list, or leaves it alone. */
  lemma {:induction false} SurvivingStep(ops: seq<Op>, op: Op, k: string)
    ensures Surviving(ops + [op], k)
         == if Adds(op, k) then Surviving(ops, k) + [op.handler]
            else if op.Unregister? && Normalize(op.key) == k then Without(Surviving(ops, k), op.identity)
            else Surviving(ops, k)
  {
    hide Normalize;
    if ops == [] {
      assert [op][1..] == [];
      assert !RemovedIn([], k, if op.Unregister? then op.identity else op.handler.identity);
      assert Surviving([op][1..], k) == [];
    } else {
      var first, rest := ops[0], ops[1..];
      assert (ops + [op])[1..] == rest + [op];
      SurvivingStep(rest, op, k);
      if Adds(first, k) {
        var id := first.handler.identity;
        RemovedStep(rest, op, k, id);
        var head := if !RemovedIn(rest, k, id) then [first.handler] else [];
        var head' := if !RemovedIn(rest + [op], k, id) then [first.handler] else [];
        assert Surviving(ops, k) == head + Surviving(rest, k);
        assert Surviving(ops + [op], k) == head' + Surviving(rest + [op], k);
        if Adds(op, k) {
          assert head + (Surviving(rest, k) + [op.handler]) == head + Surviving(rest, k) + [op.handler];
        }
        if op.Unregister? && Normalize(op.key) == k {
          WithoutConcat(head, Surviving(rest, k), op.identity);
          assert head != [] ==> head[1..] == [];
          assert Without(head, op.identity) == head';
        }
      } else {
        assert Surviving(ops, k) == Surviving(rest, k);
        assert Surviving(ops + [op], k) == Surviving(rest + [op], k);
      }
    }
  }

  lemma RemovedStep(ops: seq<Op>, op: Op, k: string, identity: string)
    ensures RemovedIn(ops + [op], k, identity) <==> RemovedIn(ops, k, identity) || Removes(op, k, identity)
  {
    if Removes(op, k, identity) {
      assert (ops + [op])[|ops|] == op;
    }
    if RemovedIn(ops, k, identity) {
      var i :| 0 <= i < |ops| && Removes(ops[i], k, identity);
      assert (ops + [op])[i] == ops[i];
    }
  }

  lemma EverAddedStep(ops: seq<Op>, op: Op, k: string)
    ensures EverAdded(ops + [op], k) <==> EverAdded(ops, k) || Adds(op, k)
  {
    if Adds(op, k) {
      assert (ops + [op])[|ops|] == op;
    }
    if EverAdded(ops, k) {
      var i :| 0 <= i < |ops| && Adds(ops[i], k);
      assert (ops + [op])[i] == ops[i];
    }
  }

  lemma HistoryStep(ops: seq<Op>, op: Op)
    ensures forall k :: EverAdded(ops + [op], k) <==> EverAdded(ops, k) || Adds(op, k)
    ensures forall k :: Surviving(ops + [op], k)
                     == if Adds(op, k) then Surviving(ops, k) + [op.handler]
                        else if op.Unregister? && Normalize(op.key) == k then Without(Surviving(ops, k), op.identity)
                        else Surviving(ops, k)
  {
    hide Normalize, Surviving, EverAdded;
    forall k ensures EverAdded(ops + [op], k) <==> EverAdded(ops, k) || Adds(op, k) {
      EverAddedStep(ops, op, k);
    }
    forall k
      ensures Surviving(ops + [op], k)
           == if Adds(op, k) then Surviving(ops, k) + [op.handler]
              else if op.Unregister? && Normalize(op.key) == k then Without(Surviving(ops, k), op.identity)
              else Surviving(ops, k)
    {
      SurvivingStep(ops, op, k);
    }
  }

  lemma {:induction false} PrefixesAdded(ops: seq<Op>, p: string)
    requires p in Prefixes(ops)
    ensures EverAdded(ops, p)
  {
    hide Normalize;
    var before, last := ops[..|ops| - 1], ops[|ops| - 1];
    assert ops == before + [last];
    EverAddedStep(before, last, p);
    if p in Prefixes(before) {
      PrefixesAdded(before, p);
    }
  }

  /**
   A handler unregistered from a key, and not registered for it again, is not among the key's
   handlers; one registered and not unregistered since is.
   */
  lemma {:induction false} SurvivingMembers(ops: seq<Op>, k: string, h: Handler)
    ensures h in Surviving(ops, k)
       <==> exists i :: 0 <= i < |ops| && Adds(ops[i], k) && ops[i].handler == h
                        && !RemovedIn(ops[i + 1..], k, h.identity)
  {
    hide Normalize, RemovedIn;
    if ops != [] {
      var rest := ops[1..];
      SurvivingMembers(rest, k, h);
      if h in Surviving(rest, k) {
        var i :| 0 <= i < |rest| && Adds(rest[i], k) && rest[i].handler == h
                 && !RemovedIn(rest[i + 1..], k, h.identity);
        assert ops[i + 1] == rest[i] && ops[i + 2..] == rest[i + 1..];
      }
      if i :| 0 <= i < |ops| && Adds(ops[i], k) && ops[i].handler == h && !RemovedIn(ops[i + 1..], k, h.identity) {
        if i > 0 {
          assert rest[i - 1] == ops[i] && rest[i..] == ops[i + 1..];
        }
      }
    }
  }

  /** The prefixes are those of the calls that registered one. */
  lemma {:induction false} PrefixMembers(ops: seq<Op>, p: string)
    ensures p in Prefixes(ops)
       <==> exists i :: 0 <= i < |ops| && ops[i].RegisterForKeyPrefix? && Normalize(ops[i].key) == p
  {
    hide Normalize;
    if ops != [] {
      var before, last := ops[..|ops| - 1], ops[|ops| - 1];
      PrefixMembers(before, p);
      if i :| 0 <= i < |ops| && ops[i].RegisterForKeyPrefix? && Normalize(ops[i].key) == p {
        assert i < |before| ==> before[i] == ops[i];
      }
      if p in Prefixes(before) {
        var i :| 0 <= i < |before| && before[i].RegisterForKeyPrefix? && Normalize(before[i].key) == p;
        assert ops[i] == before[i];
      }
    }
  }

  lemma {:induction false} ByPrefixMembers(ops: seq<Op>, prefixes: seq<string>, k: string, h: Handler)
    ensures h in ByPrefix(ops, prefixes, k)
       <==> exists p :: p in prefixes && HasPrefix(k, p) && h in Surviving(ops, p)
  {
    hide Surviving, HasPrefix;
    if prefixes != [] {
      var before, last := prefixes[..|prefixes| - 1], prefixes[|prefixes| - 1];
      ByPrefixMembers(ops, before, k, h);
      assert forall p :: p in prefixes <==> p in before || p == last;
    }
  }

  /** Call `i` put its handler on `k`, and no later call took that handler's identity off it. */
  ghost predicate Kept(ops: seq<Op>, k: string, i: nat) {
    && i < |ops| && !ops[i].Unregister? && Normalize(ops[i].key) == k
    && forall j :: i < j < |ops| ==>
         !(ops[j].Unregister? && Normalize(ops[j].key) == k && ops[j].identity == ops[i].handler.identity)
  }

  /** The handler is on `k`. */
  ghost predicate On(ops: seq<Op>, k: string, h: Handler) {
    exists i: nat :: Kept(ops, k, i) && ops[i].handler == h
  }

  /** Something was registered for the key, whether or not it is still there. */
  ghost predicate EverOn(ops: seq<Op>, k: string) {
    exists i :: 0 <= i < |ops| && !ops[i].Unregister? && Normalize(ops[i].key) == k
  }

  /**
   A handler listens to a key: it is there for the key itself, or, when nothing was ever
   registered for the key, for one of the prefixes it starts with. A key whose handlers were all
   unregistered still hides its prefixes.
   */
  ghost predicate Listens(ops: seq<Op>, key: string, h: Handler) {
    var k := Normalize(key);
    if EverOn(ops, k) then On(ops, k, h)
    else exists i :: 0 <= i < |ops| && ops[i].RegisterForKeyPrefix? && Normalize(ops[i].key) <= k
                     && On(ops, Normalize(ops[i].key), h)
  }

  lemma OnExactly(ops: seq<Op>, k: string, h: Handler)
    ensures h in Surviving(ops, k) <==> On(ops, k, h)
  {
    SurvivingMembers(ops, k, h);
    hide Surviving, RemovedIn, Kept, Normalize;
    forall i: nat | i < |ops| && Adds(ops[i], k)
      ensures Kept(ops, k, i) <==> !RemovedIn(ops[i + 1..], k, ops[i].handler.identity)
    {
      KeptMeans(ops, k, i);
    }
    forall i: nat | Kept(ops, k, i) ensures i < |ops| && Adds(ops[i], k) { KeptBound(ops, k, i); }
  }

  lemma KeptMeans(ops: seq<Op>, k: string, i: nat)
    requires i < |ops|
    ensures Kept(ops, k, i) <==> Adds(ops[i], k) && !RemovedIn(ops[i + 1..], k, ops[i].handler.identity)
  {
    hide Normalize;
    if !ops[i].Unregister? {
      var rest, identity := ops[i + 1..], ops[i].handler.identity;
      assert forall j :: 0 <= j < |rest| ==> rest[j] == ops[i + 1 + j];
      if j :| i < j < |ops| && Removes(ops[j], k, identity) {
        assert Removes(rest[j - i - 1], k, identity);
      }
    }
  }

  lemma EverOnExactly(ops: seq<Op>, k: string)
    ensures EverAdded(ops, k) <==> EverOn(ops, k)
  {
    hide Normalize;
    if i :| 0 <= i < |ops| && !ops[i].Unregister? && Normalize(ops[i].key) == k {
      assert Adds(ops[i], k);
    }
  }

  /** An event on a key runs exactly the handlers that listen to it. */
  lemma SelectedExactly(ops: seq<Op>, key: string, h: Handler)
    ensures h in Selected(ops, key) <==> Listens(ops, key, h)
  {
    hide Normalize, EverAdded, EverOn, On, Surviving, Prefixes, ByPrefix;
    var k := Normalize(key);
    EverOnExactly(ops, k);
    OnExactly(ops, k, h);
    ByPrefixMembers(ops, Prefixes(ops), k, h);
    if p :| p in Prefixes(ops) && HasPrefix(k, p) && h in Surviving(ops, p) {
      PrefixMembers(ops, p);
      OnExactly(ops, p, h);
    }
    if i :| 0 <= i < |ops| && ops[i].RegisterForKeyPrefix? && Normalize(ops[i].key) <= k
            && On(ops, Normalize(ops[i].key), h) {
      PrefixMembers(ops, Normalize(ops[i].key));
      OnExactly(ops, Normalize(ops[i].key), h);
      assert HasPrefix(k, Normalize(ops[i].key));
    }
  }

  // ------------------------------------------------------ in which order they run

  /** `hs` were put on `k` by the calls `at` from call `from` on, in order, and nothing else was. */
  ghost predicate KeptInOrder(ops: seq<Op>, k: string, hs: seq<Handler>, at: seq<nat>, from: nat := 0) {
    && |at| == |hs|
    && (forall i, j :: 0 <= i < j < |at| ==> at[i] < at[j])
    && (forall j :: 0 <= j < |at| ==>
          from <= at[j] < |ops| && Kept(ops, k, at[j]) && !ops[at[j]].Unregister? && hs[j] == ops[at[j]].handler)
    && (forall i: nat :: Kept(ops, k, i) && i >= from ==> i in at)
  }

  /** The handlers of a key run in the order of the calls that put them there. */
  lemma SurvivingInOrder(ops: seq<Op>, k: string) returns (at: seq<nat>)
    ensures KeptInOrder(ops, k, Surviving(ops, k), at)
  {
    at := SurvivingFrom(ops, k, 0);
    assert ops[0..] == ops;
  }

  lemma {:induction false} SurvivingFrom(ops: seq<Op>, k: string, from: nat) returns (at: seq<nat>)
    requires from <= |ops|
    ensures KeptInOrder(ops, k, Surviving(ops[from..], k), at, from)
    decreases |ops| - from
  {
    hide Normalize, Kept, RemovedIn, Adds, KeptInOrder;
    if from == |ops| {
      at := [];
      NothingKept(ops, k);
    } else {
      at := SurvivingFrom(ops, k, from + 1);
      KeptMeans(ops, k, from);
      assert ops[from..][1..] == ops[from + 1..] && ops[from..][0] == ops[from];
      KeptStep(ops, k, Surviving(ops[from + 1..], k), at, from);
      if Kept(ops, k, from) {
        KeptBound(ops, k, from);
        at := [from] + at;
      } else {
        assert [] + Surviving(ops[from + 1..], k) == Surviving(ops[from + 1..], k);
      }
    }
  }

  lemma NothingKept(ops: seq<Op>, k: string)
    ensures KeptInOrder(ops, k, [], [], |ops|)
  {
  }

  lemma KeptStep(ops: seq<Op>, k: string, hs: seq<Handler>, rest: seq<nat>, from: nat)
    requires from < |ops| && KeptInOrder(ops, k, hs, rest, from + 1)
    ensures Kept(ops, k, from) ==>
              !ops[from].Unregister? && KeptInOrder(ops, k, [ops[from].handler] + hs, [from] + rest, from)
    ensures !Kept(ops, k, from) ==> KeptInOrder(ops, k, hs, rest, from)
  {
    if Kept(ops, k, from) { KeptBound(ops, k, from); }
    hide Kept;
  }

  lemma KeptBound(ops: seq<Op>, k: string, i: nat)
    requires Kept(ops, k, i)
    ensures i < |ops| && !ops[i].Unregister? && Adds(ops[i], k)
  {
  }

  /** A handler that runs for a prefix: the call that recorded the prefix, and the call that put the handler on it. */
  datatype Spot = Spot(prefix: nat, call: nat)

  ghost predicate RunsFor(ops: seq<Op>, k: string, x: Spot) {
    && x.prefix < |ops| && ops[x.prefix].RegisterForKeyPrefix? && Normalize(ops[x.prefix].key) <= k
    && Kept(ops, Normalize(ops[x.prefix].key), x.call)
  }

  predicate Sooner(x: Spot, y: Spot) {
    x.prefix < y.prefix || (x.prefix == y.prefix && x.call < y.call)
  }

  /** The first `m` calls recorded the prefixes for which `hs` run, at `at`, in order and without omission. */
  ghost predicate RunAt(ops: seq<Op>, k: string, m: nat, hs: seq<Handler>, at: seq<Spot>) {
    InTurn(at) && OfSpots(ops, k, m, hs, at) && NoneMissing(ops, k, m, at)
  }

  ghost predicate InTurn(at: seq<Spot>) {
    forall i, j :: 0 <= i < j < |at| ==> Sooner(at[i], at[j])
  }

  ghost predicate OfSpots(ops: seq<Op>, k: string, m: nat, hs: seq<Handler>, at: seq<Spot>) {
    |at| == |hs| && forall j :: 0 <= j < |at| ==> OfSpot(ops, k, m, hs[j], at[j])
  }

  ghost predicate OfSpot(ops: seq<Op>, k: string, m: nat, h: Handler, x: Spot) {
    && RunsFor(ops, k, x) && x.prefix < m
    && x.call < |ops| && !ops[x.call].Unregister? && h == ops[x.call].handler
  }

  ghost predicate NoneMissing(ops: seq<Op>, k: string, m: nat, at: seq<Spot>) {
    forall x :: RunsFor(ops, k, x) && x.prefix < m ==> x in at
  }

  /**
   The order of a selection: for a key something was registered for, that of the calls; else
   prefix by prefix in the order they were recorded, one recorded twice counting twice, and for
   each in the order of the calls.
   */
  lemma SelectedInOrder(ops: seq<Op>, key: string) returns (calls: seq<nat>, at: seq<Spot>)
    ensures var k, hs := Normalize(key), Selected(ops, key);
            if EverOn(ops, k) then KeptInOrder(ops, k, hs, calls) else RunAt(ops, k, |ops|, hs, at)
  {
    hide Normalize, EverAdded, EverOn, Surviving, Prefixes, ByPrefix, RunAt, KeptInOrder;
    var k := Normalize(key);
    EverOnExactly(ops, k);
    calls := SurvivingInOrder(ops, k);
    at := ByPrefixInOrder(ops, |ops|, k);
    assert ops[..|ops|] == ops;
  }

  lemma {:induction false} ByPrefixInOrder(ops: seq<Op>, m: nat, k: string) returns (at: seq<Spot>)
    requires m <= |ops|
    ensures RunAt(ops, k, m, ByPrefix(ops, Prefixes(ops[..m]), k), at)
  {
    hide Normalize, Surviving, Kept, RunAt, KeptInOrder, Spots, HasPrefix, ByPrefix, Prefixes;
    if m == 0 {
      at := [];
      NoneRun(ops, k);
    } else {
      at := ByPrefixInOrder(ops, m - 1, k);
      var p, hs := Normalize(ops[m - 1].key), ByPrefix(ops, Prefixes(ops[..m - 1]), k);
      ByPrefixOne(ops, m, k);
      if ops[m - 1].RegisterForKeyPrefix? && HasPrefix(k, p) {
        var calls := SurvivingInOrder(ops, p);
        RunMore(ops, k, m, hs, at, Surviving(ops, p), calls);
        at := at + Spots(m - 1, calls);
      } else {
        RunNoMore(ops, k, m, hs, at);
      }
    }
  }

  /** What one more call adds to the lists of the recorded prefixes. */
  lemma ByPrefixOne(ops: seq<Op>, m: nat, k: string)
    requires 0 < m <= |ops|
    ensures var p, hs := Normalize(ops[m - 1].key), ByPrefix(ops, Prefixes(ops[..m - 1]), k);
            ByPrefix(ops, Prefixes(ops[..m]), k)
            == if ops[m - 1].RegisterForKeyPrefix? && HasPrefix(k, p) then hs + Surviving(ops, p) else hs
  {
    hide Normalize, Surviving, HasPrefix;
    assert ops[..m][..m - 1] == ops[..m - 1] && ops[..m][m - 1] == ops[m - 1];
    var p, ps := Normalize(ops[m - 1].key), Prefixes(ops[..m - 1]);
    if ops[m - 1].RegisterForKeyPrefix? {
      assert Prefixes(ops[..m]) == ps + [p] && (ps + [p])[..|ps|] == ps;
    } else {
      assert Prefixes(ops[..m]) == ps + [] == ps;
    }
  }

  function Spots(prefix: nat, calls: seq<nat>): (r: seq<Spot>)
    ensures |r| == |calls| && forall j :: 0 <= j < |r| ==> r[j] == Spot(prefix, calls[j])
  {
    seq(|calls|, j requires 0 <= j < |calls| => Spot(prefix, calls[j]))
  }

  lemma NoneRun(ops: seq<Op>, k: string)
    ensures RunAt(ops, k, 0, ByPrefix(ops, Prefixes(ops[..0]), k), [])
  {
  }

  lemma RunNoMore(ops: seq<Op>, k: string, m: nat, hs: seq<Handler>, at: seq<Spot>)
    requires 0 < m <= |ops| && RunAt(ops, k, m - 1, hs, at)
    requires !(ops[m - 1].RegisterForKeyPrefix? && HasPrefix(k, Normalize(ops[m - 1].key)))
    ensures RunAt(ops, k, m, hs, at)
  {
    hide Normalize, Kept;
  }

  lemma RunMore(ops: seq<Op>, k: string, m: nat, hs: seq<Handler>, before: seq<Spot>,
                added: seq<Handler>, calls: seq<nat>)
    requires 0 < m <= |ops| && RunAt(ops, k, m - 1, hs, before)
    requires ops[m - 1].RegisterForKeyPrefix? && HasPrefix(k, Normalize(ops[m - 1].key))
    requires KeptInOrder(ops, Normalize(ops[m - 1].key), added, calls)
    ensures RunAt(ops, k, m, hs + added, before + Spots(m - 1, calls))
  {
    hide Sooner, OfSpot, RunsFor, KeptInOrder, Spots, Normalize;
    var at := before + Spots(m - 1, calls);
    AddedInTurn(ops, k, m, hs, before, added, calls);
    AddedOfSpots(ops, k, m, added, calls);
    forall j | 0 <= j < |before| ensures OfSpot(ops, k, m, hs[j], before[j]) { SpotStays(ops, k, m, hs[j], before[j]); }
    forall x | RunsFor(ops, k, x) && x.prefix < m ensures x in at {
      if x.prefix == m - 1 { AddedAll(ops, k, m, added, calls, x); }
    }
  }

  lemma SpotStays(ops: seq<Op>, k: string, m: nat, h: Handler, x: Spot)
    requires m > 0 && OfSpot(ops, k, m - 1, h, x)
    ensures OfSpot(ops, k, m, h, x)
  {
  }

  lemma AddedInTurn(ops: seq<Op>, k: string, m: nat, hs: seq<Handler>, before: seq<Spot>,
                    added: seq<Handler>, calls: seq<nat>)
    requires 0 < m <= |ops| && RunAt(ops, k, m - 1, hs, before)
    requires KeptInOrder(ops, Normalize(ops[m - 1].key), added, calls)
    ensures InTurn(before + Spots(m - 1, calls))
  {
    hide Normalize, Kept, RunsFor, NoneMissing;
    var n, spots := |before|, Spots(m - 1, calls);
    assert forall i :: 0 <= i < n ==> OfSpot(ops, k, m - 1, hs[i], before[i]);
    assert forall i :: 0 <= i < |spots| ==> spots[i].prefix == m - 1;
  }

  lemma AddedOfSpots(ops: seq<Op>, k: string, m: nat, added: seq<Handler>, calls: seq<nat>)
    requires 0 < m <= |ops| && ops[m - 1].RegisterForKeyPrefix? && HasPrefix(k, Normalize(ops[m - 1].key))
    requires KeptInOrder(ops, Normalize(ops[m - 1].key), added, calls)
    ensures OfSpots(ops, k, m, added, Spots(m - 1, calls))
  {
    hide Normalize, Kept;
  }

  lemma AddedAll(ops: seq<Op>, k: string, m: nat, added: seq<Handler>, calls: seq<nat>, x: Spot)
    requires 0 < m <= |ops| && KeptInOrder(ops, Normalize(ops[m - 1].key), added, calls)
    requires RunsFor(ops, k, x) && x.prefix == m - 1
    ensures x in Spots(m - 1, calls)
  {
    hide Normalize, Kept;
    var j :| 0 <= j < |calls| && calls[j] == x.call;
    assert Spots(m - 1, calls)[j] == x;
  }

  // -------------------------------------------------------- the dispatcher

  class EventDispatcher {
    var registry: map<string, seq<Handler>>
    var keyPrefix: seq<string>
    /** The handler runs so far, in order. */
    var ran: seq<Ran>
    ghost var history: seq<Op>

    /** The tables are what the history of calls amounts to. */
    ghost predicate Valid()
      reads this
    {
      && (forall k :: k in registry <==> EverAdded(history, k))
      && (forall k :: k in registry ==> registry[k] == Surviving(history, k))
      && keyPrefix == Prefixes(history)
    }

    constructor ()
      ensures Valid() && history == [] && ran == []
    {
      registry, keyPrefix, ran, history := map[], [], [], [];
    }

    method Add(key: string, handler: Handler, ghost op: Op)
      requires Valid()
      requires op == Op.Register(key, handler) || op == Op.RegisterForKeyPrefix(key, handler)
      modifies this`registry
      ensures forall k :: k in registry <==> EverAdded(history + [op], k)
      ensures forall k :: k in registry ==> registry[k] == Surviving(history + [op], k)
    {
      hide Normalize, Surviving, EverAdded;
      var formatted := Normalize(key);
      HistoryStep(history, op);
      SurvivesIfAdded(history, formatted);
      if formatted in registry {
        registry := registry[formatted := registry[formatted] + [handler]];
      } else {
        registry := registry[formatted := [handler]];
      }
    }

    method Register(key: string, handler: Handler)
      requires Valid()
      modifies this`registry, this`history
      ensures Valid() && history == old(history) + [Op.Register(key, handler)]
    {
      hide Surviving, EverAdded;
      ghost var op := Op.Register(key, handler);
      Add(key, handler, op);
      assert (history + [op])[..|history|] == history;
      history := history + [op];
    }

    method RegisterForKeyPrefix(prefix: string, handler: Handler)
      requires Valid()
      modifies this`registry, this`keyPrefix, this`history
      ensures Valid() && history == old(history) + [Op.RegisterForKeyPrefix(prefix, handler)]
    {
      hide Surviving, EverAdded;
      ghost var op := Op.RegisterForKeyPrefix(prefix, handler);
      Add(prefix, handler, op);
      assert (history + [op])[..|history|] == history;
      keyPrefix := keyPrefix + [Normalize(prefix)];
      history := history + [op];
    }

    method Unregister(key: string, handler: Handler)
      requires Valid()
      modifies this`registry, this`history
      ensures Valid() && history == old(history) + [Op.Unregister(key, handler.identity)]
    {
      hide Normalize, Surviving, EverAdded;
      ghost var op := Op.Unregister(key, handler.identity);
      HistoryStep(history, op);
      assert (history + [op])[..|history|] == history;
      history := history + [op];
      var formatted := Normalize(key);
      if formatted !in registry {
        return;
      }
      var newGroup := Filtered(registry[formatted], handler.identity);
      registry := registry[formatted := newGroup];
    }

    static method Filtered(group: seq<Handler>, identity: string) returns (newGroup: seq<Handler>)
      ensures newGroup == Without(group, identity)
    {
      newGroup := [];
      for i := 0 to |group|
        invariant newGroup == Without(group[..i], identity)
      {
        WithoutConcat(group[..i], [group[i]], identity);
        assert group[..i + 1] == group[..i] + [group[i]];
        if group[i].identity == identity {
          continue;
        }
        newGroup := newGroup + [group[i]];
      }
      assert group[..|group|] == group;
    }

    /** Runs exactly the selected handlers, in order, on the event as it is now. */
    method Dispatch(event: Event)
      requires Valid()
      modifies this`ran
      ensures Valid()
      ensures ran == old(ran) + RunEach(Selected(history, event.key), event.Info())
    {
      hide Normalize, Surviving, EverAdded, Prefixes;
      var realKey := Normalize(event.key);
      var hs := [];
      if realKey in registry {
        hs := registry[realKey];
      } else {
        for i := 0 to |keyPrefix|
          invariant ran == old(ran)
          invariant hs == ByPrefix(history, keyPrefix[..i], realKey)
        {
          var v := keyPrefix[i];
          assert keyPrefix[..i + 1][..i] == keyPrefix[..i];
          PrefixesAdded(history, v);
          if HasPrefix(realKey, v) {
            if v in registry {
              hs := hs + registry[v];
            }
          }
        }
        assert keyPrefix[..|keyPrefix|] == keyPrefix;
      }
      assert hs[..0] == [] && old(ran) + RunEach([], event.Info()) == old(ran);
      for i := 0 to |hs|
        invariant ran == old(ran) + RunEach(hs[..i], event.Info())
      {
        ran := ran + [Ran(hs[i], event.Info())];
      }
      assert hs[..|hs|] == hs;
    }
  }

  function RunEach(hs: seq<Handler>, event: EventInfo): (r: seq<Ran>)
    ensures |r| == |hs| && forall i :: 0 <= i < |r| ==> r[i] == Ran(hs[i], event)
  {
    seq(|hs|, i requires 0 <= i < |hs| => Ran(hs[i], event))
  }

  /** Everything a batch of dispatched events makes the dispatcher run, in order. */
  ghost function RunsOf(history: seq<Op>, log: seq<EventInfo>): seq<Ran> {
    if log == [] then []
    else
      var last := log[|log| - 1];
      RunsOf(history, log[..|log| - 1]) + RunEach(Selected(history, last.key), last)
  }

  lemma {:induction false} SurvivesIfAdded(ops: seq<Op>, k: string)
    ensures !EverAdded(ops, k) ==> Surviving(ops, k) == []
  {
    if ops != [] && !EverAdded(ops, k) {
      assert !Adds(ops[0], k);
      forall i | 0 <= i < |ops[1..]| ensures !Adds(ops[1..][i], k) {
        assert ops[1..][i] == ops[i + 1];
      }
      SurvivesIfAdded(ops[1..], k);
    }
  }
}
