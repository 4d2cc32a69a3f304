/** The replay loop: a stream of message packs turned into client calls. */
module Replay {
  import opened Options

  /** What a field's data or a list of primary keys holds; conversion decides what it is worth. */
  type Payload = nat

  datatype FieldData = FieldData(name: string, data: Payload)

  datatype Column = Column(id: nat)

  datatype Message =
    | Insert(collectionID: int, collectionName: string, partition: string, fields: seq<FieldData>, numRows: int)
    | Delete(collectionID: int, collectionName: string, partition: string, keys: Payload, numRows: int)
    | DropCollection(collectionID: int)
    | Other

  datatype Pack = Pack(beginTs: nat, msgs: seq<Message>)

  datatype Call =
    | InsertCall(collection: string, partition: string, columns: seq<Column>)
    | DeleteByPks(collection: string, partition: string, keys: Column)

  /** The flags, the time the replay was started, and the conversions it uses. */
  datatype Params = Params(
    collectionID: int, collectionName: string, autoIDFieldName: string, startTime: int,
    unixOf: nat -> int,
    fieldColumn: (FieldData, int) -> Option<Column>,
    idColumn: (Payload, int) -> Option<Column>)

  /** The client: what was asked of it. A call may fail; the replay goes on all the same. */
  class Client {
    var calls: seq<Call>

    constructor ()
      ensures calls == []
    {
      calls := [];
    }

    method Issue(call: Call) returns (ok: bool)
      modifies this
      ensures calls == old(calls) + [call]
    {
      calls := calls + [call];
      ok := *;
    }
  }

  // ------------------------------------------------------- specification

  predicate Late(p: Params, pack: Pack) {
    p.unixOf(pack.beginTs) >= p.startTime
  }

  predicate Drops(p: Params, m: Message) {
    m.DropCollection? && m.collectionID == p.collectionID
  }

  /** The fields of an insert that are not the automatic id. */
  function Wanted(p: Params, fields: seq<FieldData>): seq<FieldData> {
    if fields == [] then []
    else Wanted(p, fields[..|fields| - 1])
         + if fields[|fields| - 1].name != p.autoIDFieldName then [fields[|fields| - 1]] else []
  }

  /** All the columns, if every conversion succeeds. */
  function ConvertAll(p: Params, fields: seq<FieldData>, rows: int): Option<seq<Column>> {
    if fields == [] then Some([])
    else match ConvertAll(p, fields[..|fields| - 1], rows)
      case None => None
      case Some(columns) =>
        match p.fieldColumn(fields[|fields| - 1], rows)
        case None => None
        case Some(c) => Some(columns + [c])
  }

  /** The fields that are converted: none at all when no automatic id field is named. */
  function Sent(p: Params, fields: seq<FieldData>): seq<FieldData> {
    if p.autoIDFieldName == "" then [] else Wanted(p, fields)
  }

  /** The call one message stands for, if any. */
  function CallOf(p: Params, m: Message): (r: seq<Call>)
    ensures |r| <= 1
  {
    match m
    case Insert(id, name, partition, fields, rows) =>
      if id != p.collectionID || name != p.collectionName then []
      else (match ConvertAll(p, Sent(p, fields), rows)
            case None => []
            case Some(columns) => [InsertCall(name, partition, columns)])
    case Delete(id, name, partition, keys, rows) =>
      if id != p.collectionID || name != p.collectionName then []
      else (match p.idColumn(keys, rows)
            case None => []
            case Some(c) => [DeleteByPks(name, partition, c)])
    case DropCollection(_) => []
    case Other => []
  }

  /** The calls of messages, in order. */
  function CallsOf(p: Params, msgs: seq<Message>): seq<Call> {
    if msgs == [] then [] else CallsOf(p, msgs[..|msgs| - 1]) + CallOf(p, msgs[|msgs| - 1])
  }

  function Flatten(packs: seq<Pack>): seq<Message> {
    if packs == [] then [] else Flatten(packs[..|packs| - 1]) + packs[|packs| - 1].msgs
  }

  /**
   The replay is over at pack `a`, message `b`: a pack up to it begins at the start time or
   later, or a message up to it drops the collection.
   */
  ghost predicate OverAt(p: Params, packs: seq<Pack>, a: nat, b: nat)
    requires a < |packs| && b < |packs[a].msgs|
  {
    || (exists i :: 0 <= i <= a && p.unixOf(packs[i].beginTs) >= p.startTime)
    || (exists i, j :: 0 <= i <= a && 0 <= j < |packs[i].msgs| && (i < a || j <= b)
                       && packs[i].msgs[j] == DropCollection(p.collectionID))
  }

  ghost predicate DropsIn(p: Params, msgs: seq<Message>) {
    exists j :: 0 <= j < |msgs| && Drops(p, msgs[j])
  }

  /** `msgs` up to the first message that drops the collection. */
  function UpToDrop(p: Params, msgs: seq<Message>): (r: seq<Message>)
    ensures r <= msgs && !DropsIn(p, r)
    ensures r == msgs <==> !DropsIn(p, msgs)
    ensures r != msgs ==> Drops(p, msgs[|r|])
  {
    if msgs == [] then []
    else
      var before := UpToDrop(p, msgs[..|msgs| - 1]);
      if |before| < |msgs| - 1 || Drops(p, msgs[|msgs| - 1]) then before else msgs
  }

  /** The packs up to the first late one. */
  function UpToLate(p: Params, packs: seq<Pack>): (r: seq<Pack>)
    ensures r <= packs && forall i :: 0 <= i < |r| ==> !Late(p, r[i])
    ensures r != packs ==> Late(p, packs[|r|])
  {
    if packs == [] then []
    else
      var before := UpToLate(p, packs[..|packs| - 1]);
      if |before| < |packs| - 1 || Late(p, packs[|packs| - 1]) then before else packs
  }

  /** The messages the replay acts on. */
  function Window(p: Params, packs: seq<Pack>): seq<Message> {
    UpToDrop(p, Flatten(UpToLate(p, packs)))
  }

  // ------------------------------------------------------------ the program

  /** The columns of an insert; conversion stops at the first field that fails. */
  method Columns(p: Params, fields: seq<FieldData>, rows: int) returns (r: Option<seq<Column>>)
    ensures r == ConvertAll(p, Sent(p, fields), rows)
  {
    hide Wanted, ConvertAll;
    var columns := [];
    NothingSent(p, rows);
    for i := 0 to |fields|
      invariant ConvertAll(p, Sent(p, fields[..i]), rows) == Some(columns)
    {
      var fd := fields[i];
      SentOne(p, fields, i, rows);
      if |p.autoIDFieldName| != 0 && p.autoIDFieldName != fd.name {
        var column := p.fieldColumn(fd, rows);
        if column == None {
          SentFails(p, fields, i + 1, rows);
          return None;
        }
        columns := columns + [column.value];
      }
    }
    assert fields[..|fields|] == fields;
    return Some(columns);
  }

  lemma NothingSent(p: Params, rows: int)
    ensures ConvertAll(p, Sent(p, []), rows) == Some([])
  {
  }

  lemma SentOne(p: Params, fields: seq<FieldData>, i: nat, rows: int)
    requires i < |fields| && ConvertAll(p, Sent(p, fields[..i]), rows).Some?
    ensures var done, fd := ConvertAll(p, Sent(p, fields[..i]), rows).value, fields[i];
            ConvertAll(p, Sent(p, fields[..i + 1]), rows)
            == if p.autoIDFieldName == "" || fd.name == p.autoIDFieldName then Some(done)
               else match p.fieldColumn(fd, rows) case None => None case Some(c) => Some(done + [c])
  {
    assert fields[..i + 1][..i] == fields[..i];
    var w, f := Wanted(p, fields[..i]), fields[i];
    assert Wanted(p, fields[..i + 1]) == w + if f.name != p.autoIDFieldName then [f] else [];
    assert w + [] == w;
    assert (w + [f])[..|w|] == w && (w + [f])[|w|] == f;
  }

  /** A field that fails makes the whole insert fail. */
  lemma {:induction false} SentFails(p: Params, fields: seq<FieldData>, i: nat, rows: int)
    requires i <= |fields| && ConvertAll(p, Sent(p, fields[..i]), rows) == None
    ensures ConvertAll(p, Sent(p, fields), rows) == None
    decreases |fields| - i
  {
    if i == |fields| {
      assert fields[..i] == fields;
    } else {
      assert fields[..i + 1][..i] == fields[..i];
      var w, f := Wanted(p, fields[..i]), fields[i];
      assert Wanted(p, fields[..i + 1]) == w + if f.name != p.autoIDFieldName then [f] else [];
      assert w + [] == w;
      assert (w + [f])[..|w|] == w && (w + [f])[|w|] == f;
      SentFails(p, fields, i + 1, rows);
    }
  }

  /** One message; true means that the collection is gone and the replay over. */
  method Handle(p: Params, m: Message, client: Client) returns (over: bool)
    modifies client
    ensures over == Drops(p, m)
    ensures client.calls == old(client.calls) + CallOf(p, m)
  {
    over := false;
    match m {
      case Insert(id, name, partition, fields, rows) =>
        if p.collectionID != id || p.collectionName != name {
          return;
        }
        var columns := Columns(p, fields, rows);
        if columns == None {
          return;
        }
        var _ := client.Issue(InsertCall(name, partition, columns.value));
      case Delete(id, name, partition, keys, rows) =>
        if p.collectionID != id || p.collectionName != name {
          return;
        }
        var column := p.idColumn(keys, rows);
        if column == None {
          return;
        }
        var _ := client.Issue(DeleteByPks(name, partition, column.value));
      case DropCollection(id) =>
        over := p.collectionID == id;
      case Other =>
    }
  }

  /** The whole loop: exactly the calls of the messages in the window, whatever calls fail. */
  method Run(p: Params, stream: seq<Pack>, client: Client)
    modifies client
    ensures client.calls == old(client.calls) + CallsOf(p, Window(p, stream))
    ensures Asked(p, stream, client.calls[|old(client.calls)|..])
  {
    hide CallOf, CallsOf, Flatten, UpToDrop, UpToLate, Drops, Late, AskedAt;
    ghost var before := client.calls;
    ghost var at := ReplayExactly(p, stream);
    WindowStart(p);
    for a := 0 to |stream|
      invariant UpToLate(p, stream[..a]) == stream[..a]
      invariant UpToDrop(p, Flatten(stream[..a])) == Flatten(stream[..a])
      invariant client.calls == before + CallsOf(p, Flatten(stream[..a]))
    {
      var pack := stream[a];
      ghost var earlier := Flatten(stream[..a]);
      PackStep(p, stream, a);
      if Late(p, pack) {
        return;
      }
      assert earlier + pack.msgs[..0] == earlier;
      for b := 0 to |pack.msgs|
        invariant UpToDrop(p, earlier + pack.msgs[..b]) == earlier + pack.msgs[..b]
        invariant client.calls == before + CallsOf(p, earlier + pack.msgs[..b])
      {
        MessageStep(p, earlier, pack.msgs, b);
        var over := Handle(p, pack.msgs[b], client);
        if over {
          WindowAtDrop(p, stream, a, b);
          assert CallOf(p, pack.msgs[b]) == [] by { DropIsNoCall(p, pack.msgs[b]); }
          return;
        }
      }
      assert pack.msgs[..|pack.msgs|] == pack.msgs;
    }
    assert stream[..|stream|] == stream;
  }

  lemma WindowStart(p: Params)
    ensures UpToLate(p, []) == [] && Flatten([]) == [] && UpToDrop(p, []) == [] && CallsOf(p, []) == []
  {
  }

  lemma DropIsNoCall(p: Params, m: Message)
    ensures Drops(p, m) ==> CallOf(p, m) == []
  {
  }

  /** One pack more: the packs up to the first late one grow by it, or have ended for good. */
  lemma PackStep(p: Params, stream: seq<Pack>, a: nat)
    requires a < |stream| && UpToLate(p, stream[..a]) == stream[..a]
    requires UpToDrop(p, Flatten(stream[..a])) == Flatten(stream[..a])
    ensures Late(p, stream[a]) ==> Window(p, stream) == Flatten(stream[..a])
    ensures !Late(p, stream[a]) ==> UpToLate(p, stream[..a + 1]) == stream[..a + 1]
    ensures Flatten(stream[..a + 1]) == Flatten(stream[..a]) + stream[a].msgs
  {
    hide UpToDrop, Flatten, Late;
    assert stream[..a + 1][..a] == stream[..a];
    FlattenOne(stream, a);
    if Late(p, stream[a]) {
      LateEnds(p, stream, a);
    }
  }

  lemma FlattenOne(stream: seq<Pack>, a: nat)
    requires a < |stream|
    ensures Flatten(stream[..a + 1]) == Flatten(stream[..a]) + stream[a].msgs
  {
    assert stream[..a + 1][..a] == stream[..a];
  }

  lemma LateEnds(p: Params, stream: seq<Pack>, a: nat)
    requires a < |stream| && Late(p, stream[a]) && UpToLate(p, stream[..a]) == stream[..a]
    ensures UpToLate(p, stream) == stream[..a]
  {
    hide Late;
    var r := UpToLate(p, stream);
    assert forall i :: 0 <= i < |r| ==> r[i] == stream[i];
    assert forall i :: 0 <= i < a ==> stream[..a][i] == stream[i];
  }

  /** One message more. */
  lemma MessageStep(p: Params, earlier: seq<Message>, msgs: seq<Message>, b: nat)
    requires b < |msgs| && UpToDrop(p, earlier + msgs[..b]) == earlier + msgs[..b]
    ensures CallsOf(p, earlier + msgs[..b + 1]) == CallsOf(p, earlier + msgs[..b]) + CallOf(p, msgs[b])
    ensures !Drops(p, msgs[b]) ==> UpToDrop(p, earlier + msgs[..b + 1]) == earlier + msgs[..b + 1]
  {
    hide CallOf, Drops;
    var before, after := earlier + msgs[..b], earlier + msgs[..b + 1];
    assert after[..|after| - 1] == before && after[|after| - 1] == msgs[b];
  }

  /** A message that drops the collection ends the window right before it. */
  lemma WindowAtDrop(p: Params, stream: seq<Pack>, a: nat, b: nat)
    requires a < |stream| && b < |stream[a].msgs| && Drops(p, stream[a].msgs[b])
    requires UpToLate(p, stream[..a + 1]) == stream[..a + 1]
    requires var earlier := Flatten(stream[..a]) + stream[a].msgs[..b]; UpToDrop(p, earlier) == earlier
    ensures Window(p, stream) == Flatten(stream[..a]) + stream[a].msgs[..b]
  {
    hide UpToDrop, Drops, UpToLate, Late, Flatten;
    var whole, earlier := Flatten(UpToLate(p, stream)), Flatten(stream[..a]) + stream[a].msgs[..b];
    LatePrefix(p, stream, a + 1);
    FlattenPrefix(UpToLate(p, stream), a + 1);
    FlattenOne(stream, a);
    var start := Flatten(stream[..a + 1]);
    assert start[..|earlier|] == earlier && start[|earlier|] == stream[a].msgs[b];
    assert whole[..|earlier|] == earlier && whole[|earlier|] == stream[a].msgs[b];
    DropEnds(p, whole, |earlier|);
  }

  lemma LatePrefix(p: Params, stream: seq<Pack>, n: nat)
    requires n <= |stream| && UpToLate(p, stream[..n]) == stream[..n]
    ensures |UpToLate(p, stream)| >= n && UpToLate(p, stream)[..n] == stream[..n]
  {
    hide Late;
    assert forall i :: 0 <= i < n ==> stream[..n][i] == stream[i];
  }

  lemma {:induction false} FlattenPrefix(packs: seq<Pack>, n: nat)
    requires n <= |packs|
    ensures Flatten(packs[..n]) <= Flatten(packs)
    decreases |packs| - n
  {
    if n == |packs| {
      assert packs[..n] == packs;
    } else {
      FlattenOne(packs, n);
      FlattenPrefix(packs, n + 1);
    }
  }

  lemma DropEnds(p: Params, msgs: seq<Message>, n: nat)
    requires n < |msgs| && Drops(p, msgs[n]) && UpToDrop(p, msgs[..n]) == msgs[..n]
    ensures UpToDrop(p, msgs) == msgs[..n]
  {
    hide Drops;
    var r := UpToDrop(p, msgs);
    assert forall i :: 0 <= i < |r| ==> r[i] == msgs[i];
    assert forall i :: 0 <= i < n ==> msgs[..n][i] == msgs[i];
  }

  // -------------------------------------------------------- what it amounts to

  /**
   In stream order and at most once each: the calls are those of messages at increasing
   positions, and every message that stands for a call is among them.
   */
  lemma {:induction false} CallsInOrder(p: Params, msgs: seq<Message>) returns (positions: seq<nat>)
    ensures |positions| == |CallsOf(p, msgs)|
    ensures forall i, j :: 0 <= i < j < |positions| ==> positions[i] < positions[j]
    ensures forall j :: 0 <= j < |positions| ==>
              positions[j] < |msgs| && CallOf(p, msgs[positions[j]]) == [CallsOf(p, msgs)[j]]
    ensures forall i :: 0 <= i < |msgs| && CallOf(p, msgs[i]) != [] ==> i in positions
  {
    hide CallOf;
    if msgs == [] {
      positions := [];
    } else {
      var before, last := msgs[..|msgs| - 1], msgs[|msgs| - 1];
      positions := CallsInOrder(p, before);
      if CallOf(p, last) != [] {
        positions := positions + [|before|];
      }
    }
  }

  /** The position in the stream of message `b` of pack `a`. */
  function Position(packs: seq<Pack>, a: nat, b: nat): nat
    requires a < |packs|
  {
    |Flatten(packs[..a])| + b
  }

  /** The replay acts on a message exactly if it is not over when the message comes. */
  lemma WindowExactly(p: Params, packs: seq<Pack>, a: nat, b: nat)
    requires a < |packs| && b < |packs[a].msgs|
    ensures Position(packs, a, b) < |Window(p, packs)| <==> !OverAt(p, packs, a, b)
    ensures Position(packs, a, b) < |Window(p, packs)| ==> Window(p, packs)[Position(packs, a, b)] == packs[a].msgs[b]
  {
    hide Drops, Late, UpToLate, UpToDrop, Flatten, DropsIn;
    OverExactly(p, packs, a, b);
    var live := UpToLate(p, packs);
    if |live| <= a {
      FlattenPrefix(packs[..a], |live|);
      assert packs[..a][..|live|] == live;
    } else {
      var all, n := Flatten(live), Position(packs, a, b);
      assert live[..a] == packs[..a] && live[a] == packs[a];
      FlattenOne(live, a);
      FlattenPrefix(live, a + 1);
      assert all[n] == packs[a].msgs[b];
      DropPosition(p, packs, live, a, b);
      assert DropsIn(p, all[..n + 1]) <==> OverAt(p, packs, a, b);
      UpToDropExactly(p, all, n);
    }
  }

  lemma UpToDropExactly(p: Params, msgs: seq<Message>, n: nat)
    requires n < |msgs|
    ensures n < |UpToDrop(p, msgs)| <==> !DropsIn(p, msgs[..n + 1])
  {
    hide Drops;
    var r := UpToDrop(p, msgs);
    if n < |r| {
      assert forall j :: 0 <= j < n + 1 ==> r[j] == msgs[j];
    } else {
      assert msgs[..n + 1][|r|] == msgs[|r|];
    }
  }

  /** A drop up to a message is one in an earlier pack or one up to it in its own. */
  lemma DropPosition(p: Params, packs: seq<Pack>, live: seq<Pack>, a: nat, b: nat)
    requires a < |live| && live <= packs && b < |packs[a].msgs|
    requires forall i :: 0 <= i < |live| ==> !Late(p, live[i])
    requires |Flatten(live)| > Position(packs, a, b) && Flatten(live[..a + 1]) <= Flatten(live)
    ensures DropsIn(p, Flatten(live)[..Position(packs, a, b) + 1]) <==> OverAt(p, packs, a, b)
  {
    hide Drops, Late, Flatten;
    assert live[..a] == packs[..a];
    FlattenOne(live, a);
    var earlier, own := Flatten(packs[..a]), packs[a].msgs[..b + 1];
    assert Flatten(live)[..Position(packs, a, b) + 1] == earlier + own;
    DropsInConcat(p, earlier, own);
    DropsInFlatten(p, packs[..a]);
    assert forall i :: 0 <= i <= a ==> packs[i] == live[i];
    assert forall i :: 0 <= i < a ==> packs[..a][i] == packs[i];
    OverExactly(p, packs, a, b);
  }

  lemma OverExactly(p: Params, packs: seq<Pack>, a: nat, b: nat)
    requires a < |packs| && b < |packs[a].msgs|
    ensures OverAt(p, packs, a, b)
       <==> || (exists i :: 0 <= i <= a && Late(p, packs[i]))
            || (exists i :: 0 <= i < a && DropsIn(p, packs[i].msgs))
            || DropsIn(p, packs[a].msgs[..b + 1])
  {
    if i :| 0 <= i <= a && p.unixOf(packs[i].beginTs) >= p.startTime {
      assert Late(p, packs[i]);
    }
    if i, j :| 0 <= i <= a && 0 <= j < |packs[i].msgs| && (i < a || j <= b)
               && packs[i].msgs[j] == DropCollection(p.collectionID) {
      assert i < a ==> DropsIn(p, packs[i].msgs);
      assert i == a ==> packs[a].msgs[..b + 1][j] == packs[i].msgs[j];
    }
  }

  lemma DropsInConcat(p: Params, x: seq<Message>, y: seq<Message>)
    ensures DropsIn(p, x + y) <==> DropsIn(p, x) || DropsIn(p, y)
  {
    hide Drops;
    if DropsIn(p, x) {
      var j :| 0 <= j < |x| && Drops(p, x[j]);
      assert (x + y)[j] == x[j];
    }
    if DropsIn(p, y) {
      var j :| 0 <= j < |y| && Drops(p, y[j]);
      assert (x + y)[|x| + j] == y[j];
    }
  }

  lemma {:induction false} DropsInFlatten(p: Params, packs: seq<Pack>)
    ensures DropsIn(p, Flatten(packs)) <==> exists i :: 0 <= i < |packs| && DropsIn(p, packs[i].msgs)
  {
    hide DropsIn;
    if packs == [] {
      assert !DropsIn(p, []) by { NoDrops(p); }
    } else {
      var before := packs[..|packs| - 1];
      DropsInFlatten(p, before);
      DropsInConcat(p, Flatten(before), packs[|packs| - 1].msgs);
      if DropsIn(p, Flatten(before)) {
        var i :| 0 <= i < |before| && DropsIn(p, before[i].msgs);
        assert DropsIn(p, packs[i].msgs);
      }
      assert forall i :: 0 <= i < |before| ==> before[i] == packs[i];
    }
  }

  lemma NoDrops(p: Params)
    ensures !DropsIn(p, [])
  {
  }

  // -------------------------------------------- what is issued, from the messages

  /** The field goes into an insert: an automatic id is named, and this is not it. */
  predicate Goes(p: Params, f: FieldData) {
    p.autoIDFieldName != "" && f.name != p.autoIDFieldName
  }

  /** `columns` are the conversions of the fields at `at`, in order, and these are all that go into the insert. */
  ghost predicate ConvertsAt(p: Params, fields: seq<FieldData>, rows: int, columns: seq<Column>, at: seq<nat>) {
    && |at| == |columns|
    && (forall i, j :: 0 <= i < j < |at| ==> at[i] < at[j])
    && (forall j :: 0 <= j < |at| ==> at[j] < |fields| && p.fieldColumn(fields[at[j]], rows) == Some(columns[j]))
    && (forall i :: 0 <= i < |fields| ==> (i in at <==> Goes(p, fields[i])))
  }

  ghost predicate Converts(p: Params, fields: seq<FieldData>, rows: int, columns: seq<Column>) {
    exists at :: ConvertsAt(p, fields, rows, columns, at)
  }

  /** What a message of the collection asks for, by id and by name. */
  ghost predicate Asks(p: Params, m: Message, c: Call) {
    match m
    case Insert(id, name, partition, fields, rows) =>
      && id == p.collectionID && name == p.collectionName
      && c.InsertCall? && c.collection == name && c.partition == partition && Converts(p, fields, rows, c.columns)
    case Delete(id, name, partition, keys, rows) =>
      && id == p.collectionID && name == p.collectionName
      && c.DeleteByPks? && c.collection == name && c.partition == partition && p.idColumn(keys, rows) == Some(c.keys)
    case DropCollection(_) => false
    case Other => false
  }

  lemma {:induction false} ConvertsExactly(p: Params, fields: seq<FieldData>, rows: int, columns: seq<Column>)
    ensures ConvertAll(p, Sent(p, fields), rows) == Some(columns) <==> Converts(p, fields, rows, columns)
    decreases |fields|
  {
    hide ConvertAll, Sent, ConvertsAt;
    if fields == [] {
      NothingSent(p, rows);
      NothingConverts(p, rows, columns);
    } else {
      var n, f := |fields| - 1, fields[|fields| - 1];
      assert fields[..n + 1] == fields;
      var fewer := if Goes(p, f) && columns != [] then columns[..|columns| - 1] else columns;
      ConvertsExactly(p, fields[..n], rows, fewer);
      ConvertsOne(p, fields, rows, columns);
      if ConvertAll(p, Sent(p, fields[..n]), rows) == None {
        SentFails(p, fields, n, rows);
      } else {
        SentOne(p, fields, n, rows);
        assert columns != [] ==> columns == columns[..|columns| - 1] + [columns[|columns| - 1]];
      }
    }
  }

  lemma NothingConverts(p: Params, rows: int, columns: seq<Column>)
    ensures Converts(p, [], rows, columns) <==> columns == []
  {
    if columns == [] {
      assert ConvertsAt(p, [], rows, columns, []);
    } else {
      forall at ensures !ConvertsAt(p, [], rows, columns, at) {
        if |at| == |columns| && at[0] < 0 {
          assert false;
        }
      }
    }
  }

  /** One field more: its column comes last if it goes into the insert. */
  lemma ConvertsOne(p: Params, fields: seq<FieldData>, rows: int, columns: seq<Column>)
    requires fields != []
    ensures var before, f, n := fields[..|fields| - 1], fields[|fields| - 1], |columns| - 1;
            Converts(p, fields, rows, columns)
            <==> if Goes(p, f) then columns != [] && p.fieldColumn(f, rows) == Some(columns[n])
                                    && Converts(p, before, rows, columns[..n])
                 else Converts(p, before, rows, columns)
  {
    hide ConvertsAt, Goes;
    var before, f := fields[..|fields| - 1], fields[|fields| - 1];
    if !Goes(p, f) {
      forall at ensures ConvertsAt(p, fields, rows, columns, at) <==> ConvertsAt(p, before, rows, columns, at) {
        FieldStays(p, fields, rows, columns, at);
      }
    } else if columns == [] {
      forall at ensures !ConvertsAt(p, fields, rows, columns, at) {
        if ConvertsAt(p, fields, rows, columns, at) {
          FieldGoes(p, fields, rows, columns, at);
        }
      }
    } else {
      var fewer := columns[..|columns| - 1];
      if at :| ConvertsAt(p, fields, rows, columns, at) {
        FieldGoes(p, fields, rows, columns, at);
        assert ConvertsAt(p, before, rows, fewer, at[..|columns| - 1]);
      }
      if p.fieldColumn(f, rows) == Some(columns[|columns| - 1]) && Converts(p, before, rows, fewer) {
        var at: seq<nat> :| ConvertsAt(p, before, rows, fewer, at);
        FieldAdded(p, fields, rows, columns, at);
        assert ConvertsAt(p, fields, rows, columns, at + [|fields| - 1]);
      }
    }
  }

  lemma FieldStays(p: Params, fields: seq<FieldData>, rows: int, columns: seq<Column>, at: seq<nat>)
    requires fields != [] && !Goes(p, fields[|fields| - 1])
    ensures ConvertsAt(p, fields, rows, columns, at) <==> ConvertsAt(p, fields[..|fields| - 1], rows, columns, at)
  {
    hide Goes;
    var n := |fields| - 1;
    if ConvertsAt(p, fields, rows, columns, at) {
      assert n !in at;
      forall j | 0 <= j < |at| ensures at[j] < n { assert at[j] in at; }
    }
    if ConvertsAt(p, fields[..n], rows, columns, at) {
      assert n !in at;
    }
  }

  lemma FieldGoes(p: Params, fields: seq<FieldData>, rows: int, columns: seq<Column>, at: seq<nat>)
    requires fields != [] && Goes(p, fields[|fields| - 1]) && ConvertsAt(p, fields, rows, columns, at)
    ensures |at| == |columns| > 0 && p.fieldColumn(fields[|fields| - 1], rows) == Some(columns[|columns| - 1])
    ensures ConvertsAt(p, fields[..|fields| - 1], rows, columns[..|columns| - 1], at[..|columns| - 1])
  {
    hide Goes;
    var n := |fields| - 1;
    assert n in at;
    var j :| 0 <= j < |at| && at[j] == n;
    assert at[|at| - 1] < |fields|;
    forall i | 0 <= i < n ensures i in at[..j] <==> i in at {
      if i in at { var x :| 0 <= x < |at| && at[x] == i; assert at[..j][x] == i; }
    }
  }

  lemma FieldAdded(p: Params, fields: seq<FieldData>, rows: int, columns: seq<Column>, at: seq<nat>)
    requires fields != [] && Goes(p, fields[|fields| - 1])
    requires columns != [] && p.fieldColumn(fields[|fields| - 1], rows) == Some(columns[|columns| - 1])
    requires ConvertsAt(p, fields[..|fields| - 1], rows, columns[..|columns| - 1], at)
    ensures ConvertsAt(p, fields, rows, columns, at + [|fields| - 1])
  {
    hide Goes;
  }

  /** The model of one message issues exactly what the message asks for. */
  lemma CallExactly(p: Params, m: Message, c: Call)
    ensures CallOf(p, m) == [c] <==> Asks(p, m, c)
  {
    hide Converts, ConvertAll, Sent;
    if m.Insert? && c.InsertCall? {
      ConvertsExactly(p, m.fields, m.numRows, c.columns);
    }
  }

  /** A message's place in the stream. */
  datatype Place = Place(pack: nat, msg: nat)

  /** `x` comes before `y` in the stream: in an earlier pack, or earlier in the same. */
  predicate Earlier(x: Place, y: Place) {
    x.pack < y.pack || (x.pack == y.pack && x.msg < y.msg)
  }

  /** There is such a message, and the replay is not over when it comes. */
  ghost predicate Live(p: Params, packs: seq<Pack>, x: Place) {
    x.pack < |packs| && x.msg < |packs[x.pack].msgs| && !OverAt(p, packs, x.pack, x.msg)
  }

  /**
   The calls are what the live messages at `at` ask for, in stream order, and no live message
   that asks for a call is left out.
   */
  ghost predicate AskedAt(p: Params, packs: seq<Pack>, calls: seq<Call>, at: seq<Place>) {
    && |at| == |calls|
    && (forall i, j :: 0 <= i < j < |at| ==> Earlier(at[i], at[j]))
    && (forall j :: 0 <= j < |at| ==>
          Live(p, packs, at[j]) && Asks(p, packs[at[j].pack].msgs[at[j].msg], calls[j]))
    && (forall x: Place, c :: Live(p, packs, x) && Asks(p, packs[x.pack].msgs[x.msg], c) ==> x in at)
  }

  ghost predicate Asked(p: Params, packs: seq<Pack>, calls: seq<Call>) {
    exists at :: AskedAt(p, packs, calls, at)
  }

  /** The whole replay, message by message. */
  lemma ReplayExactly(p: Params, packs: seq<Pack>) returns (at: seq<Place>)
    ensures AskedAt(p, packs, CallsOf(p, Window(p, packs)), at)
  {
    var window := Window(p, packs);
    var positions := CallsInOrder(p, window);
    at := Located(p, packs, positions);
    hide CallsOf, CallOf, Asks, Window, OverAt, Position;
    forall j | 0 <= j < |at| ensures Asks(p, packs[at[j].pack].msgs[at[j].msg], CallsOf(p, window)[j]) {
      CallExactly(p, window[positions[j]], CallsOf(p, window)[j]);
      WindowExactly(p, packs, at[j].pack, at[j].msg);
    }
    forall i, j | 0 <= i < j < |at| ensures Earlier(at[i], at[j]) {
      PositionsOrdered(packs, at[j], at[i]);
    }
    forall x: Place, c | Live(p, packs, x) && Asks(p, packs[x.pack].msgs[x.msg], c) ensures x in at {
      WindowExactly(p, packs, x.pack, x.msg);
      CallExactly(p, packs[x.pack].msgs[x.msg], c);
      var n := Position(packs, x.pack, x.msg);
      assert n in positions;
      var j :| 0 <= j < |positions| && positions[j] == n;
      PositionsOrdered(packs, x, at[j]);
      PositionsOrdered(packs, at[j], x);
    }
  }

  /** The places of positions in the window. */
  lemma {:induction false} Located(p: Params, packs: seq<Pack>, positions: seq<nat>) returns (at: seq<Place>)
    requires forall j :: 0 <= j < |positions| ==> positions[j] < |Window(p, packs)|
    ensures |at| == |positions|
    ensures forall j :: 0 <= j < |at| ==>
              Live(p, packs, at[j]) && Position(packs, at[j].pack, at[j].msg) == positions[j]
  {
    hide Window, OverAt, Position;
    if positions == [] {
      at := [];
    } else {
      var rest := Located(p, packs, positions[1..]);
      WindowInStream(p, packs);
      var a, b := Locate(packs, positions[0]);
      WindowExactly(p, packs, a, b);
      at := [Place(a, b)] + rest;
      forall j | 0 <= j < |at| ensures Live(p, packs, at[j]) && Position(packs, at[j].pack, at[j].msg) == positions[j] {
        assert j > 0 ==> at[j] == rest[j - 1] && positions[1..][j - 1] == positions[j];
      }
    }
  }

  lemma WindowInStream(p: Params, packs: seq<Pack>)
    ensures |Window(p, packs)| <= |Flatten(packs)|
  {
    var live := UpToLate(p, packs);
    assert live == packs[..|live|];
    FlattenPrefix(packs, |live|);
  }

  lemma {:induction false} Locate(packs: seq<Pack>, n: nat) returns (a: nat, b: nat)
    requires n < |Flatten(packs)|
    ensures a < |packs| && b < |packs[a].msgs| && Position(packs, a, b) == n
  {
    var before := packs[..|packs| - 1];
    if n < |Flatten(before)| {
      a, b := Locate(before, n);
      assert before[..a] == packs[..a];
    } else {
      a, b := |before|, n - |Flatten(before)|;
    }
  }

  /** Places that are not in order have positions that are not. */
  lemma PositionsOrdered(packs: seq<Pack>, x: Place, y: Place)
    requires x.pack < |packs| && x.msg < |packs[x.pack].msgs| && y.pack < |packs| && y.msg < |packs[y.pack].msgs|
    ensures Earlier(x, y) ==> Position(packs, x.pack, x.msg) < Position(packs, y.pack, y.msg)
    ensures x == y ==> Position(packs, x.pack, x.msg) == Position(packs, y.pack, y.msg)
  {
    if x.pack < y.pack {
      FlattenOne(packs, x.pack);
      FlattenPrefix(packs[..y.pack], x.pack + 1);
      assert packs[..y.pack][..x.pack + 1] == packs[..x.pack + 1];
    }
  }

  /**
   An insert is given all the fields but the automatic id exactly if such a field was named
   (or there are no others): without a name every column is left out.
   */
  lemma SentExactly(p: Params, fields: seq<FieldData>, rows: int)
    ensures ConvertAll(p, Sent(p, fields), rows) == ConvertAll(p, Wanted(p, fields), rows)
       <==> p.autoIDFieldName != "" || Wanted(p, fields) == []
  {
  }

  /** An insert with one field that converts, and no automatic id named: the client gets no column. */
  lemma ColumnIsLeftOut(p: Params, field: FieldData, rows: int, partition: string)
    requires p.autoIDFieldName == "" && field.name != "" && p.fieldColumn(field, rows).Some?
    ensures CallOf(p, Insert(p.collectionID, p.collectionName, partition, [field], rows))
         == [InsertCall(p.collectionName, partition, [])]
    ensures ConvertAll(p, Wanted(p, [field]), rows) == Some([p.fieldColumn(field, rows).value])
  {
    assert [field][..0] == [] && Wanted(p, []) == [] && Wanted(p, [field]) == [] + [field] == [field];
    OneColumn(p, field, rows);
  }

  lemma OneColumn(p: Params, field: FieldData, rows: int)
    requires p.fieldColumn(field, rows).Some?
    ensures ConvertAll(p, [field], rows) == Some([p.fieldColumn(field, rows).value])
  {
    var c := p.fieldColumn(field, rows).value;
    assert [field][..0] == [] && ConvertAll(p, [], rows) == Some([]);
    assert [] + [c] == [c];
  }
}
