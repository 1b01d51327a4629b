/** Whole runs of a server: connections come and go, bytes arrive, the worker iterates, and the
    server is shut down and started again. */
module SlotRuns {
  import opened Bytes
  import opened Wrappers
  import opened SlotTable

  /** The server's configuration, its table, and the connections the listening socket has not
      handed out yet. */
  datatype World = World(config: Config, table: Table, backlog: seq<nat>)

  /** `Restart` is a shutdown followed by an initialisation, perhaps with another configuration. */
  datatype Event =
    | Connect(client: nat) | Arrive(client: nat, chunk: Bytes) | HangUp(client: nat)
    | Iterate(initializes: bool) | Restart(config: Config)

  function Initial(c: Config): World
  {
    World(c, Table(seq(c.capacity, _ => Slot(None, None, 0, false)), 1, 0, map[]), [])
  }

  predicate Fits(c: Config, t: Table)
  {
    c.maximum <= c.capacity == |t.slots|
  }

  function Iteration(c: Config, t: Table, incoming: Option<nat>, initializes: bool): (r: Table)
    requires Fits(c, t)
    ensures Fits(c, r)
  {
    var accepted := if incoming.Some? then Accept(c, t, incoming.value, initializes) else t;
    ServeFrom(c, accepted, 0)
  }

  /** The configurations an initialisation of the server takes. */
  predicate Allowed(c: Config, t: Table)
  {
    0 < c.maximum && Fits(c, t)
  }

  function Step(w: World, e: Event): (r: World)
    requires Fits(w.config, w.table)
    ensures Fits(r.config, r.table)
  {
    var c, t := w.config, w.table;
    match e
    case Connect(k) =>
      if k in t.connections then w
      else World(c, t.(connections := t.connections[k := Connection(true, [], [], [])]), w.backlog + [k])
    case Arrive(k, chunk) =>
      if k !in t.connections || !t.connections[k].connected then w
      else
        var x := t.connections[k];
        w.(table := t.(connections := t.connections[k := x.(unread := x.unread + [chunk], arrived := x.arrived + chunk)]))
    case HangUp(k) => w.(table := t.(connections := Stopped(t.connections, Some(k))))
    case Iterate(initializes) =>
      if w.backlog == [] then w.(table := Iteration(c, t, None, initializes))
      else World(c, Iteration(c, t, Some(w.backlog[0]), initializes), w.backlog[1..])
    case Restart(d) => World(if Allowed(d, t) then d else c, ResetFrom(t, 0), w.backlog)
  }

  function Run(w: World, events: seq<Event>): (r: World)
    requires Fits(w.config, w.table)
    ensures Fits(r.config, r.table)
    decreases |events|
  {
    if events == [] then w else Run(Step(w, events[0]), events[1..])
  }

  lemma IssuedGrows(w: World, e: Event)
    requires Fits(w.config, w.table)
    ensures w.table.issued <= Step(w, e).table.issued
  {
    hide Serve;
    var c := w.config;
    if e.Iterate? {
      var t := if w.backlog == [] then w.table else Accept(c, w.table, w.backlog[0], e.initializes);
      ServingIssuesNothing(c, t, 0);
    } else if e.Restart? {
      ResettingIssuesNothing(w.table, 0);
    }
  }

  lemma {:induction false} ServingIssuesNothing(c: Config, t: Table, i: nat)
    requires i <= c.maximum <= |t.slots|
    ensures ServeFrom(c, t, i).issued == t.issued
    decreases c.maximum - i
  {
    if i < c.maximum {
      ServingIssuesNothing(c, Serve(c, t, i), i + 1);
    }
  }

  lemma {:induction false} ResettingIssuesNothing(t: Table, i: nat)
    requires i <= |t.slots|
    ensures ResetFrom(t, i).issued == t.issued
    decreases |t.slots| - i
  {
    if i < |t.slots| {
      ResettingIssuesNothing(ResetSlot(t, i), i + 1);
    }
  }

  lemma {:induction false} IssuedGrowsInRuns(w: World, events: seq<Event>)
    requires Fits(w.config, w.table)
    ensures w.table.issued <= Run(w, events).table.issued
    decreases |events|
  {
    hide Step;
    if events != [] {
      IssuedGrows(w, events[0]);
      IssuedGrowsInRuns(Step(w, events[0]), events[1..]);
    }
  }

  // ---------- safety ----------

  ghost predicate Safe(w: World)
  {
    && TableSafe(w.config, w.table)
    && (forall i, j :: 0 <= i < j < |w.backlog| ==> w.backlog[i] != w.backlog[j])
    && (forall i :: 0 <= i < |w.backlog| ==> Untouched(w.table, w.backlog[i]))
  }

  lemma IterateKeepsSafe(w: World, initializes: bool)
    requires Safe(w) && Step(w, Iterate(initializes)).table.issued <= U64_MAX
    ensures Safe(Step(w, Iterate(initializes)))
  {
    var c := w.config;
    assert Fits(c, w.table);
    hide TableSafe, Untouched, Accept;
    if w.backlog == [] {
      ServingKeepsSafe(c, w.table, 0);
    } else {
      var t := Accept(c, w.table, w.backlog[0], initializes);
      assert Untouched(w.table, w.backlog[0]);
      ServingIssuesNothing(c, t, 0);
      AcceptKeepsSafe(c, w.table, w.backlog[0], initializes);
      ServingKeepsSafe(c, t, 0);
    }
  }

  lemma ConnectKeepsSafe(w: World, k: nat)
    requires Safe(w) && k !in w.table.connections
    ensures Safe(Step(w, Connect(k)))
  {
    var c, t, z := w.config, w.table, Step(w, Connect(k)).table;
    forall j | 0 <= j < |z.slots|
      ensures SlotInOrder(c, z, j)
    {
      assert SlotInOrder(c, t, j);
    }
    assert Untouched(z, k) by {
      forall j | 0 <= j < |z.slots|
        ensures z.slots[j].client != Some(k)
      {
        assert SlotInOrder(c, t, j);
      }
    }
  }

  lemma ChunkIsKept(x: Connection, chunk: Bytes)
    requires BytesKept(x)
    ensures BytesKept(x.(unread := x.unread + [chunk], arrived := x.arrived + chunk))
  {
    FlattenSnoc(x.unread, chunk);
    Associate(x.read, Flatten(x.unread), chunk);
  }

  lemma ArriveKeepsSafe(w: World, k: nat, chunk: Bytes)
    requires Safe(w)
    ensures Safe(Step(w, Arrive(k, chunk)))
  {
    var c, t, z := w.config, w.table, Step(w, Arrive(k, chunk)).table;
    if z != t {
      ChunkIsKept(t.connections[k], chunk);
      hide Flatten, BytesKept;
      forall j | 0 <= j < |z.slots|
        ensures SlotInOrder(c, z, j)
      {
        assert SlotInOrder(c, t, j);
        SlotStaysInOrder(c, t, z, j);
      }
    }
  }

  lemma {:induction false} ResettingEmpties(t: Table, i: nat)
    requires i <= |t.slots|
    ensures forall j :: i <= j < |t.slots| ==> !ResetFrom(t, i).slots[j].active
    ensures forall j :: 0 <= j < i ==> ResetFrom(t, i).slots[j] == t.slots[j]
    decreases |t.slots| - i
  {
    if i < |t.slots| {
      ResettingEmpties(ResetSlot(t, i), i + 1);
    }
  }

  /** An empty table is in order under any configuration that fits it. */
  lemma RestartKeepsSafe(w: World, d: Config)
    requires Safe(w)
    ensures Safe(Step(w, Restart(d)))
  {
    var z := ResetFrom(w.table, 0);
    ResettingKeepsSafe(w.config, w.table, 0);
    ResettingEmpties(w.table, 0);
    forall j | 0 <= j < |z.slots|
      ensures Allowed(d, w.table) ==> SlotInOrder(d, z, j)
    {
      assert SlotInOrder(w.config, z, j);
    }
    hide Untouched, SlotInOrder, BytesKept;
  }

  lemma StepKeepsSafe(w: World, e: Event)
    requires Safe(w) && Step(w, e).table.issued <= U64_MAX
    ensures Safe(Step(w, e))
  {
    match e
    case Connect(k) => if k !in w.table.connections { ConnectKeepsSafe(w, k); }
    case Arrive(k, chunk) => ArriveKeepsSafe(w, k, chunk);
    case HangUp(k) => TurnedAwayIsSafe(w.config, w.table, k);
    case Iterate(initializes) => IterateKeepsSafe(w, initializes);
    case Restart(d) => RestartKeepsSafe(w, d);
    hide TableSafe, Untouched;
  }

  lemma {:induction false} RunKeepsSafe(w: World, events: seq<Event>)
    requires Fits(w.config, w.table) && Safe(w) && Run(w, events).table.issued <= U64_MAX
    ensures Safe(Run(w, events))
    decreases |events|
  {
    hide Safe, Step;
    IssuedGrowsInRuns(w, events);
    if events != [] {
      IssuedGrowsInRuns(Step(w, events[0]), events[1..]);
      StepKeepsSafe(w, events[0]);
      RunKeepsSafe(Step(w, events[0]), events[1..]);
    }
  }

  /** Active slots lie below the maximum, with identifiers that are not zero and belong to no
      other slot; each session has been fed exactly the bytes read from its own connection since
      it was accepted, in order, and what has arrived there and was not read is still waiting. */
  predicate Served(c: Config, t: Table)
  {
    && (forall i :: 0 <= i < |t.slots| && t.slots[i].active ==>
          var s := t.slots[i];
          && i < c.maximum && 0 < s.id <= U64_MAX
          && s.client.Some? && s.client.value in t.connections && s.session.Some?
          && var x := t.connections[s.client.value];
             Flatten(s.session.value) == x.read && x.read + Flatten(x.unread) == x.arrived)
    && IdsApart(t) && ClientsApart(t)
    && (forall i :: 0 <= i < |t.slots| && !t.slots[i].active ==> t.slots[i].id == 0 && t.slots[i].session == None)
  }

  lemma SafeIsServed(c: Config, t: Table)
    requires TableSafe(c, t)
    ensures Served(c, t)
  {
    hide Flatten;
    forall i | 0 <= i < |t.slots|
      ensures SlotInOrder(c, t, i)
      ensures t.slots[i].active ==> BytesKept(t.connections[t.slots[i].client.value])
    {
    }
  }

  lemma SlotTableIsSafe(c: Config, events: seq<Event>)
    requires c.maximum <= c.capacity
    requires Run(Initial(c), events).table.issued <= U64_MAX
    ensures var w := Run(Initial(c), events); Served(w.config, w.table)
  {
    RunKeepsSafe(Initial(c), events);
    SafeIsServed(Run(Initial(c), events).config, Run(Initial(c), events).table);
    hide Run, Served, TableSafe;
  }

  // ---------- slots are served one by one ----------

  /** Slot `j` and its connection are the same in both tables. */
  predicate SameService(t: Table, z: Table, j: nat)
    requires j < |t.slots|
  {
    && |z.slots| == |t.slots| && z.slots[j] == t.slots[j] && t.slots[j].client.Some?
    && var k := t.slots[j].client.value;
       k in z.connections && k in t.connections && z.connections[k] == t.connections[k]
  }

  /** What serving slot `i` does to another slot and its connection: nothing. */
  lemma ServeLeavesOthers(c: Config, t: Table, i: nat, j: nat)
    requires TableSafe(c, t) && i < |t.slots| && j < |t.slots| && i != j && t.slots[j].active
    ensures SameService(t, Serve(c, t, i), j)
  {
    hide Drain, Flatten;
    assert SlotInOrder(c, t, j) && SlotInOrder(c, t, i);
  }

  /** What serving a slot makes of it depends on the slot and its connection only. */
  lemma ServeLooksAtOne(c: Config, t: Table, z: Table, j: nat)
    requires j < |t.slots| && t.slots[j].active && SameService(t, z, j)
    ensures Serve(c, z, j).slots[j] == Serve(c, t, j).slots[j]
  {
    hide Drain;
  }

  lemma {:induction false} ServingKeepsEarlier(c: Config, t: Table, i: nat, j: nat)
    requires TableSafe(c, t) && j < i <= c.maximum
    ensures ServeFrom(c, t, i).slots[j] == t.slots[j]
    decreases c.maximum - i
  {
    assert Fits(c, t);
    hide TableSafe, Serve;
    if i < c.maximum {
      ServeLeavesSlots(c, t, i, j);
      ServeKeepsSafe(c, t, i);
      ServingKeepsEarlier(c, Serve(c, t, i), i + 1, j);
    } else {
      assert ServeFrom(c, t, i) == t;
    }
  }

  lemma ServeLeavesSlots(c: Config, t: Table, i: nat, j: nat)
    requires i < |t.slots| && j < |t.slots| && i != j
    ensures Serve(c, t, i).slots[j] == t.slots[j]
  {
    hide Drain;
  }

  /** One pass of the worker does to each slot what serving it alone would do. */
  lemma {:induction false} SlotsAreIndependent(c: Config, t: Table, i: nat, j: nat)
    requires TableSafe(c, t) && i <= j < c.maximum && t.slots[j].active
    ensures ServeFrom(c, t, i).slots[j] == Serve(c, t, j).slots[j]
    decreases c.maximum - i
  {
    ServeKeepsSafe(c, t, i);
    if i == j {
      ServingKeepsEarlier(c, Serve(c, t, i), i + 1, j);
    } else {
      ServeLeavesOthers(c, t, i, j);
      assert SlotInOrder(c, t, j);
      ServeLooksAtOne(c, t, Serve(c, t, i), j);
      SlotsAreIndependent(c, Serve(c, t, i), i + 1, j);
    }
    hide TableSafe, Serve;
  }

  /** How many pieces can be read before a read fails. */
  function Readable(unread: seq<Bytes>): (n: nat)
    ensures n <= |unread|
  {
    if unread == [] || unread[0] == [] then 0 else 1 + Readable(unread[1..])
  }

  /** The session turns down one of the pieces it would be fed. */
  ghost predicate Rejects(c: Config, id: nat, session: seq<Bytes>, unread: seq<Bytes>)
  {
    exists n :: 1 <= n <= Readable(unread) && !c.verdict(id, session + unread[..n])
  }

  lemma RejectsSplits(c: Config, id: nat, session: seq<Bytes>, unread: seq<Bytes>)
    requires unread != [] && unread[0] != []
    ensures Rejects(c, id, session, unread)
       <==> !c.verdict(id, session + [unread[0]]) || Rejects(c, id, session + [unread[0]], unread[1..])
  {
    var first, rest := session + [unread[0]], unread[1..];
    forall n | 0 <= n <= |rest|
      ensures first + rest[..n] == session + unread[..n + 1]
    {
    }
    assert first + rest[..0] == first;
    if n :| 1 <= n <= Readable(unread) && !c.verdict(id, session + unread[..n]) {
      assert first + rest[..n - 1] == session + unread[..n];
    }
    if !c.verdict(id, first) {
      assert session + unread[..1] == first;
    } else if n :| 1 <= n <= Readable(rest) && !c.verdict(id, first + rest[..n]) {
      assert session + unread[..n + 1] == first + rest[..n];
    }
  }

  /** A read that fails is over: what comes after it is there for the next pass. */
  lemma {:induction false} DrainReadsOn(c: Config, id: nat, session: seq<Bytes>, k: Connection)
    ensures var d, n := Drain(c, id, session, k), Readable(k.unread);
            !d.rejected ==> d.connection.unread == if n < |k.unread| then k.unread[n + 1..] else []
    decreases |k.unread|
  {
    if k.unread != [] && k.unread[0] != [] {
      var chunk, rest := k.unread[0], k.unread[1..];
      DrainReadsOn(c, id, session + [chunk], k.(unread := rest, read := k.read + chunk));
    }
  }

  /** Draining is cut short exactly by a rejection on a server that resets, and otherwise feeds
      the session everything that can be read. */
  lemma {:induction false} DrainIsExact(c: Config, id: nat, session: seq<Bytes>, k: Connection)
    ensures Drain(c, id, session, k).rejected <==> c.resets && Rejects(c, id, session, k.unread)
    ensures !Drain(c, id, session, k).rejected ==> Drain(c, id, session, k).session == session + k.unread[..Readable(k.unread)]
    decreases |k.unread|
  {
    if k.unread != [] && k.unread[0] != [] {
      var chunk, rest := k.unread[0], k.unread[1..];
      RejectsSplits(c, id, session, k.unread);
      DrainIsExact(c, id, session + [chunk], k.(unread := rest, read := k.read + chunk));
      assert session + [chunk] + rest[..Readable(rest)] == session + k.unread[..1 + Readable(rest)];
    }
  }

  /** What becomes of a slot whose client is connected and has sent `unread`: it is reset exactly
      if the session rejects a piece and the server resets on rejections, and otherwise only
      its session changes, by what can be read. */
  ghost predicate StaysOrIsReset(c: Config, before: Slot, unread: seq<Bytes>, after: Slot)
    requires before.session.Some?
  {
    after == if c.resets && Rejects(c, before.id, before.session.value, unread) then Emptied(before)
             else before.(session := Some(before.session.value + unread[..Readable(unread)]))
  }

  lemma ServedSlot(c: Config, t: Table, j: nat)
    requires TableSafe(c, t) && j < |t.slots| && Busy(t, j)
    ensures t.slots[j].session.Some?
    ensures StaysOrIsReset(c, t.slots[j], t.connections[t.slots[j].client.value].unread, Serve(c, t, j).slots[j])
  {
    assert SlotInOrder(c, t, j);
    DrainIsExact(c, t.slots[j].id, t.slots[j].session.value, t.connections[t.slots[j].client.value]);
    hide Drain, Flatten, Rejects;
  }

  lemma AcceptLeavesBusy(c: Config, t: Table, incoming: nat, initializes: bool, j: nat)
    requires TableSafe(c, t) && Untouched(t, incoming) && j < c.maximum && Busy(t, j)
    ensures SameService(t, Accept(c, t, incoming, initializes), j)
  {
    hide Flatten, BytesKept, IdsApart;
    assert SlotInOrder(c, t, j);
    var i := FirstFree(c.maximum, t, 0);
    if i < c.maximum {
      assert SlotInOrder(c, t, i) && i != j;
    }
  }

  /** A pass of the worker takes slot, session and identifier away from a connected client exactly
      if its session rejects a chunk and the server resets on rejections; otherwise it only feeds
      the session what can be read. Accepting and the other slots do not touch it. */
  lemma ServedClientsStay(c: Config, t: Table, incoming: Option<nat>, initializes: bool, j: nat)
    requires TableSafe(c, t) && j < c.maximum && Busy(t, j)
    requires incoming.Some? ==> Untouched(t, incoming.value)
    requires Iteration(c, t, incoming, initializes).issued <= U64_MAX
    ensures t.slots[j].session.Some?
    ensures StaysOrIsReset(c, t.slots[j], t.connections[t.slots[j].client.value].unread,
                           Iteration(c, t, incoming, initializes).slots[j])
  {
    var a := if incoming.Some? then Accept(c, t, incoming.value, initializes) else t;
    ServingIssuesNothing(c, a, 0);
    ServedSlot(c, t, j);
    assert SlotInOrder(c, t, j) && SameService(t, t, j);
    if incoming.Some? {
      AcceptKeepsSafe(c, t, incoming.value, initializes);
      AcceptLeavesBusy(c, t, incoming.value, initializes, j);
    }
    ServeLooksAtOne(c, t, a, j);
    SlotsAreIndependent(c, a, 0, j);
    hide TableSafe, Accept, Serve, StaysOrIsReset;
  }
}
