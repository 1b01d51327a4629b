/** The table of clients behind a TCP server: slots that are taken, fed and reused. */
module SlotTable {
  import opened Bytes
  import opened Wrappers

  /** A connection: the pieces that further reads will return (an empty one is a failed read),
      and, as a history, everything read from it and everything that ever arrived on it. */
  datatype Connection = Connection(connected: bool, unread: seq<Bytes>, read: Bytes, arrived: Bytes)

  /** A slot: its socket, what its session has been fed since it was initialised, its session
      identifier, and whether it is in use. */
  datatype Slot = Slot(client: Option<nat>, session: Option<seq<Bytes>>, id: nat, active: bool)

  /** `verdict` is the answer that the session with the given identifier gives to the last of the
      chunks it has been fed; two sessions may answer the same chunks differently. The Command
      server resets a slot on a rejection if it is configured to; the State server always. */
  datatype Config = Config(maximum: nat, capacity: nat, resets: bool, verdict: (nat, seq<Bytes>) -> bool)

  /** `issued` counts the identifiers handed out. */
  datatype Table = Table(slots: seq<Slot>, nextId: nat, issued: nat, connections: map<nat, Connection>)

  predicate Connected(t: Table, client: Option<nat>)
  {
    client.Some? && client.value in t.connections && t.connections[client.value].connected
  }

  function Stopped(connections: map<nat, Connection>, client: Option<nat>): map<nat, Connection>
  {
    if client.Some? && client.value in connections
    then connections[client.value := connections[client.value].(connected := false)]
    else connections
  }

  function Emptied(slot: Slot): Slot
  {
    Slot(slot.client, None, 0, false)
  }

  function ResetSlot(t: Table, i: nat): Table
    requires i < |t.slots|
  {
    t.(slots := t.slots[i := Emptied(t.slots[i])], connections := Stopped(t.connections, t.slots[i].client))
  }

  predicate Busy(t: Table, i: nat)
    requires i < |t.slots|
  {
    t.slots[i].active && Connected(t, t.slots[i].client)
  }

  /** The first slot from `i` on that may be taken, or `maximum`. */
  function FirstFree(maximum: nat, t: Table, i: nat): (k: nat)
    requires i <= maximum <= |t.slots|
    ensures i <= k <= maximum
    ensures forall j :: i <= j < k ==> Busy(t, j)
    ensures k < maximum ==> !Busy(t, k)
    decreases maximum - i
  {
    if i == maximum || !Busy(t, i) then i else FirstFree(maximum, t, i + 1)
  }

  /** Sixty-four bits wide, and zero is left out. */
  function Following(id: nat): nat
  {
    if id >= U64_MAX then 1 else id + 1
  }

  function Seated(t: Table, i: nat, incoming: nat): Table
    requires i < |t.slots|
  {
    t.(slots := t.slots[i := Slot(Some(incoming), Some([]), t.nextId, true)],
       nextId := Following(t.nextId), issued := t.issued + 1)
  }

  function Accept(c: Config, t: Table, incoming: nat, initializes: bool): Table
    requires c.maximum <= |t.slots|
  {
    var i := FirstFree(c.maximum, t, 0);
    if i == c.maximum then t.(connections := Stopped(t.connections, Some(incoming)))
    else
      var seated := Seated(ResetSlot(t, i), i, incoming);
      if initializes then seated else ResetSlot(seated, i)
  }

  datatype Drained = Drained(session: seq<Bytes>, connection: Connection, rejected: bool)

  /** Reading until nothing is left, a read fails, or a rejection resets the slot. */
  function Drain(c: Config, id: nat, session: seq<Bytes>, k: Connection): Drained
    decreases |k.unread|
  {
    if k.unread == [] then Drained(session, k, false)
    else
      var chunk, rest := k.unread[0], k.unread[1..];
      var after := k.(unread := rest, read := k.read + chunk);
      if chunk == [] then Drained(session, after, false)
      else if !c.verdict(id, session + [chunk]) && c.resets then Drained(session + [chunk], after, true)
      else Drain(c, id, session + [chunk], after)
  }

  function Serve(c: Config, t: Table, i: nat): (r: Table)
    requires i < |t.slots|
    ensures |r.slots| == |t.slots|
  {
    var slot := t.slots[i];
    if !slot.active then t
    else if !Connected(t, slot.client) || slot.session.None? then ResetSlot(t, i)
    else
      var d := Drain(c, slot.id, slot.session.value, t.connections[slot.client.value]);
      var fed := t.(slots := t.slots[i := slot.(session := Some(d.session))],
                    connections := t.connections[slot.client.value := d.connection]);
      if d.rejected then ResetSlot(fed, i) else fed
  }

  function ServeFrom(c: Config, t: Table, i: nat): (r: Table)
    requires i <= c.maximum <= |t.slots|
    ensures |r.slots| == |t.slots|
    decreases c.maximum - i
  {
    if i == c.maximum then t else ServeFrom(c, Serve(c, t, i), i + 1)
  }

  function ResetFrom(t: Table, i: nat): (r: Table)
    requires i <= |t.slots|
    ensures |r.slots| == |t.slots|
    decreases |t.slots| - i
  {
    if i == |t.slots| then t else ResetFrom(ResetSlot(t, i), i + 1)
  }

  // ---------- accepting ----------

  /** A client that is being served keeps its slot, its session and its identifier; the newcomer
      gets the first slot that is free, a new identifier and an empty session, or is turned away
      when every slot is taken; if its session does not start the slot is free again. A newcomer
      that is not served is disconnected. */
  lemma AcceptTakesAFreeSlot(c: Config, t: Table, incoming: nat, initializes: bool)
    requires c.maximum <= |t.slots|
    ensures var z := Accept(c, t, incoming, initializes);
            && |z.slots| == |t.slots|
            && (forall j :: 0 <= j < |t.slots| && (Busy(t, j) || j >= c.maximum) ==> z.slots[j] == t.slots[j])
            && (z.issued == t.issued + 1 <==> exists j :: 0 <= j < c.maximum && !Busy(t, j))
            && (z.issued == t.issued ==> z.slots == t.slots && z.nextId == t.nextId)
            && (z.issued == t.issued + 1 && initializes ==>
                  exists j :: 0 <= j < c.maximum && !Busy(t, j) && z.slots[j] == Slot(Some(incoming), Some([]), t.nextId, true))
            && (z.issued == t.issued || !initializes ==> !Connected(z, Some(incoming)))
            && (z.issued == t.issued + 1 && !initializes ==>
                  exists j :: 0 <= j < c.maximum && !Busy(t, j) && z.slots[j] == Slot(Some(incoming), None, 0, false))
  {
    var i := FirstFree(c.maximum, t, 0);
    if i < c.maximum {
      assert !Busy(t, i);
    }
  }

  // ---------- what holds in every run ----------

  predicate SlotInOrder(c: Config, t: Table, i: nat)
    requires i < |t.slots|
  {
    var s := t.slots[i];
    && (s.client.Some? ==> s.client.value in t.connections)
    && if s.active then
      && i < c.maximum && 1 <= s.id <= t.issued
      && s.client.Some?
      && s.session.Some? && Flatten(s.session.value) == t.connections[s.client.value].read
    else s.session.None? && s.id == 0
  }

  predicate IdsApart(t: Table)
  {
    forall i, j :: 0 <= i < j < |t.slots| && t.slots[i].active && t.slots[j].active ==> t.slots[i].id != t.slots[j].id
  }

  /** No two slots hold the same connection, not even one that is stopped. */
  predicate ClientsApart(t: Table)
  {
    forall i, j :: 0 <= i < j < |t.slots| && t.slots[i].client.Some? ==> t.slots[i].client != t.slots[j].client
  }

  predicate BytesKept(k: Connection)
  {
    k.read + Flatten(k.unread) == k.arrived
  }

  ghost predicate TableSafe(c: Config, t: Table)
  {
    && c.maximum <= c.capacity == |t.slots|
    && t.issued <= U64_MAX && t.nextId == (if t.issued == U64_MAX then 1 else t.issued + 1)
    && (forall i :: 0 <= i < |t.slots| ==> SlotInOrder(c, t, i))
    && IdsApart(t) && ClientsApart(t)
    && (forall k :: k in t.connections ==> BytesKept(t.connections[k]))
  }

  /** A connection that no slot has ever read from. */
  predicate Untouched(t: Table, client: nat)
  {
    && client in t.connections && t.connections[client].read == []
    && forall i :: 0 <= i < |t.slots| ==> t.slots[i].client != Some(client)
  }

  lemma {:induction false} DrainKeepsBytes(c: Config, id: nat, session: seq<Bytes>, k: Connection)
    requires Flatten(session) == k.read && BytesKept(k)
    ensures var d := Drain(c, id, session, k);
            && Flatten(d.session) == d.connection.read && BytesKept(d.connection)
            && d.connection.arrived == k.arrived && d.connection.connected == k.connected
            && session <= d.session
    decreases |k.unread|
  {
    if k.unread != [] {
      var chunk := k.unread[0];
      var after := k.(unread := k.unread[1..], read := k.read + chunk);
      FlattenSnoc(session, chunk);
      assert (k.read + chunk) + Flatten(k.unread[1..]) == k.read + (chunk + Flatten(k.unread[1..]));
      if chunk != [] && (c.verdict(id, session + [chunk]) || !c.resets) {
        DrainKeepsBytes(c, id, session + [chunk], after);
      }
    }
  }

  /** A slot stays in order as long as nobody touches it or reads from its connection. */
  lemma SlotStaysInOrder(c: Config, t: Table, z: Table, j: nat)
    requires j < |t.slots| == |z.slots| && z.slots[j] == t.slots[j] && t.issued <= z.issued
    requires SlotInOrder(c, t, j)
    requires t.slots[j].client.Some? && t.slots[j].client.value in t.connections ==>
               t.slots[j].client.value in z.connections
               && z.connections[t.slots[j].client.value].read == t.connections[t.slots[j].client.value].read
    ensures SlotInOrder(c, z, j)
  {
  }

  /** Stopping a connection changes no byte of it, and no other connection. */
  lemma StoppingKeepsBytes(connections: map<nat, Connection>, client: Option<nat>)
    ensures var z := Stopped(connections, client);
            && z.Keys == connections.Keys
            && forall k :: k in z ==> z[k] == connections[k].(connected := z[k].connected)
  {
  }

  lemma ResetKeepsSafe(c: Config, t: Table, i: nat)
    requires TableSafe(c, t) && i < |t.slots|
    ensures TableSafe(c, ResetSlot(t, i))
    ensures forall k :: Untouched(t, k) ==> Untouched(ResetSlot(t, i), k)
  {
    hide Flatten, Stopped;
    var z := ResetSlot(t, i);
    StoppingKeepsBytes(t.connections, t.slots[i].client);
    forall j | 0 <= j < |z.slots|
      ensures SlotInOrder(c, z, j)
    {
      assert SlotInOrder(c, t, j);
      if j != i {
        SlotStaysInOrder(c, t, z, j);
      }
    }
  }

  lemma SeatKeepsSafe(c: Config, t: Table, i: nat, incoming: nat)
    requires TableSafe(c, t) && i < c.maximum && !t.slots[i].active
    requires Untouched(t, incoming) && t.issued < U64_MAX
    ensures TableSafe(c, Seated(t, i, incoming))
    ensures forall k :: k != incoming && Untouched(t, k) ==> Untouched(Seated(t, i, incoming), k)
  {
    var z := Seated(t, i, incoming);
    assert Flatten([]) == [];
    hide Flatten;
    forall j | 0 <= j < |z.slots|
      ensures SlotInOrder(c, z, j)
      ensures j != i && z.slots[j].active ==> z.slots[j].id < t.nextId && z.slots[j].client != Some(incoming)
    {
      if j != i {
        assert SlotInOrder(c, t, j);
        SlotStaysInOrder(c, t, z, j);
      }
    }
  }

  lemma AcceptKeepsSafe(c: Config, t: Table, incoming: nat, initializes: bool)
    requires TableSafe(c, t) && Untouched(t, incoming)
    requires Accept(c, t, incoming, initializes).issued <= U64_MAX
    ensures TableSafe(c, Accept(c, t, incoming, initializes))
    ensures forall k :: k != incoming && Untouched(t, k) ==> Untouched(Accept(c, t, incoming, initializes), k)
  {
    hide SlotInOrder, IdsApart, ClientsApart, BytesKept;
    var i := FirstFree(c.maximum, t, 0);
    if i == c.maximum {
      TurnedAwayIsSafe(c, t, incoming);
    } else {
      ResetKeepsSafe(c, t, i);
      var r := ResetSlot(t, i);
      SeatKeepsSafe(c, r, i, incoming);
      if !initializes {
        ResetKeepsSafe(c, Seated(r, i, incoming), i);
      }
    }
    hide TableSafe, Untouched;
  }

  lemma TurnedAwayIsSafe(c: Config, t: Table, incoming: nat)
    requires TableSafe(c, t)
    ensures var z := t.(connections := Stopped(t.connections, Some(incoming)));
            TableSafe(c, z) && forall k :: Untouched(t, k) ==> Untouched(z, k)
  {
    hide Flatten, Stopped;
    var z := t.(connections := Stopped(t.connections, Some(incoming)));
    StoppingKeepsBytes(t.connections, Some(incoming));
    forall j | 0 <= j < |z.slots|
      ensures SlotInOrder(c, z, j)
    {
      assert SlotInOrder(c, t, j);
      SlotStaysInOrder(c, t, z, j);
    }
  }

  lemma FeedKeepsSafe(c: Config, t: Table, i: nat)
    requires TableSafe(c, t) && i < |t.slots| && Busy(t, i)
    ensures t.slots[i].session.Some?
    ensures var slot := t.slots[i];
            var d := Drain(c, slot.id, slot.session.value, t.connections[slot.client.value]);
            var z := t.(slots := t.slots[i := slot.(session := Some(d.session))],
                        connections := t.connections[slot.client.value := d.connection]);
            TableSafe(c, z) && forall k :: Untouched(t, k) ==> Untouched(z, k)
  {
    hide Flatten, Drain;
    var slot := t.slots[i];
    assert SlotInOrder(c, t, i);
    var d := Drain(c, slot.id, slot.session.value, t.connections[slot.client.value]);
    assert BytesKept(t.connections[slot.client.value]);
    DrainKeepsBytes(c, slot.id, slot.session.value, t.connections[slot.client.value]);
    var z := t.(slots := t.slots[i := slot.(session := Some(d.session))],
                connections := t.connections[slot.client.value := d.connection]);
    hide BytesKept;
    forall j | 0 <= j < |z.slots|
      ensures SlotInOrder(c, z, j)
    {
      if j != i {
        assert SlotInOrder(c, t, j);
        SlotStaysInOrder(c, t, z, j);
      }
    }
  }

  lemma ServeKeepsSafe(c: Config, t: Table, i: nat)
    requires TableSafe(c, t) && i < |t.slots|
    ensures TableSafe(c, Serve(c, t, i))
    ensures forall k :: Untouched(t, k) ==> Untouched(Serve(c, t, i), k)
    ensures Serve(c, t, i).issued == t.issued
  {
    hide TableSafe, Untouched, Drain;
    var slot := t.slots[i];
    if slot.active {
      if Connected(t, slot.client) {
        FeedKeepsSafe(c, t, i);
        var d := Drain(c, slot.id, slot.session.value, t.connections[slot.client.value]);
        if d.rejected {
          ResetKeepsSafe(c, t.(slots := t.slots[i := slot.(session := Some(d.session))],
                               connections := t.connections[slot.client.value := d.connection]), i);
        }
      } else {
        ResetKeepsSafe(c, t, i);
      }
    }
  }

  lemma {:induction false} ServingKeepsSafe(c: Config, t: Table, i: nat)
    requires TableSafe(c, t) && i <= c.maximum <= |t.slots|
    ensures TableSafe(c, ServeFrom(c, t, i))
    ensures forall k :: Untouched(t, k) ==> Untouched(ServeFrom(c, t, i), k)
    ensures ServeFrom(c, t, i).issued == t.issued
    decreases c.maximum - i
  {
    hide TableSafe, Untouched, Serve;
    if i < c.maximum {
      ServeKeepsSafe(c, t, i);
      ServingKeepsSafe(c, Serve(c, t, i), i + 1);
    }
  }

  lemma {:induction false} ResettingKeepsSafe(c: Config, t: Table, i: nat)
    requires TableSafe(c, t) && i <= |t.slots|
    ensures TableSafe(c, ResetFrom(t, i))
    ensures forall k :: Untouched(t, k) ==> Untouched(ResetFrom(t, i), k)
    ensures ResetFrom(t, i).issued == t.issued
    decreases |t.slots| - i
  {
    hide TableSafe, Untouched;
    if i < |t.slots| {
      ResetKeepsSafe(c, t, i);
      ResettingKeepsSafe(c, ResetSlot(t, i), i + 1);
    }
  }
}
