/** Which connections of a server are open: none is forgotten, and none that has gone keeps a slot. */
module SlotClients {
  import opened Bytes
  import opened Wrappers
  import opened SlotTable
  import opened SlotRuns

  /** A client is being waited on: an active slot holds it. */
  predicate Seats(t: Table, client: nat)
  {
    exists i :: 0 <= i < |t.slots| && t.slots[i].active && t.slots[i].client == Some(client)
  }

  /** An open connection is waiting to be accepted or is the client of an active slot. */
  predicate Attended(t: Table, backlog: seq<nat>)
  {
    forall k :: k in t.connections && t.connections[k].connected ==> k in backlog || Seats(t, k)
  }

  lemma ResetKeepsAttended(t: Table, backlog: seq<nat>, i: nat)
    requires Attended(t, backlog) && i < |t.slots|
    ensures Attended(ResetSlot(t, i), backlog)
  {
    var z := ResetSlot(t, i);
    forall k | k in z.connections && z.connections[k].connected && k !in backlog ensures Seats(z, k) {
      assert Seats(t, k);
      var j :| 0 <= j < |t.slots| && t.slots[j].active && t.slots[j].client == Some(k);
      assert j != i && z.slots[j] == t.slots[j];
    }
  }

  lemma ServeKeepsAttended(c: Config, t: Table, backlog: seq<nat>, i: nat)
    requires Attended(t, backlog) && i < |t.slots|
    ensures Attended(Serve(c, t, i), backlog)
  {
    hide Drain;
    var slot := t.slots[i];
    if slot.active && Connected(t, slot.client) && slot.session.Some? {
      var d := Drain(c, slot.id, slot.session.value, t.connections[slot.client.value]);
      var fed := t.(slots := t.slots[i := slot.(session := Some(d.session))],
                    connections := t.connections[slot.client.value := d.connection]);
      forall k | k in fed.connections && fed.connections[k].connected && k !in backlog ensures Seats(fed, k) {
        if k == slot.client.value {
          assert fed.slots[i].client == Some(k);
        } else {
          assert Seats(t, k);
          var j :| 0 <= j < |t.slots| && t.slots[j].active && t.slots[j].client == Some(k);
          assert fed.slots[j].active && fed.slots[j].client == Some(k);
        }
      }
      ResetKeepsAttended(fed, backlog, i);
    } else {
      ResetKeepsAttended(t, backlog, i);
    }
    hide Seats;
  }

  lemma {:induction false} ServingKeepsAttended(c: Config, t: Table, backlog: seq<nat>, i: nat)
    requires Attended(t, backlog) && i <= c.maximum <= |t.slots|
    ensures Attended(ServeFrom(c, t, i), backlog)
    decreases c.maximum - i
  {
    hide Serve, Attended;
    if i < c.maximum {
      ServeKeepsAttended(c, t, backlog, i);
      ServingKeepsAttended(c, Serve(c, t, i), backlog, i + 1);
    }
  }

  lemma {:induction false} ResettingKeepsAttended(t: Table, backlog: seq<nat>, i: nat)
    requires Attended(t, backlog) && i <= |t.slots|
    ensures Attended(ResetFrom(t, i), backlog)
    decreases |t.slots| - i
  {
    hide Attended;
    if i < |t.slots| {
      ResetKeepsAttended(t, backlog, i);
      ResettingKeepsAttended(ResetSlot(t, i), backlog, i + 1);
    }
  }

  /** Whoever is taken from the backlog gets a slot or is disconnected. */
  lemma AcceptKeepsAttended(c: Config, t: Table, incoming: nat, initializes: bool, backlog: seq<nat>)
    requires Attended(t, [incoming] + backlog) && c.maximum <= |t.slots|
    ensures Attended(Accept(c, t, incoming, initializes), backlog)
  {
    var i := FirstFree(c.maximum, t, 0);
    if i < c.maximum {
      var r := ResetSlot(t, i);
      ResetKeepsAttended(t, [incoming] + backlog, i);
      var z := Seated(r, i, incoming);
      forall k | k in z.connections && z.connections[k].connected && k !in backlog ensures Seats(z, k) {
        if k == incoming {
          assert z.slots[i].client == Some(k);
        } else {
          assert Seats(r, k);
          var j :| 0 <= j < |r.slots| && r.slots[j].active && r.slots[j].client == Some(k);
          assert j != i && z.slots[j] == r.slots[j];
        }
      }
      ResetKeepsAttended(z, backlog, i);
    } else {
      SameSeats(t, Accept(c, t, incoming, initializes));
      hide Seats;
    }
    hide ResetSlot, Seats;
  }

  lemma SameSeats(t: Table, z: Table)
    requires z.slots == t.slots
    ensures forall k :: Seats(t, k) <==> Seats(z, k)
  {
  }

  lemma StepKeepsAttended(w: World, e: Event)
    requires Fits(w.config, w.table) && Attended(w.table, w.backlog)
    ensures Attended(Step(w, e).table, Step(w, e).backlog)
  {
    var c, t, z := w.config, w.table, Step(w, e).table;
    match e
    case Connect(k) => SameSeats(t, z);
    case Arrive(k, chunk) => SameSeats(t, z);
    case HangUp(k) => SameSeats(t, z);
    case Iterate(initializes) =>
      if w.backlog == [] {
        ServingKeepsAttended(c, t, [], 0);
      } else {
        assert w.backlog == [w.backlog[0]] + w.backlog[1..];
        AcceptKeepsAttended(c, t, w.backlog[0], initializes, w.backlog[1..]);
        ServingKeepsAttended(c, Accept(c, t, w.backlog[0], initializes), w.backlog[1..], 0);
      }
    case Restart(d) => ResettingKeepsAttended(t, w.backlog, 0);
    hide Seats, Accept, ServeFrom, ResetFrom;
  }

  lemma {:induction false} RunKeepsAttended(w: World, events: seq<Event>)
    requires Fits(w.config, w.table) && Attended(w.table, w.backlog)
    ensures Attended(Run(w, events).table, Run(w, events).backlog)
    decreases |events|
  {
    hide Attended, Step;
    if events != [] {
      StepKeepsAttended(w, events[0]);
      RunKeepsAttended(Step(w, events[0]), events[1..]);
    }
  }

  /** In every run a connection is open only while it waits to be accepted or is the client of an
      active slot: a client that is turned away, rejected or shut out is disconnected, and so is
      one whose session could not be started. */
  lemma NoClientIsForgotten(c: Config, events: seq<Event>)
    requires c.maximum <= c.capacity
    ensures var w := Run(Initial(c), events); Attended(w.table, w.backlog)
  {
    RunKeepsAttended(Initial(c), events);
  }

  // ---------- slots of clients that have gone ----------

  /** Every slot in use has a client that is there. */
  predicate NoneGone(t: Table, from: nat, to: nat)
    requires to <= |t.slots|
  {
    forall i :: from <= i < to && t.slots[i].active ==> Connected(t, t.slots[i].client)
  }

  lemma ServedIsThere(c: Config, t: Table, i: nat)
    requires TableSafe(c, t) && i < |t.slots|
    ensures var z := Serve(c, t, i); z.slots[i].active ==> Connected(z, z.slots[i].client)
  {
    hide Flatten;
    assert SlotInOrder(c, t, i);
    if t.slots[i].active && Connected(t, t.slots[i].client) {
      var k := t.connections[t.slots[i].client.value];
      assert BytesKept(k);
      DrainKeepsBytes(c, t.slots[i].id, t.slots[i].session.value, k);
    }
    hide Drain, IdsApart, ClientsApart;
  }

  lemma {:induction false} ServingClearsTheGone(c: Config, t: Table, i: nat)
    requires TableSafe(c, t) && i <= c.maximum <= |t.slots| && NoneGone(t, 0, i)
    ensures NoneGone(ServeFrom(c, t, i), 0, c.maximum)
    decreases c.maximum - i
  {
    hide TableSafe, Serve;
    if i < c.maximum {
      var z := Serve(c, t, i);
      ServeKeepsSafe(c, t, i);
      ServedIsThere(c, t, i);
      forall j | 0 <= j < i && z.slots[j].active ensures Connected(z, z.slots[j].client) {
        ServeLeavesSlots(c, t, i, j);
        ServeLeavesOthers(c, t, i, j);
      }
      ServingClearsTheGone(c, z, i + 1);
    }
  }

  lemma SafeIsBelow(c: Config, t: Table)
    requires TableSafe(c, t)
    ensures c.maximum <= |t.slots| && forall i :: c.maximum <= i < |t.slots| ==> !t.slots[i].active
  {
    forall i | c.maximum <= i < |t.slots| ensures !t.slots[i].active {
      assert SlotInOrder(c, t, i);
    }
  }

  /** When the worker has been round, a connection is open if and only if it still waits to be
      accepted or is the client of an active slot: nobody is forgotten, and no slot is held by a
      client that has gone. */
  lemma OneRoundLeavesNoneGone(c: Config, events: seq<Event>, initializes: bool)
    requires c.maximum <= c.capacity
    requires Run(Initial(c), events + [Iterate(initializes)]).table.issued <= U64_MAX
    ensures var w := Run(Initial(c), events + [Iterate(initializes)]);
            && Attended(w.table, w.backlog)
            && forall i :: 0 <= i < |w.table.slots| && w.table.slots[i].active ==> Connected(w.table, w.table.slots[i].client)
  {
    hide Step, TableSafe, Untouched, IdsApart, ClientsApart;
    var w, e := Run(Initial(c), events), Iterate(initializes);
    RunOneMore(Initial(c), events, e);
    IssuedGrows(w, e);
    InitialIsSafe(c);
    RunKeepsSafe(Initial(c), events);
    NoClientIsForgotten(c, events + [e]);
    RoundClearsTheGone(w, initializes);
    StepKeepsSafe(w, e);
    SafeIsBelow(Step(w, e).config, Step(w, e).table);
  }

  lemma InitialIsSafe(c: Config)
    requires c.maximum <= c.capacity
    ensures Safe(Initial(c))
  {
  }

  lemma RoundClearsTheGone(w: World, initializes: bool)
    requires Safe(w) && Step(w, Iterate(initializes)).table.issued <= U64_MAX
    ensures var z := Step(w, Iterate(initializes)); z.config == w.config && NoneGone(z.table, 0, w.config.maximum)
  {
    var c, t := w.config, w.table;
    assert Fits(c, t);
    hide TableSafe, Untouched, Accept, NoneGone;
    if w.backlog == [] {
      NothingGone(t);
      ServingClearsTheGone(c, t, 0);
    } else {
      assert Untouched(t, w.backlog[0]);
      var a := Accept(c, t, w.backlog[0], initializes);
      ServingIssuesNothing(c, a, 0);
      AcceptKeepsSafe(c, t, w.backlog[0], initializes);
      NothingGone(a);
      ServingClearsTheGone(c, a, 0);
    }
  }

  lemma NothingGone(t: Table)
    ensures NoneGone(t, 0, 0)
  {
  }

  lemma {:induction false} RunOneMore(w: World, events: seq<Event>, e: Event)
    requires Fits(w.config, w.table)
    ensures Run(w, events + [e]) == Step(Run(w, events), e)
    decreases |events|
  {
    hide Step;
    if events == [] {
      assert [e][1..] == [] && events + [e] == [e];
    } else {
      assert (events + [e])[0] == events[0] && (events + [e])[1..] == events[1..] + [e];
      RunOneMore(Step(w, events[0]), events[1..], e);
    }
  }
}
