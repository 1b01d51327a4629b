/** The server object: an array of client slots, changed in place by the worker's iteration. */
module SocketServer {
  import opened Bytes
  import opened Wrappers
  import opened SlotTable
  import SlotRuns

  class TCPServer {
    const clients: array<Slot>
    var config: Config
    var nextSessionID: nat
    var listening: bool
    // the platform's sockets
    var connections: map<nat, Connection>
    ghost var issued: nat

    ghost function AsTable(): Table
      reads this, clients
    {
      Table(clients[..], nextSessionID, issued, connections)
    }

    predicate Valid()
      reads this, clients
    {
      config.maximum <= config.capacity == clients.Length
    }

    constructor (capacity: nat, config: Config)
      requires config.maximum <= config.capacity == capacity
      ensures Valid() && !listening && this.config == config && fresh(clients)
      ensures AsTable() == SlotRuns.Initial(config).table
    {
      clients := new Slot[capacity](_ => Slot(None, None, 0, false));
      this.config := config;
      nextSessionID, listening, connections, issued := 1, false, map[], 0;
      new;
      assert clients[..] == SlotRuns.Initial(config).table.slots;
    }

    /** `sessionLimit` is the largest message that a session takes, and `started` says whether the
        worker could be started. The slots, and the identifiers given out so far, survive from one
        start to the next. */
    method Initialize(port: nat, config: Config, sessionLimit: nat, started: bool) returns (ok: bool)
      requires Valid() && config.capacity == clients.Length
      modifies this`config, this`listening
      ensures Valid() && AsTable() == old(AsTable())
      ensures ok <==> old(listening)
                      || (port != 0 && 0 < config.maximum <= clients.Length && sessionLimit != 0 && started)
      ensures listening == ok
      ensures this.config == if !old(listening) && port != 0 && 0 < config.maximum <= clients.Length && sessionLimit != 0
                             then config else old(this.config)
    {
      if listening {
        return true;
      }
      if port == 0 || config.maximum == 0 || config.maximum > clients.Length || sessionLimit == 0 {
        return false;
      }
      this.config := config;
      listening := true;
      if !started {
        listening := false;
        return false;
      }
      return true;
    }

    method Stop(client: Option<nat>)
      modifies this`connections
      ensures connections == Stopped(old(connections), client)
    {
      if client.Some? && client.value in connections {
        connections := connections[client.value := connections[client.value].(connected := false)];
      }
    }

    method ResetClient(i: nat)
      requires i < clients.Length
      modifies this`connections, clients
      ensures AsTable() == ResetSlot(old(AsTable()), i)
    {
      clients[i] := clients[i].(session := None);
      Stop(clients[i].client);
      clients[i] := clients[i].(id := 0);
      clients[i] := clients[i].(active := false);
      assert clients[..] == ResetSlot(old(AsTable()), i).slots;
    }

    method IsConnected(client: Option<nat>) returns (yes: bool)
      ensures yes == Connected(AsTable(), client)
    {
      yes := client.Some? && client.value in connections && connections[client.value].connected;
    }

    method Shutdown()
      requires Valid()
      modifies this`connections, this`listening, clients
      ensures Valid() && !listening
      ensures AsTable() == if old(listening) then ResetFrom(old(AsTable()), 0) else old(AsTable())
    {
      if !listening {
        return;
      }
      ghost var whole := ResetFrom(AsTable(), 0);
      var i := 0;
      while i < clients.Length
        invariant 0 <= i <= clients.Length
        invariant ResetFrom(AsTable(), i) == whole
        modifies this`connections, clients
      {
        ResetClient(i);
        i := i + 1;
      }
      listening := false;
    }

    /** `incoming` is what the listening socket hands out; `initializes` is the session's answer
        to its initialisation. */
    method AcceptClientLocked(incoming: Option<nat>, initializes: bool)
      requires Valid()
      modifies this`connections, this`nextSessionID, this`issued, clients
      ensures Valid()
      ensures AsTable() == if listening && incoming.Some?
                           then Accept(config, old(AsTable()), incoming.value, initializes)
                           else old(AsTable())
    {
      if !listening || incoming.None? {
        return;
      }
      ghost var t := AsTable();
      var i := 0;
      while i < config.maximum
        invariant 0 <= i <= config.maximum
        invariant AsTable() == t
        invariant FirstFree(config.maximum, t, 0) == FirstFree(config.maximum, t, i)
        modifies {}
      {
        var connected := IsConnected(clients[i].client);
        if !(clients[i].active && connected) {
          break;
        }
        i := i + 1;
      }
      assert i == FirstFree(config.maximum, t, 0);
      if i == config.maximum {
        Stop(incoming);
        return;
      }
      Seat(i, incoming.value);
      if !initializes {
        ResetClient(i);
      }
    }

    method Seat(i: nat, incoming: nat)
      requires Valid() && i < clients.Length
      modifies this`connections, this`nextSessionID, this`issued, clients
      ensures AsTable() == Seated(ResetSlot(old(AsTable()), i), i, incoming)
    {
      ghost var r := ResetSlot(AsTable(), i);
      ResetClient(i);
      clients[i] := clients[i].(client := Some(incoming));
      clients[i] := clients[i].(id := nextSessionID);
      nextSessionID, issued := if nextSessionID >= U64_MAX then 0 else nextSessionID + 1, issued + 1;
      if nextSessionID == 0 {
        nextSessionID := 1;
      }
      clients[i] := clients[i].(session := Some([]));
      clients[i] := clients[i].(active := true);
      assert clients[..] == Seated(r, i, incoming).slots;
    }

    method OnWorkerIteration(incoming: Option<nat>, initializes: bool)
      requires Valid()
      modifies this`connections, this`nextSessionID, this`issued, clients
      ensures Valid()
      ensures AsTable() == SlotRuns.Iteration(config, old(AsTable()), if listening then incoming else None, initializes)
    {
      AcceptClientLocked(incoming, initializes);
      ghost var whole := ServeFrom(config, AsTable(), 0);
      var i := 0;
      while i < config.maximum
        invariant 0 <= i <= config.maximum
        invariant ServeFrom(config, AsTable(), i) == whole
        modifies this`connections, clients
      {
        ServeClient(i);
        i := i + 1;
      }
    }

    method ServeClient(i: nat)
      requires Valid() && i < clients.Length
      modifies this`connections, clients
      ensures AsTable() == Serve(config, old(AsTable()), i)
    {
      ghost var t := AsTable();
      if !clients[i].active {
        return;
      }
      var connected := IsConnected(clients[i].client);
      if !connected || clients[i].session.None? {
        ResetClient(i);
        return;
      }
      var k := clients[i].client.value;
      ghost var slot, d := clients[i], Drain(config, clients[i].id, clients[i].session.value, connections[k]);
      var rejected := false;
      while connections[k].unread != []
        invariant k in connections && clients[i].session.Some?
        invariant clients[..] == t.slots[i := slot.(session := clients[i].session)]
        invariant connections == t.connections[k := connections[k]]
        invariant d == Drain(config, clients[i].id, clients[i].session.value, connections[k]) && !rejected
        decreases |connections[k].unread|
        modifies this`connections, clients
      {
        var chunk := connections[k].unread[0];
        connections := connections[k := connections[k].(unread := connections[k].unread[1..], read := connections[k].read + chunk)];
        if chunk == [] {
          break;
        }
        clients[i] := clients[i].(session := Some(clients[i].session.value + [chunk]));
        if !config.verdict(clients[i].id, clients[i].session.value) && config.resets {
          rejected := true;
          break;
        }
      }
      if rejected {
        ResetClient(i);
      }
    }
  }
}
