/** How many clients a server may accept before two that are connected share an identifier. */
module SlotBound {
  import opened Bytes
  import opened Wrappers
  import opened SlotTable
  import opened SlotRuns

  predicate Quiet(t: Table, j: nat)
    requires j < |t.slots|
  {
    t.slots[j].active ==>
      Connected(t, t.slots[j].client) && t.slots[j].session.Some? && t.connections[t.slots[j].client.value].unread == []
  }

  /** A pass over clients that have sent nothing changes nothing. */
  lemma {:induction false} QuietServing(c: Config, t: Table, i: nat)
    requires i <= c.maximum <= |t.slots|
    requires forall j :: 0 <= j < |t.slots| ==> Quiet(t, j)
    ensures ServeFrom(c, t, i) == t
    decreases c.maximum - i
  {
    if i < c.maximum {
      assert Quiet(t, i);
      QuietServingOne(c, t, i);
      QuietServing(c, t, i + 1);
    }
    hide Serve, Quiet;
  }

  lemma QuietServingOne(c: Config, t: Table, i: nat)
    requires i < |t.slots| && Quiet(t, i)
    ensures Serve(c, t, i) == t
  {
    if t.slots[i].active {
      var k := t.slots[i].client.value;
      assert Drain(c, t.slots[i].id, t.slots[i].session.value, t.connections[k]) == Drained(t.slots[i].session.value, t.connections[k], false);
      assert t.slots[i := t.slots[i]] == t.slots && t.connections[k := t.connections[k]] == t.connections;
      hide Drain;
    }
  }

  const FIRST := Slot(Some(0), Some([]), 1, true)

  /** Client zero has been served all along, `n` clients have been accepted, and the others are gone. */
  ghost predicate Cycled(c: Config, w: World, n: nat)
  {
    var t := w.table;
    && w.config == c && w.backlog == [] && 2 <= c.maximum && Fits(c, t)
    && t.slots[0] == FIRST && 0 in t.connections && t.connections[0].connected && t.connections[0].unread == []
    && !Busy(t, 1) && (t.slots[1].client.Some? ==> 0 < t.slots[1].client.value < n)
    && (forall j :: 2 <= j < |t.slots| ==> !t.slots[j].active)
    && t.issued == n && t.nextId == n % U64_MAX + 1
    && (forall k :: k in t.connections ==> k < n)
  }

  /** The next client has been accepted into slot one. */
  ghost predicate Doubled(c: Config, w: World, n: nat)
  {
    var t := w.table;
    && w.config == c && w.backlog == [] && 2 <= c.maximum && Fits(c, t)
    && t.slots[0] == FIRST && 0 in t.connections && t.connections[0].connected && t.connections[0].unread == []
    && t.slots[1] == Slot(Some(n), Some([]), n % U64_MAX + 1, true) && Busy(t, 1)
    && (forall j :: 2 <= j < |t.slots| ==> !t.slots[j].active)
    && t.issued == n + 1 && t.nextId == (n + 1) % U64_MAX + 1
    && (forall k :: k in t.connections ==> k <= n)
  }

  lemma FollowingInCycle(n: nat)
    ensures Following(n % U64_MAX + 1) == (n + 1) % U64_MAX + 1
  {
    var q, r := n / U64_MAX, n % U64_MAX;
    assert n == q * U64_MAX + r;
    if r + 1 == U64_MAX {
      assert n + 1 == (q + 1) * U64_MAX;
    } else {
      assert n + 1 == q * U64_MAX + (r + 1);
    }
  }

  lemma AcceptingOne(c: Config, w: World, n: nat)
    requires Cycled(c, w, n) && n > 0
    ensures Doubled(c, Step(Step(w, Connect(n)), Iterate(true)), n)
  {
    var w1 := Step(w, Connect(n));
    var t := w1.table;
    assert w1.backlog[0] == n && w1.backlog[1..] == [];
    assert Busy(t, 0) && !Busy(t, 1);
    assert FirstFree(c.maximum, t, 0) == FirstFree(c.maximum, t, 1) == 1;
    var z := Accept(c, t, n, true);
    FollowingInCycle(n);
    assert z.slots[1] == Slot(Some(n), Some([]), t.nextId, true);
    forall j | 0 <= j < |z.slots| ensures Quiet(z, j) {
    }
    QuietServing(c, z, 0);
    hide ServeFrom, Following;
  }

  lemma LeavingOne(c: Config, w: World, n: nat)
    requires Doubled(c, w, n) && n > 0
    ensures Cycled(c, Step(w, HangUp(n)), n + 1)
  {
  }

  function Visit(n: nat): seq<Event>
  {
    [Connect(n), Iterate(true), HangUp(n)]
  }

  function Clients(from: nat, count: nat): seq<Event>
    decreases count
  {
    if count == 0 then [] else Visit(from) + Clients(from + 1, count - 1)
  }

  lemma RunCons(w: World, e: Event, rest: seq<Event>)
    requires Fits(w.config, w.table)
    ensures Run(w, [e] + rest) == Run(Step(w, e), rest)
  {
    hide Step;
    assert ([e] + rest)[0] == e && ([e] + rest)[1..] == rest;
  }

  lemma RunThree(w: World, a: Event, b: Event, d: Event, rest: seq<Event>)
    requires Fits(w.config, w.table)
    ensures Run(w, [a, b, d] + rest) == Run(Step(Step(Step(w, a), b), d), rest)
  {
    hide Step, Run;
    assert [a, b, d] + rest == [a] + ([b] + ([d] + rest));
    RunCons(w, a, [b] + ([d] + rest));
    RunCons(Step(w, a), b, [d] + rest);
    RunCons(Step(Step(w, a), b), d, rest);
  }

  lemma RunTwo(w: World, a: Event, b: Event)
    requires Fits(w.config, w.table)
    ensures Run(w, [a, b]) == Step(Step(w, a), b)
  {
    hide Step, Run;
    assert [a, b] == [a] + ([b] + []);
    RunCons(w, a, [b] + []);
    RunCons(Step(w, a), b, []);
    RunNothing(Step(Step(w, a), b));
  }

  lemma RunNothing(w: World)
    requires Fits(w.config, w.table)
    ensures Run(w, []) == w
  {
  }

  lemma {:induction false} RunInTwo(w: World, a: seq<Event>, b: seq<Event>)
    requires Fits(w.config, w.table)
    ensures Run(w, a + b) == Run(Run(w, a), b)
    decreases |a|
  {
    hide Step;
    if a == [] {
      assert a + b == b;
    } else {
      assert (a + b)[1..] == a[1..] + b;
      RunInTwo(Step(w, a[0]), a[1..], b);
    }
  }

  lemma OneClient(c: Config, w: World, n: nat, rest: seq<Event>) returns (z: World)
    requires Cycled(c, w, n) && n > 0
    ensures Cycled(c, z, n + 1) && Fits(w.config, w.table) && Fits(z.config, z.table)
    ensures Run(w, Visit(n) + rest) == Run(z, rest)
  {
    assert Fits(w.config, w.table);
    hide Cycled, Doubled, Step, Run;
    AcceptingOne(c, w, n);
    var w2 := Step(Step(w, Connect(n)), Iterate(true));
    LeavingOne(c, w2, n);
    RunThree(w, Connect(n), Iterate(true), HangUp(n), rest);
    z := Step(w2, HangUp(n));
  }

  lemma ClientsInOrder(from: nat, count: nat)
    ensures Clients(from, count)
         == if count == 0 then [] else Visit(from) + Clients(from + 1, count - 1)
  {
  }

  lemma {:induction false} ClientsCycle(c: Config, w: World, n: nat, count: nat)
    requires Cycled(c, w, n) && n > 0
    ensures Cycled(c, Run(w, Clients(n, count)), n + count)
    decreases count
  {
    assert Fits(w.config, w.table);
    hide Cycled, Doubled, Step, Run, Clients, Visit, Fits;
    ClientsInOrder(n, count);
    if count == 0 {
      RunNothing(w);
    } else {
      var z := OneClient(c, w, n, Clients(n + 1, count - 1));
      ClientsCycle(c, z, n + 1, count - 1);
    }
  }

  function FirstClient(): seq<Event>
  {
    [Connect(0), Iterate(true)]
  }

  lemma FirstClientStays(c: Config)
    requires 2 <= c.maximum <= c.capacity
    ensures Cycled(c, Run(Initial(c), FirstClient()), 1)
  {
    var w := Initial(c);
    RunTwo(w, Connect(0), Iterate(true));
    var w1 := Step(w, Connect(0));
    assert w1.backlog[0] == 0 && w1.backlog[1..] == [];
    assert FirstFree(c.maximum, w1.table, 0) == 0;
    var z := Accept(c, w1.table, 0, true);
    assert z.slots[0] == FIRST;
    forall j | 0 <= j < |z.slots| ensures Quiet(z, j) {
    }
    QuietServing(c, z, 0);
    hide ServeFrom;
  }

  /** One client that stays while 2^64 - 1 others come and go. */
  function ComeAndGo(): seq<Event>
  {
    FirstClient() + (Clients(1, U64_MAX - 1) + [Connect(U64_MAX), Iterate(true)])
  }

  predicate ShareIdentifier(t: Table)
  {
    |t.slots| >= 2 && Busy(t, 0) && Busy(t, 1) && t.slots[0].id == t.slots[1].id
  }

  /** The last one is given the identifier of the first, which is still connected. */
  lemma IdentifiersRepeat(c: Config)
    requires 2 <= c.maximum <= c.capacity
    ensures var t := Run(Initial(c), ComeAndGo()).table; t.issued == U64_MAX + 1 && ShareIdentifier(t)
  {
    hide Run, Step, Clients, FirstClient, Cycled;
    var last := [Connect(U64_MAX), Iterate(true)];
    var w1 := Run(Initial(c), FirstClient());
    FirstClientStays(c);
    RunInTwo(Initial(c), FirstClient(), Clients(1, U64_MAX - 1) + last);
    ClientsCycle(c, w1, 1, U64_MAX - 1);
    var w2 := Run(w1, Clients(1, U64_MAX - 1));
    RunInTwo(w1, Clients(1, U64_MAX - 1), last);
    AcceptingOne(c, w2, U64_MAX);
    RunTwo(w2, Connect(U64_MAX), Iterate(true));
    WrappedRound(c, Run(w2, last));
  }

  lemma WrappedRound(c: Config, w: World)
    requires Doubled(c, w, U64_MAX)
    ensures w.table.issued == U64_MAX + 1 && ShareIdentifier(w.table)
  {
  }

  ghost predicate IdsApartUpTo(c: Config, n: nat)
    requires c.maximum <= c.capacity
  {
    forall events :: Run(Initial(c), events).table.issued <= n ==> IdsApart(Run(Initial(c), events).table)
  }

  /** A server with at least two slots keeps the identifiers of active slots apart in every run
      with up to `n` accepts if and only if `n` is below 2^64. */
  lemma IdsApartExactly(c: Config, n: nat)
    requires 2 <= c.maximum <= c.capacity
    ensures IdsApartUpTo(c, n) <==> n <= U64_MAX
  {
    hide Run, ComeAndGo, Served;
    if n <= U64_MAX {
      forall events | Run(Initial(c), events).table.issued <= n
        ensures IdsApart(Run(Initial(c), events).table)
      {
        SafeInRuns(c, events);
      }
    } else {
      IdentifiersRepeat(c);
      assert !IdsApart(Run(Initial(c), ComeAndGo()).table);
    }
  }

  lemma SafeInRuns(c: Config, events: seq<Event>)
    requires c.maximum <= c.capacity && Run(Initial(c), events).table.issued <= U64_MAX
    ensures IdsApart(Run(Initial(c), events).table)
  {
    SlotTableIsSafe(c, events);
    hide Run;
  }
}
