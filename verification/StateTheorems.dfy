/** What two State sessions guarantee: they converge, draining the channels gets them there,
    and withdrawing a descriptor that another one covers is the one thing that breaks it. */
module StateTheorems {
  import opened StateSession
  import opened StateRuns
  import opened StateConvergence
  import opened StateReceiving
  import opened StateSafety

  /** The publisher serves exactly those of its types that the subscriber wants, and of each one
      that the subscriber has as well it holds the latest epoch, revision and value. */
  predicate Converged(pub: Peer, sub: Peer)
  {
    && Subscribed(pub) == Wanted(sub) * Types(pub)
    && forall t :: t in Subscribed(pub) && t in sub.contract && t in pub.published ==>
         (pub.origin, t) in sub.remote && sub.remote[(pub.origin, t)] == pub.published[t]
  }

  predicate Quiescent(s: System)
  {
    s.x.inbox == [] && s.y.inbox == []
  }

  predicate BothUp(s: System)
  {
    s.x.phase == Up && s.y.phase == Up
  }

  /** Neither session was configured to expect a third device. */
  predicate Matched(s: System)
  {
    Compatible(s.x, s.y) && Compatible(s.y, s.x)
  }

  lemma QuietDirectionConverges(pub: Side, sub: Side)
    requires Direction(pub, sub) && Live(pub, sub) && Serviceable(pub.peer) && pub.inbox == [] && sub.inbox == []
    ensures Converged(pub.peer, sub.peer)
  {
    SubscribedIsServiceable(pub.peer);
    assert Subscribed(pub.peer) * Types(pub.peer) == Subscribed(pub.peer);
    forall t | t in Subscribed(pub.peer) && t in sub.peer.contract && t in pub.peer.published
      ensures (pub.peer.origin, t) in sub.peer.remote && sub.peer.remote[(pub.peer.origin, t)] == pub.peer.published[t]
    {
      assert CurrentFor(pub, sub, t);
    }
  }

  lemma SaneIsServiceable(me: Side, other: Side)
    requires Sane(me, other)
    ensures Serviceable(me.peer)
  {
  }

  lemma QuietSystemConverges(s: System)
    requires Invariant(s) && BothUp(s) && Matched(s) && Quiescent(s)
    ensures Converged(s.x.peer, s.y.peer) && Converged(s.y.peer, s.x.peer)
  {
    SaneIsServiceable(s.x, s.y);
    SaneIsServiceable(s.y, s.x);
    hide Direction, Sane, Serviceable;
    QuietDirectionConverges(s.x, s.y);
    QuietDirectionConverges(s.y, s.x);
  }

  /** Two-peer convergence: in every run, over any number of connections and under any
      interleaving of publishing, subscribing, withdrawing, resynchronising, starting, stopping
      and delivery, whenever both sessions are bound to each other and the channels are empty,
      both directions have converged. */
  lemma TwoPeersConverge(s0: System, steps: seq<Step>)
    requires Initial(s0) && Possibly(s0, steps)
    ensures var s := After(s0, steps);
            && BothUp(s) && Quiescent(s)
            && s.x.peer.remoteDevice == s.y.peer.origin && s.y.peer.remoteDevice == s.x.peer.origin
            ==> Converged(s.x.peer, s.y.peer) && Converged(s.y.peer, s.x.peer)
  {
    InitialHoldsInvariant(s0);
    RunsKeepInvariant(s0, steps);
    var s := After(s0, steps);
    hide Direction, Initial, Possibly, After, Converged;
    if && BothUp(s) && Quiescent(s)
       && s.x.peer.remoteDevice == s.y.peer.origin && s.y.peer.remoteDevice == s.x.peer.origin {
      QuietSystemConverges(s);
    }
  }

  // ---------- draining ----------

  function Weight(m: Message, n: nat): nat
  {
    match m
    case Subscribe(_, _) => 4
    case Unsubscribe(_, _) => 2
    case Update(_, _, _) => 2
    case Resynchronize(_, _) => 2 * n + 1
    case _ => 1
  }

  function Load(ms: seq<Message>, n: nat): nat
  {
    if ms == [] then 0 else Weight(ms[0], n) + Load(ms[1..], n)
  }

  /** What a session that has yet to bind may still announce. */
  function Unannounced(p: Peer): nat
  {
    if p.remoteDevice == NOBODY then 4 * |p.subscriptions| else 0
  }

  function Potential(s: System): nat
  {
    var n := |s.x.peer.contract| + |s.y.peer.contract|;
    Load(s.x.inbox, n) + Load(s.y.inbox, n) + Unannounced(s.x.peer) + Unannounced(s.y.peer)
  }

  lemma {:induction false} LoadConcat(a: seq<Message>, b: seq<Message>, n: nat)
    ensures Load(a + b, n) == Load(a, n) + Load(b, n)
  {
    if a == [] {
      assert a + b == b;
    } else {
      assert (a + b)[0] == a[0] && (a + b)[1..] == a[1..] + b;
      LoadConcat(a[1..], b, n);
    }
  }

  lemma {:induction false} AnnouncementsLoad(p: Peer, descriptors: seq<Descriptor>, n: nat)
    ensures Load(Announcements(p, descriptors), n) <= 4 * |descriptors|
  {
    if descriptors != [] {
      AnnouncementsLoad(p, descriptors[1..], n);
      LoadConcat(if Applies(p, descriptors[0].scope) then [Subscribe(p.origin, descriptors[0].typeId)] else [],
                 Announcements(p, descriptors[1..]), n);
    }
  }

  lemma {:induction false} SnapshotsLoad(p: Peer, types: seq<TypeId>, n: nat)
    ensures Load(Snapshots(p, types), n) <= 2 * |types|
  {
    if types != [] {
      SnapshotsLoad(p, types[1..], n);
      LoadConcat(if types[0] in Subscribed(p) then Snapshot(p, types[0]) else [], Snapshots(p, types[1..]), n);
    }
  }

  lemma BindingLoad(p: Peer, device: Device, n: nat)
    requires p.initialized
    ensures var b := BindPeer(p, device); Load(b.sent, n) + Unannounced(b.peer) <= Unannounced(p)
  {
    var bound := p.(remoteDevice := device, available := p.available[device := Connected]);
    AnnouncementsLoad(bound, p.subscriptions, n);
    hide Announcements;
  }

  lemma SubscribeLoad(b: Outcome, t: TypeId, n: nat)
    ensures var o := AcceptSubscribe(b, t);
            Load(o.sent, n) <= Load(b.sent, n) + 3 && Unannounced(o.peer) == Unannounced(b.peer)
  {
    hide Subscribed, CanSubscribe;
    var o := AcceptSubscribe(b, t);
    var ack := [SubscribeAcknowledgement(b.peer.origin, t)];
    LoadConcat(b.sent, Snapshot(o.peer, t) + ack, n);
    LoadConcat(Snapshot(o.peer, t), ack, n);
  }

  lemma UnsubscribeLoad(b: Outcome, t: TypeId, n: nat)
    ensures var o := AcceptUnsubscribe(b, t);
            Load(o.sent, n) <= Load(b.sent, n) + 1 && Unannounced(o.peer) == Unannounced(b.peer)
  {
    hide Subscribed;
    LoadConcat(b.sent, [UnsubscribeAcknowledgement(b.peer.origin, t)], n);
  }

  lemma ResynchronizeLoad(b: Outcome, t: TypeId, n: nat)
    requires n >= |b.peer.contract|
    ensures var o := AcceptResynchronize(b, t);
            Load(o.sent, n) <= Load(b.sent, n) + 2 * n && Unannounced(o.peer) == Unannounced(b.peer)
  {
    hide Subscribed, Snapshots;
    SnapshotsLoad(b.peer, b.peer.contract, n);
    LoadConcat(b.sent, Snapshots(b.peer, b.peer.contract), n);
    LoadConcat(b.sent, Snapshot(b.peer, t), n);
    assert Snapshot(b.peer, t) != [] ==> t in b.peer.contract && n > 0;
  }

  lemma ControlLoad(p: Peer, m: Message, n: nat)
    requires p.initialized && !m.Update? && !m.Acknowledgement? && n >= |p.contract|
    ensures var o := HandleControl(p, m);
            Load(o.sent, n) + Unannounced(o.peer) < Weight(m, n) + Unannounced(p)
  {
    hide BindPeer, AcceptSubscribe, AcceptUnsubscribe, AcceptResynchronize, Load;
    var b := BindPeer(p, m.device);
    BindingLoad(p, m.device, n);
    BindTouches(p, m.device);
    match m
    case Subscribe(_, t) => SubscribeLoad(b, t, n);
    case Unsubscribe(_, t) => UnsubscribeLoad(b, t, n);
    case Resynchronize(_, t) => ResynchronizeLoad(b, t, n);
    case _ =>
  }

  lemma HandleLoad(p: Peer, m: Message, n: nat)
    requires p.initialized && n >= |p.contract|
    ensures var o := Handle(p, m);
            Load(o.sent, n) + Unannounced(o.peer) < Weight(m, n) + Unannounced(p)
  {
    hide BindPeer, HandleControl, IsSubscribed;
    if m.Update? {
      var b := BindPeer(p, m.origin);
      BindingLoad(p, m.origin, n);
      LoadConcat(b.sent, [Acknowledgement(m.origin, m.typeId, m.entry.stamp)], n);
    } else if !m.Acknowledgement? {
      ControlLoad(p, m, n);
    }
  }

  /** Delivering any message lowers the potential, so sessions cannot keep each other busy. */
  lemma ReceivingLowersPotential(s: System, step: Step)
    requires Invariant(s) && Possible(s, step) && (step == OfX(Receive) || step == OfY(Receive))
    ensures Potential(Next(s, step)) < Potential(s)
  {
    hide Handle, Direction, Unannounced, AllAuthentic, Contained;
    var n := |s.x.peer.contract| + |s.y.peer.contract|;
    var me, other := if step == OfX(Receive) then s.x else s.y, if step == OfX(Receive) then s.y else s.x;
    HandleLoad(me.peer, me.inbox[0], n);
    LoadConcat(other.inbox, Handle(me.peer, me.inbox[0]).sent, n);
    ReceiveReaction(me, other);
  }

  predicate OnlyReceives(steps: seq<Step>)
  {
    forall i :: 0 <= i < |steps| ==> steps[i] == OfX(Receive) || steps[i] == OfY(Receive)
  }

  /** Delivering what is on its way, in any order that empties the channels, is possible... */
  lemma {:induction false} ChannelsDrain(s: System) returns (steps: seq<Step>)
    requires Invariant(s) && BothUp(s)
    ensures OnlyReceives(steps) && Possibly(s, steps) && |steps| <= Potential(s)
    ensures var t := After(s, steps); Invariant(t) && BothUp(t) && Quiescent(t) && (Matched(s) ==> Matched(t))
    decreases Potential(s)
  {
    hide Invariant, Potential, Handle;
    if Quiescent(s) {
      steps := [];
    } else {
      var step := if s.x.inbox != [] then OfX(Receive) else OfY(Receive);
      ReceivingLowersPotential(s, step);
      StepKeepsInvariant(s, step);
      ReceivingKeepsConfig(s, step);
      var later := ChannelsDrain(Next(s, step));
      steps := [step] + later;
      assert steps[1..] == later;
    }
  }

  lemma ReceivingKeepsConfig(s: System, step: Step)
    requires Invariant(s) && BothUp(s) && Possible(s, step) && (step == OfX(Receive) || step == OfY(Receive))
    ensures var t := Next(s, step); BothUp(t) && (Matched(s) ==> Matched(t))
  {
    hide Handle, Direction, Contained;
    if step == OfX(Receive) {
      ReceiveReaction(s.x, s.y);
    } else {
      ReceiveReaction(s.y, s.x);
    }
  }

  /** ... and ends, within a bound known beforehand, with both directions converged. */
  lemma DrainingConverges(s0: System, steps: seq<Step>)
    requires Initial(s0) && Possibly(s0, steps) && BothUp(After(s0, steps)) && Matched(After(s0, steps))
    ensures var s := After(s0, steps);
            exists more :: && OnlyReceives(more) && |more| <= Potential(s) && Possibly(s, more)
                           && var t := After(s, more);
                              Quiescent(t) && Converged(t.x.peer, t.y.peer) && Converged(t.y.peer, t.x.peer)
  {
    InitialHoldsInvariant(s0);
    RunsKeepInvariant(s0, steps);
    var s := After(s0, steps);
    hide Invariant, Initial, Converged, Potential;
    var more := ChannelsDrain(s);
    QuietSystemConverges(After(s, more));
  }

  // ---------- overlapping descriptors ----------

  /** From a converged quiet state: `sub` withdraws a descriptor in force, the publisher hears
      of it and answers. */
  function Withdrawn(pub: Peer, sub: Peer, d: Descriptor): (Peer, Peer)
  {
    var local := LocalUnsubscribe(sub, d);
    var handled := Handle(pub, Unsubscribe(sub.origin, d.typeId));
    (handled.peer, Handle(local.peer, UnsubscribeAcknowledgement(pub.origin, d.typeId)).peer)
  }

  /** The publisher goes on serving what is wanted exactly when no other descriptor in force
      covers the type: the session does not look before it sends `Unsubscribe`. */
  lemma WithdrawingIsExact(pub: Side, sub: Side, d: Descriptor)
    requires Sane(pub, sub) && Sane(sub, pub) && pub.phase == Up && sub.phase == Up
    requires pub.peer.remoteDevice == sub.peer.origin && sub.peer.remoteDevice == pub.peer.origin
    requires Converged(pub.peer, sub.peer)
    requires d in sub.peer.subscriptions && Applies(sub.peer, d.scope)
    ensures LocalUnsubscribe(sub.peer, d).sent == [Unsubscribe(sub.peer.origin, d.typeId)]
    ensures Handle(pub.peer, Unsubscribe(sub.peer.origin, d.typeId)).sent == [UnsubscribeAcknowledgement(pub.peer.origin, d.typeId)]
    ensures var (pub', sub') := Withdrawn(pub.peer, sub.peer, d);
            Converged(pub', sub') <==> Sole(sub.peer, d) || d.typeId !in pub.peer.contract
  {
    WantedShrinks(sub.peer, d);
    hide Wanted, Applies, AllAuthentic, Sole, Without, Controls;
    ReceiveUnsubscribe(pub, sub, d.typeId);
    var q := LocalUnsubscribe(sub.peer, d).peer;
    var (pub', sub') := Withdrawn(pub.peer, sub.peer, d);
    assert sub' == q;
    assert pub'.published == pub.peer.published && pub'.origin == pub.peer.origin;
    assert Subscribed(pub') == Wanted(sub.peer) * Types(pub.peer) - {d.typeId};
  }

  // Device 2 publishes type 7 to device 1, which wants it of any device and of device 2.
  const ANY := Descriptor(7, AnyDevice)
  const ONLY := Descriptor(7, OnlyDevice(2))

  function Publisher(subscribers: map<Device, set<TypeId>>): Side
  {
    Side(Peer(true, Config(1, true), 1, subscribers, 2, [7], map[], map[], map[1 := Connected], []), Up, [])
  }

  function Subscriber(descriptors: seq<Descriptor>): Side
  {
    Side(Peer(true, Config(2, true), 2, map[], 1, [7], map[], map[], map[2 := Connected], descriptors), Up, [])
  }

  function NewSide(origin: Device): Side
  {
    Side(Peer(false, Config(NOBODY, true), NOBODY, map[], origin, [7], map[], map[], map[], []), Fresh, [])
  }

  function Starting(): seq<Step>
  {
    [OfX(Do(DoInitialize(Config(1, true)))), OfY(Do(DoInitialize(Config(2, true))))]
  }

  function Wanting(d: Descriptor): seq<Step>
  {
    [OfY(Do(DoSubscribe(d))), OfX(Receive), OfY(Receive)]
  }

  lemma EachStarts()
    ensures Possible(System(NewSide(2), NewSide(1)), Starting()[0])
    ensures Next(System(NewSide(2), NewSide(1)), Starting()[0]) == System(Publisher(map[]), NewSide(1))
    ensures Possible(System(Publisher(map[]), NewSide(1)), Starting()[1])
    ensures Next(System(Publisher(map[]), NewSide(1)), Starting()[1]) == System(Publisher(map[]), Subscriber([]))
  {
  }

  lemma StartingRuns()
    ensures var s := System(NewSide(2), NewSide(1));
            Possibly(s, Starting()) && After(s, Starting()) == System(Publisher(map[]), Subscriber([]))
  {
    hide Possible, Next;
    var s, a := System(NewSide(2), NewSide(1)), Starting();
    EachStarts();
    var s1 := Next(s, a[0]);
    var s2 := Next(s1, a[1]);
    assert Possibly(s2, a[2..]) && After(s2, a[2..]) == s2;
    assert Possibly(s1, a[1..]) && After(s1, a[1..]) == s2;
  }

  lemma WantingRuns(subscribers: map<Device, set<TypeId>>, descriptors: seq<Descriptor>, d: Descriptor)
    requires subscribers == map[] || subscribers == map[1 := {7}]
    requires (d == ANY || d == ONLY) && d !in descriptors
    ensures var s := System(Publisher(subscribers), Subscriber(descriptors));
            && Possibly(s, Wanting(d))
            && After(s, Wanting(d)) == System(Publisher(map[1 := {7}]), Subscriber(descriptors + [d]))
  {
    hide Possible, Next;
    var s := System(Publisher(subscribers), Subscriber(descriptors));
    var a := Wanting(d);
    DescriptorIsAnnounced(Publisher(subscribers), descriptors, d);
    SubscribeIsServed(subscribers, Subscriber(descriptors + [d]));
    AnswerIsTaken(Publisher(map[1 := {7}]), descriptors + [d]);
    var s1 := Next(s, a[0]);
    var s2 := Next(s1, a[1]);
    var s3 := Next(s2, a[2]);
    assert Possibly(s3, a[3..]) && After(s3, a[3..]) == s3;
    assert Possibly(s2, a[2..]) && After(s2, a[2..]) == s3;
    assert Possibly(s1, a[1..]) && After(s1, a[1..]) == s3;
  }

  lemma DescriptorIsAnnounced(x: Side, descriptors: seq<Descriptor>, d: Descriptor)
    requires x.inbox == [] && (d == ANY || d == ONLY) && d !in descriptors
    ensures var s := System(x, Subscriber(descriptors));
            && Possible(s, OfY(Do(DoSubscribe(d))))
            && Next(s, OfY(Do(DoSubscribe(d)))) == System(x.(inbox := [Subscribe(1, 7)]), Subscriber(descriptors + [d]))
  {
    assert LocalSubscribe(Subscriber(descriptors).peer, d)
        == Outcome(Subscriber(descriptors + [d]).peer, [Subscribe(1, 7)], true);
  }

  lemma SubscribeIsServed(subscribers: map<Device, set<TypeId>>, y: Side)
    requires subscribers == map[] || subscribers == map[1 := {7}]
    requires y.inbox == []
    ensures var s := System(Publisher(subscribers).(inbox := [Subscribe(1, 7)]), y);
            && Possible(s, OfX(Receive))
            && Next(s, OfX(Receive)) == System(Publisher(map[1 := {7}]), y.(inbox := [SubscribeAcknowledgement(2, 7)]))
  {
    var p, ack := Publisher(subscribers).peer, [SubscribeAcknowledgement(2, 7)];
    var b := BindPeer(p, 1);
    assert b == Outcome(p, [], true);
    assert Subscribed(p) + {7} == {7} && subscribers[1 := {7}] == map[1 := {7}];
    assert [] + ([] + ack) == ack;
    assert AcceptSubscribe(b, 7) == Outcome(Publisher(map[1 := {7}]).peer, ack, true);
    assert Handle(p, Subscribe(1, 7)) == AcceptSubscribe(b, 7);
    hide Handle;
  }

  lemma AnswerIsTaken(x: Side, descriptors: seq<Descriptor>)
    requires x.inbox == []
    ensures var s := System(x, Subscriber(descriptors).(inbox := [SubscribeAcknowledgement(2, 7)]));
            && Possible(s, OfY(Receive)) && Next(s, OfY(Receive)) == System(x, Subscriber(descriptors))
  {
    var p := Subscriber(descriptors).peer;
    assert BindPeer(p, 2) == Outcome(p, [], true);
    assert Handle(p, SubscribeAcknowledgement(2, 7)) == Outcome(p, [], true);
    hide Handle;
  }

  lemma {:induction false} RunsInTwo(s: System, a: seq<Step>, b: seq<Step>)
    requires Possibly(s, a) && Possibly(After(s, a), b)
    ensures Possibly(s, a + b) && After(s, a + b) == After(After(s, a), b)
    decreases |a|
  {
    hide Possible, Next;
    if a == [] {
      assert a + b == b;
    } else {
      assert (a + b)[1..] == a[1..] + b;
      RunsInTwo(Next(s, a[0]), a[1..], b);
    }
  }

  function OverlapState(): System
  {
    System(Publisher(map[1 := {7}]), Subscriber([ANY, ONLY]))
  }

  lemma OverlapRuns()
    ensures var s0, steps := System(NewSide(2), NewSide(1)), Starting() + (Wanting(ANY) + Wanting(ONLY));
            Initial(s0) && Possibly(s0, steps) && After(s0, steps) == OverlapState()
  {
    hide Possibly, After;
    assert [] + [ANY] == [ANY] && [ANY] + [ONLY] == [ANY, ONLY];
    StartingRuns();
    WantingRuns(map[], [], ANY);
    WantingRuns(map[1 := {7}], [ANY], ONLY);
    RunsInTwo(System(Publisher(map[]), Subscriber([])), Wanting(ANY), Wanting(ONLY));
    RunsInTwo(System(NewSide(2), NewSide(1)), Starting(), Wanting(ANY) + Wanting(ONLY));
  }

  lemma OverlapIsQuiet(s: System)
    requires s == OverlapState() && Invariant(s)
    ensures BothUp(s) && Quiescent(s) && Matched(s)
    ensures Converged(s.x.peer, s.y.peer) && Converged(s.y.peer, s.x.peer)
  {
    hide Invariant, Converged;
    QuietSystemConverges(s);
  }

  lemma OverlapEndsBadly(s: System)
    requires s == OverlapState() && Invariant(s) && Converged(s.x.peer, s.y.peer)
    ensures var (pub, sub) := Withdrawn(s.x.peer, s.y.peer, ANY); !Converged(pub, sub)
  {
    assert Sane(s.x, s.y) && Sane(s.y, s.x);
    hide Invariant, Converged, Withdrawn, Sane;
    assert s.y.peer.subscriptions[1] == ONLY;
    assert !Sole(s.y.peer, ANY);
    WithdrawingIsExact(s.x, s.y, ANY);
  }

  /** A run of two new sessions to a quiet and converged state, in which withdrawing the
      descriptor for any device leaves the one for device 2 in force and unserved. */
  lemma OverlapBreaksConvergence()
    ensures var s0, steps := System(NewSide(2), NewSide(1)), Starting() + (Wanting(ANY) + Wanting(ONLY));
            && Initial(s0) && Possibly(s0, steps)
            && var s := After(s0, steps);
               && BothUp(s) && Quiescent(s) && Matched(s)
               && Converged(s.x.peer, s.y.peer) && Converged(s.y.peer, s.x.peer)
               && s.y.peer.subscriptions == [ANY, ONLY] && Applies(s.y.peer, ANY.scope)
               && var (pub, sub) := Withdrawn(s.x.peer, s.y.peer, ANY); !Converged(pub, sub)
  {
    var s0 := System(NewSide(2), NewSide(1));
    var s := OverlapState();
    OverlapRuns();
    RunsKeepInvariant(s0, Starting() + (Wanting(ANY) + Wanting(ONLY)));
    hide Possibly, After, Withdrawn, Converged, Handle, Invariant, Initial;
    OverlapIsQuiet(s);
    OverlapEndsBadly(s);
  }
}
