/** What two conforming State sessions can rely on beyond convergence: which messages are taken,
    and what a request for resynchronization brings back. */
module StateDelivery {
  import opened StateSession
  import opened StateRuns
  import opened StateConvergence
  import opened StateReceiving
  import opened StateSafety
  import opened StateAnswers

  // ---------- what is asked for is what is accepted ----------

  /** A bound session announces exactly the types of which it accepts its peer's updates. */
  lemma WantedIsAccepted(p: Peer, t: TypeId)
    requires p.remoteDevice != NOBODY
    ensures t in Wanted(p) <==> IsSubscribed(p.subscriptions, p.remoteDevice, t)
  {
  }

  /** More than any device a list of descriptors names. */
  function Unnamed(descriptors: seq<Descriptor>): (d: Device)
    ensures d != NOBODY
    ensures forall i :: 0 <= i < |descriptors| && descriptors[i].scope.OnlyDevice? ==> descriptors[i].scope.device < d
  {
    if descriptors == [] then 1
    else
      var d := Unnamed(descriptors[1..]);
      var first := descriptors[0].scope;
      if first.OnlyDevice? && first.device >= d then first.device + 1 else d
  }

  /** A session that expects no particular device announces, until it is bound, exactly the types
      it would accept from any device. */
  lemma WantedOfAnyone(p: Peer, t: TypeId)
    requires p.remoteDevice == NOBODY && p.config.expected == NOBODY
    ensures t in Wanted(p) <==> forall d: Device :: d != NOBODY ==> IsSubscribed(p.subscriptions, d, t)
  {
    if forall d: Device :: d != NOBODY ==> IsSubscribed(p.subscriptions, d, t) {
      var d := Unnamed(p.subscriptions);
      assert IsSubscribed(p.subscriptions, d, t);
    }
  }

  // ---------- which messages are taken ----------

  /** Nobody, someone other than the bound peer, or other than the one that is expected. */
  predicate IsStranger(p: Peer, device: Device)
  {
    || device == NOBODY
    || (p.remoteDevice != NOBODY && device != p.remoteDevice)
    || (p.config.expected != NOBODY && device != p.config.expected)
  }

  /** A session listens to no stranger, and to no acknowledgement of somebody else's state. */
  lemma OnlyThePeerIsHeard(p: Peer, m: Message)
    requires if m.Acknowledgement? then m.origin != p.origin
             else IsStranger(p, if m.Update? then m.origin else m.device)
    ensures Handle(p, m) == Outcome(p, [], false)
  {
  }

  /** A conforming message that does not fit its receiver: an Update it did not ask for, a
      subscription to a type it does not have, or a request for a state never published. */
  predicate Misplaced(p: Peer, m: Message)
  {
    match m
    case Update(origin, t, _) => t !in p.contract || !IsSubscribed(p.subscriptions, origin, t)
    case Subscribe(_, t) => t !in p.contract
    case Resynchronize(_, t) => t != ALL_TYPES && t in Subscribed(p) && t !in p.published
    case _ => false
  }

  predicate NextIsTaken(me: Side, other: Side)
  {
    me.phase == Up && me.inbox != [] && Compatible(me, other) ==>
      (Handle(me.peer, me.inbox[0]).ok <==> !Misplaced(me.peer, me.inbox[0]))
  }

  lemma UpdateIsTaken(me: Side, other: Side, t: TypeId, e: Entry)
    requires Sane(me, other) && me.phase == Up && Compatible(me, other) && AdvancingFor(other, me, t)
    requires me.inbox != [] && me.inbox[0] == Update(other.peer.origin, t, e)
    ensures Handle(me.peer, me.inbox[0]).ok <==> !Misplaced(me.peer, me.inbox[0])
  {
    BindReaction(me, other);
    BindTouches(me.peer, other.peer.origin);
    hide BindPeer, IsSubscribed, Reaction, Contained, AllAuthentic;
    var known, coming := Known(me.peer, other.peer.origin, t), Updates(me.inbox, t);
    assert coming == [e] + Updates(me.inbox[1..], t);
    if known != [] {
      var all := known + coming + Latest(other.peer, t);
      assert all[0] == known[0] && all[1] == e;
      assert NotAfter(all[0], all[1]);
    }
  }

  lemma ControlIsTaken(me: Side, other: Side, m: Message)
    requires Sane(me, other) && me.phase == Up && Compatible(me, other)
    requires Authentic(m, other.peer, me.peer) && !m.Update?
    ensures Handle(me.peer, m).ok <==> !Misplaced(me.peer, m)
  {
    BindReaction(me, other);
    hide BindPeer, Reaction;
    var b := BindPeer(me.peer, other.peer.origin);
    if m.Subscribe? {
      RoomForPeer(b.peer, m.typeId);
    } else if m.Resynchronize? {
      SubscribedIsServiceable(me.peer);
      OneTypeOf(me.peer, m.typeId);
    }
    hide Snapshots, Contained, Subscribed, AllAuthentic, Serviceable, CanSubscribe;
  }

  lemma RoomForPeer(p: Peer, t: TypeId)
    requires Contained(p) && p.remoteDevice != NOBODY
    ensures CanSubscribe(p, p.remoteDevice, t) <==> t in p.contract
  {
    if p.remoteDevice !in p.subscribers {
      assert p.subscribers == map[];
    }
  }

  lemma SaneNextIsTaken(me: Side, other: Side)
    requires Sane(me, other) && Sane(other, me) && forall t :: AdvancingFor(other, me, t)
    ensures NextIsTaken(me, other)
  {
    if me.phase == Up && me.inbox != [] && Compatible(me, other) {
      var m := me.inbox[0];
      assert Authentic(m, other.peer, me.peer);
      if m.Update? {
        assert AdvancingFor(other, me, m.typeId);
        UpdateIsTaken(me, other, m.typeId, m.entry);
      } else {
        ControlIsTaken(me, other, m);
      }
    }
    hide Sane, AdvancingFor, Handle, Misplaced, Compatible;
  }

  /** In every state that two sessions can reach, a running session that does not expect a third
      device takes the next message on its way to it if and only if the message fits; in
      particular it never turns down an Update as out of date. */
  lemma FittingMessagesAreTaken(s0: System, steps: seq<Step>)
    requires Initial(s0) && Possibly(s0, steps)
    ensures var s := After(s0, steps); NextIsTaken(s.x, s.y) && NextIsTaken(s.y, s.x)
  {
    InitialHoldsInvariant(s0);
    RunsKeepInvariant(s0, steps);
    var s := After(s0, steps);
    hide Sane, Initial, Possibly, After, NextIsTaken, AdvancingFor, Live, Synchronized, CurrentFor;
    SaneNextIsTaken(s.x, s.y);
    SaneNextIsTaken(s.y, s.x);
  }

  // ---------- the order of answers ----------

  /** By the time a subscriber is told that it is subscribed it has been sent the latest state. */
  lemma StateComesBeforeAcknowledgement(p: Peer, device: Device, t: TypeId)
    requires Handle(p, Subscribe(device, t)).ok && t in p.published
    ensures var sent := Handle(p, Subscribe(device, t)).sent;
            && |sent| >= 2 && sent[|sent| - 1] == SubscribeAcknowledgement(p.origin, t)
            && sent[|sent| - 2] == Update(p.origin, t, p.published[t])
  {
    BindTouches(p, device);
    hide BindPeer, Subscribed;
  }

  // ---------- resynchronization ----------

  function HandleEach(p: Peer, messages: seq<Message>): Peer
    decreases |messages|
  {
    if messages == [] then p else HandleEach(Handle(p, messages[0]).peer, messages[1..])
  }

  /** What the repository of `p` holds of the publisher `q` is not ahead of it. */
  predicate NotAhead(p: Peer, q: Peer)
  {
    forall t :: (q.origin, t) in p.remote && t in q.published ==> NotAfter(p.remote[(q.origin, t)], q.published[t])
  }

  /** Messages of `q` that carry its latest entries. */
  predicate LatestOf(q: Peer, messages: seq<Message>)
  {
    forall i :: 0 <= i < |messages| ==>
      && messages[i].Update? && messages[i].origin == q.origin
      && messages[i].typeId in q.published && messages[i].entry == q.published[messages[i].typeId]
  }

  predicate Holds(p: Peer, q: Peer, t: TypeId)
  {
    t in q.published && (q.origin, t) in p.remote && p.remote[(q.origin, t)] == q.published[t]
  }

  predicate Takes(p: Peer, q: Peer, t: TypeId)
  {
    t in p.contract && IsSubscribed(p.subscriptions, q.origin, t)
  }

  lemma LatestIsTaken(p: Peer, q: Peer, t: TypeId)
    requires p.remoteDevice == q.origin != NOBODY && (p.config.expected == NOBODY || p.config.expected == q.origin)
    requires NotAhead(p, q) && t in q.published
    ensures var z := Handle(p, Update(q.origin, t, q.published[t])).peer;
            && z == p.(remote := z.remote) && NotAhead(z, q)
            && (Takes(p, q, t) ==> Holds(z, q, t))
            && forall u :: Holds(p, q, u) ==> Holds(z, q, u)
  {
    hide IsSubscribed;
  }

  lemma {:induction false} LatestAreTaken(p: Peer, q: Peer, messages: seq<Message>)
    requires p.remoteDevice == q.origin != NOBODY && (p.config.expected == NOBODY || p.config.expected == q.origin)
    requires NotAhead(p, q) && LatestOf(q, messages)
    ensures var z := HandleEach(p, messages);
            && (forall u :: Holds(p, q, u) ==> Holds(z, q, u))
            && forall i :: 0 <= i < |messages| && Takes(p, q, messages[i].typeId) ==> Holds(z, q, messages[i].typeId)
    decreases |messages|
  {
    hide Handle, IsSubscribed, NotAhead, Holds;
    if messages != [] {
      var t := messages[0].typeId;
      LatestIsTaken(p, q, t);
      var z := Handle(p, messages[0]).peer;
      assert forall u :: Takes(z, q, u) <==> Takes(p, q, u);
      LatestAreTaken(z, q, messages[1..]);
      assert forall i :: 0 < i < |messages| ==> messages[i] == messages[1..][i - 1];
    }
  }

  /** Whatever a session has lost of its peer's states, asking for all of them brings back the
      latest entry of every type it takes that the peer serves it. */
  lemma ResynchronizationRestores(p: Peer, q: Peer, t: TypeId)
    requires p.initialized && Contained(p) && p.remoteDevice == q.origin != NOBODY
    requires Contained(q) && q.remoteDevice == p.origin != NOBODY
    requires NotAhead(p, q)
    requires t in Subscribed(q) && t in q.contract && t in q.published && Takes(p, q, t)
    ensures var asked := RequestResynchronization(p, ALL_TYPES).sent;
            && |asked| == 1 && Handle(q, asked[0]).ok
            && Holds(HandleEach(p, Handle(q, asked[0]).sent), q, t)
  {
    var asked := RequestResynchronization(p, ALL_TYPES).sent;
    var sent := Handle(q, asked[0]).sent;
    RequestedStatesAreSent(q, p.origin, ALL_TYPES, t, q.published[t]);
    SnapshotsAreLatest(q, q.contract);
    assert [] + Snapshots(q, q.contract) == Snapshots(q, q.contract);
    LatestAreTaken(p, q, sent);
    var i :| 0 <= i < |sent| && sent[i] == Update(q.origin, t, q.published[t]);
    hide Snapshots, Subscribed, HandleEach, NotAhead, Holds, IsSubscribed;
  }

  lemma {:induction false} SnapshotsAreLatest(p: Peer, types: seq<TypeId>)
    ensures LatestOf(p, Snapshots(p, types))
  {
    if types != [] {
      SnapshotsAreLatest(p, types[1..]);
    }
  }
}
