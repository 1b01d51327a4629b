/** What receiving one authentic message does to a side and its channels. */
module StateReceiving {
  import opened StateSession
  import opened StateRuns
  import opened StateConvergence
  import opened StateChannels

  /** The session did not bind just now, and sends nothing that changes subscriptions; or it
      did, and first announces every type it wants. */
  ghost predicate Announced(before: Peer, after: Peer, sent: seq<Message>)
  {
    if after.remoteDevice == before.remoteDevice then Quiet(sent) && Wanted(after) == Wanted(before)
    else
      && Wanted(before) <= Wanted(after)
      && (forall t :: t in Wanted(after) ==> SubscribePending(sent, t))
      && forall types :: Controls(types, sent) == types + Wanted(after)
  }

  /** What every reaction has in common. */
  ghost predicate Reaction(me: Side, other: Side, o: Outcome)
  {
    var p := me.peer;
    && o.peer == p.(remoteDevice := o.peer.remoteDevice, available := o.peer.available,
                    subscribers := o.peer.subscribers, remote := o.peer.remote)
    && (Compatible(me, other) ==> o.peer.remoteDevice in {NOBODY, other.peer.origin})
    && AllAuthentic(o.sent, p, other.peer) && NoDisconnect(o.sent)
    && CurrentUpdates(o.sent, p)
    && (Compatible(me, other) ==> Announced(p, o.peer, o.sent))
  }

  lemma BindReaction(me: Side, other: Side)
    requires Sane(me, other) && me.phase == Up
    ensures var b := BindPeer(me.peer, other.peer.origin);
            && Reaction(me, other, b)
            && b.peer == me.peer.(remoteDevice := b.peer.remoteDevice, available := b.peer.available)
            && Contained(b.peer) && Subscribed(b.peer) == Subscribed(me.peer)
            && (b.ok ==> b.peer.remoteDevice == other.peer.origin)
            && (Compatible(me, other) ==> b.ok)
            && forall i :: 0 <= i < |b.sent| ==> b.sent[i].Subscribe?
  {
    var p, device := me.peer, other.peer.origin;
    var bound := p.(remoteDevice := device, available := p.available[device := Connected]);
    BindKeepsContained(p, device);
    BindKeepsSubscribed(p, device);
    AnnouncementsAreAuthentic(bound, p.subscriptions, other.peer);
    AnnouncementsHaveNoUpdates(bound, p.subscriptions);
    forall types ensures Controls(types, Announcements(bound, p.subscriptions)) == types + WantedOf(bound, p.subscriptions) {
      AnnouncementsControl(bound, types, p.subscriptions);
    }
    AnnouncementsControl(bound, {}, p.subscriptions);
    assert WantedOf(bound, p.subscriptions) == Wanted(bound);
    if Compatible(me, other) && p.remoteDevice == NOBODY {
      BindingWantsMore(p, bound);
    }
    hide Announcements, Controls, WantedOf, Subscribed, Applies;
  }

  lemma BindingWantsMore(p: Peer, bound: Peer)
    requires p.remoteDevice == NOBODY && bound.subscriptions == p.subscriptions && bound.config == p.config
    requires bound.remoteDevice != NOBODY && (p.config.expected == NOBODY || p.config.expected == bound.remoteDevice)
    ensures Wanted(p) <= Wanted(bound)
  {
    assert forall s: Scope :: Applies(p, s) ==> Applies(bound, s);
  }

  /** Adding messages that announce nothing to a reaction. */
  lemma SendMore(me: Side, other: Side, b: Outcome, peer: Peer, more: seq<Message>, ok: bool)
    requires Reaction(me, other, b) && peer == b.peer.(subscribers := peer.subscribers, available := peer.available, remote := peer.remote)
    requires AllAuthentic(more, me.peer, other.peer) && NoDisconnect(more) && CurrentUpdates(more, me.peer) && Quiet(more)
    ensures Reaction(me, other, Outcome(peer, b.sent + more, ok))
  {
    var sent := b.sent + more;
    if Compatible(me, other) {
      assert Wanted(peer) == Wanted(b.peer) by {
        assert forall s: Scope :: Applies(peer, s) == Applies(b.peer, s);
      }
      if peer.remoteDevice != me.peer.remoteDevice {
        forall t | t in Wanted(peer) ensures SubscribePending(sent, t) {
          SubscribePendingConcat(b.sent, more, t);
        }
        forall types ensures Controls(types, sent) == types + Wanted(peer) {
          ControlsConcat(types, b.sent, more);
          QuietControls(Controls(types, b.sent), more);
        }
      }
    }
    hide Wanted, Controls, SubscribePending;
  }

  lemma ReceiveSubscribe(me: Side, other: Side, t: TypeId)
    requires Sane(me, other) && me.phase == Up
    ensures var o := Handle(me.peer, Subscribe(other.peer.origin, t));
            && Reaction(me, other, o) && o.peer.remote == me.peer.remote
            && (t !in me.peer.contract ==> Subscribed(o.peer) == Subscribed(me.peer))
            && (Compatible(me, other) && t in me.peer.contract ==>
                  && Subscribed(o.peer) == Subscribed(me.peer) + {t}
                  && SubscribeAcknowledgement(me.peer.origin, t) in o.sent
                  && (t in me.peer.published ==> Updates(o.sent, t) != []))
  {
    hide Reaction, BindPeer, Contained, Updates, CanSubscribe;
    BindReaction(me, other);
    var b := BindPeer(me.peer, other.peer.origin);
    var o := AcceptSubscribe(b, t);
    if b.ok && t !in me.peer.contract {
      NoRoomForOthers(b.peer, t);
      SameReaction(me, other, b, false);
    } else if b.ok {
      RoomForOne(b.peer, t);
      SnapshotAndAcknowledgement(o.peer, t, me.peer, other.peer);
      var more := Snapshot(o.peer, t) + [SubscribeAcknowledgement(me.peer.origin, t)];
      SendMore(me, other, b, o.peer, more, true);
      UpdatesConcat(b.sent, more, t);
    }
  }

  lemma SnapshotAndAcknowledgement(p: Peer, t: TypeId, me: Peer, other: Peer)
    requires p.published == me.published && p.origin == me.origin && p.contract == me.contract
    ensures var more := Snapshot(p, t) + [SubscribeAcknowledgement(me.origin, t)];
            && AllAuthentic(more, me, other) && NoDisconnect(more) && CurrentUpdates(more, me) && Quiet(more)
            && (t in me.contract && t in me.published ==> Updates(more, t) != [])
  {
    UpdatesConcat(Snapshot(p, t), [SubscribeAcknowledgement(me.origin, t)], t);
  }

  lemma NoRoomForOthers(p: Peer, t: TypeId)
    requires t !in p.contract
    ensures !CanSubscribe(p, p.remoteDevice, t)
  {
  }

  lemma RoomForOne(p: Peer, t: TypeId)
    requires Contained(p) && t in p.contract
    ensures CanSubscribe(p, p.remoteDevice, t)
  {
    if p.remoteDevice !in p.subscribers {
      assert p.subscribers == map[];
    }
  }

  lemma SameReaction(me: Side, other: Side, b: Outcome, ok: bool)
    requires Reaction(me, other, b)
    ensures Reaction(me, other, b.(ok := ok))
  {
  }

  lemma ReceiveUnsubscribe(me: Side, other: Side, t: TypeId)
    requires Sane(me, other) && me.phase == Up
    ensures var o := Handle(me.peer, Unsubscribe(other.peer.origin, t));
            && Reaction(me, other, o) && o.peer.remote == me.peer.remote
            && (Compatible(me, other) ==> Subscribed(o.peer) == Subscribed(me.peer) - {t})
  {
    BindReaction(me, other);
    var b := BindPeer(me.peer, other.peer.origin);
    var o := AcceptUnsubscribe(b, t);
    hide Reaction, BindPeer, Contained;
    if b.ok {
      SendMore(me, other, b, o.peer, [UnsubscribeAcknowledgement(me.peer.origin, t)], true);
    }
  }

  function Resent(p: Peer, t: TypeId): seq<Message>
  {
    if t == ALL_TYPES then Snapshots(p, p.contract)
    else if t in Subscribed(p) then Snapshot(p, t) else []
  }

  lemma ResynchronizeResends(b: Outcome, t: TypeId)
    ensures var o := AcceptResynchronize(b, t);
            o.peer == b.peer && o.sent == b.sent + Resent(b.peer, t)
  {
    assert b.sent + [] == b.sent;
  }

  lemma ReceiveResynchronize(me: Side, other: Side, t: TypeId)
    requires Sane(me, other) && me.phase == Up
    ensures var o := Handle(me.peer, Resynchronize(other.peer.origin, t));
            && Reaction(me, other, o) && o.peer.remote == me.peer.remote
            && Subscribed(o.peer) == Subscribed(me.peer)
  {
    BindReaction(me, other);
    var b := BindPeer(me.peer, other.peer.origin);
    var o := AcceptResynchronize(b, t);
    if b.ok {
      ResynchronizeResends(b, t);
      SnapshotsAreCurrent(b.peer, b.peer.contract, other.peer);
      SendMore(me, other, b, o.peer, Resent(b.peer, t), o.ok);
    }
    hide Reaction, BindPeer, Contained, Snapshots, Subscribed, AcceptResynchronize;
  }

  lemma ReceiveDisconnect(me: Side, other: Side)
    requires Sane(me, other) && me.phase == Up
    ensures var o := Handle(me.peer, Disconnect(other.peer.origin));
            Reaction(me, other, o) && o.peer.remote == me.peer.remote
  {
    BindReaction(me, other);
    var b := BindPeer(me.peer, other.peer.origin);
    hide Reaction, BindPeer, Contained;
    if b.ok {
      assert b.sent + [] == b.sent;
      SendMore(me, other, b, AcceptDisconnect(b).peer, [], true);
    }
  }

  /** An update that is not older than what is known and whose type is wanted becomes known;
      any other leaves the repository alone. */
  lemma ReceiveUpdate(me: Side, other: Side, t: TypeId, e: Entry)
    requires Sane(me, other) && me.phase == Up
    ensures var o := Handle(me.peer, Update(other.peer.origin, t, e));
            var origin := other.peer.origin;
            && Reaction(me, other, o)
            && Subscribed(o.peer) == Subscribed(me.peer)
            && (o.peer.remote == me.peer.remote || o.peer.remote == me.peer.remote[(origin, t) := e])
            && (t !in Wanted(o.peer) || (Known(me.peer, origin, t) != [] && !Newer(e.stamp, Known(me.peer, origin, t)[0].stamp))
                ==> o.peer.remote == me.peer.remote)
            && (Compatible(me, other) && t in Wanted(o.peer) && t in me.peer.contract
                && (Known(me.peer, origin, t) != [] ==> NotAfter(Known(me.peer, origin, t)[0], e))
                ==> Known(o.peer, origin, t) == [e])
  {
    BindReaction(me, other);
    var b, origin := BindPeer(me.peer, other.peer.origin), other.peer.origin;
    var o := HandleUpdate(me.peer, origin, t, e);
    if b.ok {
      WantedIsSubscribed(b.peer, origin, t);
    }
    UpdateLeavesWanted(me.peer, origin, t, e);
    hide Reaction, BindPeer, Contained, Wanted, IsSubscribed;
    if b.ok {
      SameReaction(me, other, b, false);
      SendMore(me, other, b, o.peer, [Acknowledgement(origin, t, e.stamp)], true);
    }
  }

  lemma UpdateLeavesWanted(p: Peer, origin: Device, t: TypeId, e: Entry)
    ensures var b, o := BindPeer(p, origin), HandleUpdate(p, origin, t, e);
            Wanted(o.peer) == Wanted(b.peer)
  {
    var b, o := BindPeer(p, origin), HandleUpdate(p, origin, t, e);
    assert forall s: Scope :: Applies(o.peer, s) == Applies(b.peer, s);
  }

  lemma WantedIsSubscribed(p: Peer, device: Device, t: TypeId)
    requires p.remoteDevice == device != NOBODY
    ensures IsSubscribed(p.subscriptions, device, t) <==> t in Wanted(p)
  {
    assert forall i :: 0 <= i < |p.subscriptions| ==>
      (Applies(p, p.subscriptions[i].scope) <==> p.subscriptions[i].scope.AnyDevice? || p.subscriptions[i].scope.device == device);
  }

  /** An acknowledgement of any kind changes nothing but, for control messages, the binding. */
  lemma ReceiveOther(me: Side, other: Side, m: Message)
    requires Sane(me, other) && me.phase == Up && Authentic(m, other.peer, me.peer)
    requires m.Acknowledgement? || m.SubscribeAcknowledgement? || m.UnsubscribeAcknowledgement?
    ensures var o := Handle(me.peer, m);
            && Reaction(me, other, o) && o.peer.remote == me.peer.remote && Subscribed(o.peer) == Subscribed(me.peer)
  {
    BindReaction(me, other);
    hide BindPeer, Contained;
  }
}
