/** The invariant of two State sessions: every step keeps it, so every run does. */
module StateSafety {
  import opened StateSession
  import opened StateRuns
  import opened StateConvergence
  import opened StateChannels
  import opened StateReceiving

  // ---------- receiving, for any message ----------

  lemma ReceiveReaction(me: Side, other: Side)
    requires Sane(me, other) && Sane(other, me) && me.phase == Up && me.inbox != []
    ensures var m, o := me.inbox[0], Handle(me.peer, me.inbox[0]);
            && Reaction(me, other, o)
            && Contained(o.peer) && o.peer.initialized
            && (Compatible(me, other) && !m.Disconnect? ==> Subscribed(o.peer) == Controlled(Subscribed(me.peer), m) * Types(me.peer))
            && (Compatible(me, other) && m.Subscribe? && m.typeId in Types(me.peer) && m.typeId in me.peer.published
                ==> Updates(o.sent, m.typeId) != [])
            && (!m.Update? ==> o.peer.remote == me.peer.remote)
  {
    hide Reaction, Contained, Handle, Updates, Subscribed;
    var m := me.inbox[0];
    assert Authentic(m, other.peer, me.peer);
    HandleKeepsContained(me.peer, m);
    SubscribedIsServiceable(me.peer);
    assert forall t :: t in Types(me.peer) <==> t in me.peer.contract;
    match m
    case Update(_, t, e) => ReceiveUpdate(me, other, t, e);
    case Subscribe(_, t) => ReceiveSubscribe(me, other, t);
    case Unsubscribe(_, t) => ReceiveUnsubscribe(me, other, t);
    case Resynchronize(_, t) => ReceiveResynchronize(me, other, t);
    case Disconnect(_) => ReceiveDisconnect(me, other);
    case _ => ReceiveOther(me, other, m);
  }

  // ---------- local actions ----------

  lemma InitializeAnnounces(me: Side, other: Side, config: Config)
    requires Sane(me, other) && me.phase == Fresh
    ensures var o := Initialize(me.peer, config);
            && o.peer == me.peer.(initialized := true, config := config, remoteDevice := config.expected, available := o.peer.available)
            && Controls({}, o.sent) == Wanted(o.peer)
            && AllAuthentic(o.sent, me.peer, other.peer)
            && forall i :: 0 <= i < |o.sent| ==> o.sent[i].Subscribe?
  {
    var started := me.peer.(initialized := true, config := config);
    var p := Initialize(me.peer, config).peer;
    AnnouncementsAreAuthentic(started, p.subscriptions, other.peer);
    AnnouncementsAreAuthentic(p, p.subscriptions, other.peer);
    AnnouncementsHaveNoUpdates(started, p.subscriptions);
    AnnouncementsHaveNoUpdates(p, p.subscriptions);
    assert WantedOf(p, p.subscriptions) == Wanted(p);
    AnnouncementsControl(p, {}, p.subscriptions);
    AnnouncementsControl(p, Wanted(p), p.subscriptions);
    ControlsConcat({}, Announcements(p, p.subscriptions), Announcements(p, p.subscriptions));
    assert {} + Wanted(p) == Wanted(p) && Wanted(p) + Wanted(p) == Wanted(p);
    hide Announcements, Controls, Wanted, WantedOf;
  }

  lemma ActFacts(me: Side, other: Side, a: Action)
    requires Sane(me, other) && Enabled(me, Do(a))
    ensures var o := Act(me.peer, a);
            && o.peer.origin == me.peer.origin && o.peer.contract == me.peer.contract && o.peer.remote == me.peer.remote
            && (!a.DoPublish? ==> o.peer.published == me.peer.published)
            && (!a.DoSubscribe? && !a.DoUnsubscribe? ==> o.peer.subscriptions == me.peer.subscriptions)
            && AllAuthentic(o.sent, me.peer, other.peer)
            && (!a.DoShutdown? ==> NoDisconnect(o.sent))
            && (me.phase != Up && !a.DoInitialize? ==> o.sent == [])
            && Subscribed(o.peer) == (if a.DoShutdown? then {} else Subscribed(me.peer))
            && (!a.DoPublish? ==> forall i :: 0 <= i < |o.sent| ==> !o.sent[i].Update?)
            && o.peer.initialized == (PhaseAfter(me, Do(a)) == Up)
            && (!a.DoInitialize? ==> o.peer.config == me.peer.config)
            && (!a.DoInitialize? && !a.DoShutdown? ==> o.peer.remoteDevice == me.peer.remoteDevice)
  {
    hide Controls, Wanted;
    if a.DoInitialize? {
      InitializeAnnounces(me, other, a.config);
    }
    hide Initialize, Applies;
  }

  lemma {:induction false} WithoutIsWithin(descriptors: seq<Descriptor>, d: Descriptor)
    ensures forall x :: x in Without(descriptors, d) <==> x in descriptors && x != d
  {
    if descriptors != [] {
      WithoutIsWithin(descriptors[1..], d);
    }
  }

  // ---------- subscriptions can be served ----------

  lemma SubscribedIsServiceable(p: Peer)
    requires Serviceable(p)
    ensures Subscribed(p) <= Types(p)
  {
  }

  lemma SubscribeKeepsServiceable(b: Outcome, t: TypeId)
    requires Serviceable(b.peer)
    ensures Serviceable(AcceptSubscribe(b, t).peer)
  {
    hide Snapshot, Types, Subscribed;
    SubscribedIsServiceable(b.peer);
    OneTypeOf(b.peer, t);
    SameTypes(b.peer, AcceptSubscribe(b, t).peer);
  }

  lemma UnsubscribeKeepsServiceable(b: Outcome, t: TypeId)
    requires Serviceable(b.peer)
    ensures Serviceable(AcceptUnsubscribe(b, t).peer) && Serviceable(AcceptDisconnect(b).peer)
  {
    hide Types;
    SameTypes(b.peer, AcceptUnsubscribe(b, t).peer);
    SameTypes(b.peer, AcceptDisconnect(b).peer);
  }

  lemma HandleKeepsServiceable(p: Peer, m: Message)
    requires Serviceable(p)
    ensures Serviceable(Handle(p, m).peer)
  {
    hide Snapshots, Snapshot, BindPeer, Applicable, ExactDuplicate, IsSubscribed, Types, AcceptSubscribe,
      AcceptUnsubscribe, AcceptDisconnect;
    var b := BindPeer(p, if m.Update? || m.Acknowledgement? then m.origin else m.device);
    BindTouches(p, if m.Update? || m.Acknowledgement? then m.origin else m.device);
    SameTypes(p, b.peer);
    SameTypes(p, Handle(p, m).peer);
    if m.Subscribe? {
      SubscribeKeepsServiceable(b, m.typeId);
    } else if m.Unsubscribe? {
      UnsubscribeKeepsServiceable(b, m.typeId);
    } else if m.Disconnect? {
      UnsubscribeKeepsServiceable(b, 0);
    }
  }

  lemma OneTypeOf(p: Peer, t: TypeId)
    ensures t in p.contract <==> t in Types(p)
  {
  }

  lemma SameTypes(p: Peer, q: Peer)
    ensures q.contract == p.contract ==> Types(q) == Types(p)
  {
  }

  lemma ActKeepsServiceable(p: Peer, a: Action)
    requires Serviceable(p)
    ensures Serviceable(Act(p, a).peer)
  {
    hide Handle, Announcements, Applies, Without, Types;
    SameTypes(p, Act(p, a).peer);
    if a.Deliver? && p.initialized {
      HandleKeepsServiceable(p, a.message);
    }
  }

  // ---------- each side stays sane ----------

  lemma AuthenticConcat(a: seq<Message>, b: seq<Message>, from: Peer, to: Peer)
    requires AllAuthentic(a, from, to) && AllAuthentic(b, from, to)
    ensures AllAuthentic(a + b, from, to)
  {
  }

  lemma AuthenticOf(ms: seq<Message>, from: Peer, to: Peer, from': Peer, to': Peer)
    requires AllAuthentic(ms, from, to)
    requires from'.origin == from.origin && from'.contract == from.contract && to'.origin == to.origin
    ensures AllAuthentic(ms, from', to')
  {
  }

  lemma ReceivingStaysSane(me: Side, other: Side)
    requires Sane(me, other) && Sane(other, me) && Enabled(me, Receive)
    ensures Sane(Moved(me, Receive), Told(other, Effect(me, Receive).sent))
    ensures Sane(Told(other, Effect(me, Receive).sent), Moved(me, Receive))
  {
    hide Handle, Contained, Authentic, Subscribed, Controlled, Announced, CurrentUpdates;
    ReceiveReaction(me, other);
    HandleKeepsServiceable(me.peer, me.inbox[0]);
    var o := Effect(me, Receive);
    AuthenticConcat(other.inbox, o.sent, me.peer, other.peer);
    AuthenticOf(other.inbox + o.sent, me.peer, other.peer, o.peer, other.peer);
    AuthenticOf(me.inbox[1..], other.peer, me.peer, other.peer, o.peer);
  }

  lemma ActingStaysSane(me: Side, other: Side, a: Action)
    requires Sane(me, other) && Sane(other, me) && Enabled(me, Do(a))
    ensures Sane(Moved(me, Do(a)), Told(other, Effect(me, Do(a)).sent))
    ensures Sane(Told(other, Effect(me, Do(a)).sent), Moved(me, Do(a)))
  {
    hide Initialize, Shutdown, Applies, Wanted, Controls, Without, Contained, Authentic, Subscribed;
    ActFacts(me, other, a);
    ActKeepsContained(me.peer, a);
    var o := Effect(me, Do(a));
    ActKeepsServiceable(me.peer, a);
    if a.DoInitialize? {
      InitializeAnnounces(me, other, a.config);
    }
    if a.DoShutdown? {
      ShutdownUnbinds(me.peer);
    }
    AuthenticConcat(other.inbox, o.sent, me.peer, other.peer);
    AuthenticOf(other.inbox + o.sent, me.peer, other.peer, o.peer, other.peer);
    AuthenticOf(me.inbox, other.peer, me.peer, other.peer, o.peer);
    assert other.inbox + [] == other.inbox;
  }

  lemma ShutdownUnbinds(p: Peer)
    requires p.initialized
    ensures Act(p, DoShutdown).peer.remoteDevice == NOBODY
  {
  }

  // ---------- the mover as publisher ----------

  lemma KnownAndLatestAreShort(p: Peer, origin: Device, t: TypeId)
    ensures |Known(p, origin, t)| <= 1 && |Latest(p, t)| <= 1
  {
  }

  /** The subscriber's side did not move; the publisher sent current updates only. */
  lemma PublisherSends(pub: Side, sub: Side, pub': Side, sent: seq<Message>, t: TypeId)
    requires AdvancingFor(pub, sub, t)
    requires pub'.peer.origin == pub.peer.origin && pub'.peer.published == pub.peer.published && CurrentUpdates(sent, pub'.peer)
    ensures AdvancingFor(pub', Told(sub, sent), t)
    ensures UpToDate(Known(sub.peer, pub.peer.origin, t), Updates(sub.inbox, t), Latest(pub.peer, t)) || Updates(sent, t) != []
      ==> UpToDate(Known(sub.peer, pub.peer.origin, t), Updates(sub.inbox + sent, t), Latest(pub.peer, t))
  {
    hide Advancing, UpToDate, Updates, Copies, CurrentUpdates;
    KnownAndLatestAreShort(sub.peer, pub.peer.origin, t);
    KnownAndLatestAreShort(pub.peer, pub.peer.origin, t);
    UpdatesConcat(sub.inbox, sent, t);
    CurrentUpdatesAreCopies(sent, pub'.peer, t);
    AppendCopies(Known(sub.peer, pub.peer.origin, t), Updates(sub.inbox, t), Updates(sent, t), Latest(pub.peer, t));
  }

  lemma ReceivingPublisher(me: Side, other: Side)
    requires Sane(me, other) && Sane(other, me) && Enabled(me, Receive) && Direction(me, other)
    ensures Direction(Moved(me, Receive), Told(other, Effect(me, Receive).sent))
  {
    hide Handle, Sane, Subscribed, Updates, UpToDate, AdvancingFor, CurrentUpdates, Announced, SubscribePending, Wanted;
    ReceiveReaction(me, other);
    var m, o := me.inbox[0], Effect(me, Receive);
    var me', other' := Moved(me, Receive), Told(other, o.sent);
    CurrentUpdatesOf(o.sent, me.peer, o.peer);
    forall t ensures AdvancingFor(me', other', t) {
      PublisherSends(me, other, me', o.sent, t);
    }
    if Live(me', other') {
      NoDisconnectWhileUp(me, other);
      TakingControl(me, o.peer, other);
      forall t ensures CurrentFor(me', other', t) {
        PublisherSends(me, other, me', o.sent, t);
        SubscribePendingConcat([m], me.inbox[1..], t);
        assert [m] + me.inbox[1..] == me.inbox;
        OnePending(m, t);
        assert CurrentFor(me, other, t);
        SameLatest(me.peer, o.peer, t);
        NothingToKnow(Known(other.peer, me.peer.origin, t), Updates(other'.inbox, t));
      }
    }
  }

  /** The head of the channel takes effect, as far as its type can be served. */
  lemma TakingControl(me: Side, p: Peer, other: Side)
    requires me.inbox != [] && Synchronized(me, other) && p.contract == me.peer.contract
    requires Subscribed(p) == Controlled(Subscribed(me.peer), me.inbox[0]) * Types(me.peer)
    ensures Controls(Subscribed(p), me.inbox[1..]) * Types(p) == Wanted(other.peer) * Types(p)
  {
    hide Subscribed, Wanted;
    SameTypes(me.peer, p);
    ControlsWithin(Controlled(Subscribed(me.peer), me.inbox[0]), me.inbox[1..], Types(me.peer));
  }

  lemma NothingToKnow(known: seq<Entry>, coming: seq<Entry>)
    ensures UpToDate(known, coming, [])
  {
  }

  lemma CurrentUpdatesOf(ms: seq<Message>, p: Peer, q: Peer)
    requires CurrentUpdates(ms, p) && q.published == p.published
    ensures CurrentUpdates(ms, q)
  {
  }

  lemma NoDisconnectWhileUp(me: Side, other: Side)
    requires Sane(other, me) && other.phase == Up && me.inbox != []
    ensures !me.inbox[0].Disconnect?
  {
  }

  lemma OnePending(m: Message, t: TypeId)
    ensures SubscribePending([m], t) <==> m.Subscribe? && m.typeId == t
  {
    assert [m][0] == m;
  }

  lemma SameLatest(p: Peer, q: Peer, t: TypeId)
    requires p.published == q.published
    ensures Latest(p, t) == Latest(q, t)
    ensures Latest(p, t) != [] <==> t in p.published
  {
  }

  lemma ActingPublisher(me: Side, other: Side, a: Action)
    requires Sane(me, other) && Sane(other, me) && Enabled(me, Do(a)) && Direction(me, other) && !a.DoPublish?
    ensures Direction(Moved(me, Do(a)), Told(other, Effect(me, Do(a)).sent))
  {
    hide Act, Subscribed, Updates, UpToDate, AdvancingFor, SubscribePending, Wanted, Contained, AllAuthentic;
    ActFacts(me, other, a);
    var o := Effect(me, Do(a));
    var me', other' := Moved(me, Do(a)), Told(other, o.sent);
    forall t ensures AdvancingFor(me', other', t) {
      PublisherSends(me, other, me', o.sent, t);
    }
    if Live(me', other') {
      forall t ensures CurrentFor(me', other', t) {
        PublisherSends(me, other, me', o.sent, t);
        assert CurrentFor(me, other, t);
        SameLatest(me.peer, o.peer, t);
      }
    }
  }

  lemma PublishingPublisher(me: Side, other: Side, u: TypeId, e: Entry)
    requires Sane(me, other) && Sane(other, me) && Enabled(me, Do(DoPublish(u, e))) && Direction(me, other)
    ensures Direction(Moved(me, Do(DoPublish(u, e))), Told(other, Effect(me, Do(DoPublish(u, e))).sent))
  {
    hide Updates, UpToDate, AdvancingFor, SubscribePending, Wanted, Contained, AllAuthentic, Controls;
    var o := Effect(me, Do(DoPublish(u, e)));
    var me', other' := Moved(me, Do(DoPublish(u, e))), Told(other, o.sent);
    forall t ensures AdvancingFor(me', other', t) {
      PublishOne(me, other, u, e, t);
    }
    if Live(me', other') {
      forall t ensures CurrentFor(me', other', t) {
        PublishOne(me, other, u, e, t);
        assert CurrentFor(me, other, t);
      }
    }
  }

  lemma PublishOne(me: Side, other: Side, u: TypeId, e: Entry, t: TypeId)
    requires Sane(me, other) && Enabled(me, Do(DoPublish(u, e))) && AdvancingFor(me, other, t)
    ensures var o := Publish(me.peer, u, e);
            var known := Known(other.peer, me.peer.origin, t);
            && AdvancingFor(Moved(me, Do(DoPublish(u, e))), Told(other, o.sent), t)
            && ((t != u && UpToDate(known, Updates(other.inbox, t), Latest(me.peer, t))) || (t == u && t in Subscribed(me.peer))
                ==> UpToDate(known, Updates(other.inbox + o.sent, t), Latest(o.peer, t)))
  {
    hide Advancing, UpToDate, Copies, AllAuthentic, NoDisconnect;
    var o := Publish(me.peer, u, e);
    KnownAndLatestAreShort(other.peer, me.peer.origin, t);
    KnownAndLatestAreShort(me.peer, me.peer.origin, t);
    UpdatesConcat(other.inbox, o.sent, t);
    CurrentUpdatesAreCopies(o.sent, o.peer, t);
    if t == u {
      Publishing(Known(other.peer, me.peer.origin, t), Updates(other.inbox, t), Latest(me.peer, t), e);
      assert t in Subscribed(me.peer) ==> Updates(o.sent, t) == [e];
    }
    AppendCopies(Known(other.peer, me.peer.origin, t), Updates(other.inbox, t), Updates(o.sent, t), Latest(o.peer, t));
  }

  // ---------- the mover as subscriber ----------

  lemma SameWithin(a: set<TypeId>, b: set<TypeId>, within: set<TypeId>, more: set<TypeId>)
    requires a * within == b * within
    ensures (a + more) * within == (b + more) * within && (a - more) * within == (b - more) * within
  {
    forall t ensures t in (a + more) * within <==> t in (b + more) * within {
      assert t in a * within <==> t in b * within;
    }
    forall t ensures t in (a - more) * within <==> t in (b - more) * within {
      assert t in a * within <==> t in b * within;
    }
  }

  /** Messages that change no subscription, to a publisher that did not move. */
  lemma SubscriberIsQuiet(pub: Side, sub: Side, sub': Side, sent: seq<Message>)
    requires Direction(pub, sub) && Quiet(sent)
    requires sub'.inbox == sub.inbox && sub'.peer.remote == sub.peer.remote && sub'.peer.contract == sub.peer.contract
    requires Wanted(sub'.peer) == Wanted(sub.peer)
    requires Live(pub, sub') ==> Live(pub, sub)
    ensures Direction(Told(pub, sent), sub')
  {
    hide Updates, UpToDate, Subscribed, Wanted, Controls, Advancing;
    forall t ensures AdvancingFor(Told(pub, sent), sub', t) {
      assert AdvancingFor(pub, sub, t);
    }
    if Live(pub, sub') {
      ControlsConcat(Subscribed(pub.peer), pub.inbox, sent);
      QuietControls(Controls(Subscribed(pub.peer), pub.inbox), sent);
      forall t ensures CurrentFor(Told(pub, sent), sub', t) {
        assert CurrentFor(pub, sub, t);
        SubscribePendingConcat(pub.inbox, sent, t);
      }
    }
  }

  lemma SubscribingSubscriber(me: Side, other: Side, d: Descriptor)
    requires Sane(me, other) && Enabled(me, Do(DoSubscribe(d))) && Direction(other, me)
    ensures Direction(Told(other, Effect(me, Do(DoSubscribe(d))).sent), Moved(me, Do(DoSubscribe(d))))
  {
    hide Updates, UpToDate, Subscribed, Controls, Advancing, Wanted, Sane, Applies;
    var o, me' := Effect(me, Do(DoSubscribe(d))), Moved(me, Do(DoSubscribe(d)));
    var other' := Told(other, o.sent);
    if d in me.peer.subscriptions {
      assert other.inbox + [] == other.inbox;
    } else {
      forall t ensures AdvancingFor(other', me', t) {
        assert AdvancingFor(other, me, t);
      }
      if Live(other', me') {
        WantedGrows(me.peer, d);
        InitializedWhileUp(me, other);
        ControlsConcat(Subscribed(other.peer), other.inbox, o.sent);
        OneControl(Controls(Subscribed(other.peer), other.inbox), o.sent);
        SameWithin(Controls(Subscribed(other.peer), other.inbox), Wanted(me.peer), Types(other.peer), {d.typeId});
        forall t ensures CurrentFor(other', me', t) {
          assert CurrentFor(other, me, t);
          SubscribePendingConcat(other.inbox, o.sent, t);
          OnePending(Subscribe(me.peer.origin, d.typeId), t);
        }
      }
    }
  }

  lemma InitializedWhileUp(me: Side, other: Side)
    requires Sane(me, other) && me.phase == Up
    ensures me.peer.initialized
  {
  }

  lemma OneControl(types: set<TypeId>, ms: seq<Message>)
    requires |ms| <= 1
    ensures Controls(types, ms) == if ms == [] then types else Controlled(types, ms[0])
  {
    if |ms| == 1 {
      assert ms[1..] == [];
    }
  }

  lemma WantedGrows(p: Peer, d: Descriptor)
    ensures Wanted(p.(subscriptions := p.subscriptions + [d])) == Wanted(p) + if Applies(p, d.scope) then {d.typeId} else {}
  {
    var q := p.(subscriptions := p.subscriptions + [d]);
    assert forall s: Scope :: Applies(q, s) == Applies(p, s);
    WantedOfSnoc(p, p.subscriptions, d);
    assert Wanted(q) == WantedOf(p, p.subscriptions + [d]);
    assert Wanted(p) == WantedOf(p, p.subscriptions);
  }

  /** Withdrawing a descriptor in force takes its type out of what is wanted exactly when no
      other descriptor in force covers it. */
  lemma WantedShrinks(p: Peer, d: Descriptor)
    requires d in p.subscriptions
    ensures var q := p.(subscriptions := Without(p.subscriptions, d));
            && (!Applies(p, d.scope) ==> Wanted(q) == Wanted(p))
            && (Applies(p, d.scope) ==> Wanted(q) == if Sole(p, d) then Wanted(p) - {d.typeId} else Wanted(p))
            && d.typeId in (if Applies(p, d.scope) then Wanted(p) else {d.typeId})
  {
    var q := p.(subscriptions := Without(p.subscriptions, d));
    WithoutIsWithin(p.subscriptions, d);
    assert forall s: Scope :: Applies(q, s) == Applies(p, s);
    forall t ensures t in Wanted(q) <==> exists x :: x in p.subscriptions && x != d && Applies(p, x.scope) && x.typeId == t {
      WantedIff(q, t);
    }
    forall t ensures t in Wanted(p) <==> exists x :: x in p.subscriptions && Applies(p, x.scope) && x.typeId == t {
      WantedIff(p, t);
    }
    hide Wanted, Applies;
    if !Sole(p, d) {
      var i :| 0 <= i < |p.subscriptions| && p.subscriptions[i] != d && p.subscriptions[i].typeId == d.typeId
        && Applies(p, p.subscriptions[i].scope);
      assert p.subscriptions[i] in p.subscriptions;
    }
  }

  lemma WantedIff(p: Peer, t: TypeId)
    ensures t in Wanted(p) <==> exists x :: x in p.subscriptions && Applies(p, x.scope) && x.typeId == t
  {
    if x :| x in p.subscriptions && Applies(p, x.scope) && x.typeId == t {
      var i :| 0 <= i < |p.subscriptions| && p.subscriptions[i] == x;
    }
  }

  lemma UnsubscribingSubscriber(me: Side, other: Side, d: Descriptor)
    requires Sane(me, other) && Enabled(me, Do(DoUnsubscribe(d))) && Restrained(me, other, Do(DoUnsubscribe(d))) && Direction(other, me)
    ensures Direction(Told(other, Effect(me, Do(DoUnsubscribe(d))).sent), Moved(me, Do(DoUnsubscribe(d))))
  {
    hide Updates, UpToDate, Subscribed, Controls, Advancing, Wanted, Sane, Applies, Without;
    var o, me' := Effect(me, Do(DoUnsubscribe(d))), Moved(me, Do(DoUnsubscribe(d)));
    var other' := Told(other, o.sent);
    if d !in me.peer.subscriptions {
      assert other.inbox + [] == other.inbox;
    } else {
      forall t ensures AdvancingFor(other', me', t) {
        assert AdvancingFor(other, me, t);
      }
      if Live(other', me') {
        WantedShrinks(me.peer, d);
        InitializedWhileUp(me, other);
        ControlsConcat(Subscribed(other.peer), other.inbox, o.sent);
        OneControl(Controls(Subscribed(other.peer), other.inbox), o.sent);
        SameWithin(Controls(Subscribed(other.peer), other.inbox), Wanted(me.peer), Types(other.peer), {d.typeId});
        forall t ensures CurrentFor(other', me', t) {
          assert CurrentFor(other, me, t);
          SubscribePendingConcat(other.inbox, o.sent, t);
        }
      }
    }
  }

  lemma StartingSubscriber(me: Side, other: Side, config: Config)
    requires Sane(me, other) && Sane(other, me) && Enabled(me, Do(DoInitialize(config))) && Direction(other, me)
    ensures Direction(Told(other, Effect(me, Do(DoInitialize(config))).sent), Moved(me, Do(DoInitialize(config))))
  {
    hide Updates, UpToDate, Subscribed, Controls, Advancing, Wanted, Contained, AllAuthentic, Announcements;
    var o, me' := Effect(me, Do(DoInitialize(config))), Moved(me, Do(DoInitialize(config)));
    var other' := Told(other, o.sent);
    InitializeAnnounces(me, other, config);
    assert [] + o.sent == o.sent;
    forall t ensures AdvancingFor(other', me', t) {
      assert AdvancingFor(other, me, t);
    }
  }

  lemma ActingSubscriber(me: Side, other: Side, a: Action)
    requires Sane(me, other) && Sane(other, me) && Enabled(me, Do(a)) && Restrained(me, other, Do(a)) && Direction(other, me)
    ensures Direction(Told(other, Effect(me, Do(a)).sent), Moved(me, Do(a)))
  {
    hide Direction, Wanted, Sane, Restrained;
    match a
    case DoSubscribe(d) => SubscribingSubscriber(me, other, d);
    case DoUnsubscribe(d) => UnsubscribingSubscriber(me, other, d);
    case DoInitialize(c) => StartingSubscriber(me, other, c);
    case DoShutdown => StoppingSubscriber(me, other);
    case Deliver(_) => assert false;
    case _ =>
      SameWanted(me.peer, Act(me.peer, a).peer);
      SubscriberIsQuiet(other, me, Moved(me, Do(a)), Act(me.peer, a).sent);
  }

  lemma SameWanted(p: Peer, q: Peer)
    requires q.subscriptions == p.subscriptions && q.remoteDevice == p.remoteDevice && q.config == p.config
    ensures Wanted(q) == Wanted(p)
  {
    assert forall s: Scope :: Applies(q, s) == Applies(p, s);
  }

  lemma StoppingSubscriber(me: Side, other: Side)
    requires Sane(me, other) && Enabled(me, Do(DoShutdown)) && Direction(other, me)
    ensures Direction(Told(other, Effect(me, Do(DoShutdown)).sent), Moved(me, Do(DoShutdown)))
  {
    hide Updates, Advancing, CurrentFor, Synchronized;
    var o, me' := Effect(me, Do(DoShutdown)), Moved(me, Do(DoShutdown));
    forall t ensures AdvancingFor(Told(other, o.sent), me', t) {
      assert AdvancingFor(other, me, t);
    }
  }

  // ---------- receiving as subscriber ----------

  /** The head of the channel is no entry for the type. */
  lemma TakeOther(pub: Side, sub: Side, t: TypeId)
    requires sub.inbox != [] && !(sub.inbox[0].Update? && sub.inbox[0].typeId == t)
    ensures Updates(sub.inbox[1..], t) == Updates(sub.inbox, t)
  {
    assert [] + Updates(sub.inbox[1..], t) == Updates(sub.inbox[1..], t);
  }

  lemma TakeEntry(known: seq<Entry>, known': seq<Entry>, ms: seq<Message>, t: TypeId, latest: seq<Entry>)
    requires ms != [] && ms[0].Update? && ms[0].typeId == t && |known| <= 1
    requires Advancing(known, Updates(ms, t), latest)
    requires known' == known || known' == [ms[0].entry]
    ensures Advancing(known', Updates(ms[1..], t), latest)
    ensures known != [] ==> NotAfter(known[0], ms[0].entry)
    ensures known' == [ms[0].entry] && UpToDate(known, Updates(ms, t), latest) ==> UpToDate(known', Updates(ms[1..], t), latest)
  {
    hide Advancing, UpToDate, NotAfter;
    TakeNext(known, ms[0].entry, Updates(ms[1..], t), latest);
  }

  lemma ReceivingAdvances(me: Side, other: Side, t: TypeId)
    requires Sane(me, other) && Sane(other, me) && Enabled(me, Receive) && AdvancingFor(other, me, t)
    ensures var o := Effect(me, Receive);
            var origin := other.peer.origin;
            && AdvancingFor(Told(other, o.sent), Moved(me, Receive), t)
            && (Compatible(me, other) && t in Wanted(o.peer) && t in me.peer.contract
                && UpToDate(Known(me.peer, origin, t), Updates(me.inbox, t), Latest(other.peer, t))
                ==> UpToDate(Known(o.peer, origin, t), Updates(me.inbox[1..], t), Latest(other.peer, t)))
  {
    hide Handle, Advancing, UpToDate, Updates, Wanted, Contained, AllAuthentic, NotAfter, Reaction;
    var m, o := me.inbox[0], Effect(me, Receive);
    ReceiveReaction(me, other);
    KnownAndLatestAreShort(me.peer, other.peer.origin, t);
    FromOther(me, other);
    if m.Update? {
      ReceiveUpdate(me, other, m.typeId, m.entry);
    }
    if m.Update? && m.typeId == t {
      TakeEntry(Known(me.peer, other.peer.origin, t), Known(o.peer, other.peer.origin, t), me.inbox, t, Latest(other.peer, t));
    } else {
      TakeOther(other, me, t);
    }
  }

  lemma FromOther(me: Side, other: Side)
    requires Sane(other, me) && me.inbox != []
    ensures me.inbox[0].Update? ==> me.inbox[0].origin == other.peer.origin
  {
    assert Authentic(me.inbox[0], other.peer, me.peer);
  }

  lemma ReceivingSubscriber(me: Side, other: Side)
    requires Sane(me, other) && Sane(other, me) && Enabled(me, Receive) && Direction(other, me)
    ensures Direction(Told(other, Effect(me, Receive).sent), Moved(me, Receive))
  {
    hide Handle, Sane, Subscribed, Updates, UpToDate, AdvancingFor, CurrentUpdates, AllAuthentic, SubscribePending, Wanted, Controls;
    ReceiveReaction(me, other);
    var o := Effect(me, Receive);
    var me', other' := Moved(me, Receive), Told(other, o.sent);
    forall t ensures AdvancingFor(other', me', t) {
      ReceivingAdvances(me, other, t);
    }
    if Live(other', me') {
      ControlsConcat(Subscribed(other.peer), other.inbox, o.sent);
      SameWithin(Controls(Subscribed(other.peer), other.inbox), Wanted(me.peer), Types(other.peer), Wanted(o.peer));
      assert Wanted(me.peer) <= Wanted(o.peer) ==> Wanted(me.peer) + Wanted(o.peer) == Wanted(o.peer);
      if o.peer.remoteDevice == me.peer.remoteDevice {
        QuietControls(Controls(Subscribed(other.peer), other.inbox), o.sent);
      }
      forall t ensures CurrentFor(other', me', t) {
        ReceivingAdvances(me, other, t);
        SubscribePendingConcat(other.inbox, o.sent, t);
        assert CurrentFor(other, me, t);
      }
    }
  }

  // ---------- every step, every run ----------

  lemma MovesKeepEverything(me: Side, other: Side, m: Move)
    requires Sane(me, other) && Sane(other, me) && Direction(me, other) && Direction(other, me)
    requires Enabled(me, m) && Restrained(me, other, m)
    ensures var me', other' := Moved(me, m), Told(other, Effect(me, m).sent);
            Sane(me', other') && Sane(other', me') && Direction(me', other') && Direction(other', me')
  {
    hide Sane, Direction, Restrained, Handle, Act;
    if m.Receive? {
      ReceivingStaysSane(me, other);
      ReceivingPublisher(me, other);
      ReceivingSubscriber(me, other);
    } else {
      ActingStaysSane(me, other, m.action);
      if m.action.DoPublish? {
        PublishingPublisher(me, other, m.action.typeId, m.action.entry);
      } else {
        ActingPublisher(me, other, m.action);
      }
      ActingSubscriber(me, other, m.action);
    }
  }

  lemma ReconnectingKeepsDirection(pub: Side, sub: Side)
    requires Direction(pub, sub) && sub.phase != Up
    ensures Direction(Side(pub.peer, Fresh, []), Side(sub.peer, Fresh, []))
  {
    forall t ensures AdvancingFor(Side(pub.peer, Fresh, []), Side(sub.peer, Fresh, []), t) {
      assert AdvancingFor(pub, sub, t);
      var known, coming, latest := Known(sub.peer, pub.peer.origin, t), Updates(sub.inbox, t), Latest(pub.peer, t);
      var all, left := known + coming + latest, known + [] + latest;
      forall i, j | 0 <= i < j < |left| ensures NotAfter(left[i], left[j]) {
        assert left[i] == all[if i < |known| then i else i + |coming|] && left[j] == all[if j < |known| then j else j + |coming|];
      }
    }
  }

  lemma ReconnectingStaysSane(me: Side, other: Side)
    requires Sane(me, other) && Sane(other, me) && me.phase != Up && other.phase != Up
    ensures Sane(Side(me.peer, Fresh, []), Side(other.peer, Fresh, []))
  {
    assert other.peer.subscribers == map[];
  }

  lemma StepKeepsInvariant(s: System, step: Step)
    requires Invariant(s) && Possible(s, step)
    ensures Invariant(Next(s, step))
  {
    hide Sane, Direction, Enabled, Restrained, Moved, Told, Effect;
    match step
    case OfX(m) => MovesKeepEverything(s.x, s.y, m);
    case OfY(m) => MovesKeepEverything(s.y, s.x, m);
    case Reconnect =>
      ReconnectingStaysSane(s.x, s.y);
      ReconnectingStaysSane(s.y, s.x);
      ReconnectingKeepsDirection(s.x, s.y);
      ReconnectingKeepsDirection(s.y, s.x);
  }

  lemma InitialHoldsInvariant(s: System)
    requires Initial(s)
    ensures Invariant(s)
  {
    assert Ascending([]);
  }

  lemma {:induction false} RunsKeepInvariant(s: System, steps: seq<Step>)
    requires Invariant(s) && Possibly(s, steps)
    ensures Invariant(After(s, steps))
    decreases |steps|
  {
    hide Invariant, Possible, Next;
    if steps != [] {
      StepKeepsInvariant(s, steps[0]);
      RunsKeepInvariant(Next(s, steps[0]), steps[1..]);
    }
  }
}
