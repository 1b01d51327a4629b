/** One State session over whole runs, against a peer that may send anything at any time. */
module StateRuns {
  import opened StateSession

  datatype Action =
    | Deliver(message: Message)
    | DoPublish(typeId: TypeId, entry: Entry)
    | DoSubscribe(descriptor: Descriptor)
    | DoUnsubscribe(descriptor: Descriptor)
    | DoResynchronize(typeId: TypeId)
    | DoInitialize(config: Config)
    | DoShutdown

  /** One action; a session that is not initialised does not take messages. */
  function Act(p: Peer, a: Action): Outcome
  {
    match a
    case Deliver(m) => if p.initialized then Handle(p, m) else Outcome(p, [], false)
    case DoPublish(t, e) => Publish(p, t, e)
    case DoSubscribe(d) => LocalSubscribe(p, d)
    case DoUnsubscribe(d) => LocalUnsubscribe(p, d)
    case DoResynchronize(t) => RequestResynchronization(p, t)
    case DoInitialize(c) => Initialize(p, c)
    case DoShutdown => Shutdown(p, true)
  }

  /** What happens in a run, in order: messages the session accepted, messages it sent, its end. */
  datatype Event = Accepted(message: Message) | Sent(message: Message) | Ended

  function Sends(sent: seq<Message>): (r: seq<Event>)
    ensures |r| == |sent|
  {
    seq(|sent|, i requires 0 <= i < |sent| => Sent(sent[i]))
  }

  function EventsOf(p: Peer, a: Action): seq<Event>
  {
    var o := Act(p, a);
    (if a.Deliver? && o.ok then [Accepted(a.message)] else [])
    + Sends(o.sent)
    + (if a.DoShutdown? && p.initialized then [Ended] else [])
  }

  /** The state and the events after a list of actions. */
  datatype History = History(peer: Peer, events: seq<Event>)

  function Run(p: Peer, actions: seq<Action>): History
  {
    if actions == [] then History(p, [])
    else
      var before := Run(p, actions[..|actions| - 1]);
      var a := actions[|actions| - 1];
      History(Act(before.peer, a).peer, before.events + EventsOf(before.peer, a))
  }

  // ---------- the registry and the binding ----------

  /** Registered subscriber devices are contained in the bound device. */
  predicate OnlyBound(p: Peer)
  {
    forall d :: d in p.subscribers ==> d == p.remoteDevice != NOBODY
  }

  /** And a session that is not running has neither. */
  predicate Contained(p: Peer)
  {
    && OnlyBound(p)
    && (!p.initialized ==> p.remoteDevice == NOBODY)
    && (p.initialized && p.config.expected != NOBODY ==> p.remoteDevice == p.config.expected)
  }

  lemma HandleKeepsContained(p: Peer, m: Message)
    requires Contained(p) && p.initialized
    ensures Contained(Handle(p, m).peer) && Handle(p, m).peer.initialized
    ensures p.remoteDevice != NOBODY ==> Handle(p, m).peer.remoteDevice == p.remoteDevice
  {
    hide Contained, HandleUpdate, HandleControl;
    if m.Update? {
      UpdateKeepsContained(p, m.origin, m.typeId, m.entry);
    } else if !m.Acknowledgement? {
      ControlKeepsContained(p, m);
    }
  }

  lemma UpdateKeepsContained(p: Peer, origin: Device, t: TypeId, entry: Entry)
    requires Contained(p) && p.initialized
    ensures var o := HandleUpdate(p, origin, t, entry);
            Contained(o.peer) && o.peer.initialized && (p.remoteDevice != NOBODY ==> o.peer.remoteDevice == p.remoteDevice)
  {
    BindKeepsContained(p, origin);
    hide BindPeer, Applicable, ExactDuplicate, IsSubscribed;
  }

  lemma ControlKeepsContained(p: Peer, m: Message)
    requires Contained(p) && p.initialized && !m.Update? && !m.Acknowledgement?
    ensures var o := HandleControl(p, m);
            Contained(o.peer) && o.peer.initialized && (p.remoteDevice != NOBODY ==> o.peer.remoteDevice == p.remoteDevice)
  {
    hide BindPeer, Contained, AcceptSubscribe, AcceptUnsubscribe, AcceptResynchronize, AcceptDisconnect;
    var b := BindPeer(p, m.device);
    BindKeepsContained(p, m.device);
    if b.ok {
      match m
      case Subscribe(_, t) => SubscribeKeepsContained(b, t);
      case Unsubscribe(_, t) => UnsubscribeKeepsContained(b, t);
      case Resynchronize(_, t) => ResynchronizeKeepsPeer(b, t);
      case Disconnect(_) => DisconnectKeepsContained(b);
      case _ =>
    }
  }

  lemma SubscribeKeepsContained(b: Outcome, t: TypeId)
    requires Contained(b.peer) && b.peer.initialized && b.peer.remoteDevice != NOBODY
    ensures var o := AcceptSubscribe(b, t);
            Contained(o.peer) && o.peer == b.peer.(subscribers := o.peer.subscribers)
  {
    hide CanSubscribe, Snapshot, Subscribed;
  }

  lemma UnsubscribeKeepsContained(b: Outcome, t: TypeId)
    requires Contained(b.peer) && b.peer.initialized && b.peer.remoteDevice != NOBODY
    ensures var o := AcceptUnsubscribe(b, t);
            Contained(o.peer) && o.peer == b.peer.(subscribers := o.peer.subscribers)
  {
  }

  lemma ResynchronizeKeepsPeer(b: Outcome, t: TypeId)
    ensures AcceptResynchronize(b, t).peer == b.peer
  {
    hide Snapshot, Snapshots, Subscribed;
  }

  lemma DisconnectKeepsContained(b: Outcome)
    requires Contained(b.peer) && b.peer.initialized && b.peer.remoteDevice != NOBODY
    ensures var o := AcceptDisconnect(b);
            Contained(o.peer) && o.peer == b.peer.(subscribers := o.peer.subscribers, available := o.peer.available)
  {
  }

  lemma BindKeepsContained(p: Peer, device: Device)
    requires Contained(p) && p.initialized
    ensures Contained(BindPeer(p, device).peer) && BindPeer(p, device).peer.initialized == p.initialized
    ensures p.remoteDevice != NOBODY ==> BindPeer(p, device).peer.remoteDevice == p.remoteDevice
    ensures BindPeer(p, device).ok ==> BindPeer(p, device).peer.remoteDevice == device != NOBODY
    ensures BindPeer(p, device).peer.remote == p.remote
  {
  }

  lemma ActKeepsContained(p: Peer, a: Action)
    requires Contained(p)
    ensures Contained(Act(p, a).peer)
    ensures p.remoteDevice != NOBODY && !a.DoShutdown? ==> Act(p, a).peer.remoteDevice == p.remoteDevice
  {
    if a.Deliver? && p.initialized {
      HandleKeepsContained(p, a.message);
    }
    hide Announcements, Snapshots, Snapshot, Handle, Without;
  }

  lemma {:induction false} RunsStayContained(p: Peer, actions: seq<Action>)
    requires Contained(p)
    ensures Contained(Run(p, actions).peer)
  {
    hide Contained;
    if actions != [] {
      var before := actions[..|actions| - 1];
      RunsStayContained(p, before);
      ActKeepsContained(Run(p, before).peer, actions[|actions| - 1]);
    }
  }

  /** Once bound, a session stays bound to the same device until it is shut down. */
  lemma {:induction false} BindingIsFixed(p: Peer, actions: seq<Action>)
    requires Contained(p) && p.remoteDevice != NOBODY
    requires forall a :: a in actions ==> !a.DoShutdown?
    ensures Run(p, actions).peer.remoteDevice == p.remoteDevice
  {
    hide Contained;
    if actions != [] {
      var before := actions[..|actions| - 1];
      assert forall a :: a in before ==> a in actions;
      BindingIsFixed(p, before);
      RunsStayContained(p, before);
      ActKeepsContained(Run(p, before).peer, actions[|actions| - 1]);
    }
  }

  /** A session used in any way, shut down and started again does exactly what an unused
      session would: no subscription, no identity is inherited. */
  lemma ReuseIsClean(p: Peer, actions: seq<Action>, config: Config)
    requires Contained(p)
    ensures var used := Shutdown(Run(p, actions).peer, true).peer;
            && used.(config := Unused(used).config) == Unused(used)
            && Initialize(used, config) == Initialize(Unused(used), config)
  {
    RunsStayContained(p, actions);
    var last := Run(p, actions).peer;
    var used := Shutdown(last, true).peer;
    ActKeepsContained(last, DoShutdown);
    assert used.subscribers == map[];
  }

  // ---------- update gating ----------

  predicate Cancels(e: Event, t: TypeId)
  {
    e.Ended? || (e.Accepted? && (e.message.Disconnect? || (e.message.Unsubscribe? && e.message.typeId == t)))
  }

  predicate Grants(e: Event, t: TypeId)
  {
    e.Accepted? && e.message.Subscribe? && e.message.typeId == t
  }

  /** The last event about the type is an accepted `Subscribe`. */
  predicate Granted(events: seq<Event>, t: TypeId)
  {
    events != [] &&
    var e := events[|events| - 1];
    (Grants(e, t) || (!Cancels(e, t) && Granted(events[..|events| - 1], t)))
  }

  /** Equivalently: there was an accepted `Subscribe` that nothing has cancelled since. */
  lemma {:induction false} GrantedIff(events: seq<Event>, t: TypeId)
    ensures Granted(events, t) <==>
      exists j :: 0 <= j < |events| && Grants(events[j], t) && forall k :: j < k < |events| ==> !Cancels(events[k], t)
  {
    if events != [] {
      var n := |events| - 1;
      var before := events[..n];
      GrantedIff(before, t);
      if Granted(before, t) && !Cancels(events[n], t) {
        var j :| 0 <= j < n && Grants(before[j], t) && forall k :: j < k < n ==> !Cancels(before[k], t);
        assert Grants(events[j], t) && forall k :: j < k < |events| ==> !Cancels(events[k], t);
      }
      if j :| 0 <= j < |events| && Grants(events[j], t) && forall k :: j < k < |events| ==> !Cancels(events[k], t) {
        if j < n {
          assert Grants(before[j], t) && forall k :: j < k < n ==> !Cancels(before[k], t);
        }
      }
    }
  }

  predicate OnlySends(events: seq<Event>)
  {
    forall i :: 0 <= i < |events| ==> events[i].Sent?
  }

  lemma {:induction false} SendsDoNotGrant(events: seq<Event>, sends: seq<Event>, t: TypeId)
    requires OnlySends(sends)
    ensures Granted(events + sends, t) <==> Granted(events, t)
  {
    if sends == [] {
      assert events + sends == events;
    } else {
      var n := |sends| - 1;
      SendsDoNotGrant(events, sends[..n], t);
      assert (events + sends)[..|events| + n] == events + sends[..n];
    }
  }

  /** Every `Update` in a list of messages is for a type in `types`. */
  predicate UpdatesWithin(messages: seq<Message>, types: set<TypeId>)
  {
    forall i :: 0 <= i < |messages| && messages[i].Update? ==> messages[i].typeId in types
  }

  lemma {:induction false} AnnouncementsHaveNoUpdates(p: Peer, descriptors: seq<Descriptor>)
    ensures forall i :: 0 <= i < |Announcements(p, descriptors)| ==> Announcements(p, descriptors)[i].Subscribe?
  {
    if descriptors != [] {
      AnnouncementsHaveNoUpdates(p, descriptors[1..]);
    }
  }

  lemma {:induction false} SnapshotsAreWithin(p: Peer, types: seq<TypeId>)
    ensures UpdatesWithin(Snapshots(p, types), Subscribed(p))
  {
    if types != [] {
      SnapshotsAreWithin(p, types[1..]);
    }
  }

  lemma BindKeepsSubscribed(p: Peer, device: Device)
    requires OnlyBound(p)
    ensures OnlyBound(BindPeer(p, device).peer)
    ensures Subscribed(BindPeer(p, device).peer) == Subscribed(p)
    ensures forall i :: 0 <= i < |BindPeer(p, device).sent| ==> BindPeer(p, device).sent[i].Subscribe?
  {
    AnnouncementsHaveNoUpdates(p.(remoteDevice := device, available := p.available[device := Connected]), p.subscriptions);
  }

  lemma InitializeSendsAnnouncements(p: Peer, config: Config)
    requires OnlyBound(p) && !p.initialized
    ensures forall i :: 0 <= i < |Initialize(p, config).sent| ==> Initialize(p, config).sent[i].Subscribe?
  {
    var started := p.(initialized := true, config := config);
    BindKeepsSubscribed(started, config.expected);
    AnnouncementsHaveNoUpdates(started, p.subscriptions);
    AnnouncementsHaveNoUpdates(BindPeer(started, config.expected).peer, p.subscriptions);
    hide Announcements;
  }

  /** In one step: what is sent is for types subscribed when it is sent, and the subscribed
      types change just as the accepted message says. */
  lemma ActIsGated(p: Peer, a: Action, t: TypeId)
    requires Contained(p)
    ensures UpdatesWithin(Act(p, a).sent, Subscribed(Act(p, a).peer))
    ensures t in Subscribed(Act(p, a).peer) <==>
      if a.Deliver? && Act(p, a).ok && Grants(Accepted(a.message), t) then true
      else if a.Deliver? && Act(p, a).ok && Cancels(Accepted(a.message), t) then false
      else if a.DoShutdown? && p.initialized then false
      else t in Subscribed(p)
  {
    if a.Deliver? && p.initialized {
      HandleIsGated(p, a.message, t);
    }
    if a.DoInitialize? && !p.initialized {
      InitializeSendsAnnouncements(p, a.config);
      assert p.subscribers == map[];
    }
    hide Announcements, Handle;
  }

  lemma WithinConcat(a: seq<Message>, b: seq<Message>, types: set<TypeId>)
    requires UpdatesWithin(a, types) && UpdatesWithin(b, types)
    ensures UpdatesWithin(a + b, types)
  {
  }

  predicate NoUpdates(messages: seq<Message>)
  {
    forall i :: 0 <= i < |messages| ==> messages[i].Subscribe?
  }

  lemma SubscribeIsGated(b: Outcome, t: TypeId)
    requires OnlyBound(b.peer) && NoUpdates(b.sent)
    ensures var o := AcceptSubscribe(b, t);
            && UpdatesWithin(o.sent, Subscribed(o.peer))
            && Subscribed(o.peer) == if o.ok then Subscribed(b.peer) + {t} else Subscribed(b.peer)
  {
  }

  lemma UnsubscribeIsGated(b: Outcome, t: TypeId)
    requires OnlyBound(b.peer) && NoUpdates(b.sent)
    ensures var o := AcceptUnsubscribe(b, t);
            && UpdatesWithin(o.sent, Subscribed(o.peer))
            && o.ok && Subscribed(o.peer) == Subscribed(b.peer) - {t}
  {
  }

  lemma ResynchronizeIsGated(b: Outcome, t: TypeId)
    requires NoUpdates(b.sent)
    ensures var o := AcceptResynchronize(b, t);
            UpdatesWithin(o.sent, Subscribed(o.peer)) && Subscribed(o.peer) == Subscribed(b.peer)
  {
    SnapshotsAreWithin(b.peer, b.peer.contract);
    WithinConcat(b.sent, Snapshots(b.peer, b.peer.contract), Subscribed(b.peer));
    hide Snapshots;
  }

  lemma DisconnectIsGated(b: Outcome)
    requires NoUpdates(b.sent)
    ensures var o := AcceptDisconnect(b);
            UpdatesWithin(o.sent, Subscribed(o.peer)) && o.ok && Subscribed(o.peer) == {}
  {
  }

  lemma UpdateIsGated(p: Peer, origin: Device, t: TypeId, entry: Entry)
    requires OnlyBound(p)
    ensures var o := HandleUpdate(p, origin, t, entry);
            UpdatesWithin(o.sent, {}) && Subscribed(o.peer) == Subscribed(p)
  {
    BindKeepsSubscribed(p, origin);
    hide BindPeer, Applicable, IsSubscribed;
  }

  lemma HandleIsGated(p: Peer, m: Message, t: TypeId)
    requires Contained(p)
    ensures UpdatesWithin(Handle(p, m).sent, Subscribed(Handle(p, m).peer))
    ensures t in Subscribed(Handle(p, m).peer) <==>
      if Handle(p, m).ok && Grants(Accepted(m), t) then true
      else if Handle(p, m).ok && Cancels(Accepted(m), t) then false
      else t in Subscribed(p)
  {
    hide BindPeer, Subscribed, OnlyBound, HandleUpdate, AcceptSubscribe, AcceptUnsubscribe, AcceptResynchronize, AcceptDisconnect;
    if m.Update? {
      UpdateIsGated(p, m.origin, m.typeId, m.entry);
    } else if !m.Acknowledgement? {
      BindKeepsSubscribed(p, m.device);
      var b := BindPeer(p, m.device);
      match m
      case Subscribe(_, u) => SubscribeIsGated(b, u);
      case Unsubscribe(_, u) => UnsubscribeIsGated(b, u);
      case Resynchronize(_, u) => ResynchronizeIsGated(b, u);
      case Disconnect(_) => DisconnectIsGated(b);
      case _ =>
    }
  }

  /** Over every run of a new session: an `Update` is sent only while its type is granted, so
      none follows an accepted `Unsubscribe` of the type, a `Disconnect` or the session's end
      until a later `Subscribe` is accepted. */
  lemma {:induction false} UpdatesAreGated(p: Peer, actions: seq<Action>, t: TypeId)
    requires Contained(p) && Subscribed(p) == {}
    ensures t in Subscribed(Run(p, actions).peer) <==> Granted(Run(p, actions).events, t)
    ensures forall i :: 0 <= i < |Run(p, actions).events|
              && Run(p, actions).events[i].Sent? && Run(p, actions).events[i].message.Update?
              && Run(p, actions).events[i].message.typeId == t
              ==> Granted(Run(p, actions).events[..i], t)
  {
    hide Contained, Act, Granted, Subscribed;
    if actions == [] {
      NothingGranted(t);
    } else {
      var n := |actions| - 1;
      var before := Run(p, actions[..n]);
      UpdatesAreGated(p, actions[..n], t);
      RunsStayContained(p, actions[..n]);
      StepIsGated(before.peer, before.events, actions[n], t);
      var more := EventsOf(before.peer, actions[n]);
      var all := before.events + more;
      forall i | 0 <= i < |all| && all[i].Sent? && all[i].message.Update? && all[i].message.typeId == t
        ensures Granted(all[..i], t)
      {
        if i < |before.events| {
          assert all[..i] == before.events[..i];
        } else {
          assert all[..i] == before.events + more[..i - |before.events|];
        }
      }
    }
  }

  lemma NothingGranted(t: TypeId)
    ensures !Granted([], t)
  {
  }

  lemma GrantedSnoc(events: seq<Event>, e: Event, t: TypeId)
    ensures Granted(events + [e], t) <==> Grants(e, t) || (!Cancels(e, t) && Granted(events, t))
    ensures e == Ended ==> Cancels(e, t) && !Grants(e, t)
    ensures Grants(e, t) ==> !Cancels(e, t)
  {
    assert (events + [e])[..|events|] == events;
  }

  lemma StepIsGated(p: Peer, events: seq<Event>, a: Action, t: TypeId)
    requires Contained(p) && (t in Subscribed(p) <==> Granted(events, t))
    ensures var more := EventsOf(p, a);
            && (t in Subscribed(Act(p, a).peer) <==> Granted(events + more, t))
            && forall i :: 0 <= i < |more| && more[i].Sent? && more[i].message.Update? && more[i].message.typeId == t
                 ==> Granted(events + more[..i], t)
  {
    hide Contained, Subscribed, Act, Granted;
    ActIsGated(p, a, t);
    var o, more := Act(p, a), EventsOf(p, a);
    var head: seq<Event> := if a.Deliver? && o.ok then [Accepted(a.message)] else [];
    if head != [] {
      GrantedSnoc(events, head[0], t);
    }
    assert events + [] == events;
    SendsDoNotGrant(events + head, Sends(o.sent), t);
    GrantedSnoc((events + head) + Sends(o.sent), Ended, t);
    var all := (events + head) + Sends(o.sent);
    assert all + [] == all;
    assert events + more == all + if a.DoShutdown? && p.initialized then [Ended] else [];
    UpdatesComeAfter(events, head, o.sent, t);
    forall i | 0 <= i < |more| && more[i].Sent? && more[i].message.Update? && more[i].message.typeId == t
      ensures Granted(events + more[..i], t)
    {
      assert more[..i] == (head + Sends(o.sent))[..i];
    }
  }

  lemma UpdatesComeAfter(events: seq<Event>, head: seq<Event>, sent: seq<Message>, t: TypeId)
    requires forall i :: 0 <= i < |head| ==> !head[i].Sent?
    requires (exists k :: 0 <= k < |sent| && sent[k].Update? && sent[k].typeId == t) ==> Granted(events + head, t)
    ensures var more := head + Sends(sent);
            forall i :: 0 <= i < |more| && more[i].Sent? && more[i].message.Update? && more[i].message.typeId == t
              ==> Granted(events + more[..i], t)
  {
    hide Granted;
    var more := head + Sends(sent);
    forall i | 0 <= i < |more| && more[i].Sent? && more[i].message.Update? && more[i].message.typeId == t
      ensures Granted(events + more[..i], t)
    {
      var k := i - |head|;
      assert sent[k].Update? && sent[k].typeId == t;
      assert events + more[..i] == (events + head) + Sends(sent)[..k];
      SendsDoNotGrant(events + head, Sends(sent)[..k], t);
    }
  }

  // ---------- acknowledgements and the remote repository ----------

  /** The acknowledgement `m` speaks of what the repository of `p` holds for its bound peer. */
  predicate Sound(p: Peer, m: Message)
  {
    m.Acknowledgement? ==>
      && m.origin == p.remoteDevice != NOBODY
      && (m.origin, m.typeId) in p.remote
      && p.remote[(m.origin, m.typeId)].stamp == m.stamp
  }

  predicate AllSound(p: Peer, messages: seq<Message>)
  {
    forall i :: 0 <= i < |messages| ==> Sound(p, messages[i])
  }

  /** In every run an acknowledgement goes out only while the repository holds exactly that
      origin, type, epoch and revision, and the origin is the bound peer. */
  lemma AcknowledgementsAreSound(p: Peer, actions: seq<Action>)
    requires Contained(p)
    ensures forall n, m :: 0 <= n < |actions| && Sent(m) in EventsOf(Run(p, actions[..n]).peer, actions[n])
              ==> Sound(Run(p, actions[..n + 1]).peer, m)
  {
    hide Contained, Sound, Act;
    forall n, m | 0 <= n < |actions| && Sent(m) in EventsOf(Run(p, actions[..n]).peer, actions[n])
      ensures Sound(Run(p, actions[..n + 1]).peer, m)
    {
      var q := Run(p, actions[..n]).peer;
      RunsStayContained(p, actions[..n]);
      StepAcknowledgesSoundly(q, actions[n]);
      assert actions[..n + 1][..n] == actions[..n];
      var i :| 0 <= i < |Act(q, actions[n]).sent| && Sends(Act(q, actions[n]).sent)[i] == Sent(m);
    }
  }

  lemma StepAcknowledgesSoundly(p: Peer, a: Action)
    requires Contained(p)
    ensures AllSound(Act(p, a).peer, Act(p, a).sent)
  {
    if a.Deliver? && p.initialized {
      HandleAcknowledgesSoundly(p, a.message);
    }
    if a.DoInitialize? && !p.initialized {
      InitializeSendsAnnouncements(p, a.config);
      assert NoUpdates(Act(p, a).sent);
    }
    hide Announcements, Handle, Initialize, OnlyBound;
  }

  lemma HandleAcknowledgesSoundly(p: Peer, m: Message)
    requires Contained(p) && p.initialized
    ensures AllSound(Handle(p, m).peer, Handle(p, m).sent)
  {
    hide BindPeer, OnlyBound, Snapshots, HandleUpdate, Subscribed;
    if m.Update? {
      UpdateIsAcknowledgedSoundly(p, m.origin, m.typeId, m.entry);
    } else if !m.Acknowledgement? {
      BindKeepsSubscribed(p, m.device);
      var b := BindPeer(p, m.device);
      SnapshotsAreUpdates(b.peer, b.peer.contract);
    }
  }

  lemma UpdateIsAcknowledgedSoundly(p: Peer, origin: Device, t: TypeId, entry: Entry)
    requires Contained(p) && p.initialized
    ensures AllSound(HandleUpdate(p, origin, t, entry).peer, HandleUpdate(p, origin, t, entry).sent)
  {
    hide BindPeer, OnlyBound, IsSubscribed;
    BindKeepsSubscribed(p, origin);
    BindKeepsContained(p, origin);
  }

  lemma {:induction false} SnapshotsAreUpdates(p: Peer, types: seq<TypeId>)
    ensures forall i :: 0 <= i < |Snapshots(p, types)| ==> Snapshots(p, types)[i].Update?
  {
    if types != [] {
      SnapshotsAreUpdates(p, types[1..]);
    }
  }

  /** Stamps are in order of epoch, and of revision within an epoch: of two different ones exactly
      one is newer, and a publisher that starts a new epoch outdates all it said before. */
  lemma NewerIsAnOrder(a: Stamp, b: Stamp, c: Stamp)
    ensures a == b || Newer(a, b) || Newer(b, a)
    ensures Newer(a, b) ==> a != b && !Newer(b, a)
    ensures Newer(a, b) && Newer(b, c) ==> Newer(a, c)
    ensures a.epoch > b.epoch ==> Newer(a, b)
    ensures a.epoch == b.epoch ==> (Newer(a, b) <==> a.revision > b.revision)
  {
  }

  /** Nothing the repository holds is lost or replaced by something older. */
  predicate Advances(before: map<(Device, TypeId), Entry>, after: map<(Device, TypeId), Entry>)
  {
    forall k :: k in before ==> k in after && (after[k] == before[k] || Newer(after[k].stamp, before[k].stamp))
  }

  lemma BindTouches(p: Peer, device: Device)
    ensures var b := BindPeer(p, device);
            b.peer == p.(remoteDevice := b.peer.remoteDevice, available := b.peer.available)
  {
  }

  lemma ControlKeepsRemote(p: Peer, m: Message)
    requires !m.Update? && !m.Acknowledgement?
    ensures HandleControl(p, m).peer.remote == p.remote
  {
    hide BindPeer, Snapshots, Snapshot, Subscribed, CanSubscribe;
    BindTouches(p, m.device);
  }

  lemma UpdateAdvances(p: Peer, origin: Device, t: TypeId, entry: Entry)
    ensures Advances(p.remote, HandleUpdate(p, origin, t, entry).peer.remote)
  {
    hide BindPeer, IsSubscribed;
    BindTouches(p, origin);
  }

  lemma ActAdvances(p: Peer, a: Action)
    ensures Advances(p.remote, Act(p, a).peer.remote)
  {
    hide HandleUpdate, HandleControl, Announcements, Snapshots, Snapshot, Subscribed, IsSubscribed, CanSubscribe, Without, Applies, BindPeer;
    if a.Deliver? {
      if a.message.Update? {
        UpdateAdvances(p, a.message.origin, a.message.typeId, a.message.entry);
      } else if !a.message.Acknowledgement? {
        ControlKeepsRemote(p, a.message);
      }
    }
    if a.DoInitialize? {
      BindTouches(p.(initialized := true, config := a.config), a.config.expected);
    }
  }

  /** In every run, whatever is delivered, replayed duplicates included, the stored epoch and
      revision of a type never decrease. */
  lemma {:induction false} RemoteOnlyAdvances(p: Peer, actions: seq<Action>)
    ensures Advances(p.remote, Run(p, actions).peer.remote)
  {
    hide Act;
    if actions != [] {
      var n := |actions| - 1;
      var before := Run(p, actions[..n]).peer;
      RemoteOnlyAdvances(p, actions[..n]);
      ActAdvances(before, actions[n]);
    }
  }
}
