/** What a State session owes its peer: accepted messages are acknowledged in turn, requested
    states are sent, and who is there is recorded. */
module StateAnswers {
  import opened Wrappers
  import opened StateSession
  import opened StateRuns

  // ---------- acknowledgements ----------

  /** The acknowledgement that an accepted message calls for. */
  function Answer(origin: Device, m: Message): (r: seq<Message>)
    ensures |r| <= 1
  {
    match m
    case Update(from, t, e) => [Acknowledgement(from, t, e.stamp)]
    case Subscribe(_, t) => [SubscribeAcknowledgement(origin, t)]
    case Unsubscribe(_, t) => [UnsubscribeAcknowledgement(origin, t)]
    case _ => []
  }

  predicate IsAnswer(m: Message)
  {
    m.Acknowledgement? || m.SubscribeAcknowledgement? || m.UnsubscribeAcknowledgement?
  }

  function DueAfter(origin: Device, due: seq<Message>, e: Event): Option<seq<Message>>
  {
    if e.Accepted? then (if due == [] then Some(Answer(origin, e.message)) else None)
    else if e.Ended? then (if due == [] then Some([]) else None)
    else if !IsAnswer(e.message) then Some(due)
    else if due == [e.message] then Some([])
    else None
  }

  /** What is still to be answered after the events; none if a message was accepted or the session
      ended while an answer was due, or an answer was sent that was not. */
  function Due(origin: Device, events: seq<Event>): Option<seq<Message>>
  {
    if events == [] then Some([])
    else
      var due :- Due(origin, events[..|events| - 1]);
      DueAfter(origin, due, events[|events| - 1])
  }

  lemma DueSnoc(origin: Device, events: seq<Event>, e: Event)
    ensures Due(origin, events + [e])
         == if Due(origin, events).None? then None else DueAfter(origin, Due(origin, events).value, e)
  {
    assert (events + [e])[..|events|] == events;
  }

  function Answers(messages: seq<Message>): seq<Message>
  {
    if messages == [] then []
    else
      var last := messages[|messages| - 1];
      Answers(messages[..|messages| - 1]) + if IsAnswer(last) then [last] else []
  }

  lemma {:induction false} AnswersInTwo(a: seq<Message>, b: seq<Message>)
    ensures Answers(a + b) == Answers(a) + Answers(b)
  {
    if b == [] {
      assert a + b == a;
    } else {
      AnswersInTwo(a, b[..|b| - 1]);
      assert (a + b)[..|a + b| - 1] == a + b[..|b| - 1];
    }
  }

  lemma {:induction false} NoAnswers(messages: seq<Message>)
    requires forall i :: 0 <= i < |messages| ==> !IsAnswer(messages[i])
    ensures Answers(messages) == []
  {
    if messages != [] {
      NoAnswers(messages[..|messages| - 1]);
    }
  }

  lemma {:induction false} SendingAnswers(origin: Device, events: seq<Event>, due: seq<Message>, sent: seq<Message>)
    requires Due(origin, events) == Some(due) && |due| <= 1 && Answers(sent) <= due
    ensures Due(origin, events + Sends(sent)) == Some(due[|Answers(sent)|..])
    decreases |sent|
  {
    hide Due, Answer;
    if sent == [] {
      assert events + Sends(sent) == events;
    } else {
      var n := |sent| - 1;
      assert Answers(sent) == Answers(sent[..n]) + if IsAnswer(sent[n]) then [sent[n]] else [];
      assert Answers(sent[..n]) <= Answers(sent);
      assert IsAnswer(sent[n]) ==> due[|Answers(sent[..n])|..] == [sent[n]] && due[|Answers(sent)|..] == [];
      SendingAnswers(origin, events, due, sent[..n]);
      assert events + Sends(sent) == (events + Sends(sent[..n])) + [Sent(sent[n])];
      DueSnoc(origin, events + Sends(sent[..n]), Sent(sent[n]));
    }
  }

  lemma BindingAnswersNothing(p: Peer, device: Device)
    ensures Answers(BindPeer(p, device).sent) == []
    ensures BindPeer(p, device).peer.origin == p.origin
  {
    AnnouncementsHaveNoUpdates(p.(remoteDevice := device, available := p.available[device := Connected]), p.subscriptions);
    NoAnswers(BindPeer(p, device).sent);
    hide Announcements, Answers;
  }

  lemma OneAnswer(m: Message)
    ensures Answers([m]) == if IsAnswer(m) then [m] else []
  {
    assert [m][..0] == [] && [] + [m] == [m];
  }

  lemma UpdateIsAnswered(p: Peer, from: Device, t: TypeId, e: Entry)
    ensures var o := HandleUpdate(p, from, t, e);
            Answers(o.sent) == (if o.ok then [Acknowledgement(from, t, e.stamp)] else []) && o.peer.origin == p.origin
  {
    hide IsSubscribed, Applicable, ExactDuplicate, BindPeer, Answers;
    BindingAnswersNothing(p, from);
    OneAnswer(Acknowledgement(from, t, e.stamp));
    AnswersInTwo(BindPeer(p, from).sent, [Acknowledgement(from, t, e.stamp)]);
  }

  lemma SubscribeIsAnswered(b: Outcome, t: TypeId)
    requires Answers(b.sent) == []
    ensures var o := AcceptSubscribe(b, t);
            Answers(o.sent) == (if o.ok then [SubscribeAcknowledgement(b.peer.origin, t)] else []) && o.peer.origin == b.peer.origin
  {
    hide Answers, CanSubscribe, Subscribed;
    var ack := SubscribeAcknowledgement(b.peer.origin, t);
    var p := AcceptSubscribe(b, t).peer;
    OneAnswer(ack);
    NoAnswers(Snapshot(p, t));
    AnswersInTwo(Snapshot(p, t), [ack]);
    AnswersInTwo(b.sent, Snapshot(p, t) + [ack]);
  }

  lemma UnsubscribeIsAnswered(b: Outcome, t: TypeId)
    requires Answers(b.sent) == []
    ensures var o := AcceptUnsubscribe(b, t);
            o.ok && Answers(o.sent) == [UnsubscribeAcknowledgement(b.peer.origin, t)] && o.peer.origin == b.peer.origin
  {
    hide Answers;
    OneAnswer(UnsubscribeAcknowledgement(b.peer.origin, t));
    AnswersInTwo(b.sent, [UnsubscribeAcknowledgement(b.peer.origin, t)]);
  }

  lemma ResynchronizeAnswersNothing(b: Outcome, t: TypeId)
    requires Answers(b.sent) == []
    ensures Answers(AcceptResynchronize(b, t).sent) == []
  {
    hide Answers, Subscribed;
    var p := b.peer;
    SnapshotsAreUpdates(p, p.contract);
    NoAnswers(Snapshots(p, p.contract));
    NoAnswers(Snapshot(p, t));
    AnswersInTwo(b.sent, Snapshots(p, p.contract));
    AnswersInTwo(b.sent, Snapshot(p, t));
    hide Snapshots;
  }

  /** A message is acknowledged if and only if it is accepted and calls for it, and nothing else is. */
  lemma HandleAnswers(p: Peer, m: Message)
    ensures var o := Handle(p, m);
            Answers(o.sent) == (if o.ok then Answer(p.origin, m) else []) && o.peer.origin == p.origin
  {
    hide Answers, BindPeer, HandleUpdate, AcceptSubscribe, AcceptUnsubscribe, AcceptResynchronize;
    NoAnswers([]);
    if m.Update? {
      UpdateIsAnswered(p, m.origin, m.typeId, m.entry);
    } else if !m.Acknowledgement? {
      var b := BindPeer(p, m.device);
      BindingAnswersNothing(p, m.device);
      if b.ok {
        match m
        case Subscribe(_, t) => SubscribeIsAnswered(b, t);
        case Unsubscribe(_, t) => UnsubscribeIsAnswered(b, t);
        case Resynchronize(_, t) =>
          ResynchronizeAnswersNothing(b, t);
          ResynchronizeKeepsPeer(b, t);
        case _ =>
      }
    }
  }

  lemma InitializeAnswersNothing(p: Peer, config: Config)
    ensures Answers(Initialize(p, config).sent) == [] && Initialize(p, config).peer.origin == p.origin
  {
    hide Answers, BindPeer, Announcements;
    NoAnswers([]);
    var started := p.(initialized := true, config := config);
    var b := BindPeer(started, config.expected);
    BindingAnswersNothing(started, config.expected);
    AnnouncementsHaveNoUpdates(started, p.subscriptions);
    AnnouncementsHaveNoUpdates(b.peer, b.peer.subscriptions);
    NoAnswers(Announcements(started, started.subscriptions));
    NoAnswers(Announcements(b.peer, b.peer.subscriptions));
    AnswersInTwo(b.sent, Announcements(b.peer, b.peer.subscriptions));
  }

  lemma ActAnswers(p: Peer, a: Action)
    ensures var o := Act(p, a);
            && Answers(o.sent) == (if a.Deliver? && o.ok then Answer(p.origin, a.message) else [])
            && o.peer.origin == p.origin
  {
    hide Answers, Handle, Initialize;
    match a
    case Deliver(m) => HandleAnswers(p, m); NoAnswers([]);
    case DoInitialize(c) => InitializeAnswersNothing(p, c);
    case _ => NoAnswers(Act(p, a).sent);
  }

  lemma StepAnswersInTurn(p: Peer, events: seq<Event>, a: Action)
    requires Due(p.origin, events) == Some([])
    ensures Due(p.origin, events + EventsOf(p, a)) == Some([])
  {
    hide Act, Due, Answers, Answer;
    ActAnswers(p, a);
    var o := Act(p, a);
    var head: seq<Event> := if a.Deliver? && o.ok then [Accepted(a.message)] else [];
    var due := if a.Deliver? && o.ok then Answer(p.origin, a.message) else [];
    var tail: seq<Event> := if a.DoShutdown? && p.initialized then [Ended] else [];
    DueSnoc(p.origin, events, Accepted(if a.Deliver? then a.message else Disconnect(NOBODY)));
    assert events + [] == events;
    SendingAnswers(p.origin, events + head, due, o.sent);
    var all := (events + head) + Sends(o.sent);
    DueSnoc(p.origin, all, Ended);
    assert all + [] == all;
    assert events + EventsOf(p, a) == all + tail;
  }

  lemma {:induction false} RunAnswersInTurn(p: Peer, actions: seq<Action>)
    ensures Due(p.origin, Run(p, actions).events) == Some([]) && Run(p, actions).peer.origin == p.origin
  {
    hide Act, Due, EventsOf;
    if actions == [] {
      NothingDue(p.origin);
    } else {
      var before := Run(p, actions[..|actions| - 1]);
      var a := actions[|actions| - 1];
      RunAnswersInTurn(p, actions[..|actions| - 1]);
      StepAnswersInTurn(before.peer, before.events, a);
      ActAnswers(before.peer, a);
    }
  }

  lemma NothingDue(origin: Device)
    ensures Due(origin, []) == Some([])
  {
  }

  /** The `i`-th event's message is answered before another one is accepted. */
  predicate Answered(origin: Device, events: seq<Event>, i: nat)
    requires i < |events| && events[i].Accepted?
  {
    var answer := Answer(origin, events[i].message);
    answer == [] || exists j :: i < j < |events| && events[j] == Sent(answer[0]) && forall k :: i < k < j ==> !events[k].Accepted?
  }

  predicate Awaited(origin: Device, events: seq<Event>, i: nat)
    requires i < |events| && events[i].Accepted?
  {
    Due(origin, events) == Some(Answer(origin, events[i].message)) && forall k :: i < k < |events| ==> !events[k].Accepted?
  }

  lemma {:induction false} DueMeansAnswered(origin: Device, events: seq<Event>, i: nat)
    requires Due(origin, events).Some? && i < |events| && events[i].Accepted?
    ensures Answered(origin, events, i) || Awaited(origin, events, i)
    decreases |events|
  {
    hide Answer, IsAnswer;
    var n := |events| - 1;
    var before, e := events[..n], events[n];
    assert events == before + [e];
    DueSnoc(origin, before, e);
    if i < n {
      DueMeansAnswered(origin, before, i);
      var answer := Answer(origin, events[i].message);
      if Answered(origin, before, i) && answer != [] {
        var j :| i < j < n && before[j] == Sent(answer[0]) && forall k :: i < k < j ==> !before[k].Accepted?;
        assert events[j] == Sent(answer[0]) && forall k :: i < k < j ==> !events[k].Accepted?;
      } else if answer != [] && Due(origin, events) == Some([]) {
        assert answer == [e.message];
        assert events[n] == Sent(answer[0]);
      }
    }
  }

  /** In every run each accepted Update, Subscribe and Unsubscribe is acknowledged, once, before the
      next message is accepted or the session ends, and nothing else is acknowledged. */
  lemma AcceptedIsAcknowledged(p: Peer, actions: seq<Action>)
    ensures var events := Run(p, actions).events;
            && Due(p.origin, events) == Some([])
            && forall i :: 0 <= i < |events| && events[i].Accepted? ==> Answered(p.origin, events, i)
  {
    RunAnswersInTurn(p, actions);
    var events := Run(p, actions).events;
    hide Run, Due;
    forall i | 0 <= i < |events| && events[i].Accepted? ensures Answered(p.origin, events, i) {
      DueMeansAnswered(p.origin, events, i);
    }
  }

  lemma {:induction false} AnswersAreSent(messages: seq<Message>, m: Message)
    ensures m in Answers(messages) <==> m in messages && IsAnswer(m)
  {
    if messages != [] {
      AnswersAreSent(messages[..|messages| - 1], m);
      assert messages == messages[..|messages| - 1] + [messages[|messages| - 1]];
    }
  }

  /** An Update is answered true if and only if it is acknowledged, and then another copy of it is
      acknowledged again and changes nothing. */
  lemma UpdatesAreAcknowledged(p: Peer, from: Device, t: TypeId, e: Entry)
    ensures var m := Update(from, t, e);
            var o := Handle(p, m);
            && (o.ok <==> Acknowledgement(from, t, e.stamp) in o.sent)
            && (o.ok ==> Handle(o.peer, m) == Outcome(o.peer, [Acknowledgement(from, t, e.stamp)], true))
            && (!o.ok ==> o.peer.remote == p.remote)
  {
    var o := Handle(p, Update(from, t, e));
    HandleAnswers(p, Update(from, t, e));
    AnswersAreSent(o.sent, Acknowledgement(from, t, e.stamp));
    BindTouches(p, from);
    BindingStays(p, from);
    hide Answers, BindPeer;
  }

  lemma BindingStays(p: Peer, device: Device)
    ensures var b := BindPeer(p, device);
            b.ok ==> forall q: Peer :: q.remoteDevice == b.peer.remoteDevice && q.config == b.peer.config ==> BindPeer(q, device) == Outcome(q, [], true)
  {
  }

  /** A session that expects its peer announces what it wants when it binds to it, and once more. */
  lemma ExpectedPeerIsToldTwice(p: Peer, config: Config)
    requires p == Unused(p) && config.expected != NOBODY
    ensures var o := Initialize(p, config);
            && o.ok && o.peer.remoteDevice == config.expected
            && o.sent == Announcements(o.peer, p.subscriptions) + Announcements(o.peer, p.subscriptions)
  {
    hide Announcements;
  }

  // ---------- requested states ----------

  lemma {:induction false} SnapshotsAreComplete(p: Peer, types: seq<TypeId>, t: TypeId, e: Entry)
    ensures Update(p.origin, t, e) in Snapshots(p, types)
       <==> t in types && t in Subscribed(p) && t in p.contract && t in p.published && e == p.published[t]
  {
    if types != [] {
      SnapshotsAreComplete(p, types[1..], t, e);
      assert types == [types[0]] + types[1..];
    }
  }

  /** A request for all states, and one for a single state, is answered with exactly the latest
      entries of the types asked for that the peer is subscribed to and that were published; the
      request for a single state that was not is turned down. */
  lemma RequestedStatesAreSent(p: Peer, device: Device, asked: TypeId, t: TypeId, e: Entry)
    requires OnlyBound(p) && BindPeer(p, device).ok
    ensures var o := Handle(p, Resynchronize(device, asked));
            && (Update(p.origin, t, e) in o.sent <==>
                  && (asked == ALL_TYPES || asked == t)
                  && t in Subscribed(p) && t in p.contract && t in p.published && e == p.published[t])
            && (o.ok <==> asked == ALL_TYPES || asked !in Subscribed(p) || (asked in p.contract && asked in p.published))
  {
    var b := BindPeer(p, device);
    BindKeepsSubscribed(p, device);
    BindTouches(p, device);
    SnapshotsAreComplete(b.peer, p.contract, t, e);
    hide BindPeer, Snapshots, Subscribed, OnlyBound;
  }

  // ---------- who is there ----------

  /** The peer has taken its leave: a Disconnect was accepted and the session has not ended since. */
  predicate TookLeave(events: seq<Event>)
  {
    events != [] &&
    var e := events[|events| - 1];
    !e.Ended? && ((e.Accepted? && e.message.Disconnect?) || TookLeave(events[..|events| - 1]))
  }

  lemma TookLeaveSnoc(events: seq<Event>, e: Event)
    ensures TookLeave(events + [e]) <==> !e.Ended? && ((e.Accepted? && e.message.Disconnect?) || TookLeave(events))
  {
    assert (events + [e])[..|events|] == events;
  }

  lemma {:induction false} SendsTakeNoLeave(events: seq<Event>, sent: seq<Message>)
    ensures TookLeave(events + Sends(sent)) <==> TookLeave(events)
    decreases |sent|
  {
    if sent == [] {
      assert events + Sends(sent) == events;
    } else {
      var n := |sent| - 1;
      SendsTakeNoLeave(events, sent[..n]);
      assert events + Sends(sent) == (events + Sends(sent[..n])) + [Sent(sent[n])];
      TookLeaveSnoc(events + Sends(sent[..n]), Sent(sent[n]));
    }
  }

  /** The repository says of the bound peer that it is there unless it has taken its leave, and of
      no other device. */
  predicate Recorded(p: Peer, left: bool)
  {
    && (forall d :: d in p.available && p.available[d] == Connected ==> d == p.remoteDevice)
    && (p.remoteDevice == NOBODY ==> !left)
    && (p.remoteDevice != NOBODY ==> p.remoteDevice in p.available && (p.available[p.remoteDevice] == Connected <==> !left))
  }

  lemma BindingIsRecorded(p: Peer, device: Device, left: bool)
    requires Recorded(p, left) && NOBODY !in p.available
    ensures var b := BindPeer(p, device);
            && Recorded(b.peer, left) && NOBODY !in b.peer.available
            && (b.ok ==> b.peer.remoteDevice != NOBODY) && b.peer.initialized == p.initialized
  {
  }

  lemma HandlingIsRecorded(p: Peer, m: Message, left: bool)
    requires Recorded(p, left) && NOBODY !in p.available
    ensures var o := Handle(p, m);
            Recorded(o.peer, left || (o.ok && m.Disconnect?)) && NOBODY !in o.peer.available && o.peer.initialized == p.initialized
  {
    hide BindPeer, Snapshots, Snapshot, Subscribed, CanSubscribe, IsSubscribed, Applicable, ExactDuplicate;
    if !m.Acknowledgement? {
      BindingIsRecorded(p, if m.Update? then m.origin else m.device, left);
    }
  }

  lemma ActingIsRecorded(p: Peer, a: Action, left: bool)
    requires Contained(p) && Recorded(p, left) && NOBODY !in p.available
    ensures var o := Act(p, a);
            && NOBODY !in o.peer.available
            && Recorded(o.peer, !(a.DoShutdown? && p.initialized) && (left || (a.Deliver? && o.ok && a.message.Disconnect?)))
  {
    hide Handle, BindPeer, Announcements, Without, OnlyBound;
    match a
    case Deliver(m) => HandlingIsRecorded(p, m, left);
    case DoInitialize(c) =>
      BindingIsRecorded(p.(initialized := true, config := c), c.expected, left);
    case _ =>
  }

  lemma StepIsRecorded(p: Peer, events: seq<Event>, a: Action)
    requires Contained(p) && Recorded(p, TookLeave(events)) && NOBODY !in p.available
    ensures var o := Act(p, a);
            NOBODY !in o.peer.available && Recorded(o.peer, TookLeave(events + EventsOf(p, a)))
  {
    hide Act, TookLeave, Recorded, Contained;
    ActingIsRecorded(p, a, TookLeave(events));
    var o := Act(p, a);
    var head: seq<Event> := if a.Deliver? && o.ok then [Accepted(a.message)] else [];
    var tail: seq<Event> := if a.DoShutdown? && p.initialized then [Ended] else [];
    TookLeaveSnoc(events, Accepted(if a.Deliver? then a.message else Disconnect(NOBODY)));
    assert events + [] == events;
    SendsTakeNoLeave(events + head, o.sent);
    var all := (events + head) + Sends(o.sent);
    TookLeaveSnoc(all, Ended);
    assert all + [] == all;
    assert events + EventsOf(p, a) == all + tail;
  }

  /** In every run of a new session the repository records the bound peer as connected until it
      takes its leave, which no later message of it undoes, and every other device as not. */
  lemma {:induction false} AvailabilityIsExact(p: Peer, actions: seq<Action>)
    requires p == Unused(p) && p.available == map[]
    ensures var h := Run(p, actions);
            Contained(h.peer) && NOBODY !in h.peer.available && Recorded(h.peer, TookLeave(h.events))
  {
    hide Act, EventsOf, Recorded, Contained;
    if actions == [] {
      NobodyIsRecorded(p);
    } else {
      var before := Run(p, actions[..|actions| - 1]);
      var a := actions[|actions| - 1];
      AvailabilityIsExact(p, actions[..|actions| - 1]);
      StepIsRecorded(before.peer, before.events, a);
      ActKeepsContained(before.peer, a);
    }
  }

  lemma NobodyIsRecorded(p: Peer)
    requires p == Unused(p) && p.available == map[]
    ensures Contained(p) && Recorded(p, TookLeave([]))
  {
  }

  /** A peer that has taken its leave and subscribes again is served, and still recorded as gone. */
  lemma PeerThatLeftIsServed(p: Peer, t: TypeId)
    requires Contained(p) && p.initialized && p.remoteDevice != NOBODY && t in p.contract
    ensures var q := Handle(p, Disconnect(p.remoteDevice)).peer;
            var o := Handle(q, Subscribe(p.remoteDevice, t));
            && o.ok && Subscribed(o.peer) == {t}
            && p.remoteDevice in o.peer.available && o.peer.available[p.remoteDevice] == Disconnected
  {
    var q := Handle(p, Disconnect(p.remoteDevice)).peer;
    assert q.subscribers == map[];
  }

  /** A session that is shut down records its peer as gone, and the peer gets to record it, and to
      drop its subscriptions, if and only if the session was configured to say so. */
  lemma LeavingIsNoticed(p: Peer, q: Peer)
    requires p.initialized && p.remoteDevice == q.origin != NOBODY
    requires q.initialized && q.remoteDevice == p.origin != NOBODY && Contained(q)
    requires p.origin in q.available && q.available[p.origin] == Connected
    ensures var o := Shutdown(p, true);
            && !o.peer.initialized && o.peer.remoteDevice == NOBODY
            && q.origin in o.peer.available && o.peer.available[q.origin] == Disconnected
            && |o.sent| <= 1
            && var r := if o.sent == [] then Outcome(q, [], true) else Handle(q, o.sent[0]);
               && r.ok && r.sent == []
               && (p.config.sendDisconnect <==> r.peer.available[p.origin] == Disconnected)
               && Subscribed(r.peer) == if p.config.sendDisconnect then {} else Subscribed(q)
  {
  }
}
