/** The State session object over its decoder and the libraries it points to. */
module SocketStateSession {
  import opened Bytes
  import opened Wrappers
  import opened Framing
  import FrameDecoder
  import opened SocketFrames
  import opened StateSession

  /** The State protocol's reading of a payload; none is a malformed message. */
  type Codec = Bytes -> Option<Message>

  // ---------- bytes in, messages handled ----------

  function HandleAll(p: Peer, messages: seq<Message>): Outcome
    decreases |messages|
  {
    if messages == [] then Outcome(p, [], true)
    else
      var first := Handle(p, messages[0]);
      var later := HandleAll(first.peer, messages[1..]);
      Outcome(later.peer, first.sent + later.sent, first.ok && later.ok)
  }

  function HandlePayload(decode: Codec, p: Peer, payload: Bytes): Outcome
  {
    match decode(payload)
    case None => Outcome(p, [], false)
    case Some(m) => Handle(p, m)
  }

  function HandlePayloads(decode: Codec, p: Peer, payloads: seq<Bytes>): Outcome
    decreases |payloads|
  {
    if payloads == [] then Outcome(p, [], true)
    else
      var first := HandlePayload(decode, p, payloads[0]);
      var later := HandlePayloads(decode, first.peer, payloads[1..]);
      Outcome(later.peer, first.sent + later.sent, first.ok && later.ok)
  }

  lemma {:induction false} HandlePayloadsInTwo(decode: Codec, p: Peer, a: seq<Bytes>, b: seq<Bytes>)
    ensures var first := HandlePayloads(decode, p, a);
            var second := HandlePayloads(decode, first.peer, b);
            HandlePayloads(decode, p, a + b) == Outcome(second.peer, first.sent + second.sent, first.ok && second.ok)
    decreases |a|
  {
    hide HandlePayload;
    if a == [] {
      assert a + b == b;
      assert [] + HandlePayloads(decode, p, b).sent == HandlePayloads(decode, p, b).sent;
    } else {
      assert (a + b)[0] == a[0] && (a + b)[1..] == a[1..] + b;
      var first := HandlePayload(decode, p, a[0]);
      HandlePayloadsInTwo(decode, first.peer, a[1..], b);
      var middle := HandlePayloads(decode, first.peer, a[1..]);
      var last := HandlePayloads(decode, middle.peer, b);
      assert first.sent + (middle.sent + last.sent) == (first.sent + middle.sent) + last.sent;
    }
  }

  /** The peer and the decoder's buffer after a feed, what was sent, and the answer. */
  datatype Fed = Fed(peer: Peer, buffer: Bytes, sent: seq<Message>, ok: bool)

  function FeedBytes(maximum: nat, decode: Codec, p: Peer, buffer: Bytes, data: Bytes): Fed
  {
    var f := Packed(STATE_MAGIC, maximum);
    var pushed := FrameDecoder.Push(f, buffer, data);
    var handled := HandlePayloads(decode, p, Payloads(f, pushed.frames));
    Fed(handled.peer, pushed.buffer, handled.sent, pushed.verdict == FrameDecoder.Accepted && handled.ok)
  }

  function FeedChunks(maximum: nat, decode: Codec, p: Peer, buffer: Bytes, chunks: seq<Bytes>): Fed
    decreases |chunks|
  {
    if chunks == [] then Fed(p, buffer, [], true)
    else
      var first := FeedBytes(maximum, decode, p, buffer, chunks[0]);
      var later := FeedChunks(maximum, decode, first.peer, first.buffer, chunks[1..]);
      Fed(later.peer, later.buffer, first.sent + later.sent, first.ok && later.ok)
  }

  /** How many chunks are fed up to the first that the decoder rejects, that one included. */
  function FedUntilRejected(f: Format, buffer: Bytes, chunks: seq<Bytes>): (n: nat)
    ensures n <= |chunks|
    ensures FrameDecoder.PushAll(f, buffer, chunks).verdict == FrameDecoder.Accepted ==> n == |chunks|
    decreases |chunks|
  {
    if chunks == [] then 0
    else
      var first := FrameDecoder.Push(f, buffer, chunks[0]);
      if first.verdict != FrameDecoder.Accepted then 1 else 1 + FedUntilRejected(f, first.buffer, chunks[1..])
  }

  /** The payloads that the decoder delivers are handled in order, those of the chunk it rejects
      included, and the answer tells of the rejection. */
  lemma {:induction false} ChunksHandleAsOne(maximum: nat, decode: Codec, p: Peer, buffer: Bytes, chunks: seq<Bytes>)
    ensures var f := Packed(STATE_MAGIC, maximum);
            var pushed := FrameDecoder.PushAll(f, buffer, chunks);
            var handled := HandlePayloads(decode, p, Payloads(f, pushed.frames));
            FeedChunks(maximum, decode, p, buffer, chunks[..FedUntilRejected(f, buffer, chunks)])
            == Fed(handled.peer, pushed.buffer, handled.sent, handled.ok && pushed.verdict == FrameDecoder.Accepted)
    decreases |chunks|
  {
    hide FrameDecoder.Push, HandlePayloads;
    var f := Packed(STATE_MAGIC, maximum);
    NothingToHandle(decode, p);
    if chunks != [] {
      var first, n := FrameDecoder.Push(f, buffer, chunks[0]), FedUntilRejected(f, buffer, chunks);
      var fed := FeedBytes(maximum, decode, p, buffer, chunks[0]);
      assert chunks[..n][0] == chunks[0] && chunks[..n][1..] == chunks[1..n];
      if first.verdict == FrameDecoder.Accepted {
        var later := FrameDecoder.PushAll(f, first.buffer, chunks[1..]);
        assert chunks[1..n] == chunks[1..][..n - 1];
        ChunksHandleAsOne(maximum, decode, fed.peer, first.buffer, chunks[1..]);
        HandlePayloadsInTwo(decode, p, Payloads(f, first.frames), Payloads(f, later.frames));
        assert Payloads(f, first.frames + later.frames) == Payloads(f, first.frames) + Payloads(f, later.frames);
      } else {
        assert fed.sent + [] == fed.sent;
      }
    }
  }

  lemma NothingToHandle(decode: Codec, p: Peer)
    ensures HandlePayloads(decode, p, []) == Outcome(p, [], true)
  {
  }

  function Encoded(encode: Message -> Bytes, messages: seq<Message>): (r: seq<Bytes>)
    ensures |r| == |messages|
  {
    seq(|messages|, i requires 0 <= i < |messages| => encode(messages[i]))
  }

  lemma {:induction false} PayloadsAreMessages(encode: Message -> Bytes, decode: Codec, p: Peer, messages: seq<Message>)
    requires forall m :: m in messages ==> decode(encode(m)) == Some(m)
    ensures HandlePayloads(decode, p, Encoded(encode, messages)) == HandleAll(p, messages)
    decreases |messages|
  {
    hide Handle;
    if messages != [] {
      assert messages[0] in messages && forall m :: m in messages[1..] ==> m in messages;
      assert Encoded(encode, messages)[1..] == Encoded(encode, messages[1..]);
      PayloadsAreMessages(encode, decode, Handle(p, messages[0]).peer, messages[1..]);
    }
  }

  /** The messages among the payloads. */
  function Decoded(decode: Codec, payloads: seq<Bytes>): seq<Message>
  {
    if payloads == [] then []
    else
      var m := decode(payloads[0]);
      (if m.Some? then [m.value] else []) + Decoded(decode, payloads[1..])
  }

  /** Malformed payloads are skipped: they change nothing and are answered with nothing, but the
      answer of the feed is true only if there is none and every message was accepted. */
  lemma {:induction false} MalformedPayloadsAreSkipped(decode: Codec, p: Peer, payloads: seq<Bytes>)
    ensures var handled, all := HandlePayloads(decode, p, payloads), HandleAll(p, Decoded(decode, payloads));
            && handled.peer == all.peer && handled.sent == all.sent
            && (handled.ok <==> all.ok && forall x :: x in payloads ==> decode(x).Some?)
    decreases |payloads|
  {
    hide Handle;
    if payloads != [] {
      var m, later := decode(payloads[0]), Decoded(decode, payloads[1..]);
      assert forall x :: x in payloads <==> x == payloads[0] || x in payloads[1..];
      if m.None? {
        MalformedPayloadsAreSkipped(decode, p, payloads[1..]);
        assert [] + later == later;
        assert [] + HandlePayloads(decode, p, payloads[1..]).sent == HandlePayloads(decode, p, payloads[1..]).sent;
      } else {
        MalformedPayloadsAreSkipped(decode, Handle(p, m.value).peer, payloads[1..]);
        assert ([m.value] + later)[1..] == later;
      }
    }
  }

  /** A byte stream stands for the messages it carries: framed and fed in any chunks that pass
      the decoder's size guard, messages are handled one by one in the order they were sent. */
  lemma BytesRefineMessages(maximum: nat, encode: Message -> Bytes, decode: Codec, p: Peer, messages: seq<Message>, chunks: seq<Bytes>)
    requires forall m :: m in messages ==> decode(encode(m)) == Some(m) && 1 <= |encode(m)| <= maximum && |encode(m)| <= U32_MAX
    requires Flatten(chunks) == Flatten(BuildAll(Packed(STATE_MAGIC, maximum), Encoded(encode, messages)))
    requires FrameDecoder.PushAll(Packed(STATE_MAGIC, maximum), [], chunks).verdict != FrameDecoder.TooLong
    ensures var handled := HandleAll(p, messages);
            FeedChunks(maximum, decode, p, [], chunks) == Fed(handled.peer, [], handled.sent, handled.ok)
  {
    hide Handle, Look;
    var f, payloads := Packed(STATE_MAGIC, maximum), Encoded(encode, messages);
    assert Allowed(f, payloads) by {
      forall i | 0 <= i < |payloads| ensures 1 <= |payloads[i]| <= maximum && |payloads[i]| <= U32_MAX {
        assert messages[i] in messages;
      }
    }
    FramingRoundTrip(f, payloads);
    FrameDecoder.LookOfNothing(f);
    FrameDecoder.ChunksParseAsOne(f, [], chunks);
    assert [] + Flatten(chunks) == Flatten(chunks);
    ChunksHandleAsOne(maximum, decode, p, [], chunks);
    assert chunks[..|chunks|] == chunks;
    PayloadsAreMessages(encode, decode, p, messages);
  }

  // ---------- the objects ----------

  class Publisher {
    const origin: Device
    const contract: seq<TypeId>
    var published: map<TypeId, Entry>

    constructor (origin: Device, contract: seq<TypeId>)
      ensures this.origin == origin && this.contract == contract && published == map[]
    {
      this.origin, this.contract, published := origin, contract, map[];
    }
  }

  class RemoteManager {
    var entries: map<(Device, TypeId), Entry>
    var available: map<Device, Availability>

    constructor ()
      ensures entries == map[] && available == map[]
    {
      entries, available := map[], map[];
    }

    /** Takes an entry exactly when it is newer than what is stored. */
    method Apply(origin: Device, typeId: TypeId, entry: Entry) returns (ok: bool)
      modifies this`entries
      ensures ok <==> ((origin, typeId) in old(entries) ==> Newer(entry.stamp, old(entries)[(origin, typeId)].stamp))
      ensures entries == if ok then old(entries)[(origin, typeId) := entry] else old(entries)
    {
      ok := (origin, typeId) !in entries || Newer(entry.stamp, entries[(origin, typeId)].stamp);
      if ok {
        entries := entries[(origin, typeId) := entry];
      }
    }
  }

  class Subscriptions {
    var descriptors: seq<Descriptor>

    constructor ()
      ensures descriptors == []
    {
      descriptors := [];
    }
  }

  class SocketStateSession {
    var publisher: Publisher?
    var remote: RemoteManager?
    var subscriptions: Subscriptions?
    var subscribers: map<Device, set<TypeId>>
    var config: Config
    const decoder: SocketStateFrameDecoder
    const decode: Codec
    // the size of the protocol's control messages
    const controlSize: nat
    var remoteDevice: Device
    var initialized: bool
    // the messages handed to the transport
    var sent: seq<Message>

    predicate Valid()
      reads this
    {
      && (initialized ==> publisher != null && remote != null && subscriptions != null)
      && (!initialized ==> publisher == null && remote == null && subscriptions == null)
    }

    /** The decoder is between two feeds, and the handlers do not feed it. */
    ghost predicate Ready()
      reads decoder
    {
      decoder.Valid() && decoder.script == [] && Look(decoder.Layout(), decoder.buffer) == Incomplete
    }

    /** The session with the libraries it was, or is to be, initialised with. */
    function AsPeer(publisher: Publisher, remote: RemoteManager, subscriptions: Subscriptions): Peer
      reads this, publisher, remote, subscriptions
    {
      Peer(initialized, config, remoteDevice, subscribers, publisher.origin, publisher.contract,
           publisher.published, remote.entries, remote.available, subscriptions.descriptors)
    }

    function Now(): Peer
      requires Valid() && initialized
      reads this, publisher, remote, subscriptions
    {
      AsPeer(publisher, remote, subscriptions)
    }

    constructor (decode: Codec, controlSize: nat)
      ensures Valid() && !initialized && remoteDevice == NOBODY && subscribers == map[] && sent == []
      ensures fresh(decoder) && Ready() && decoder.buffer == [] && this.decode == decode && this.controlSize == controlSize
    {
      publisher, remote, subscriptions, subscribers := null, null, null, map[];
      config, remoteDevice, initialized, sent := Config(NOBODY, true), NOBODY, false, [];
      decoder := new SocketStateFrameDecoder(4096, []);
      this.decode, this.controlSize := decode, controlSize;
    }

    // ---------- sending ----------

    method Send(m: Message) returns (ok: bool)
      modifies this`sent
      ensures ok && sent == old(sent) + [m]
    {
      sent := sent + [m];
      return true;
    }

    predicate SubscriptionApplies(scope: Scope)
      reads this
    {
      scope.AnyDevice? ||
      (if remoteDevice != NOBODY then scope.device == remoteDevice
       else if config.expected != NOBODY then scope.device == config.expected
       else false)
    }

    method SendCurrentSubscriptions()
      requires Valid()
      modifies this`sent
      ensures sent == old(sent) + if initialized then Announcements(Now(), Now().subscriptions) else []
    {
      if subscriptions == null || !initialized {
        return;
      }
      var descriptors := subscriptions.descriptors;
      var i := 0;
      ghost var p := Now();
      while i < |descriptors|
        invariant 0 <= i <= |descriptors|
        invariant old(sent) + Announcements(p, descriptors) == sent + Announcements(p, descriptors[i..])
      {
        assert descriptors[i..][1..] == descriptors[i + 1..];
        if SubscriptionApplies(descriptors[i].scope) {
          var _ := Send(Subscribe(publisher.origin, descriptors[i].typeId));
        }
        i := i + 1;
      }
      assert sent + [] == sent;
    }

    method SendSnapshotByType(typeId: TypeId) returns (ok: bool)
      requires Valid() && initialized
      modifies this`sent
      ensures sent == old(sent) + Snapshot(Now(), typeId)
      ensures ok <==> Snapshot(Now(), typeId) != []
    {
      var i := 0;
      while i < |publisher.contract|
        invariant 0 <= i <= |publisher.contract|
        invariant typeId !in publisher.contract[..i]
      {
        if publisher.contract[i] == typeId {
          if typeId in publisher.published {
            ok := Send(Update(publisher.origin, typeId, publisher.published[typeId]));
            return;
          }
          return false;
        }
        i := i + 1;
      }
      return false;
    }

    method SendSubscribedSnapshots()
      requires Valid() && initialized
      modifies this`sent
      ensures sent == old(sent) + Snapshots(Now(), publisher.contract)
    {
      var types := publisher.contract;
      var i := 0;
      ghost var p := Now();
      while i < |types|
        invariant 0 <= i <= |types|
        invariant old(sent) + Snapshots(p, types) == sent + Snapshots(p, types[i..])
      {
        assert types[i..][1..] == types[i + 1..];
        if remoteDevice in subscribers && types[i] in subscribers[remoteDevice] {
          var _ := SendSnapshotByType(types[i]);
        }
        i := i + 1;
      }
      assert sent + [] == sent;
    }

    // ---------- life cycle ----------

    /** `handled` says whether there is a send handler, `registered` whether both observers could
        be registered. A refusal leaves the session uninitialised, whatever else it was given. */
    method Initialize(publisher: Publisher, remote: RemoteManager, subscriptions: Subscriptions, config: Config, maximum: nat,
                      handled: bool, registered: bool)
      returns (ok: bool)
      requires Valid() && Ready()
      modifies this, remote, decoder
      ensures Valid() && Ready()
      ensures old(initialized) ==> ok && unchanged(this) && unchanged(remote) && unchanged(decoder)
      ensures !old(initialized) ==>
              var before := old(AsPeer(publisher, remote, subscriptions));
              var o := if handled && maximum >= controlSize && registered
                       then StateSession.Initialize(before, config)
                       else Outcome(before.(config := if handled && maximum >= controlSize then config else before.config), [], false);
              && ok == o.ok && sent == old(sent) + o.sent
              && AsPeer(publisher, remote, subscriptions) == o.peer
      ensures !old(initialized) && handled && maximum >= controlSize
        ==> decoder.buffer == [] && decoder.maximumPayloadBytes == maximum
      ensures !handled || maximum < controlSize
        ==> decoder.buffer == old(decoder.buffer) && decoder.maximumPayloadBytes == old(decoder.maximumPayloadBytes)
    {
      hide Announcements, Applies, StateSession.BindPeer, Ready;
      if initialized {
        return true;
      }
      if !handled || maximum < controlSize {
        return false;
      }
      Start(publisher, remote, subscriptions, config, maximum);
      if !registered {
        this.publisher, this.remote, this.subscriptions, initialized := null, null, null, false;
        return false;
      }
      ok := Greet();
    }

    /** The part of an initialisation that concerns the peer. */
    method Greet() returns (ok: bool)
      requires Valid() && Ready() && initialized
      modifies this, remote, decoder`buffer, decoder`delivered, decoder`frames, decoder`refusals, decoder`arrived
      ensures Valid() && Ready() && (decoder.buffer == [] || decoder.buffer == old(decoder.buffer))
      ensures var o := StateSession.Initialize(old(Now()).(initialized := false), config);
              && ok == o.ok && sent == old(sent) + o.sent && config == old(config)
              && AsPeer(old(publisher), old(remote), old(subscriptions)) == o.peer
    {
      hide Announcements, Applies, StateSession.BindPeer, Ready;
      if config.expected != NOBODY {
        var bound := BindPeer(config.expected);
        if !bound {
          ShutdownLocked(false);
          return false;
        }
      }
      SendCurrentSubscriptions();
      return true;
    }

    method Start(publisher: Publisher, remote: RemoteManager, subscriptions: Subscriptions, config: Config, maximum: nat)
      requires Valid() && Ready() && !initialized
      modifies this`publisher, this`remote, this`subscriptions, this`config, this`initialized, decoder
      ensures Valid() && Ready() && initialized
      ensures this.publisher == publisher && this.remote == remote && this.subscriptions == subscriptions
      ensures Now() == old(AsPeer(publisher, remote, subscriptions)).(initialized := true, config := config)
      ensures decoder.buffer == [] && decoder.maximumPayloadBytes == maximum
    {
      FrameDecoder.LookOfNothing(Packed(STATE_MAGIC, maximum));
      hide Look, SocketStateFrameDecoder.Valid;
      decoder.SetMaximumPayloadBytes(maximum);
      decoder.Reset();
      this.publisher, this.remote, this.subscriptions, this.config, initialized := publisher, remote, subscriptions, config, true;
    }

    method ShutdownLocked(notify: bool)
      requires Valid() && Ready()
      modifies this, remote, decoder`buffer, decoder`delivered, decoder`frames, decoder`refusals, decoder`arrived
      ensures Valid() && Ready() && !initialized && config == old(config)
      ensures !old(initialized) ==>
        && remoteDevice == old(remoteDevice) && subscribers == old(subscribers)
        && sent == old(sent) && decoder.buffer == old(decoder.buffer)
      ensures old(initialized) ==>
        var o := StateSession.Shutdown(old(Now()), notify);
        && decoder.buffer == [] && sent == old(sent) + o.sent
        && AsPeer(old(publisher), old(remote), old(subscriptions)) == o.peer
    {
      FrameDecoder.LookOfNothing(decoder.Layout());
      hide Look, SocketStateFrameDecoder.Valid;
      if !initialized {
        return;
      }
      LeavePeer(notify);
      decoder.Reset();
      remoteDevice, publisher, remote, subscriptions, initialized := NOBODY, null, null, null, false;
    }

    /** The part of a shutdown that concerns the peer. */
    method LeavePeer(notify: bool)
      requires Valid() && initialized
      modifies this`subscribers, this`sent, remote`available
      ensures var o := StateSession.Shutdown(old(Now()), notify);
              sent == old(sent) + o.sent && Now() == o.peer.(initialized := true, remoteDevice := remoteDevice)
    {
      if notify && config.sendDisconnect && remoteDevice != NOBODY {
        var _ := Send(Disconnect(publisher.origin));
      }
      if remoteDevice != NOBODY {
        remote.available := remote.available[remoteDevice := Disconnected];
        subscribers := subscribers - {remoteDevice};
      }
    }

    method BindPeer(device: Device) returns (ok: bool)
      requires Valid() && initialized
      modifies this`remoteDevice, this`sent, remote`available
      ensures var o := StateSession.BindPeer(old(Now()), device);
              Now() == o.peer && sent == old(sent) + o.sent && ok == o.ok
    {
      if device == NOBODY {
        return false;
      }
      if config.expected != NOBODY && device != config.expected {
        return false;
      }
      if remoteDevice != NOBODY {
        return remoteDevice == device;
      }
      remoteDevice := device;
      remote.available := remote.available[device := Connected];
      SendCurrentSubscriptions();
      return true;
    }

    // ---------- observers and requests ----------

    method RequestResynchronization(typeId: TypeId) returns (ok: bool)
      requires Valid()
      modifies this`sent
      ensures ok == initialized
      ensures sent == old(sent) + if initialized then StateSession.RequestResynchronization(Now(), typeId).sent else []
    {
      if !initialized {
        return false;
      }
      ok := Send(Resynchronize(publisher.origin, typeId));
    }

    /** The publisher's notification, atomic with the publication itself. */
    method OnTypedStatePublished(typeId: TypeId, entry: Entry)
      requires Valid()
      modifies this`sent
      ensures sent == old(sent) + if initialized then StateSession.Publish(Now(), typeId, entry).sent else []
    {
      if !initialized || remoteDevice == NOBODY {
        return;
      }
      if remoteDevice !in subscribers || typeId !in subscribers[remoteDevice] {
        return;
      }
      var _ := Send(Update(publisher.origin, typeId, entry));
    }

    /** The registry's notification, before or after it has stored the descriptor. */
    method OnStateSubscribed(d: Descriptor)
      requires Valid()
      modifies this`sent
      ensures sent == old(sent) + if initialized && Applies(Now(), d.scope) then [Subscribe(publisher.origin, d.typeId)] else []
    {
      if !initialized || !SubscriptionApplies(d.scope) {
        return;
      }
      var _ := Send(Subscribe(publisher.origin, d.typeId));
    }

    /** Likewise, before or after it has dropped the descriptor. */
    method OnStateUnsubscribed(d: Descriptor)
      requires Valid()
      modifies this`sent
      ensures sent == old(sent) + if initialized && Applies(Now(), d.scope) then [Unsubscribe(publisher.origin, d.typeId)] else []
    {
      if !initialized || !SubscriptionApplies(d.scope) {
        return;
      }
      var _ := Send(Unsubscribe(publisher.origin, d.typeId));
    }

    // ---------- incoming messages ----------

    method HandleUpdate(origin: Device, typeId: TypeId, entry: Entry) returns (ok: bool)
      requires Valid() && initialized
      modifies this`remoteDevice, this`sent, remote
      ensures var o := StateSession.HandleUpdate(old(Now()), origin, typeId, entry);
              Now() == o.peer && sent == old(sent) + o.sent && ok == o.ok
    {
      hide IsSubscribed, Announcements;
      var bound := BindPeer(origin);
      if !bound {
        return false;
      }
      if !IsSubscribed(subscriptions.descriptors, remoteDevice, typeId) || typeId !in publisher.contract {
        return false;
      }
      var exactDuplicate := (origin, typeId) in remote.entries && remote.entries[(origin, typeId)].stamp == entry.stamp;
      if !exactDuplicate {
        var applied := remote.Apply(origin, typeId, entry);
        if !applied {
          return false;
        }
      }
      ok := Send(Acknowledgement(origin, typeId, entry.stamp));
    }

    method HandleProtocolMessage(m: Message) returns (ok: bool)
      requires Valid() && initialized
      modifies this`remoteDevice, this`subscribers, this`sent, remote
      ensures var o := Handle(old(Now()), m);
              Now() == o.peer && sent == old(sent) + o.sent && ok == o.ok
    {
      hide StateSession.BindPeer, StateSession.HandleUpdate, AcceptSubscribe, AcceptUnsubscribe, AcceptResynchronize;
      if m.Update? {
        ok := HandleUpdate(m.origin, m.typeId, m.entry);
        return;
      }
      if m.Acknowledgement? {
        return m.origin == publisher.origin;
      }
      ghost var b := StateSession.BindPeer(Now(), m.device);
      var bound := BindPeer(m.device);
      if !bound {
        return false;
      }
      match m
      case Subscribe(_, t) =>
        SubscribeAppends(b, t);
        ok := HandleSubscribe(t);
      case Unsubscribe(_, t) =>
        UnsubscribeAppends(b, t);
        ok := HandleUnsubscribe(t);
      case Resynchronize(_, t) =>
        ResynchronizeAppends(b, t);
        ok := HandleResynchronize(t);
      case Disconnect(_) =>
        ok := HandleDisconnect();
      case _ => return true;
    }

    method HandleUnsubscribe(t: TypeId) returns (ok: bool)
      requires Valid() && initialized
      modifies this`subscribers, this`sent
      ensures var o := AcceptUnsubscribe(Outcome(old(Now()), [], true), t);
              Now() == o.peer && sent == old(sent) + o.sent && ok == o.ok
    {
      if remoteDevice in subscribers {
        subscribers := subscribers[remoteDevice := subscribers[remoteDevice] - {t}];
      }
      ok := Send(UnsubscribeAcknowledgement(publisher.origin, t));
    }

    method HandleResynchronize(t: TypeId) returns (ok: bool)
      requires Valid() && initialized
      modifies this`sent
      ensures var o := AcceptResynchronize(Outcome(old(Now()), [], true), t);
              Now() == o.peer && sent == old(sent) + o.sent && ok == o.ok
    {
      if t != ALL_TYPES {
        if remoteDevice in subscribers && t in subscribers[remoteDevice] {
          ok := SendSnapshotByType(t);
          return;
        }
        return true;
      }
      SendSubscribedSnapshots();
      return true;
    }

    method HandleDisconnect() returns (ok: bool)
      requires Valid() && initialized
      modifies this`subscribers, remote`available
      ensures var o := AcceptDisconnect(Outcome(old(Now()), [], true));
              Now() == o.peer && o.sent == [] && ok == o.ok
    {
      subscribers := subscribers - {remoteDevice};
      remote.available := remote.available[remoteDevice := Disconnected];
      return true;
    }

    method HandleSubscribe(t: TypeId) returns (ok: bool)
      requires Valid() && initialized
      modifies this`subscribers, this`sent
      ensures var o := AcceptSubscribe(Outcome(old(Now()), [], true), t);
              Now() == o.peer && sent == old(sent) + o.sent && ok == o.ok
    {
      hide Snapshot;
      if t !in publisher.contract || (remoteDevice !in subscribers && |subscribers| >= 1) {
        return false;
      }
      ghost var before := Now();
      AddSubscriber(t);
      var _ := SendSnapshotByType(t);
      ok := Send(SubscribeAcknowledgement(publisher.origin, t));
      ghost var ack := [SubscribeAcknowledgement(publisher.origin, t)];
      Associate(old(sent), Snapshot(Now(), t), ack);
      assert CanSubscribe(before, before.remoteDevice, t);
      assert [] + (Snapshot(Now(), t) + ack) == Snapshot(Now(), t) + ack;
    }

    method AddSubscriber(t: TypeId)
      requires Valid() && initialized
      modifies this`subscribers
      ensures Now() == old(Now()).(subscribers := old(subscribers)[remoteDevice := Subscribed(old(Now())) + {t}])
    {
      subscribers := subscribers[remoteDevice := (if remoteDevice in subscribers then subscribers[remoteDevice] else {}) + {t}];
    }

    /** Feeds the decoder and handles each payload it delivers, in order. No handler touches
        the decoder, so handling after the push is handling during it. */
    method Feed(data: Bytes) returns (ok: bool)
      requires Valid() && Ready()
      modifies this`remoteDevice, this`subscribers, this`sent, remote, decoder
      ensures Valid() && Ready() && initialized == old(initialized)
      ensures !initialized ==> !ok && sent == old(sent) && decoder.buffer == old(decoder.buffer)
      ensures initialized ==>
        Fed(Now(), decoder.buffer, sent, ok)
        == var r := FeedBytes(old(decoder.maximumPayloadBytes), decode, old(Now()), old(decoder.buffer), data);
           r.(sent := old(sent) + r.sent)
    {
      if !initialized {
        return false;
      }
      hide Look, AllFrames, Handle, Parse, Flatten;
      ghost var f := decoder.Layout();
      ghost var pushed := FrameDecoder.Push(f, decoder.buffer, data);
      var before := |decoder.delivered|;
      FrameDecoder.PushLeavesLessThanAFrame(f, decoder.buffer, data);
      var framingValid := decoder.Push(data);
      var payloads := decoder.delivered[before..];
      assert payloads == Payloads(f, pushed.frames);
      var allAccepted := HandleDelivered(payloads);
      return framingValid && allAccepted;
    }

    method HandleDelivered(payloads: seq<Bytes>) returns (ok: bool)
      requires Valid() && initialized
      modifies this`remoteDevice, this`subscribers, this`sent, remote
      ensures var o := HandlePayloads(decode, old(Now()), payloads);
              Now() == o.peer && sent == old(sent) + o.sent && ok == o.ok
    {
      hide Handle;
      ok := true;
      ghost var collected: seq<Message> := [];
      for i := 0 to |payloads|
        invariant sent == old(sent) + collected
        invariant HandlePayloads(decode, old(Now()), payloads[..i]) == Outcome(Now(), collected, ok)
      {
        HandleOneMore(decode, old(Now()), payloads[..i], payloads[i]);
        assert payloads[..i + 1] == payloads[..i] + [payloads[i]];
        ghost var step := HandlePayload(decode, Now(), payloads[i]);
        var message := decode(payloads[i]);
        if message.None? {
          ok := false;
        } else {
          var accepted := HandleProtocolMessage(message.value);
          if !accepted {
            ok := false;
          }
        }
        collected := collected + step.sent;
      }
      assert payloads[..|payloads|] == payloads;
    }
  }

  /** What a change of the registry makes a session send does not depend on whether the session
      hears of it before or after. */
  lemma NotificationsAreTimeless(p: Peer, d: Descriptor)
    ensures var o := LocalSubscribe(p, d);
            && (Applies(o.peer, d.scope) <==> Applies(p, d.scope))
            && (d !in p.subscriptions ==> o.sent == if p.initialized && Applies(p, d.scope) then [Subscribe(p.origin, d.typeId)] else [])
    ensures var o := LocalUnsubscribe(p, d);
            && (Applies(o.peer, d.scope) <==> Applies(p, d.scope))
            && (d in p.subscriptions ==> o.sent == if p.initialized && Applies(p, d.scope) then [Unsubscribe(p.origin, d.typeId)] else [])
  {
  }

  /** Accepting a request adds to what binding sent. */
  lemma SubscribeAppends(b: Outcome, t: TypeId)
    requires b.ok
    ensures var o := AcceptSubscribe(Outcome(b.peer, [], true), t);
            AcceptSubscribe(b, t).peer == o.peer && AcceptSubscribe(b, t).sent == b.sent + o.sent && AcceptSubscribe(b, t).ok == o.ok
  {
    hide Subscribed, Snapshot, CanSubscribe;
  }

  lemma UnsubscribeAppends(b: Outcome, t: TypeId)
    ensures var o := AcceptUnsubscribe(Outcome(b.peer, [], true), t);
            AcceptUnsubscribe(b, t).peer == o.peer && AcceptUnsubscribe(b, t).sent == b.sent + o.sent && AcceptUnsubscribe(b, t).ok == o.ok
  {
  }

  lemma ResynchronizeAppends(b: Outcome, t: TypeId)
    requires b.ok
    ensures var o := AcceptResynchronize(Outcome(b.peer, [], true), t);
            AcceptResynchronize(b, t).peer == o.peer && AcceptResynchronize(b, t).sent == b.sent + o.sent && AcceptResynchronize(b, t).ok == o.ok
  {
    hide Subscribed, Snapshot, Snapshots;
    assert b.sent + [] == b.sent;
  }

  lemma HandleOneMore(decode: Codec, p: Peer, payloads: seq<Bytes>, payload: Bytes)
    ensures var first := HandlePayloads(decode, p, payloads);
            var last := HandlePayload(decode, first.peer, payload);
            HandlePayloads(decode, p, payloads + [payload])
            == Outcome(last.peer, first.sent + last.sent, first.ok && last.ok)
  {
    hide HandlePayload;
    HandlePayloadsInTwo(decode, p, payloads, [payload]);
    var one := [payload];
    assert one[1..] == [];
    var first := HandlePayloads(decode, p, payloads);
    assert HandlePayload(decode, first.peer, payload).sent + [] == HandlePayload(decode, first.peer, payload).sent;
  }
}
