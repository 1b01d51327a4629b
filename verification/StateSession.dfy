/** What the operations of a State session do to one peer: the session's own fields, the
    libraries it works on, and the messages it sends. */
module StateSession {
  import opened Bytes

  /** A device identifier; `NOBODY` is the zero identifier. */
  type Device = nat
  type TypeId = nat
  const NOBODY: Device := 0
  const ALL_TYPES: TypeId := 0

  datatype Stamp = Stamp(epoch: nat, revision: nat)

  predicate Newer(a: Stamp, b: Stamp)
  {
    a.epoch > b.epoch || (a.epoch == b.epoch && a.revision > b.revision)
  }

  datatype Entry = Entry(stamp: Stamp, value: Bytes)

  datatype Message =
    | Update(origin: Device, typeId: TypeId, entry: Entry)
    | Acknowledgement(origin: Device, typeId: TypeId, stamp: Stamp)
    | Subscribe(device: Device, typeId: TypeId)
    | SubscribeAcknowledgement(device: Device, typeId: TypeId)
    | Unsubscribe(device: Device, typeId: TypeId)
    | UnsubscribeAcknowledgement(device: Device, typeId: TypeId)
    | Resynchronize(device: Device, typeId: TypeId)
    | Disconnect(device: Device)

  datatype Scope = AnyDevice | OnlyDevice(device: Device)

  datatype Descriptor = Descriptor(typeId: TypeId, scope: Scope)

  datatype Config = Config(expected: Device, sendDisconnect: bool)

  datatype Availability = Connected | Disconnected

  /** One side: the session (first four fields), its publisher, its remote repository and its
      subscription registry. */
  datatype Peer = Peer(
    initialized: bool,
    config: Config,
    remoteDevice: Device,
    subscribers: map<Device, set<TypeId>>,
    origin: Device,
    contract: seq<TypeId>,
    published: map<TypeId, Entry>,
    remote: map<(Device, TypeId), Entry>,
    available: map<Device, Availability>,
    subscriptions: seq<Descriptor>)

  /** The peer afterwards, what it sent, and the answer. */
  datatype Outcome = Outcome(peer: Peer, sent: seq<Message>, ok: bool)

  /** The types the bound peer is subscribed to. */
  function Subscribed(p: Peer): set<TypeId>
  {
    if p.remoteDevice in p.subscribers then p.subscribers[p.remoteDevice] else {}
  }

  // ---------- subscriptions ----------

  predicate Applies(p: Peer, scope: Scope)
  {
    scope.AnyDevice? ||
    (if p.remoteDevice != NOBODY then scope.device == p.remoteDevice
     else p.config.expected != NOBODY && scope.device == p.config.expected)
  }

  /** The `Subscribe` messages for the descriptors that apply, in registry order. */
  function Announcements(p: Peer, descriptors: seq<Descriptor>): seq<Message>
  {
    if descriptors == [] then []
    else
      (if Applies(p, descriptors[0].scope) then [Subscribe(p.origin, descriptors[0].typeId)] else [])
      + Announcements(p, descriptors[1..])
  }

  predicate IsSubscribed(descriptors: seq<Descriptor>, device: Device, typeId: TypeId)
  {
    exists i :: 0 <= i < |descriptors| && descriptors[i].typeId == typeId
      && (descriptors[i].scope.AnyDevice? || descriptors[i].scope.device == device)
  }

  function BindPeer(p: Peer, device: Device): Outcome
  {
    if device == NOBODY || (p.config.expected != NOBODY && device != p.config.expected) then Outcome(p, [], false)
    else if p.remoteDevice != NOBODY then Outcome(p, [], p.remoteDevice == device)
    else
      var bound := p.(remoteDevice := device, available := p.available[device := Connected]);
      Outcome(bound, if p.initialized then Announcements(bound, bound.subscriptions) else [], true)
  }

  // ---------- snapshots ----------

  function Snapshot(p: Peer, typeId: TypeId): seq<Message>
  {
    if typeId in p.contract && typeId in p.published then [Update(p.origin, typeId, p.published[typeId])] else []
  }

  function Snapshots(p: Peer, types: seq<TypeId>): seq<Message>
  {
    if types == [] then []
    else (if types[0] in Subscribed(p) then Snapshot(p, types[0]) else []) + Snapshots(p, types[1..])
  }

  // ---------- incoming messages ----------

  /** The remote repository takes an entry exactly when it is newer than what it holds. */
  predicate Applicable(p: Peer, origin: Device, typeId: TypeId, stamp: Stamp)
  {
    (origin, typeId) !in p.remote || Newer(stamp, p.remote[(origin, typeId)].stamp)
  }

  predicate ExactDuplicate(p: Peer, origin: Device, typeId: TypeId, stamp: Stamp)
  {
    (origin, typeId) in p.remote && p.remote[(origin, typeId)].stamp == stamp
  }

  function HandleUpdate(p: Peer, origin: Device, typeId: TypeId, entry: Entry): Outcome
  {
    var b := BindPeer(p, origin);
    var acknowledgement := Acknowledgement(origin, typeId, entry.stamp);
    if !b.ok then b
    else if !IsSubscribed(p.subscriptions, b.peer.remoteDevice, typeId) || typeId !in p.contract then b.(ok := false)
    else if ExactDuplicate(p, origin, typeId, entry.stamp) then b.(sent := b.sent + [acknowledgement])
    else if Applicable(p, origin, typeId, entry.stamp) then
      Outcome(b.peer.(remote := p.remote[(origin, typeId) := entry]), b.sent + [acknowledgement], true)
    else b.(ok := false)
  }

  /** The subscriber registry of a session has room for one device, and takes contract types. */
  predicate CanSubscribe(p: Peer, device: Device, typeId: TypeId)
  {
    typeId in p.contract && (device in p.subscribers || |p.subscribers| < 1)
  }

  /** The four requests, after binding: `b` is the outcome so far. */
  function AcceptSubscribe(b: Outcome, t: TypeId): Outcome
  {
    var p, device := b.peer, b.peer.remoteDevice;
    if !CanSubscribe(p, device, t) then b.(ok := false)
    else
      var after := p.(subscribers := p.subscribers[device := Subscribed(p) + {t}]);
      Outcome(after, b.sent + (Snapshot(after, t) + [SubscribeAcknowledgement(p.origin, t)]), true)
  }

  function AcceptUnsubscribe(b: Outcome, t: TypeId): Outcome
  {
    var p, device := b.peer, b.peer.remoteDevice;
    var after := if device in p.subscribers
                 then p.(subscribers := p.subscribers[device := p.subscribers[device] - {t}]) else p;
    Outcome(after, b.sent + [UnsubscribeAcknowledgement(p.origin, t)], true)
  }

  function AcceptResynchronize(b: Outcome, t: TypeId): Outcome
  {
    var p := b.peer;
    if t == ALL_TYPES then Outcome(p, b.sent + Snapshots(p, p.contract), true)
    else if t in Subscribed(p) then Outcome(p, b.sent + Snapshot(p, t), Snapshot(p, t) != [])
    else b
  }

  function AcceptDisconnect(b: Outcome): Outcome
  {
    var p, device := b.peer, b.peer.remoteDevice;
    Outcome(p.(subscribers := p.subscribers - {device}, available := p.available[device := Disconnected]), b.sent, true)
  }

  function HandleControl(p: Peer, m: Message): Outcome
    requires !m.Update? && !m.Acknowledgement?
  {
    var b := BindPeer(p, m.device);
    if !b.ok then b
    else match m
      case Subscribe(_, t) => AcceptSubscribe(b, t)
      case Unsubscribe(_, t) => AcceptUnsubscribe(b, t)
      case Resynchronize(_, t) => AcceptResynchronize(b, t)
      case Disconnect(_) => AcceptDisconnect(b)
      case SubscribeAcknowledgement(_, _) => b
      case UnsubscribeAcknowledgement(_, _) => b
  }

  function Handle(p: Peer, m: Message): Outcome
  {
    match m
    case Update(origin, t, e) => HandleUpdate(p, origin, t, e)
    case Acknowledgement(origin, _, _) => Outcome(p, [], origin == p.origin)
    case _ => HandleControl(p, m)
  }

  // ---------- local operations ----------

  function Publish(p: Peer, typeId: TypeId, entry: Entry): Outcome
  {
    var after := p.(published := p.published[typeId := entry]);
    Outcome(after, if p.initialized && p.remoteDevice != NOBODY && typeId in Subscribed(p)
                   then [Update(p.origin, typeId, entry)] else [], true)
  }

  function LocalSubscribe(p: Peer, d: Descriptor): Outcome
  {
    if d in p.subscriptions then Outcome(p, [], true)
    else Outcome(p.(subscriptions := p.subscriptions + [d]),
                 if p.initialized && Applies(p, d.scope) then [Subscribe(p.origin, d.typeId)] else [], true)
  }

  function Without(descriptors: seq<Descriptor>, d: Descriptor): seq<Descriptor>
  {
    if descriptors == [] then []
    else (if descriptors[0] == d then [] else [descriptors[0]]) + Without(descriptors[1..], d)
  }

  function LocalUnsubscribe(p: Peer, d: Descriptor): Outcome
  {
    if d !in p.subscriptions then Outcome(p, [], false)
    else Outcome(p.(subscriptions := Without(p.subscriptions, d)),
                 if p.initialized && Applies(p, d.scope) then [Unsubscribe(p.origin, d.typeId)] else [], true)
  }

  function RequestResynchronization(p: Peer, typeId: TypeId): Outcome
  {
    if p.initialized then Outcome(p, [Resynchronize(p.origin, typeId)], true) else Outcome(p, [], false)
  }

  function Shutdown(p: Peer, notify: bool): Outcome
  {
    if !p.initialized then Outcome(p, [], true)
    else
      var bound := p.remoteDevice != NOBODY;
      Outcome(
        p.(initialized := false,
           remoteDevice := NOBODY,
           available := if bound then p.available[p.remoteDevice := Disconnected] else p.available,
           subscribers := if bound then p.subscribers - {p.remoteDevice} else p.subscribers),
        if notify && p.config.sendDisconnect && bound then [Disconnect(p.origin)] else [],
        true)
  }

  /** Initialisation sets the configuration and nothing else: subscriber registry and binding
      are whatever the last use of the session left. */
  function Initialize(p: Peer, config: Config): Outcome
  {
    if p.initialized then Outcome(p, [], true)
    else
      var started := p.(initialized := true, config := config);
      if config.expected == NOBODY then Outcome(started, Announcements(started, started.subscriptions), true)
      else
        var b := BindPeer(started, config.expected);
        if !b.ok then Outcome(Shutdown(b.peer, false).peer, b.sent, false)
        else b.(sent := b.sent + Announcements(b.peer, b.peer.subscriptions))
  }

  /** A peer whose session object has never been used. */
  function Unused(p: Peer): Peer
  {
    p.(initialized := false, config := Config(NOBODY, true), remoteDevice := NOBODY, subscribers := map[])
  }
}
