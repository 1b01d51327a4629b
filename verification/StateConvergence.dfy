/** Two State sessions over two FIFO channels, through any number of connections. */
module StateConvergence {
  import opened StateSession
  import opened StateRuns

  /** Where a session is within the current connection: not started yet, running, shut down. */
  datatype Phase = Fresh | Up | Down

  /** A peer and the messages on their way to it. */
  datatype Side = Side(peer: Peer, phase: Phase, inbox: seq<Message>)

  datatype System = System(x: Side, y: Side)

  datatype Move = Receive | Do(action: Action)

  datatype Step = OfX(move: Move) | OfY(move: Move) | Reconnect

  // ---------- steps ----------

  /** What the libraries promise: publishing makes the entry newer; and within a connection a
      session starts once and stops once. Sessions take messages from the channel only. */
  predicate Enabled(me: Side, m: Move)
  {
    match m
    case Receive => me.phase == Up && me.inbox != []
    case Do(DoPublish(t, e)) => t in me.peer.published ==> Newer(e.stamp, me.peer.published[t].stamp)
    case Do(DoInitialize(_)) => me.phase == Fresh
    case Do(DoShutdown) => me.phase == Up
    case Do(Deliver(_)) => false
    case Do(_) => true
  }

  function Effect(me: Side, m: Move): Outcome
    requires Enabled(me, m)
  {
    match m
    case Receive => Handle(me.peer, me.inbox[0])
    case Do(a) => Act(me.peer, a)
  }

  function PhaseAfter(me: Side, m: Move): Phase
  {
    if m == Do(DoShutdown) then Down else if m.Do? && m.action.DoInitialize? then Up else me.phase
  }

  function Moved(me: Side, m: Move): Side
    requires Enabled(me, m)
  {
    Side(Effect(me, m).peer, PhaseAfter(me, m), if m.Receive? then me.inbox[1..] else me.inbox)
  }

  function Told(other: Side, sent: seq<Message>): Side
  {
    other.(inbox := other.inbox + sent)
  }

  /** No other descriptor that applies covers the type of `d`. */
  predicate Sole(p: Peer, d: Descriptor)
  {
    forall i :: 0 <= i < |p.subscriptions| && p.subscriptions[i] != d && p.subscriptions[i].typeId == d.typeId
      ==> !Applies(p, p.subscriptions[i].scope)
  }

  /** The one restriction on what an application does: it withdraws a descriptor in force for a
      type that the other side has only while no other descriptor in force covers the type. */
  predicate Restrained(me: Side, other: Side, m: Move)
  {
    m.Do? && m.action.DoUnsubscribe? && me.phase == Up && Applies(me.peer, m.action.descriptor.scope)
    ==> Sole(me.peer, m.action.descriptor) || m.action.descriptor.typeId !in other.peer.contract
  }

  predicate Possible(s: System, step: Step)
  {
    match step
    case OfX(m) => Enabled(s.x, m) && Restrained(s.x, s.y, m)
    case OfY(m) => Enabled(s.y, m) && Restrained(s.y, s.x, m)
    case Reconnect => s.x.phase != Up && s.y.phase != Up
  }

  function Next(s: System, step: Step): System
    requires Possible(s, step)
  {
    match step
    case OfX(m) => System(Moved(s.x, m), Told(s.y, Effect(s.x, m).sent))
    case OfY(m) => System(Told(s.x, Effect(s.y, m).sent), Moved(s.y, m))
    case Reconnect => System(Side(s.x.peer, Fresh, []), Side(s.y.peer, Fresh, []))
  }

  predicate Possibly(s: System, steps: seq<Step>)
    decreases |steps|
  {
    steps == [] || (Possible(s, steps[0]) && Possibly(Next(s, steps[0]), steps[1..]))
  }

  function After(s: System, steps: seq<Step>): System
    requires Possibly(s, steps)
    decreases |steps|
  {
    if steps == [] then s else After(Next(s, steps[0]), steps[1..])
  }

  /** Two different devices, each with a contract of its own, whose sessions and repositories are new. */
  predicate Initial(s: System)
  {
    && s.x.phase == s.y.phase == Fresh && s.x.inbox == s.y.inbox == []
    && s.x.peer.origin != s.y.peer.origin && s.x.peer.origin != NOBODY && s.y.peer.origin != NOBODY
    && s.x.peer == Unused(s.x.peer) && s.y.peer == Unused(s.y.peer)
    && s.x.peer.remote == s.y.peer.remote == map[]
    && s.x.peer.subscriptions == s.y.peer.subscriptions == []
  }

  // ---------- what the channels will do ----------

  /** The types a side's own applicable descriptors cover. */
  function Wanted(p: Peer): set<TypeId>
  {
    set i | 0 <= i < |p.subscriptions| && Applies(p, p.subscriptions[i].scope) :: p.subscriptions[i].typeId
  }

  /** The types a publisher can serve. */
  function Types(p: Peer): set<TypeId>
  {
    set t | t in p.contract
  }

  /** Nobody is subscribed to a type that cannot be served. */
  predicate Serviceable(p: Peer)
  {
    forall d :: d in p.subscribers ==> p.subscribers[d] <= Types(p)
  }

  function Controlled(types: set<TypeId>, m: Message): set<TypeId>
  {
    match m
    case Subscribe(_, t) => types + {t}
    case Unsubscribe(_, t) => types - {t}
    case _ => types
  }

  /** The subscribed types once the messages of a channel have been handled. */
  function Controls(types: set<TypeId>, ms: seq<Message>): set<TypeId>
    decreases |ms|
  {
    if ms == [] then types else Controls(Controlled(types, ms[0]), ms[1..])
  }

  /** The entries for a type that a channel carries. */
  function Updates(ms: seq<Message>, t: TypeId): seq<Entry>
  {
    if ms == [] then []
    else (if ms[0].Update? && ms[0].typeId == t then [ms[0].entry] else []) + Updates(ms[1..], t)
  }

  predicate SubscribePending(ms: seq<Message>, t: TypeId)
  {
    exists i :: 0 <= i < |ms| && ms[i].Subscribe? && ms[i].typeId == t
  }

  function Known(p: Peer, origin: Device, t: TypeId): seq<Entry>
  {
    if (origin, t) in p.remote then [p.remote[(origin, t)]] else []
  }

  function Latest(p: Peer, t: TypeId): seq<Entry>
  {
    if t in p.published then [p.published[t]] else []
  }

  predicate NotAfter(a: Entry, b: Entry)
  {
    a == b || Newer(b.stamp, a.stamp)
  }

  predicate Ascending(s: seq<Entry>)
  {
    forall i, j :: 0 <= i < j < |s| ==> NotAfter(s[i], s[j])
  }

  // ---------- the invariant, for one direction ----------

  /** A message that `from` may have sent to `to`. */
  predicate Authentic(m: Message, from: Peer, to: Peer)
  {
    match m
    case Update(origin, t, e) => origin == from.origin
    case Acknowledgement(origin, _, _) => origin == to.origin
    case _ => m.device == from.origin
  }

  predicate AllAuthentic(ms: seq<Message>, from: Peer, to: Peer)
  {
    forall i :: 0 <= i < |ms| ==> Authentic(ms[i], from, to)
  }

  predicate NoDisconnect(ms: seq<Message>)
  {
    forall i :: 0 <= i < |ms| ==> !ms[i].Disconnect?
  }

  predicate Compatible(me: Side, other: Side)
  {
    me.phase == Up ==> me.peer.config.expected == NOBODY || me.peer.config.expected == other.peer.origin
  }

  /** A side by itself, and the channel from it. */
  predicate Sane(me: Side, other: Side)
  {
    && me.peer.origin != NOBODY && other.peer.origin != NOBODY && me.peer.origin != other.peer.origin
    && Contained(me.peer) && (me.phase == Up <==> me.peer.initialized)
    && (me.peer.remoteDevice in {NOBODY, other.peer.origin} || !Compatible(me, other))
    && AllAuthentic(other.inbox, me.peer, other.peer)
    && (me.phase != Down ==> NoDisconnect(other.inbox))
    && (me.phase == Fresh ==> other.inbox == [] && Subscribed(other.peer) == {})
    && Serviceable(me.peer)
  }

  /** What the subscriber knows, what is on its way to it and what is published only advances. */
  predicate Advancing(known: seq<Entry>, coming: seq<Entry>, latest: seq<Entry>)
  {
    Ascending(known + coming + latest) && (latest == [] ==> known == [] && coming == [])
  }

  predicate UpToDate(known: seq<Entry>, coming: seq<Entry>, latest: seq<Entry>)
  {
    latest != [] ==> known + coming != [] && (known + coming)[|known + coming| - 1] == latest[0]
  }

  /** Both ends of a direction are able to make it converge. */
  predicate Live(pub: Side, sub: Side)
  {
    sub.phase == Up && pub.phase != Down && Compatible(pub, sub) && Compatible(sub, pub)
  }

  predicate AdvancingFor(pub: Side, sub: Side, t: TypeId)
  {
    Advancing(Known(sub.peer, pub.peer.origin, t), Updates(sub.inbox, t), Latest(pub.peer, t))
  }

  /** A subscribed type that the subscriber knows, with no `Subscribe` on its way, is up to date
      once the channel is empty. */
  predicate CurrentFor(pub: Side, sub: Side, t: TypeId)
  {
    t in Subscribed(pub.peer) && t in Wanted(sub.peer) && t in sub.peer.contract && !SubscribePending(pub.inbox, t)
    ==> UpToDate(Known(sub.peer, pub.peer.origin, t), Updates(sub.inbox, t), Latest(pub.peer, t))
  }

  /** Of the types the publisher has, those subscribed to will be those wanted. */
  predicate Synchronized(pub: Side, sub: Side)
  {
    Controls(Subscribed(pub.peer), pub.inbox) * Types(pub.peer) == Wanted(sub.peer) * Types(pub.peer)
  }

  ghost predicate Direction(pub: Side, sub: Side)
  {
    && (forall t :: AdvancingFor(pub, sub, t))
    && (Live(pub, sub) ==> Synchronized(pub, sub) && forall t :: CurrentFor(pub, sub, t))
  }

  ghost predicate Invariant(s: System)
  {
    && Sane(s.x, s.y) && Sane(s.y, s.x)
    && Direction(s.x, s.y) && Direction(s.y, s.x)
  }
}
