/** The clock exchange at the grain of single atomic operations: any number of requesters,
    broadcasters and cancellers, one receiver, an honest reference, and a network that loses,
    repeats and reorders. */
module ClockExchange {
  import opened Bytes

  /** The sequence counter is 32 bits wide and starts at one. */
  const WRAP: nat := U32_MAX + 1

  /** The number the counter gives to its `ticket`-th user, counting from zero. */
  function Number(ticket: nat): (n: nat)
    ensures n < WRAP
  {
    (1 + ticket) % WRAP
  }

  /** Before the counter has come round, a number tells whose it is. */
  function TicketOf(number: nat): nat
  {
    if number == 0 then WRAP - 1 else number - 1
  }

  lemma CountsOne(ticket: nat)
    ensures Number(ticket + 1) == (Number(ticket) + 1) % WRAP
  {
  }

  lemma NumberTellsTicket(ticket: nat)
    requires ticket < WRAP
    ensures TicketOf(Number(ticket)) == ticket
  {
  }

  /** The time a request was stamped, and the setting of the local clock at that moment. */
  datatype Stamp = Stamp(t1: int, setting: nat)

  datatype Requester =
    | Allocated(ticket: nat)
    | Stamped(ticket: nat, stamp: Stamp)
    | Stored(ticket: nat, stamp: Stamp)

  datatype Request = Request(sequence: nat, t1: int)

  datatype Served = Served(request: Request, t2: int)

  datatype Response = Response(sequence: nat, t1: int, t2: int, t3: int)

  /** A response with the local time it came in at, and the clock setting then. */
  datatype Sample = Sample(response: Response, t4: int, setting: nat)

  datatype Receiver =
    | Waiting
    | Holding(sample: Sample)
    | Matched(sample: Sample)
    | Cleared(sample: Sample)

  /** The reference clock reads `now`; the local clock reads `now` plus its last setting. */
  datatype State = State(
    next: nat,
    pending: nat,
    tickets: nat,
    requesters: map<nat, Requester>,
    stored: set<nat>,
    stamps: map<nat, Stamp>,
    requests: set<Request>,
    served: set<Served>,
    responses: set<Response>,
    receiver: Receiver,
    submitted: seq<Sample>,
    now: int,
    settings: seq<int>)

  function Initial(): State
  {
    State(1, 0, 0, map[], {}, map[], {}, {}, {}, Waiting, [], 0, [0])
  }

  datatype Action =
    | Allocate(id: nat) | TakeT1(id: nat) | Store(id: nat) | Send(id: nat) | Drop(id: nat)
    | Broadcast | Cancel
    | TakeT2(request: Request) | TakeT3(served: Served) | Forge(response: Response)
    | Receive(response: Response) | Load | Clear | Submit
    | Pass(time: nat) | Adjust(setting: int)

  function LocalTime(s: State): int
  {
    if s.settings == [] then s.now else s.now + s.settings[|s.settings| - 1]
  }

  function LastSetting(s: State): nat
  {
    if s.settings == [] then 0 else |s.settings| - 1
  }

  /** `BuildRequest`, one atomic operation a step; then the request is sent or dropped. */
  function RequesterStep(s: State, a: Action): State
    requires a.Allocate? || a.TakeT1? || a.Store? || a.Send? || a.Drop?
  {
    if a.Allocate? then
      if a.id in s.requesters then s
      else s.(next := (s.next + 1) % WRAP, tickets := s.tickets + 1,
              requesters := s.requesters[a.id := Allocated(s.tickets)])
    else if a.id !in s.requesters then s
    else
      var r := s.requesters[a.id];
      match (a, r)
      case (TakeT1(id), Allocated(ticket)) =>
        var stamp := Stamp(LocalTime(s), LastSetting(s));
        s.(stamps := s.stamps[ticket := stamp], requesters := s.requesters[id := Stamped(ticket, stamp)])
      case (Store(id), Stamped(ticket, stamp)) =>
        s.(pending := Number(ticket), stored := s.stored + {ticket},
           requesters := s.requesters[id := Stored(ticket, stamp)])
      case (Send(id), Stored(ticket, stamp)) =>
        s.(requests := s.requests + {Request(Number(ticket), stamp.t1)}, requesters := s.requesters - {id})
      case (Drop(id), Stored(_, _)) =>
        s.(requesters := s.requesters - {id})
      case _ => s
  }

  /** `ProcessRequest`: the receive time, then the transmit time and the response. */
  function ReferenceStep(s: State, a: Action): State
    requires a.TakeT2? || a.TakeT3? || a.Forge?
  {
    match a
    case TakeT2(q) =>
      if q in s.requests then s.(served := s.served + {Served(q, s.now)}) else s
    case TakeT3(v) =>
      if v in s.served
      then s.(responses := s.responses + {Response(v.request.sequence, v.request.t1, v.t2, s.now)})
      else s
    case Forge(r) => s.(responses := s.responses + {r})
  }

  /** `ProcessResponse`: the receive time, then the load, the store and the submission. */
  function ReceiverStep(s: State, a: Action): State
    requires a.Receive? || a.Load? || a.Clear? || a.Submit?
  {
    match (a, s.receiver)
    case (Receive(r), Waiting) =>
      if r in s.responses then s.(receiver := Holding(Sample(r, LocalTime(s), LastSetting(s)))) else s
    case (Load, Holding(x)) =>
      if s.pending == 0 || x.response.sequence != s.pending then s.(receiver := Waiting)
      else s.(receiver := Matched(x))
    case (Clear, Matched(x)) => s.(pending := 0, receiver := Cleared(x))
    case (Submit, Cleared(x)) => s.(submitted := s.submitted + [x], receiver := Waiting)
    case _ => s
  }

  function Step(s: State, a: Action): State
  {
    match a
    case Allocate(_) => RequesterStep(s, a)
    case TakeT1(_) => RequesterStep(s, a)
    case Store(_) => RequesterStep(s, a)
    case Send(_) => RequesterStep(s, a)
    case Drop(_) => RequesterStep(s, a)
    case Broadcast => s.(next := (s.next + 1) % WRAP, tickets := s.tickets + 1)
    case Cancel => s.(pending := 0)
    case TakeT2(_) => ReferenceStep(s, a)
    case TakeT3(_) => ReferenceStep(s, a)
    case Forge(_) => ReferenceStep(s, a)
    case Receive(_) => ReceiverStep(s, a)
    case Load => ReceiverStep(s, a)
    case Clear => ReceiverStep(s, a)
    case Submit => ReceiverStep(s, a)
    case Pass(time) => s.(now := s.now + time)
    case Adjust(setting) => s.(settings := s.settings + [setting])
  }

  function Run(s: State, actions: seq<Action>): State
    decreases |actions|
  {
    if actions == [] then s else Run(Step(s, actions[0]), actions[1..])
  }

  lemma {:induction false} RunInTwo(s: State, a: seq<Action>, b: seq<Action>)
    ensures Run(s, a + b) == Run(Run(s, a), b)
    decreases |a|
  {
    hide Step;
    if a == [] {
      assert a + b == b;
    } else {
      assert (a + b)[1..] == a[1..] + b;
      RunInTwo(Step(s, a[0]), a[1..], b);
    }
  }

  lemma {:induction false} TicketsGrow(s: State, actions: seq<Action>)
    ensures s.tickets <= Run(s, actions).tickets
    decreases |actions|
  {
    if actions != [] {
      TicketsGrow(Step(s, actions[0]), actions[1..]);
    }
  }

  // ---------- at most one sample for a sequence number ----------

  predicate AtMostOnce(s: State)
  {
    forall i, j :: 0 <= i < j < |s.submitted|
      ==> s.submitted[i].response.sequence != s.submitted[j].response.sequence
  }

  predicate WasStored(s: State, number: nat)
  {
    number != 0 && TicketOf(number) in s.stored
  }

  predicate IsSubmitted(s: State, number: nat)
  {
    exists i :: 0 <= i < |s.submitted| && s.submitted[i].response.sequence == number
  }

  predicate TicketsDiffer(requesters: map<nat, Requester>)
  {
    forall i, j :: i in requesters && j in requesters && i != j ==> requesters[i].ticket != requesters[j].ticket
  }

  predicate TicketsInOrder(s: State)
  {
    && s.next == Number(s.tickets)
    && (forall t :: t in s.stored ==> t < s.tickets)
    && (forall id :: id in s.requesters ==> s.requesters[id].ticket < s.tickets)
    && (forall id :: id in s.requesters && !s.requesters[id].Stored? ==> s.requesters[id].ticket !in s.stored)
    && TicketsDiffer(s.requesters)
  }

  /** A number that is pending is unspent; one that was matched is spent once. */
  predicate NumbersUnspent(s: State)
  {
    && (s.pending != 0 ==> WasStored(s, s.pending) && !IsSubmitted(s, s.pending))
    && (s.receiver.Matched? || s.receiver.Cleared? ==>
          var n := s.receiver.sample.response.sequence;
          WasStored(s, n) && !IsSubmitted(s, n) && (s.receiver.Cleared? ==> s.pending != n))
    && (forall i :: 0 <= i < |s.submitted| ==> WasStored(s, s.submitted[i].response.sequence))
    && AtMostOnce(s)
  }

  predicate Sound(s: State)
  {
    TicketsInOrder(s) && NumbersUnspent(s)
  }

  lemma AllocatingKeepsTickets(s: State, z: State, id: nat)
    requires TicketsInOrder(s) && id !in s.requesters
    requires z.next == Number(z.tickets) && z.tickets == s.tickets + 1 && z.stored == s.stored
    requires z.requesters == s.requesters[id := Allocated(s.tickets)]
    ensures TicketsInOrder(z)
  {
  }

  lemma AdvancingKeepsTickets(s: State, z: State, id: nat, r: Requester)
    requires TicketsInOrder(s) && id in s.requesters && r.ticket == s.requesters[id].ticket
    requires z.next == s.next && z.tickets == s.tickets
    requires z.requesters == s.requesters[id := r] && z.stored == if r.Stored? then s.stored + {r.ticket} else s.stored
    requires s.requesters[id].Stored? ==> r.Stored?
    ensures TicketsInOrder(z)
  {
  }

  lemma LeavingKeepsTickets(s: State, z: State, id: nat)
    requires TicketsInOrder(s)
    requires z.next == s.next && z.tickets == s.tickets
    requires z.requesters == s.requesters - {id} && z.stored == s.stored
    ensures TicketsInOrder(z)
  {
  }

  lemma RequesterKeepsTickets(s: State, a: Action)
    requires TicketsInOrder(s)
    requires a.Allocate? || a.TakeT1? || a.Store? || a.Send? || a.Drop?
    ensures TicketsInOrder(RequesterStep(s, a))
  {
    var z := RequesterStep(s, a);
    if a.Allocate? {
      if a.id !in s.requesters {
        CountsOne(s.tickets);
        AllocatingKeepsTickets(s, z, a.id);
      }
    } else if a.id in s.requesters && (a.TakeT1? || a.Store?) {
      if z != s {
        AdvancingKeepsTickets(s, z, a.id, z.requesters[a.id]);
      }
    } else if z != s {
      LeavingKeepsTickets(s, z, a.id);
    }
    hide TicketsInOrder;
  }

  lemma RequesterKeepsUnspent(s: State, a: Action)
    requires Sound(s) && s.tickets <= WRAP
    requires a.Allocate? || a.TakeT1? || a.Store? || a.Send? || a.Drop?
    ensures NumbersUnspent(RequesterStep(s, a))
  {
    var z := RequesterStep(s, a);
    assert forall n :: IsSubmitted(z, n) ==> IsSubmitted(s, n);
    if a.Store? && a.id in s.requesters && s.requesters[a.id].Stamped? {
      NumberTellsTicket(s.requesters[a.id].ticket);
    }
  }

  lemma ReceiverKeepsTickets(s: State, a: Action)
    requires TicketsInOrder(s)
    requires a.Receive? || a.Load? || a.Clear? || a.Submit?
    ensures TicketsInOrder(ReceiverStep(s, a))
  {
  }

  lemma ReceiverKeepsUnspent(s: State, a: Action)
    requires NumbersUnspent(s)
    requires a.Receive? || a.Load? || a.Clear? || a.Submit?
    ensures NumbersUnspent(ReceiverStep(s, a))
  {
    var z := ReceiverStep(s, a);
    if a.Submit? && s.receiver.Cleared? {
      var n := s.receiver.sample.response.sequence;
      forall m | IsSubmitted(z, m)
        ensures m == n || IsSubmitted(s, m)
      {
      }
    } else {
      assert forall m :: IsSubmitted(z, m) ==> IsSubmitted(s, m);
    }
  }

  /** Everything else leaves the receiver, the stored tickets and the samples alone. */
  lemma OthersKeepSound(s: State, z: State)
    requires Sound(s)
    requires (z.next == s.next && z.tickets == s.tickets)
          || (z.next == (s.next + 1) % WRAP && z.tickets == s.tickets + 1)
    requires z.pending == 0 || z.pending == s.pending
    requires z.requesters == s.requesters && z.stored == s.stored
    requires z.receiver == s.receiver && z.submitted == s.submitted
    ensures Sound(z)
  {
    CountsOne(s.tickets);
    assert forall m :: IsSubmitted(z, m) <==> IsSubmitted(s, m);
    hide IsSubmitted, Number, TicketsDiffer;
  }

  lemma StepKeepsSound(s: State, a: Action)
    requires Sound(s) && s.tickets <= WRAP
    ensures Sound(Step(s, a))
  {
    hide TicketsInOrder, NumbersUnspent;
    var z := Step(s, a);
    if a.Allocate? || a.TakeT1? || a.Store? || a.Send? || a.Drop? {
      RequesterKeepsTickets(s, a);
      RequesterKeepsUnspent(s, a);
    } else if a.Receive? || a.Load? || a.Clear? || a.Submit? {
      ReceiverKeepsTickets(s, a);
      ReceiverKeepsUnspent(s, a);
    } else {
      OthersKeepSound(s, z);
    }
  }

  lemma {:induction false} RunKeepsSound(s: State, actions: seq<Action>)
    requires Sound(s) && Run(s, actions).tickets <= WRAP
    ensures Sound(Run(s, actions))
    decreases |actions|
  {
    hide Sound, Step;
    TicketsGrow(s, actions);
    if actions != [] {
      StepKeepsSound(s, actions[0]);
      RunKeepsSound(Step(s, actions[0]), actions[1..]);
    }
  }

  // ---------- why no more than 2^32 allocations ----------

  function Broadcasts(n: nat): seq<Action>
  {
    seq(n, _ => Broadcast)
  }

  lemma CountsRound(x: nat, n: nat)
    ensures ((x + 1) % WRAP + n) % WRAP == (x + (n + 1)) % WRAP
  {
    var d := (x + 1) / WRAP;
    assert x + 1 == d * WRAP + (x + 1) % WRAP;
    var e := ((x + 1) % WRAP + n) / WRAP;
    assert x + (n + 1) == (d + e) * WRAP + ((x + 1) % WRAP + n) % WRAP;
  }

  lemma {:induction false} BroadcastsAdvance(s: State, n: nat)
    requires s.next < WRAP
    ensures Run(s, Broadcasts(n)) == s.(next := (s.next + n) % WRAP, tickets := s.tickets + n)
    decreases n
  {
    hide RequesterStep, ReceiverStep, ReferenceStep;
    if n > 0 {
      assert Broadcasts(n)[0] == Broadcast && Broadcasts(n)[1..] == Broadcasts(n - 1);
      var t := s.(next := (s.next + 1) % WRAP, tickets := s.tickets + 1);
      assert Step(s, Broadcast) == t;
      BroadcastsAdvance(t, n - 1);
      CountsRound(s.next, n - 1);
    }
  }

  /** The first request, stamped `t1`, and an answer to it at time zero. */
  function FirstRequest(t1: int): Request
  {
    Request(1, t1)
  }

  function FirstResponse(t1: int): Response
  {
    Response(1, t1, 0, 0)
  }

  function AskActions(t1: int): seq<Action>
  {
    [Allocate(0), TakeT1(0), Store(0), Send(0), TakeT2(FirstRequest(t1)), TakeT3(Served(FirstRequest(t1), 0))]
  }

  function AcceptActions(t1: int): seq<Action>
  {
    [Receive(FirstResponse(t1)), Load, Clear, Submit]
  }

  /** Asking at time zero, whatever the local clock is set to. */
  lemma AskingRuns(s: State)
    requires s == Initial().(settings := s.settings)
    ensures var t1 := LocalTime(s);
            var z := Run(s, AskActions(t1));
            && z.next == 2 && z.tickets == 1 && z.pending == 1 && z.requesters == map[]
            && z.receiver == Waiting && z.submitted == [] && FirstResponse(t1) in z.responses
            && z.now == 0 && z.settings == s.settings && z.stamps == map[0 := Stamp(t1, LastSetting(s))]
  {
    hide Step;
    var again, t1 := BuildActions(), LocalTime(s);
    var rest := [Send(0), TakeT2(FirstRequest(t1)), TakeT3(Served(FirstRequest(t1), 0))];
    assert AskActions(t1) == again + rest;
    RunInTwo(s, again, rest);
    BuildingRuns(s);
    AnsweringRuns(Run(s, again), t1, LastSetting(s));
  }

  lemma AnsweringRuns(s: State, t1: int, setting: nat)
    requires s.requesters == map[0 := Stored(0, Stamp(t1, setting))] && s.now == 0
    ensures var z := Run(s, [Send(0), TakeT2(FirstRequest(t1)), TakeT3(Served(FirstRequest(t1), 0))]);
            && z.requesters == map[] && FirstResponse(t1) in z.responses
            && z == s.(requesters := z.requesters, requests := z.requests, served := z.served, responses := z.responses)
  {
    var a := [Send(0), TakeT2(FirstRequest(t1)), TakeT3(Served(FirstRequest(t1), 0))];
    var s1 := Step(s, a[0]);
    assert s1.requesters == map[];
    var s2 := Step(s1, a[1]);
    var s3 := Step(s2, a[2]);
    assert Run(s, a) == Run(s1, a[1..]) == Run(s2, a[2..]) == s3;
  }

  lemma AcceptingRuns(s: State, t1: int)
    requires s.pending == 1 && s.receiver == Waiting && FirstResponse(t1) in s.responses
    ensures var z := Run(s, AcceptActions(t1));
            && z == s.(pending := 0, submitted := z.submitted)
            && z.submitted == s.submitted + [Sample(FirstResponse(t1), LocalTime(s), LastSetting(s))]
  {
    var a := AcceptActions(t1);
    var s1 := Step(s, a[0]);
    var s2 := Step(s1, a[1]);
    var s3 := Step(s2, a[2]);
    var s4 := Step(s3, a[3]);
    assert Run(s, a) == Run(s1, a[1..]) == Run(s2, a[2..]) == Run(s3, a[3..]) == s4;
  }

  /** A request is built, and not yet sent. */
  function BuildActions(): seq<Action>
  {
    [Allocate(0), TakeT1(0), Store(0)]
  }

  lemma BuildingRuns(s: State)
    requires s.next == Number(s.tickets) && s.requesters == map[]
    ensures var z := Run(s, BuildActions());
            && z.pending == s.next && z.tickets == s.tickets + 1 && z.next == (s.next + 1) % WRAP
            && z.requesters == map[0 := Stored(s.tickets, Stamp(LocalTime(s), LastSetting(s)))]
            && z == s.(pending := z.pending, tickets := z.tickets, next := z.next,
                       requesters := z.requesters, stored := z.stored,
                       stamps := s.stamps[s.tickets := Stamp(LocalTime(s), LastSetting(s))])
  {
    var a := BuildActions();
    var s1 := Step(s, a[0]);
    assert s1.requesters == map[0 := Allocated(s.tickets)];
    var s2 := Step(s1, a[1]);
    assert s2.requesters == map[0 := Stamped(s.tickets, Stamp(LocalTime(s), LastSetting(s)))];
    var s3 := Step(s2, a[2]);
    assert s3.requesters == map[0 := Stored(s.tickets, Stamp(LocalTime(s), LastSetting(s)))];
    assert Run(s, a) == Run(s1, a[1..]) == Run(s2, a[2..]) == s3;
  }

  function ComeRound(): seq<Action>
  {
    AskActions(0) + (AcceptActions(0) + (Broadcasts(WRAP - 1) + (BuildActions() + AcceptActions(0))))
  }

  /** After 2^32 further allocations an old response, repeated by the network, is taken for the
      answer to a new request. */
  lemma OldResponseIsTakenAgain()
    ensures Run(Initial(), ComeRound()).tickets == WRAP + 1
    ensures !AtMostOnce(Run(Initial(), ComeRound()))
  {
    hide Step;
    var s0, ask, accept, again := Initial(), AskActions(0), AcceptActions(0), BuildActions();
    var rest3 := again + accept;
    var rest2 := Broadcasts(WRAP - 1) + rest3;
    var rest1 := accept + rest2;
    AskingRuns(s0);
    var s1 := Run(s0, ask);
    RunInTwo(s0, ask, rest1);
    AcceptingRuns(s1, 0);
    var s2 := Run(s1, accept);
    RunInTwo(s1, accept, rest2);
    BroadcastsAdvance(s2, WRAP - 1);
    var s3 := Run(s2, Broadcasts(WRAP - 1));
    RunInTwo(s2, Broadcasts(WRAP - 1), rest3);
    assert s3.next == 1 && s3.tickets == WRAP;
    BuildingRuns(s3);
    var s4 := Run(s3, again);
    RunInTwo(s3, again, accept);
    AcceptingRuns(s4, 0);
    var s5 := Run(s4, accept);
    assert s5 == Run(s0, ComeRound());
    assert s5.submitted[0].response.sequence == s5.submitted[1].response.sequence;
  }

  ghost predicate AtMostOnceUpTo(n: nat)
  {
    forall actions :: Run(Initial(), actions).tickets <= n ==> AtMostOnce(Run(Initial(), actions))
  }

  /** No sequence number leads to two samples in any run, whatever the network delivers, forged
      or not, exactly as long as no more than 2^32 numbers are handed out. */
  lemma AtMostOnceExactly(n: nat)
    ensures AtMostOnceUpTo(n) <==> n <= WRAP
  {
    hide Run, Step;
    if n <= WRAP {
      forall actions | Run(Initial(), actions).tickets <= n
        ensures AtMostOnce(Run(Initial(), actions))
      {
        RunKeepsSound(Initial(), actions);
      }
    } else {
      OldResponseIsTakenAgain();
    }
  }
}
