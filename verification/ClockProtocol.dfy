/** The clock messages and the protocol object: one call is the uninterrupted sequence of the
    atomic steps of `ClockExchange`. */
module ClockProtocol {
  import opened Bytes
  import opened Wrappers
  import opened ClockExchange

  const CLOCK_MAGIC: nat := 0x53434C4B
  const HEADER: nat := 12
  const REQUEST_TYPE: byte := 1
  const RESPONSE_TYPE: byte := 2
  const BROADCAST_TYPE: byte := 3

  /** The fields of a message behind magic, version and type. */
  datatype Message = Message(reserved: nat, sequence: nat, times: seq<nat>)

  predicate Encodable(m: Message)
  {
    m.reserved <= U16_MAX && m.sequence <= U32_MAX && forall t :: t in m.times ==> t <= U64_MAX
  }

  function EncodeTimes(times: seq<nat>): (r: Bytes)
    ensures |r| == 8 * |times|
  {
    if times == [] then [] else LittleEndian(8, times[0]) + EncodeTimes(times[1..])
  }

  function Encode(kind: byte, m: Message): (r: Bytes)
    ensures |r| == HEADER + 8 * |m.times|
  {
    LittleEndian(4, CLOCK_MAGIC) + [1, kind] + LittleEndian(2, m.reserved) + LittleEndian(4, m.sequence)
    + EncodeTimes(m.times)
  }

  function DecodeTimes(data: Bytes): (r: seq<nat>)
    requires |data| % 8 == 0
    ensures 8 * |r| == |data|
  {
    if data == [] then [] else [FromLittleEndian(data[..8])] + DecodeTimes(data[8..])
  }

  /** What the receiving side makes of `data` when it looks for `count` time stamps. */
  function Decode(kind: byte, count: nat, data: Bytes): Option<Message>
  {
    if |data| != HEADER + 8 * count then None
    else if FromLittleEndian(data[0..4]) != CLOCK_MAGIC || data[4] != 1 || data[5] != kind then None
    else Some(Message(FromLittleEndian(data[6..8]), FromLittleEndian(data[8..12]), DecodeTimes(data[12..])))
  }

  lemma {:induction false} TimesRoundTrip(times: seq<nat>)
    requires forall t :: t in times ==> t <= U64_MAX
    ensures DecodeTimes(EncodeTimes(times)) == times
  {
    if times != [] {
      Pow256Values();
      assert times[0] in times && forall t :: t in times[1..] ==> t in times;
      LittleEndianRoundTrip(8, times[0]);
      TimesRoundTrip(times[1..]);
      var data := EncodeTimes(times);
      assert data[..8] == LittleEndian(8, times[0]) && data[8..] == EncodeTimes(times[1..]);
    }
  }

  lemma {:induction false} TimesOfBytes(data: Bytes)
    requires |data| % 8 == 0
    ensures forall t :: t in DecodeTimes(data) ==> t <= U64_MAX
    ensures EncodeTimes(DecodeTimes(data)) == data
  {
    if data != [] {
      Pow256Values();
      FromLittleEndianRoundTrip(data[..8]);
      TimesOfBytes(data[8..]);
      assert data == data[..8] + data[8..];
    }
  }

  lemma DecodeEncode(kind: byte, m: Message)
    requires Encodable(m)
    ensures Decode(kind, |m.times|, Encode(kind, m)) == Some(m)
  {
    hide FromLittleEndian, LittleEndian, DecodeTimes, EncodeTimes;
    var data := Encode(kind, m);
    Pow256Values();
    LittleEndianRoundTrip(4, CLOCK_MAGIC);
    LittleEndianRoundTrip(2, m.reserved);
    LittleEndianRoundTrip(4, m.sequence);
    TimesRoundTrip(m.times);
    assert data[0..4] == LittleEndian(4, CLOCK_MAGIC);
    assert data[6..8] == LittleEndian(2, m.reserved);
    assert data[8..12] == LittleEndian(4, m.sequence);
    assert data[12..] == EncodeTimes(m.times);
  }

  lemma EncodeDecode(kind: byte, count: nat, data: Bytes)
    requires Decode(kind, count, data).Some?
    ensures var m := Decode(kind, count, data).value;
            Encodable(m) && |m.times| == count && data == Encode(kind, m)
  {
    hide FromLittleEndian, LittleEndian, DecodeTimes, EncodeTimes;
    Pow256Values();
    FromLittleEndianRoundTrip(data[0..4]);
    FromLittleEndianRoundTrip(data[6..8]);
    FromLittleEndianRoundTrip(data[8..12]);
    TimesOfBytes(data[12..]);
    assert data[4..6] == [1, kind];
    assert data == data[0..4] + data[4..6] + data[6..8] + data[8..12] + data[12..];
  }

  /** A receiver accepts exactly the encodings of messages of the kind it looks for. */
  lemma DecodedClockMessageIff(kind: byte, count: nat, data: Bytes, m: Message)
    ensures Decode(kind, count, data) == Some(m)
       <==> Encodable(m) && |m.times| == count && data == Encode(kind, m)
  {
    hide Decode, Encode;
    if Decode(kind, count, data).Some? {
      EncodeDecode(kind, count, data);
    }
    if Encodable(m) {
      DecodeEncode(kind, m);
    }
  }

  // ---------- the shared counter and slot ----------

  datatype Shared = Shared(next: nat, pending: nat)

  function SharedOf(s: State): Shared
  {
    Shared(s.next, s.pending)
  }

  function AfterRequest(h: Shared): Shared
  {
    Shared((h.next + 1) % WRAP, h.next)
  }

  predicate Answers(h: Shared, sequence: nat)
  {
    h.pending != 0 && sequence == h.pending
  }

  function AfterResponse(h: Shared, sequence: nat): Shared
  {
    if Answers(h, sequence) then Shared(h.next, 0) else h
  }

  lemma RequestIsThreeSteps(s: State, id: nat)
    requires id !in s.requesters && s.next == Number(s.tickets)
    ensures var z := Step(Step(Step(s, Allocate(id)), TakeT1(id)), Store(id));
            && SharedOf(z) == AfterRequest(SharedOf(s))
            && id in z.requesters && z.requesters[id].Stored?
            && Number(z.requesters[id].ticket) == s.next && z.requesters[id].stamp.t1 == LocalTime(s)
  {
    var s1 := Step(s, Allocate(id));
    var s2 := Step(s1, TakeT1(id));
    assert s1.requesters[id] == Allocated(s.tickets);
    assert s2.requesters[id] == Stamped(s.tickets, Stamp(LocalTime(s), LastSetting(s)));
  }

  lemma ResponseIsFourSteps(s: State, r: Response)
    requires s.receiver == Waiting && r in s.responses
    ensures var z := Step(Step(Step(Step(s, Receive(r)), Load), Clear), Submit);
            && SharedOf(z) == AfterResponse(SharedOf(s), r.sequence)
            && z.submitted == (if Answers(SharedOf(s), r.sequence)
                               then s.submitted + [Sample(r, LocalTime(s), LastSetting(s))]
                               else s.submitted)
  {
  }

  /** The reference reads its clock when a request comes in and again when it answers `d` later,
      and answers with the request's own number and T1. */
  lemma ServingIsTwoSteps(s: State, q: Request, d: nat)
    requires q in s.requests
    ensures var z := Step(Step(Step(s, TakeT2(q)), Pass(d)), TakeT3(Served(q, s.now)));
            && z.responses == s.responses + {Response(q.sequence, q.t1, s.now, s.now + d)}
            && SharedOf(z) == SharedOf(s)
  {
  }

  /** A broadcast takes a number from the counter and a cancellation empties the slot; neither
      touches the other. */
  lemma OthersAreOneStep(s: State)
    ensures SharedOf(Step(s, Broadcast)) == Shared((s.next + 1) % WRAP, s.pending)
    ensures SharedOf(Step(s, Cancel)) == Shared(s.next, 0)
  {
  }

  // ---------- the protocol object ----------

  datatype Mode = Client | Reference | ClientAndReference

  datatype Observation = Observation(t1: nat, t2: nat, t3: nat, t4: nat)

  /** The clock's verdict on a sample may depend on all samples before it. */
  type Verdict = (seq<Observation>, Observation) -> bool

  class SocketClockSynchronizationProtocol {
    const mode: Mode
    const accepts: Verdict
    var nextSequence: nat
    var pendingSequence: nat
    var submitted: seq<Observation>

    function AsShared(): Shared
      reads this
    {
      Shared(nextSequence, pendingSequence)
    }

    predicate Valid()
      reads this
    {
      nextSequence <= U32_MAX && pendingSequence <= U32_MAX
    }

    constructor (mode: Mode, accepts: Verdict)
      ensures this.mode == mode && this.accepts == accepts
      ensures Valid() && AsShared() == SharedOf(Initial()) && submitted == []
    {
      this.mode, this.accepts := mode, accepts;
      nextSequence, pendingSequence, submitted := 1, 0, [];
    }

    predicate IsClientMode()
    {
      mode == Client || mode == ClientAndReference
    }

    predicate IsReferenceMode()
    {
      mode == Reference || mode == ClientAndReference
    }

    method CancelPendingRequest()
      modifies this`pendingSequence
      ensures pendingSequence == 0
    {
      pendingSequence := 0;
    }

    method FetchAdd() returns (sequence: nat)
      requires Valid()
      modifies this`nextSequence
      ensures Valid() && sequence == old(nextSequence) && nextSequence == (old(nextSequence) + 1) % WRAP
    {
      sequence := nextSequence;
      nextSequence := if nextSequence == U32_MAX then 0 else nextSequence + 1;
    }

    static method BuildMessage(kind: byte, m: Message) returns (data: Bytes)
      requires Encodable(m)
      ensures data == Encode(kind, m)
    {
      data := LittleEndian(4, CLOCK_MAGIC) + [1, kind] + LittleEndian(2, m.reserved) + LittleEndian(4, m.sequence);
      var i := 0;
      while i < |m.times|
        invariant 0 <= i <= |m.times|
        invariant Encode(kind, m) == data + EncodeTimes(m.times[i..])
      {
        assert m.times[i..][1..] == m.times[i + 1..];
        data := data + LittleEndian(8, m.times[i]);
        i := i + 1;
      }
    }

    /** `now` is the clock's reading between the allocation and the store. */
    method BuildRequest(now: nat) returns (request: Option<Bytes>)
      requires Valid() && now <= U64_MAX
      modifies this`nextSequence, this`pendingSequence
      ensures Valid()
      ensures if IsClientMode()
              then request == Some(Encode(REQUEST_TYPE, Message(0, old(nextSequence), [now])))
                && AsShared() == AfterRequest(old(AsShared()))
              else request == None && AsShared() == old(AsShared())
    {
      if !IsClientMode() {
        return None;
      }
      var sequence := FetchAdd();
      var data := BuildMessage(REQUEST_TYPE, Message(0, sequence, [now]));
      pendingSequence := sequence;
      return Some(data);
    }

    /** The reference answers exactly the requests, with their own number and T1 in the answer. */
    method ProcessRequest(data: Bytes, receiveTime: nat, transmitTime: nat) returns (response: Option<Bytes>)
      requires receiveTime <= U64_MAX && transmitTime <= U64_MAX
      ensures response.Some? <==> IsReferenceMode() && exists m :: Encodable(m) && |m.times| == 1 && data == Encode(REQUEST_TYPE, m)
      ensures forall m :: response.Some? && Encodable(m) && |m.times| == 1 && data == Encode(REQUEST_TYPE, m)
                ==> response.value == Encode(RESPONSE_TYPE, Message(0, m.sequence, [m.times[0], receiveTime, transmitTime]))
    {
      forall m ensures Decode(REQUEST_TYPE, 1, data) == Some(m)
                  <==> Encodable(m) && |m.times| == 1 && data == Encode(REQUEST_TYPE, m)
      {
        DecodedClockMessageIff(REQUEST_TYPE, 1, data, m);
      }
      hide Encode;
      if !IsReferenceMode() || |data| != HEADER + 8 {
        return None;
      }
      var request := Decode(REQUEST_TYPE, 1, data);
      if request == None {
        return None;
      }
      assert request.value.times[0] in request.value.times;
      var answer := Message(0, request.value.sequence, [request.value.times[0], receiveTime, transmitTime]);
      var bytes := BuildMessage(RESPONSE_TYPE, answer);
      return Some(bytes);
    }

    /** A client submits a sample exactly for a response to its pending request, and then has
        none pending; anything else changes nothing. */
    method ProcessResponse(data: Bytes, receiveTime: nat) returns (ok: bool)
      requires Valid()
      modifies this`pendingSequence, this`submitted
      ensures Valid() && nextSequence == old(nextSequence)
      ensures forall m :: IsClientMode() && Encodable(m) && |m.times| == 3 && data == Encode(RESPONSE_TYPE, m)
                ==> (var x := Observation(m.times[0], m.times[1], m.times[2], receiveTime);
                     && AsShared() == AfterResponse(old(AsShared()), m.sequence)
                     && if Answers(old(AsShared()), m.sequence)
                        then submitted == old(submitted) + [x] && ok == accepts(old(submitted), x)
                        else submitted == old(submitted) && !ok)
      ensures (!IsClientMode() || forall m | Encodable(m) && |m.times| == 3 :: data != Encode(RESPONSE_TYPE, m))
                ==> !ok && submitted == old(submitted) && AsShared() == old(AsShared())
    {
      forall m ensures Decode(RESPONSE_TYPE, 3, data) == Some(m)
                  <==> Encodable(m) && |m.times| == 3 && data == Encode(RESPONSE_TYPE, m)
      {
        DecodedClockMessageIff(RESPONSE_TYPE, 3, data, m);
      }
      hide Encode;
      if !IsClientMode() || |data| != HEADER + 24 {
        return false;
      }
      var response := Decode(RESPONSE_TYPE, 3, data);
      if response == None {
        return false;
      }
      var m := response.value;
      var pending := pendingSequence;
      if pending == 0 || m.sequence != pending {
        return false;
      }
      pendingSequence := 0;
      var x := Observation(m.times[0], m.times[1], m.times[2], receiveTime);
      ok := accepts(submitted, x);
      submitted := submitted + [x];
    }

    method BuildAuthoritativeBroadcast(now: nat) returns (message: Option<Bytes>)
      requires Valid() && now <= U64_MAX
      modifies this`nextSequence
      ensures Valid()
      ensures if IsReferenceMode()
              then message == Some(Encode(BROADCAST_TYPE, Message(0, old(nextSequence), [now])))
                && nextSequence == (old(nextSequence) + 1) % WRAP
              else message == None && nextSequence == old(nextSequence)
    {
      if !IsReferenceMode() {
        return None;
      }
      var sequence := FetchAdd();
      var data := BuildMessage(BROADCAST_TYPE, Message(0, sequence, [now]));
      return Some(data);
    }

    /** A one-way observation: no delay is measured, and the pending request is left alone. */
    method ProcessAuthoritativeBroadcast(data: Bytes, receiveTime: nat) returns (ok: bool)
      modifies this`submitted
      ensures forall m :: IsClientMode() && Encodable(m) && |m.times| == 1 && data == Encode(BROADCAST_TYPE, m)
                ==> var x := Observation(receiveTime, m.times[0], m.times[0], receiveTime);
                    submitted == old(submitted) + [x] && ok == accepts(old(submitted), x)
      ensures (!IsClientMode() || forall m | Encodable(m) && |m.times| == 1 :: data != Encode(BROADCAST_TYPE, m))
                ==> !ok && submitted == old(submitted)
    {
      forall m ensures Decode(BROADCAST_TYPE, 1, data) == Some(m)
                  <==> Encodable(m) && |m.times| == 1 && data == Encode(BROADCAST_TYPE, m)
      {
        DecodedClockMessageIff(BROADCAST_TYPE, 1, data, m);
      }
      hide Encode;
      if !IsClientMode() || |data| != HEADER + 8 {
        return false;
      }
      var message := Decode(BROADCAST_TYPE, 1, data);
      if message == None {
        return false;
      }
      var t := message.value.times[0];
      var x := Observation(receiveTime, t, t, receiveTime);
      ok := accepts(submitted, x);
      submitted := submitted + [x];
    }
  }
}
