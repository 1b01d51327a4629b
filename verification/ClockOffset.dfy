/** What an accepted sample says about the clocks when the reference is honest: it answers a
    request that was really made, and brackets the true offset. */
module ClockOffset {
  import opened ClockExchange

  /** Reference time minus local time, while the local clock has its `setting`-th setting. */
  function Offset(s: State, setting: nat): int
    requires setting < |s.settings|
  {
    -s.settings[setting]
  }

  predicate IsStamp(s: State, ticket: nat, stamp: Stamp)
  {
    ticket in s.stamps && s.stamps[ticket] == stamp && stamp.setting < |s.settings|
  }

  /** A request of this process, stamped no later than at `time`. */
  predicate SentBy(s: State, q: Request, time: int)
  {
    var k := TicketOf(q.sequence);
    k in s.stamps && IsStamp(s, k, s.stamps[k]) && s.stamps[k].t1 == q.t1
    && q.t1 + Offset(s, s.stamps[k].setting) <= time
  }

  predicate Answered(s: State, r: Response)
  {
    SentBy(s, Request(r.sequence, r.t1), r.t2) && r.t2 <= r.t3 <= s.now
  }

  predicate Observed(s: State, x: Sample)
  {
    Answered(s, x.response) && x.setting < |s.settings| && x.response.t3 <= x.t4 + Offset(s, x.setting)
  }

  predicate RequestersHonest(s: State)
  {
    && (forall k :: k in s.stamps ==> k < s.tickets)
    && (forall id :: id in s.requesters ==>
          match s.requesters[id]
          case Allocated(ticket) => ticket !in s.stamps
          case Stamped(ticket, stamp) => IsStamp(s, ticket, stamp) && stamp.t1 + Offset(s, stamp.setting) <= s.now
          case Stored(ticket, stamp) => IsStamp(s, ticket, stamp) && stamp.t1 + Offset(s, stamp.setting) <= s.now)
  }

  predicate NetworkHonest(s: State)
  {
    && (forall q :: q in s.requests ==> SentBy(s, q, s.now))
    && (forall v :: v in s.served ==> SentBy(s, v.request, v.t2) && v.t2 <= s.now)
    && (forall r :: r in s.responses ==> Answered(s, r))
  }

  predicate SamplesHonest(s: State)
  {
    && (!s.receiver.Waiting? ==> Observed(s, s.receiver.sample))
    && (forall i :: 0 <= i < |s.submitted| ==> Observed(s, s.submitted[i]))
  }

  predicate Honest(s: State)
  {
    |s.settings| > 0 && TicketsInOrder(s) && RequestersHonest(s) && NetworkHonest(s) && SamplesHonest(s)
  }

  // ---------- nothing said is taken back ----------

  predicate Extends(s: State, z: State)
  {
    && (forall k :: k in s.stamps ==> k in z.stamps && z.stamps[k] == s.stamps[k])
    && |s.settings| <= |z.settings|
    && (forall i :: 0 <= i < |s.settings| ==> z.settings[i] == s.settings[i])
    && s.now <= z.now
  }

  lemma StampsStay(s: State, z: State)
    requires Extends(s, z)
    ensures forall q, time :: SentBy(s, q, time) ==> SentBy(z, q, time)
    ensures forall r :: Answered(s, r) ==> Answered(z, r)
    ensures forall x :: Observed(s, x) ==> Observed(z, x)
  {
  }

  lemma StampsStayLater(s: State, z: State)
    requires Extends(s, z)
    ensures forall q :: SentBy(s, q, s.now) ==> SentBy(z, q, z.now)
  {
  }

  predicate IsRequesterStep(a: Action)
  {
    a.Allocate? || a.TakeT1? || a.Store? || a.Send? || a.Drop?
  }

  lemma RequesterStepExtends(s: State, a: Action)
    requires Honest(s) && IsRequesterStep(a)
    ensures Extends(s, RequesterStep(s, a))
  {
    hide NetworkHonest, SamplesHonest, IsStamp, TicketsInOrder;
  }

  lemma RequestersStayHonest(s: State, a: Action)
    requires |s.settings| > 0 && TicketsInOrder(s) && RequestersHonest(s) && IsRequesterStep(a)
    ensures RequestersHonest(RequesterStep(s, a))
  {
  }

  lemma StoredRequestIsSent(s: State, id: nat)
    requires RequestersHonest(s) && TicketsInOrder(s) && s.tickets <= WRAP
    requires id in s.requesters && s.requesters[id].Stored?
    ensures var r := s.requesters[id]; SentBy(s, Request(Number(r.ticket), r.stamp.t1), s.now)
  {
    NumberTellsTicket(s.requesters[id].ticket);
  }

  lemma SendingIsHonest(s: State, a: Action)
    requires Honest(s) && IsRequesterStep(a) && s.tickets <= WRAP
    ensures NetworkHonest(RequesterStep(s, a)) && SamplesHonest(RequesterStep(s, a))
  {
    hide IsStamp, TicketsInOrder, RequestersHonest;
    var z := RequesterStep(s, a);
    RequesterStepExtends(s, a);
    StampsStay(s, z);
    if a.Send? && a.id in s.requesters && s.requesters[a.id].Stored? {
      StoredRequestIsSent(s, a.id);
    }
    hide Extends, SentBy, Answered, Observed;
  }

  lemma RequesterKeepsHonest(s: State, a: Action)
    requires Honest(s) && IsRequesterStep(a) && s.tickets <= WRAP
    ensures Honest(RequesterStep(s, a))
  {
    hide TicketsInOrder, RequestersHonest, NetworkHonest, SamplesHonest;
    RequesterKeepsTickets(s, a);
    RequestersStayHonest(s, a);
    SendingIsHonest(s, a);
  }

  lemma ReferenceKeepsHonest(s: State, a: Action)
    requires Honest(s) && (a.TakeT2? || a.TakeT3?)
    ensures Honest(ReferenceStep(s, a))
  {
    var z := ReferenceStep(s, a);
    StampsStay(s, z);
    hide SentBy, IsStamp, Observed;
    assert TicketsInOrder(z);
  }

  lemma ReceiverKeepsHonest(s: State, a: Action)
    requires Honest(s)
    requires a.Receive? || a.Load? || a.Clear? || a.Submit?
    ensures Honest(ReceiverStep(s, a))
  {
    var z := ReceiverStep(s, a);
    StampsStay(s, z);
    ReceiverKeepsTickets(s, a);
    ReceiverLeavesOthers(s, z);
    hide SentBy, IsStamp, Answered, TicketsInOrder, RequestersHonest;
    if a.Receive? && s.receiver.Waiting? && a.response in s.responses {
      assert Answered(s, a.response);
    }
  }

  lemma ReceiverLeavesOthers(s: State, z: State)
    requires RequestersHonest(s) && NetworkHonest(s)
    requires z == s.(pending := z.pending, receiver := z.receiver, submitted := z.submitted)
    ensures RequestersHonest(z) && NetworkHonest(z)
  {
    StampsStay(s, z);
    hide SentBy, Answered, Observed;
  }

  lemma PassingKeepsHonest(s: State, a: Action)
    requires Honest(s) && (a.Pass? || a.Adjust?)
    ensures Honest(Step(s, a))
  {
    var z := Step(s, a);
    StampsStay(s, z);
    StampsStayLater(s, z);
    hide SentBy, Answered, Observed, TicketsDiffer;
  }

  lemma CountingKeepsHonest(s: State, a: Action)
    requires Honest(s) && (a.Broadcast? || a.Cancel?)
    ensures Honest(Step(s, a))
  {
    var z := Step(s, a);
    NoOtherChange(s, z);
    CountsOne(s.tickets);
    hide SentBy, Answered, Observed, IsStamp, TicketsDiffer, Number, NetworkHonest, SamplesHonest;
  }

  lemma NoOtherChange(s: State, z: State)
    requires NetworkHonest(s) && SamplesHonest(s)
    requires z == s.(next := z.next, tickets := z.tickets, pending := z.pending)
    ensures NetworkHonest(z) && SamplesHonest(z)
  {
    StampsStay(s, z);
    hide SentBy, Answered, Observed, IsStamp;
  }

  lemma StepKeepsHonest(s: State, a: Action)
    requires Honest(s) && s.tickets <= WRAP && !a.Forge?
    ensures Honest(Step(s, a))
  {
    hide Honest, RequesterStep, ReferenceStep, ReceiverStep;
    if IsRequesterStep(a) {
      RequesterKeepsHonest(s, a);
    } else if a.TakeT2? || a.TakeT3? {
      ReferenceKeepsHonest(s, a);
    } else if a.Receive? || a.Load? || a.Clear? || a.Submit? {
      ReceiverKeepsHonest(s, a);
    } else if a.Pass? || a.Adjust? {
      PassingKeepsHonest(s, a);
    } else {
      CountingKeepsHonest(s, a);
    }
  }

  lemma {:induction false} RunKeepsHonest(s: State, actions: seq<Action>)
    requires Honest(s) && Run(s, actions).tickets <= WRAP
    requires forall a :: a in actions ==> !a.Forge?
    ensures Honest(Run(s, actions))
    decreases |actions|
  {
    hide Honest, Step;
    TicketsGrow(s, actions);
    if actions != [] {
      StepKeepsHonest(s, actions[0]);
      RunKeepsHonest(Step(s, actions[0]), actions[1..]);
    }
  }

  // ---------- the bracket ----------

  /** The sample echoes the transmit time of the request with its number. */
  predicate Echoes(s: State, x: Sample)
  {
    var k := TicketOf(x.response.sequence);
    && k in s.stored && k in s.stamps && x.response.t1 == s.stamps[k].t1
    && s.stamps[k].setting < |s.settings| && x.setting < |s.settings|
  }

  /** The true offset lies between T3 - T4 and T2 - T1, both the one when the request was stamped
      and the one when the response came in. */
  predicate Brackets(s: State, x: Sample)
    requires Echoes(s, x)
  {
    var r := x.response;
    && r.t3 - x.t4 <= Offset(s, s.stamps[TicketOf(r.sequence)].setting) <= r.t2 - r.t1
    && r.t3 - x.t4 <= Offset(s, x.setting) <= r.t2 - r.t1
  }

  /** The local clock at the end of the exchange is not behind what it would have been without
      the settings made during the exchange. */
  predicate NotSetBack(s: State, x: Sample)
    requires Echoes(s, x)
  {
    s.settings[s.stamps[TicketOf(x.response.sequence)].setting] <= s.settings[x.setting]
  }

  /** The exchange of the sample began with the setting `a` and ended with the setting `b`. */
  predicate SetFromTo(s: State, x: Sample, a: int, b: int)
  {
    Echoes(s, x) && s.settings[s.stamps[TicketOf(x.response.sequence)].setting] == a && s.settings[x.setting] == b
  }

  /** Every sample submitted in an honest run echoes its own request, and brackets the true offset
      unless the clock was set back during its exchange. */
  lemma OffsetIsBracketed(actions: seq<Action>)
    requires forall a :: a in actions ==> !a.Forge?
    requires Run(Initial(), actions).tickets <= WRAP
    ensures var s := Run(Initial(), actions);
            forall i :: 0 <= i < |s.submitted| ==>
              Echoes(s, s.submitted[i]) && (NotSetBack(s, s.submitted[i]) ==> Brackets(s, s.submitted[i]))
  {
    RunKeepsHonest(Initial(), actions);
    RunKeepsSound(Initial(), actions);
    hide Run, Step, AtMostOnce, IsSubmitted;
  }

  predicate HonestRun(actions: seq<Action>)
  {
    (forall a :: a in actions ==> !a.Forge?) && Run(Initial(), actions).tickets <= WRAP
  }

  /** The exchange of a response that takes no time at all, by a clock that is set to `a` before
      and to `b` during it. */
  function SetMeanwhile(a: int, b: int): seq<Action>
  {
    [Adjust(a)] + (AskActions(a) + ([Adjust(b)] + AcceptActions(a)))
  }

  lemma RunCons(s: State, a: Action, rest: seq<Action>)
    ensures Run(s, [a] + rest) == Run(Step(s, a), rest)
  {
    hide Step;
    assert ([a] + rest)[0] == a && ([a] + rest)[1..] == rest;
  }

  lemma SettingIsOneStep(s: State, setting: int, rest: seq<Action>)
    ensures Run(s, [Adjust(setting)] + rest) == Run(s.(settings := s.settings + [setting]), rest)
  {
    hide Run, Step;
    RunCons(s, Adjust(setting), rest);
    AdjustingSets(s, setting);
  }

  lemma AdjustingSets(s: State, setting: int)
    ensures Step(s, Adjust(setting)) == s.(settings := s.settings + [setting])
  {
  }

  lemma SettingMeanwhileRuns(a: int, b: int)
    ensures var s := Run(Initial(), SetMeanwhile(a, b));
            && s.tickets == 1 && s.settings == [0, a, b] && s.stamps == map[0 := Stamp(a, 1)]
            && s.submitted == [Sample(FirstResponse(a), b, 2)]
  {
    hide Step, Run, AskActions, AcceptActions;
    var s1 := Initial().(settings := [0, a]);
    assert [0] + [a] == [0, a];
    SettingIsOneStep(Initial(), a, AskActions(a) + ([Adjust(b)] + AcceptActions(a)));
    AskingRuns(s1);
    var s2 := Run(s1, AskActions(a));
    RunInTwo(s1, AskActions(a), [Adjust(b)] + AcceptActions(a));
    var s3 := s2.(settings := [0, a, b]);
    assert [0, a] + [b] == [0, a, b];
    SettingIsOneStep(s2, b, AcceptActions(a));
    AcceptingRuns(s3, a);
    assert [] + [Sample(FirstResponse(a), b, 2)] == [Sample(FirstResponse(a), b, 2)];
  }

  /** Whenever the clock is set back during an exchange, an honest sample can leave no room for
      any offset at all. */
  lemma SettingBackBreaksTheBracket(a: int, b: int)
    requires b < a
    ensures HonestRun(SetMeanwhile(a, b))
    ensures var s := Run(Initial(), SetMeanwhile(a, b));
            && |s.submitted| == 1
            && var x := s.submitted[0];
               SetFromTo(s, x, a, b) && x.response.t3 - x.t4 > x.response.t2 - x.response.t1
  {
    NothingForged(a, b);
    hide Run, SetMeanwhile;
    SettingMeanwhileRuns(a, b);
    OffsetIsBracketed(SetMeanwhile(a, b));
  }

  lemma NothingForged(a: int, b: int)
    ensures forall action :: action in SetMeanwhile(a, b) ==> !action.Forge?
  {
  }

  /** In every honest run every sample with these settings brackets the true offset. */
  ghost predicate AlwaysBrackets(a: int, b: int)
  {
    forall actions: seq<Action>, x: Sample | HonestRun(actions) ::
      var s := Run(Initial(), actions);
      x in s.submitted && SetFromTo(s, x, a, b) ==> Brackets(s, x)
  }

  /** Every sample of every honest run whose exchange began with one setting and ended with
      another brackets the true offset if and only if the clock was not set back. */
  lemma BracketIsExact(a: int, b: int)
    ensures AlwaysBrackets(a, b) <==> a <= b
  {
    hide Run;
    if a <= b {
      forall actions: seq<Action>, x: Sample | HonestRun(actions) && x in Run(Initial(), actions).submitted
        && SetFromTo(Run(Initial(), actions), x, a, b)
        ensures Brackets(Run(Initial(), actions), x)
      {
        OffsetIsBracketed(actions);
      }
    } else {
      SettingBackBreaksTheBracket(a, b);
      var s := Run(Initial(), SetMeanwhile(a, b));
      assert HonestRun(SetMeanwhile(a, b)) && s.submitted[0] in s.submitted;
      assert SetFromTo(s, s.submitted[0], a, b) && !Brackets(s, s.submitted[0]);
    }
  }
}
