/** The receiver loads the pending number and clears it in two operations, and so may erase a
    request that was stored in between. */
module ClockPending {
  import opened ClockExchange

  /** The receiver is about to clear a request it has not looked at. */
  predicate ClearsAnother(s: State)
  {
    s.receiver.Matched? && s.pending != 0 && s.pending != s.receiver.sample.response.sequence
  }

  /** A request is stored after a response to an earlier one has matched, and before the
      receiver has cleared that one. Number zero stands for no request. */
  predicate Overtakes(s: State, a: Action)
  {
    && a.Store? && s.receiver.Matched?
    && a.id in s.requesters && s.requesters[a.id].Stamped?
    && Number(s.requesters[a.id].ticket) != 0
  }

  lemma OvertakingIsExact(s: State, a: Action)
    requires Sound(s) && s.tickets <= WRAP && !ClearsAnother(s)
    ensures ClearsAnother(Step(s, a)) <==> Overtakes(s, a)
  {
    if Overtakes(s, a) {
      NumberTellsTicket(s.requesters[a.id].ticket);
    }
    hide IsSubmitted, AtMostOnce, TicketsDiffer;
  }

  /** The pending number is withdrawn, or replaced by number zero, which stands for none. */
  predicate Withdraws(s: State, a: Action)
  {
    a.Cancel? || (a.Store? && a.id in s.requesters && s.requesters[a.id].Stamped? && Number(s.requesters[a.id].ticket) == 0)
  }

  lemma ThreatStays(s: State, a: Action)
    requires Sound(s) && s.tickets <= WRAP && ClearsAnother(s)
    ensures ClearsAnother(Step(s, a)) <==> !a.Clear? && !Withdraws(s, a)
  {
    if a.Store? && a.id in s.requesters && s.requesters[a.id].Stamped? {
      NumberTellsTicket(s.requesters[a.id].ticket);
    }
    hide IsSubmitted, AtMostOnce, TicketsDiffer;
  }

  /** A clear erases a request other than the one that was answered. */
  predicate Erases(s: State, a: Action)
  {
    a.Clear? && ClearsAnother(s)
  }

  predicate EverErases(s: State, actions: seq<Action>)
    decreases |actions|
  {
    actions != [] && (Erases(s, actions[0]) || EverErases(Step(s, actions[0]), actions[1..]))
  }

  /** The receiver clears before anything withdraws the pending number. */
  predicate ClearsNext(s: State, actions: seq<Action>)
    decreases |actions|
  {
    actions != [] && (actions[0].Clear? || (!Withdraws(s, actions[0]) && ClearsNext(Step(s, actions[0]), actions[1..])))
  }

  /** A request is stored between a load that matched and its clear, and nothing withdraws it
      before that clear. */
  predicate EverOvertaken(s: State, actions: seq<Action>)
    decreases |actions|
  {
    actions != [] &&
    var z := Step(s, actions[0]);
    (Overtakes(s, actions[0]) && ClearsNext(z, actions[1..])) || EverOvertaken(z, actions[1..])
  }

  lemma {:induction false} RunErasesExactly(s: State, actions: seq<Action>)
    requires Sound(s) && Run(s, actions).tickets <= WRAP
    ensures EverErases(s, actions) <==> (ClearsAnother(s) && ClearsNext(s, actions)) || EverOvertaken(s, actions)
    decreases |actions|
  {
    hide Step, Sound, ClearsAnother, Overtakes, Withdraws;
    TicketsGrow(s, actions);
    if actions != [] {
      var a := actions[0];
      var z := Step(s, a);
      if ClearsAnother(s) {
        ThreatStays(s, a);
      } else {
        OvertakingIsExact(s, a);
      }
      ClearsAreNoStores(s, a);
      StepKeepsSound(s, a);
      TicketsGrow(z, actions[1..]);
      RunErasesExactly(z, actions[1..]);
    }
  }

  lemma ClearsAreNoStores(s: State, a: Action)
    ensures Overtakes(s, a) ==> !a.Clear? && !Withdraws(s, a)
  {
  }

  /** A second request is stored after the response to the first has matched. */
  function Overtaken(): seq<Action>
  {
    AskActions(0) + ([Receive(FirstResponse(0)), Load] + BuildActions())
  }

  lemma MatchingRuns(s: State)
    requires s.pending == 1 && s.receiver == Waiting && FirstResponse(0) in s.responses
    ensures Run(s, [Receive(FirstResponse(0)), Load])
         == s.(receiver := Matched(Sample(FirstResponse(0), LocalTime(s), LastSetting(s))))
  {
    var a := [Receive(FirstResponse(0)), Load];
    var s1 := Step(s, a[0]);
    assert Run(s, a) == Run(s1, a[1..]) == Step(s1, a[1]);
  }

  lemma OvertakingRuns()
    ensures var s := Run(Initial(), Overtaken());
            ClearsAnother(s) && s.pending == 2 && s.submitted == []
  {
    hide Step;
    var match1 := [Receive(FirstResponse(0)), Load];
    var s0 := Run(Initial(), AskActions(0));
    AskingRuns(Initial());
    RunInTwo(Initial(), AskActions(0), match1 + BuildActions());
    MatchingRuns(s0);
    var s1 := Run(s0, match1);
    RunInTwo(s0, match1, BuildActions());
    BuildingRuns(s1);
  }

  /** In every run with up to 2^32 allocations the receiver erases a request other than the one it
      answered if and only if one is stored between a load that matched and its clear, and
      neither cancelled nor replaced by number zero before that clear. */
  lemma OnlyOvertakingLosesRequests(actions: seq<Action>)
    requires Run(Initial(), actions).tickets <= WRAP
    ensures EverErases(Initial(), actions) <==> EverOvertaken(Initial(), actions)
  {
    RunErasesExactly(Initial(), actions);
  }

  /** And then a fresh request, neither answered nor cancelled, is wiped out. */
  lemma OvertakenRequestIsLost()
    ensures var s := Run(Initial(), Overtaken());
            Erases(s, Clear) && s.pending == 2 && s.submitted == [] && Step(s, Clear).pending == 0
    ensures forall a :: a in Overtaken() ==> !a.Cancel? && !a.Forge?
  {
    hide Run;
    OvertakingRuns();
  }
}
