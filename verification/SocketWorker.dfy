/** The worker's start and stop handshake: one controller and the tasks it creates, interleaved
    at the grain of single operations on the two atomics. */
module SocketWorker {

  /** Where a task stands: about to load `running`, in an iteration, in a `StopWorker` of its own
      about to load the handle or waiting for it to clear, about to store the invalid handle, or
      past its last access to the object. */
  datatype Task = AtLoad | Iterating | Stopping | Halting | Leaving | Done

  datatype Controller =
    | Idle
    | Configuring | Announcing | Creating | Created(id: nat) | Failing | Clearing
    | Exchanged | Waiting

  /** Handle zero is the invalid one; `nextId` is the handle the next task will get. */
  datatype State = State(running: bool, handle: nat, tasks: map<nat, Task>, nextId: nat, controller: Controller)

  function Initial(): State
  {
    State(false, 0, map[], 1, Idle)
  }

  /** `Turn` is a task's next operation. `SelfStop` is its iteration calling `StopWorker`, which
      waits unless the handle is invalid or the task's own. */
  datatype Action =
    | Start | Configure | Announce | Create(ok: bool) | StoreHandle | Retract | ClearHandle
    | Stop | LoadHandle | Poll
    | Turn(id: nat) | SelfStop(id: nat)

  function StartStep(s: State, a: Action): State
  {
    match (a, s.controller)
    case (Start, Idle) => if s.running then s else s.(controller := Configuring)
    case (Configure, Configuring) => s.(controller := Announcing)
    case (Announce, Announcing) => s.(running := true, controller := Creating)
    case (Create(ok), Creating) =>
      if ok then s.(tasks := s.tasks[s.nextId := AtLoad], nextId := s.nextId + 1, controller := Created(s.nextId))
      else s.(controller := Failing)
    case (StoreHandle, Created(id)) => s.(handle := id, controller := Idle)
    case (Retract, Failing) => s.(running := false, controller := Clearing)
    case (ClearHandle, Clearing) => s.(handle := 0, controller := Idle)
    case _ => s
  }

  /** The controller is no task of its own, so it waits whenever the handle is valid. */
  function StopStep(s: State, a: Action): State
  {
    match (a, s.controller)
    case (Stop, Idle) => s.(running := false, controller := Exchanged)
    case (LoadHandle, Exchanged) => s.(controller := if s.handle == 0 then Idle else Waiting)
    case (Poll, Waiting) => if s.handle == 0 then s.(controller := Idle) else s
    case _ => s
  }

  function TaskStep(s: State, a: Action): State
  {
    match a
    case Turn(id) =>
      if id !in s.tasks then s
      else (match s.tasks[id]
            case AtLoad => s.(tasks := s.tasks[id := if s.running then Iterating else Leaving])
            case Iterating => s.(tasks := s.tasks[id := AtLoad])
            case Stopping => s.(tasks := s.tasks[id := if s.handle == 0 || s.handle == id then Iterating else Halting])
            case Halting => if s.handle == 0 then s.(tasks := s.tasks[id := Iterating]) else s
            case Leaving => s.(handle := 0, tasks := s.tasks[id := Done])
            case Done => s)
    case SelfStop(id) =>
      if id in s.tasks && s.tasks[id] == Iterating
      then s.(running := false, tasks := s.tasks[id := Stopping]) else s
    case _ => s
  }

  function Step(s: State, a: Action): State
  {
    if a.Turn? || a.SelfStop? then TaskStep(s, a)
    else if a.Stop? || a.LoadHandle? || a.Poll? then StopStep(s, a)
    else StartStep(s, a)
  }

  function Run(s: State, actions: seq<Action>): State
    decreases |actions|
  {
    if actions == [] then s else Run(Step(s, actions[0]), actions[1..])
  }

  // ---------- safety ----------

  predicate Live(s: State, id: nat)
  {
    id in s.tasks && !s.tasks[id].Done?
  }

  predicate NoneLive(s: State)
  {
    s.handle == 0 && forall id :: id in s.tasks ==> s.tasks[id] == Done
  }

  predicate OnlyLive(s: State, only: nat)
  {
    Live(s, only) && forall id :: id in s.tasks && id != only ==> s.tasks[id] == Done
  }

  predicate Safe(s: State)
  {
    && (forall id :: id in s.tasks ==> 0 < id < s.nextId)
    && s.nextId > 0
    && match s.controller
       case Idle =>
         if s.running then OnlyLive(s, s.handle) && s.tasks[s.handle] != Leaving else NoneLive(s)
       case Created(id) => s.running && s.handle == 0 && OnlyLive(s, id) && s.tasks[id] != Leaving
       case Exchanged => !s.running && (NoneLive(s) || OnlyLive(s, s.handle))
       case Waiting => !s.running && (NoneLive(s) || OnlyLive(s, s.handle))
       case Creating => s.running && NoneLive(s)
       case Failing => s.running && NoneLive(s)
       case _ => !s.running && NoneLive(s)
  }

  lemma StepKeepsSafe(s: State, a: Action)
    requires Safe(s) && !a.SelfStop?
    ensures Safe(Step(s, a))
  {
  }

  lemma {:induction false} RunKeepsSafe(s: State, actions: seq<Action>)
    requires Safe(s)
    requires forall a :: a in actions ==> !a.SelfStop?
    ensures Safe(Run(s, actions))
    decreases |actions|
  {
    hide Step, Safe;
    if actions != [] {
      StepKeepsSafe(s, actions[0]);
      RunKeepsSafe(Step(s, actions[0]), actions[1..]);
    }
  }

  /** The controller has stopped the worker, or never started it, and is not starting it. */
  predicate Stopped(s: State)
  {
    s.controller.Idle? && !s.running
  }

  ghost predicate AtMostOneLive(s: State)
  {
    forall i, j :: Live(s, i) && Live(s, j) ==> i == j
  }

  /** In every interleaving of the controller with its tasks at most one task has not finished;
      none has once `StopWorker` has returned, and none while the configuration is written. */
  lemma WorkerIsSafe(actions: seq<Action>)
    requires forall a :: a in actions ==> !a.SelfStop?
    ensures var s := Run(Initial(), actions);
            && AtMostOneLive(s)
            && (Stopped(s) || s.controller.Configuring? ==> forall i :: !Live(s, i))
            && (s.controller.Idle? && s.running ==> Live(s, s.handle))
  {
    RunKeepsSafe(Initial(), actions);
    hide Run;
  }

  // ---------- workers that stop themselves ----------

  predicate AllDone(s: State)
  {
    forall id :: id in s.tasks ==> s.tasks[id] == Done
  }

  predicate InLoop(s: State, id: nat)
  {
    OnlyLive(s, id) && (s.tasks[id] == AtLoad || s.tasks[id] == Iterating)
  }

  /** At most one task has not finished, and the controller knows which. */
  predicate Single(s: State)
  {
    && (forall id :: id in s.tasks ==> 0 < id < s.nextId)
    && s.nextId > 0
    && (s.handle == 0 ==> forall id :: id in s.tasks ==> s.tasks[id] != Halting)
    && match s.controller
       case Idle => if s.running then InLoop(s, s.handle) else AllDone(s) || OnlyLive(s, s.handle)
       case Created(id) => id in s.tasks && if s.running then InLoop(s, id) else AllDone(s) || OnlyLive(s, id)
       case Exchanged => !s.running && (AllDone(s) || OnlyLive(s, s.handle))
       case Waiting => !s.running && (AllDone(s) || OnlyLive(s, s.handle))
       case Creating => s.running && AllDone(s)
       case Failing => s.running && AllDone(s)
       case _ => !s.running && AllDone(s)
  }

  /** A start after the worker stopped itself, while its task has not left. */
  predicate EarlyRestart(s: State, a: Action)
  {
    a.Start? && s.controller.Idle? && !s.running && Live(s, s.handle)
  }

  predicate NoEarlyRestart(s: State, actions: seq<Action>)
    decreases |actions|
  {
    actions == [] || (!EarlyRestart(s, actions[0]) && NoEarlyRestart(Step(s, actions[0]), actions[1..]))
  }

  lemma TaskKeepsSingle(s: State, a: Action)
    requires Single(s) && (a.Turn? || a.SelfStop?)
    ensures Single(TaskStep(s, a))
  {
  }

  lemma StopKeepsSingle(s: State, a: Action)
    requires Single(s)
    ensures Single(StopStep(s, a))
  {
  }

  lemma StartKeepsSingle(s: State, a: Action)
    requires Single(s) && !EarlyRestart(s, a)
    ensures Single(StartStep(s, a))
  {
  }

  lemma StepKeepsSingle(s: State, a: Action)
    requires Single(s) && !EarlyRestart(s, a)
    ensures Single(Step(s, a))
  {
    hide Single, EarlyRestart, TaskStep, StopStep, StartStep;
    if a.Turn? || a.SelfStop? {
      TaskKeepsSingle(s, a);
    } else if a.Stop? || a.LoadHandle? || a.Poll? {
      StopKeepsSingle(s, a);
    } else {
      StartKeepsSingle(s, a);
    }
  }

  lemma {:induction false} RunKeepsSingle(s: State, actions: seq<Action>)
    requires Single(s) && NoEarlyRestart(s, actions)
    ensures Single(Run(s, actions))
    decreases |actions|
  {
    hide Step, Single, EarlyRestart;
    if actions != [] {
      StepKeepsSingle(s, actions[0]);
      RunKeepsSingle(Step(s, actions[0]), actions[1..]);
    }
  }

  /** Workers may stop themselves: as long as none is restarted before its task has left, at most
      one task has not finished, and none has while the handle is clear after a stop. */
  lemma SelfStopsAreSafe(actions: seq<Action>)
    requires NoEarlyRestart(Initial(), actions)
    ensures var s := Run(Initial(), actions);
            && AtMostOneLive(s)
            && ((Stopped(s) && s.handle == 0) || s.controller.Configuring? ==> forall i :: !Live(s, i))
  {
    RunKeepsSingle(Initial(), actions);
    hide Run;
  }

  /** Whatever follows a start, restarting early again excepted, one task runs at a time. */
  ghost predicate StartIsSafe(s: State)
  {
    forall actions :: NoEarlyRestart(Step(s, Start), actions) ==> AtMostOneLive(Run(Step(s, Start), actions))
  }

  /** A start of a stopped worker is safe if and only if the task its handle names has left. */
  lemma RestartIsExact(s: State)
    requires Single(s) && Stopped(s)
    ensures StartIsSafe(s) <==> !Live(s, s.handle)
  {
    var z := Step(s, Start);
    if Live(s, s.handle) {
      var two := [Configure, Announce, Create(true)];
      StartingFrom(z);
      assert NoEarlyRestart(z, two);
      assert Live(Run(z, two), s.handle) && Live(Run(z, two), s.nextId);
    } else {
      StepKeepsSingle(s, Start);
      forall actions | NoEarlyRestart(z, actions)
        ensures AtMostOneLive(Run(z, actions))
      {
        RunKeepsSingle(z, actions);
      }
    }
    hide Run, NoEarlyRestart, Single, AtMostOneLive;
  }

  lemma StartingFrom(z: State)
    requires z.controller.Configuring?
    ensures var two := [Configure, Announce, Create(true)];
            && NoEarlyRestart(z, two)
            && Run(z, two) == z.(running := true, tasks := z.tasks[z.nextId := AtLoad],
                                 nextId := z.nextId + 1, controller := Created(z.nextId))
  {
    var a := [Configure, Announce, Create(true)];
    var s1 := Step(z, a[0]);
    var s2 := Step(s1, a[1]);
    var s3 := Step(s2, a[2]);
    assert Run(z, a) == Run(s1, a[1..]) == Run(s2, a[2..]) == s3;
    assert NoEarlyRestart(s2, a[2..]) && NoEarlyRestart(s1, a[1..]);
  }

  // ---------- the wait ends ----------

  /** The operations a task has left once `running` is false. */
  function Left(t: Task): nat
  {
    match t
    case Stopping => 4
    case Iterating => 3
    case AtLoad => 2
    case Leaving => 1
    case Halting => 0
    case Done => 0
  }

  function LeftOf(s: State): nat
  {
    if s.handle in s.tasks then Left(s.tasks[s.handle]) else 0
  }

  function Turns(actions: seq<Action>, id: nat): nat
  {
    if actions == [] then 0
    else (if actions[0] == Turn(id) then 1 else 0) + Turns(actions[1..], id)
  }

  function SelfStops(actions: seq<Action>): nat
  {
    if actions == [] then 0
    else (if actions[0].SelfStop? then 1 else 0) + SelfStops(actions[1..])
  }

  /** The controller is idle at some point of the run. */
  predicate Returns(s: State, actions: seq<Action>)
    decreases |actions|
  {
    s.controller.Idle? || (actions != [] && Returns(Step(s, actions[0]), actions[1..]))
  }

  /** The handle names a task that will never clear it: one that has left already, or one that
      waits for the handle itself. */
  predicate Stuck(s: State)
  {
    s.handle != 0 && (!Live(s, s.handle) || s.tasks[s.handle] == Halting)
  }

  lemma WaitingStep(s: State, a: Action)
    requires Single(s) && s.controller.Waiting? && !Stuck(s)
    ensures var z := Step(s, a);
            && Single(z) && !Stuck(z)
            && (z.controller.Idle? || z.controller.Waiting?)
            && (z.handle == 0
                || (z.handle == s.handle
                    && LeftOf(z) + Turns([a], s.handle) <= LeftOf(s) + SelfStops([a])))
            && (s.handle == 0 && z.controller.Waiting? ==> z.handle == 0)
  {
    StepKeepsSingle(s, a);
  }

  /** Unless the handle is stuck, `StopWorker` returns at the first poll after the task has had its
      last turns, at most three, or four if it is stopping itself, and one more for each stop of its
      own during the wait, however the rest is scheduled. */
  lemma {:induction false} StopReturns(s: State, actions: seq<Action>)
    requires Single(s) && s.controller.Waiting? && !Stuck(s)
    requires s.handle == 0 || Turns(actions, s.handle) >= LeftOf(s) + SelfStops(actions)
    ensures Returns(s, actions + [Poll])
    decreases |actions|
  {
    hide Single, Stuck;
    if actions == [] {
      WaitingStep(s, Poll);
      NothingLeft(s);
      assert (actions + [Poll])[0] == Poll;
    } else {
      var z := Step(s, actions[0]);
      WaitingStep(s, actions[0]);
      assert (actions + [Poll])[1..] == actions[1..] + [Poll];
      if z.controller.Waiting? {
        StopReturns(z, actions[1..]);
      }
    }
  }

  lemma NothingLeft(s: State)
    requires !Stuck(s) && (s.handle == 0 || LeftOf(s) == 0)
    ensures s.handle == 0
  {
  }

  lemma {:induction false} StuckStays(s: State, actions: seq<Action>)
    requires Single(s) && s.controller.Waiting? && Stuck(s)
    ensures Run(s, actions) == s
    decreases |actions|
  {
    if actions != [] {
      StuckStays(s, actions[1..]);
    }
  }

  lemma {:induction false} ReturnsSomewhere(s: State, actions: seq<Action>)
    requires Returns(s, actions)
    ensures exists k :: 0 <= k <= |actions| && Run(s, actions[..k]).controller.Idle?
    decreases |actions|
  {
    hide Step;
    if s.controller.Idle? {
      assert Run(s, actions[..0]).controller.Idle?;
    } else {
      ReturnsSomewhere(Step(s, actions[0]), actions[1..]);
      var k :| 0 <= k <= |actions| - 1 && Run(Step(s, actions[0]), actions[1..][..k]).controller.Idle?;
      assert actions[..k + 1][1..] == actions[1..][..k];
      assert Run(s, actions[..k + 1]).controller.Idle?;
    }
  }

  lemma {:induction false} TurnsOf(id: nat, n: nat)
    ensures Turns(seq(n, _ => Turn(id)), id) == n && SelfStops(seq(n, _ => Turn(id))) == 0
  {
    if n > 0 {
      assert seq(n, _ => Turn(id))[1..] == seq(n - 1, _ => Turn(id));
      TurnsOf(id, n - 1);
    }
  }

  ghost predicate WaitsForever(s: State)
  {
    forall actions :: Run(s, actions).controller.Waiting?
  }

  /** A waiting stop never returns, through any continuation, if and only if its handle is stuck. */
  lemma WaitIsExact(s: State)
    requires Single(s) && s.controller.Waiting?
    ensures WaitsForever(s) <==> Stuck(s)
  {
    if Stuck(s) {
      forall actions ensures Run(s, actions).controller.Waiting? {
        StuckStays(s, actions);
      }
    } else {
      var turns := seq(LeftOf(s), _ => Turn(s.handle));
      TurnsOf(s.handle, LeftOf(s));
      StopReturns(s, turns);
      ReturnsSomewhere(s, turns + [Poll]);
    }
    hide Run, Step, Single, Stuck, LeftOf;
  }

  /** The creator stores the handle of a task that has already left. */
  predicate StoresTooLate(s: State, a: Action)
  {
    a.StoreHandle? && s.controller.Created? && s.controller.id in s.tasks && s.tasks[s.controller.id].Done?
  }

  lemma SticksExactly(s: State, a: Action)
    requires Single(s) && !Stuck(s) && !EarlyRestart(s, a)
    ensures Stuck(Step(s, a)) <==> StoresTooLate(s, a)
  {
  }

  predicate EverStuck(s: State, actions: seq<Action>)
    decreases |actions|
  {
    Stuck(s) || (actions != [] && EverStuck(Step(s, actions[0]), actions[1..]))
  }

  predicate EverStoresTooLate(s: State, actions: seq<Action>)
    decreases |actions|
  {
    actions != [] && (StoresTooLate(s, actions[0]) || EverStoresTooLate(Step(s, actions[0]), actions[1..]))
  }

  lemma {:induction false} RunSticksExactly(s: State, actions: seq<Action>)
    requires Single(s) && !Stuck(s) && NoEarlyRestart(s, actions)
    ensures EverStuck(s, actions) <==> EverStoresTooLate(s, actions)
    decreases |actions|
  {
    hide Step, Single, Stuck, StoresTooLate, EarlyRestart;
    if actions != [] {
      SticksExactly(s, actions[0]);
      StepKeepsSingle(s, actions[0]);
      if !Stuck(Step(s, actions[0])) {
        RunSticksExactly(Step(s, actions[0]), actions[1..]);
      }
    }
  }

  /** In every run without an early restart a stop can come to wait for ever if and only if a task
      stops itself and leaves before its creator has stored its handle. */
  lemma HangIsExact(actions: seq<Action>)
    requires NoEarlyRestart(Initial(), actions)
    ensures EverStuck(Initial(), actions) <==> EverStoresTooLate(Initial(), actions)
  {
    RunSticksExactly(Initial(), actions);
  }

  /** A start that fails leaves nothing behind: no task, and no handle, not even one that was stored
      too late, so that a stop returns at once. */
  lemma FailedStartLeavesNothing(s: State)
    requires Stopped(s) && !Live(s, s.handle)
    ensures Run(s, [Start, Configure, Announce, Create(false), Retract, ClearHandle]) == s.(handle := 0)
    ensures Run(s.(handle := 0), [Stop, LoadHandle]) == s.(handle := 0)
  {
    hide Step;
    var z := s.(handle := 0);
    EachFails(s);
    StopReturnsAtOnce(z);
    var s1, s2 := s.(controller := Configuring), s.(controller := Announcing);
    var s3, s4 := s.(running := true, controller := Creating), s.(running := true, controller := Failing);
    var s5 := s.(controller := Clearing);
    var a := [Start, Configure, Announce, Create(false), Retract, ClearHandle];
    assert Run(s, a) == Run(s1, a[1..]) == Run(s2, a[2..]) == Run(s3, a[3..]) == Run(s4, a[4..]) == Run(s5, a[5..]) == z;
    var b := [Stop, LoadHandle];
    assert Run(z, b) == Run(z.(controller := Exchanged), b[1..]) == z;
  }

  lemma EachFails(s: State)
    requires Stopped(s)
    ensures Step(s, Start) == s.(controller := Configuring)
    ensures Step(s.(controller := Configuring), Configure) == s.(controller := Announcing)
    ensures Step(s.(controller := Announcing), Announce) == s.(running := true, controller := Creating)
    ensures Step(s.(running := true, controller := Creating), Create(false)) == s.(running := true, controller := Failing)
    ensures Step(s.(running := true, controller := Failing), Retract) == s.(controller := Clearing)
    ensures Step(s.(controller := Clearing), ClearHandle) == s.(handle := 0)
  {
  }

  lemma StopReturnsAtOnce(z: State)
    requires Stopped(z) && z.handle == 0
    ensures Step(z, Stop) == z.(controller := Exchanged)
    ensures Step(z.(controller := Exchanged), LoadHandle) == z
  {
  }

  // ---------- runs that go wrong ----------

  lemma {:induction false} RunInTwo(s: State, a: seq<Action>, b: seq<Action>)
    ensures Run(s, a + b) == Run(Run(s, a), b)
    decreases |a|
  {
    hide Step;
    if a == [] {
      assert a + b == b;
    } else {
      assert (a + b)[1..] == a[1..] + b;
      RunInTwo(Step(s, a[0]), a[1..], b);
    }
  }

  function StartActions(): seq<Action>
  {
    [Start, Configure, Announce, Create(true)]
  }

  lemma StartingRuns(s: State)
    requires s.controller.Idle? && !s.running
    ensures Run(s, StartActions())
         == s.(running := true, tasks := s.tasks[s.nextId := AtLoad], nextId := s.nextId + 1, controller := Created(s.nextId))
  {
    var a := StartActions();
    var s1 := Step(s, a[0]);
    var s2 := Step(s1, a[1]);
    var s3 := Step(s2, a[2]);
    assert Run(s, a) == Run(s1, a[1..]) == Run(s2, a[2..]) == Run(s3, a[3..]) == Step(s3, a[3]);
  }

  /** A worker that stops itself and is restarted before it has left its loop. */
  function Restarted(): seq<Action>
  {
    StartActions() + ([StoreHandle, Turn(1), SelfStop(1), Turn(1)] + (StartActions() + [StoreHandle, Turn(2)]))
  }

  lemma StoppingItselfRuns(s: State)
    requires s == State(true, 0, map[1 := AtLoad], 2, Created(1))
    ensures Run(s, [StoreHandle, Turn(1), SelfStop(1), Turn(1)]) == State(false, 1, map[1 := Iterating], 2, Idle)
  {
    var a := [StoreHandle, Turn(1), SelfStop(1), Turn(1)];
    var s1 := Step(s, a[0]);
    var s2 := Step(s1, a[1]);
    assert s2.tasks == map[1 := Iterating];
    var s3 := Step(s2, a[2]);
    assert s3.tasks == map[1 := Stopping];
    var s4 := Step(s3, a[3]);
    assert s4.tasks == map[1 := Iterating];
    assert Run(s, a) == Run(s1, a[1..]) == Run(s2, a[2..]) == Run(s3, a[3..]) == s4;
  }

  lemma BothIterate(s: State)
    requires s == State(true, 1, map[1 := Iterating, 2 := AtLoad], 3, Created(2))
    ensures Run(s, [StoreHandle, Turn(2)]).tasks == map[1 := Iterating, 2 := Iterating]
  {
    var a := [StoreHandle, Turn(2)];
    var s1 := Step(s, a[0]);
    var s2 := Step(s1, a[1]);
    assert s2.tasks == map[1 := Iterating, 2 := Iterating];
    assert Run(s, a) == Run(s1, a[1..]) == s2;
  }

  /** Then two tasks iterate at once. */
  lemma SelfStopRunsTwoTasks()
    ensures Run(Initial(), Restarted()).tasks == map[1 := Iterating, 2 := Iterating]
  {
    hide Run, Step;
    var stop := [StoreHandle, Turn(1), SelfStop(1), Turn(1)];
    var both := [StoreHandle, Turn(2)];
    StartingRuns(Initial());
    var s1 := Run(Initial(), StartActions());
    RunInTwo(Initial(), StartActions(), stop + (StartActions() + both));
    StoppingItselfRuns(s1);
    var s2 := Run(s1, stop);
    RunInTwo(s1, stop, StartActions() + both);
    StartingRuns(s2);
    var s3 := Run(s2, StartActions());
    RunInTwo(s2, StartActions(), both);
    BothIterate(s3);
  }

  /** A worker that stops itself, and leaves, before its creator has stored its handle. */
  function LeftEarly(): seq<Action>
  {
    StartActions() + (([Turn(1), SelfStop(1), Turn(1)] + [Turn(1), Turn(1), Turn(1)]) + [StoreHandle, Stop, LoadHandle])
  }

  lemma StoppingEarlyRuns(s: State)
    requires s == State(true, 0, map[1 := AtLoad], 2, Created(1))
    ensures Run(s, [Turn(1), SelfStop(1), Turn(1)]) == State(false, 0, map[1 := Iterating], 2, Created(1))
  {
    var a := [Turn(1), SelfStop(1), Turn(1)];
    var s1 := Step(s, a[0]);
    assert s1.tasks == map[1 := Iterating];
    var s2 := Step(s1, a[1]);
    assert s2.tasks == map[1 := Stopping];
    var s3 := Step(s2, a[2]);
    assert s3.tasks == map[1 := Iterating];
    assert Run(s, a) == Run(s1, a[1..]) == Run(s2, a[2..]) == s3;
  }

  lemma LeavingRuns(s: State)
    requires s == State(false, 0, map[1 := Iterating], 2, Created(1))
    ensures Run(s, [Turn(1), Turn(1), Turn(1)]) == State(false, 0, map[1 := Done], 2, Created(1))
  {
    var a := [Turn(1), Turn(1), Turn(1)];
    var s1 := Step(s, a[0]);
    assert s1.tasks == map[1 := AtLoad];
    var s2 := Step(s1, a[1]);
    assert s2.tasks == map[1 := Leaving];
    var s3 := Step(s2, a[2]);
    assert s3.tasks == map[1 := Done];
    assert Run(s, a) == Run(s1, a[1..]) == Run(s2, a[2..]) == s3;
  }

  lemma StoringLateRuns(s: State)
    requires s == State(false, 0, map[1 := Done], 2, Created(1))
    ensures Run(s, [StoreHandle, Stop, LoadHandle]) == State(false, 1, map[1 := Done], 2, Waiting)
  {
    var a := [StoreHandle, Stop, LoadHandle];
    var s1 := Step(s, a[0]);
    var s2 := Step(s1, a[1]);
    assert Run(s, a) == Run(s1, a[1..]) == Run(s2, a[2..]) == Step(s2, a[2]);
  }

  /** Then a later `StopWorker` waits for ever. */
  lemma SelfStopHangsTheController()
    ensures var s := Run(Initial(), LeftEarly()); s.controller.Waiting? && WaitsForever(s)
  {
    hide Run, Step;
    var stop := [Turn(1), SelfStop(1), Turn(1)];
    var leave := [Turn(1), Turn(1), Turn(1)];
    var late := [StoreHandle, Stop, LoadHandle];
    StartingRuns(Initial());
    var s1 := Run(Initial(), StartActions());
    RunInTwo(Initial(), StartActions(), (stop + leave) + late);
    RunInTwo(s1, stop + leave, late);
    RunInTwo(s1, stop, leave);
    StoppingEarlyRuns(s1);
    var s2 := Run(s1, stop);
    LeavingRuns(s2);
    var s3 := Run(s2, leave);
    StoringLateRuns(s3);
    WaitIsExact(Run(s3, late));
  }

  /** The same worker is started again, and its new task stops itself before its handle is stored. */
  function StoppedTwice(): seq<Action>
  {
    StartActions() + (([Turn(1), SelfStop(1), Turn(1)] + [Turn(1), Turn(1), Turn(1)])
                      + ([StoreHandle] + (StartActions() + [Turn(2), SelfStop(2), Turn(2), StoreHandle, Stop, LoadHandle])))
  }

  lemma StoringRuns(s: State)
    requires s == State(false, 0, map[1 := Done], 2, Created(1))
    ensures Run(s, [StoreHandle]) == State(false, 1, map[1 := Done], 2, Idle)
  {
  }

  lemma HaltingRuns(s: State)
    requires s == State(true, 1, map[1 := Done, 2 := AtLoad], 3, Created(2))
    ensures Run(s, [Turn(2), SelfStop(2), Turn(2), StoreHandle, Stop, LoadHandle])
         == State(false, 2, map[1 := Done, 2 := Halting], 3, Waiting)
  {
    var a := [Turn(2), SelfStop(2), Turn(2), StoreHandle, Stop, LoadHandle];
    var s1 := Step(s, a[0]);
    assert s1.tasks == map[1 := Done, 2 := Iterating];
    var s2 := Step(s1, a[1]);
    assert s2.tasks == map[1 := Done, 2 := Stopping];
    var s3 := Step(s2, a[2]);
    assert s3.tasks == map[1 := Done, 2 := Halting];
    var s4 := Step(s3, a[3]);
    var s5 := Step(s4, a[4]);
    assert Run(s, a) == Run(s1, a[1..]) == Run(s2, a[2..]) == Run(s3, a[3..]) == Run(s4, a[4..]) == Run(s5, a[5..])
        == Step(s5, a[5]);
  }

  /** Then the task waits, inside its own iteration, for its own end, and a stop waits for it. */
  lemma SelfStopHangsTheTask()
    ensures Run(Initial(), StoppedTwice()) == State(false, 2, map[1 := Done, 2 := Halting], 3, Waiting)
    ensures WaitsForever(Run(Initial(), StoppedTwice()))
  {
    hide Run, Step;
    var stop := [Turn(1), SelfStop(1), Turn(1)];
    var leave := [Turn(1), Turn(1), Turn(1)];
    var last := [Turn(2), SelfStop(2), Turn(2), StoreHandle, Stop, LoadHandle];
    StartingRuns(Initial());
    var s1 := Run(Initial(), StartActions());
    RunInTwo(Initial(), StartActions(), (stop + leave) + ([StoreHandle] + (StartActions() + last)));
    RunInTwo(s1, stop + leave, [StoreHandle] + (StartActions() + last));
    RunInTwo(s1, stop, leave);
    StoppingEarlyRuns(s1);
    var s2 := Run(s1, stop);
    LeavingRuns(s2);
    var s3 := Run(s2, leave);
    StoringRuns(s3);
    var s4 := Run(s3, [StoreHandle]);
    RunInTwo(s3, [StoreHandle], StartActions() + last);
    StartingRuns(s4);
    var s5 := Run(s4, StartActions());
    RunInTwo(s4, StartActions(), last);
    HaltingRuns(s5);
    WaitIsExact(Run(s5, last));
  }
}
