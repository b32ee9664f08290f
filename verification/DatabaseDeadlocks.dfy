/** When the threads of the database wait for each other for ever: exactly the states from which
    the worker can no longer end, and runs that lead to them. */
module DatabaseDeadlocks {
  import opened DatabaseWorker

  // ----- what the stop flag says, in every state reached -----

  // Who is inside start past its test, or inside stop past it, has left _stop set until the thread
  // is created, and only a flush that waits leaves it set beside a worker at work.
  ghost predicate Stops(s: State) {
    var c := Inside(s, s.startMutex);
    && (c.Restarting? || c.Joining? || c.Resetting? || c.Clearing? || c.Signalling? || c.Awaiting? ==> s.stop)
    && (c.Spawning? ==> !s.stop)
    && (s.stop && (Active(s.worker) || s.worker.Quitting?) ==> c.Signalling? || c == Awaiting(false))
    && (Inside(s, s.mutex).Starting? || Inside(s, s.mutex).Owning? ==> s.stop)
  }

  lemma LookingKeepsStops(s: State, step: Step)
    requires Inv(s) && Stops(s) && Can(s, step) && ByTheWorker(step) && !step.Quit? && !step.End?
    ensures Stops(Do(s, step))
  {
    assert Do(s, step).callers == s.callers;
  }

  lemma EndingKeepsStops(s: State, step: Step)
    requires Inv(s) && Stops(s) && Can(s, step) && (step.Quit? || step.End?)
    ensures Stops(Do(s, step))
  {
    assert Do(s, step).callers == s.callers;
  }

  // The steps of flush.
  predicate ByAFlush(step: Step) {
    step.Flush? || step.FlushLockStop? || step.FlushTest? || step.FlushSignal? || step.FlushJoin?
  }

  lemma FlushKeepsStops(s: State, step: Step)
    requires Inv(s) && Stops(s) && Can(s, step) && ByAFlush(step)
    ensures Stops(Do(s, step))
  {
  }

  lemma AddKeepsStops(s: State, step: Step)
    requires Inv(s) && Stops(s) && Can(s, step) && !ByTheWorker(step) && !ByAFlush(step)
    ensures Stops(Do(s, step))
  {
  }

  lemma {:induction false} RunKeepsStops(s: State, steps: seq<Step>)
    requires Inv(s) && Stops(s) && CanRun(s, steps)
    ensures Inv(Run(s, steps)) && Stops(Run(s, steps))
    decreases |steps|
  {
    if steps != [] {
      StepKeepsInv(s, steps[0]);
      StepKeepsStops(s, steps[0]);
      RunKeepsStops(Do(s, steps[0]), steps[1..]);
    }
  }

  lemma StepKeepsStops(s: State, step: Step)
    requires Inv(s) && Stops(s) && Can(s, step)
    ensures Stops(Do(s, step))
  {
    if step.Quit? || step.End? {
      EndingKeepsStops(s, step);
    } else if ByTheWorker(step) {
      LookingKeepsStops(s, step);
    } else if ByAFlush(step) {
      FlushKeepsStops(s, step);
    } else {
      AddKeepsStops(s, step);
    }
  }

  lemma ReachableStops(s: State)
    requires Reachable(s)
    ensures Inv(s) && Stops(s)
  {
    var steps :| CanRun(INITIAL, steps) && Run(INITIAL, steps) == s;
    InitialInv();
    RunKeepsStops(INITIAL, steps);
  }

  // ----- the worker that can no longer end -----

  // It has left run and wants the stop mutex, which one that waits for it has.
  predicate EndBlocked(s: State) {
    s.worker.Ending? && s.stopMutex != Free
  }

  // It has to look at the queue, whose mutex an add has that will wait for the flush that waits
  // for the worker.
  predicate LookBlocked(s: State) {
    Active(s.worker) && s.stop && (Inside(s, s.mutex).Entered? || Inside(s, s.mutex).Starting?)
  }

  predicate Doomed(s: State) {
    EndBlocked(s) || LookBlocked(s)
  }

  lemma StepKeepsEndBlocked(s: State, step: Step)
    requires Inv(s) && Stops(s) && EndBlocked(s) && Can(s, step)
    ensures EndBlocked(Do(s, step))
  {
  }

  lemma WorkerKeepsLookBlocked(s: State, step: Step)
    requires Inv(s) && LookBlocked(s) && Can(s, step) && ByTheWorker(step)
    ensures LookBlocked(Do(s, step))
  {
    assert Do(s, step).callers == s.callers;
  }

  lemma StepKeepsLookBlocked(s: State, step: Step)
    requires Inv(s) && Stops(s) && LookBlocked(s) && Can(s, step)
    ensures LookBlocked(Do(s, step))
  {
    if ByTheWorker(step) {
      WorkerKeepsLookBlocked(s, step);
    } else {
      assert Inside(s, s.startMutex).Signalling? || Inside(s, s.startMutex) == Awaiting(false);
    }
  }

  lemma {:induction false} RunStaysDoomed(s: State, steps: seq<Step>)
    requires Inv(s) && Stops(s) && Doomed(s) && CanRun(s, steps)
    ensures Doomed(Run(s, steps))
    decreases |steps|
  {
    if steps != [] {
      StepKeepsInv(s, steps[0]);
      StepKeepsStops(s, steps[0]);
      if EndBlocked(s) {
        StepKeepsEndBlocked(s, steps[0]);
      } else {
        StepKeepsLookBlocked(s, steps[0]);
      }
      RunStaysDoomed(Do(s, steps[0]), steps[1..]);
    }
  }

  // ----- and the one that can -----

  // Some run without a failing write brings the worker to its end.
  ghost predicate CanEnd(s: State) {
    exists steps :: CanRun(s, steps) && NoWriteFails(steps) && Joinable(Run(s, steps).worker)
  }

  lemma CanEndAfter(s: State, step: Step)
    requires Can(s, step) && step != Process(true) && CanEnd(Do(s, step))
    ensures CanEnd(s)
  {
    var steps :| CanRun(Do(s, step), steps) && NoWriteFails(steps) && Joinable(Run(Do(s, step), steps).worker);
    var all := [step] + steps;
    assert all[1..] == steps;
    assert CanRun(s, all) && Run(s, all) == Run(Do(s, step), steps);
  }

  lemma EndedCanEnd(s: State)
    requires Joinable(s.worker)
    ensures CanEnd(s)
  {
    assert CanRun(s, []) && Run(s, []) == s;
  }

  lemma EndingCanEnd(s: State)
    requires s.worker.Ending? && s.stopMutex == Free
    ensures CanEnd(s)
  {
    EndedCanEnd(Do(s, End));
    CanEndAfter(s, End);
  }

  lemma QuittingCanEnd(s: State)
    requires Inv(s) && Stops(s) && s.worker.Quitting?
    ensures CanEnd(s)
  {
    if s.stopMutex == Free {
      EndingCanEnd(Do(s, Quit));
      CanEndAfter(s, Quit);
    } else {
      var t := s.stopMutex.t;
      QuittingMeetsHalting(s, t);
      var s1 := Do(s, FlushTest(t));
      EndingCanEnd(Do(s1, Quit));
      CanEndAfter(s1, Quit);
      CanEndAfter(s, FlushTest(t));
    }
  }

  // While the worker holds the database's mutex, only a flush before its test can hold the stop mutex.
  lemma QuittingMeetsHalting(s: State, t: Tid)
    requires Inv(s) && Stops(s) && s.worker.Quitting? && s.stopMutex == ByCaller(t)
    ensures At(s, t).Halting? && !s.stop
  {
    assert HoldsStopMutex(At(s, t)) && !HoldsMutex(At(s, t));
    assert HoldsStartMutex(At(s, t));
  }

  // The worker's own next step, without a failure and without waiting to be woken.
  function Onward(s: State): Step
    requires Active(s.worker)
  {
    match s.worker
    case FallingAsleep => Sleep
    case Asleep => TimeOut
    case Awake(_) => SleepEnds
    case Looking(_) => Look
    case Processing(_, _) => Process(false)
    case Popping(_, _, _) => Pop
  }

  // How far it is from the next entry, or from its end.
  function Distance(w: Worker): nat {
    match w
    case Awake(t) => if t == WAKEUP then 8 else 4
    case Looking(t) => if t == WAKEUP then 7 else 3
    case FallingAsleep => 6
    case Asleep => 5
    case Processing(_, _) => 2
    case _ => 1
  }

  lemma OnwardComesCloser(s: State)
    requires Order(s) && Active(s.worker) && s.mutex == Free
    ensures Can(s, Onward(s)) && Onward(s) != Process(true)
    ensures var s' := Do(s, Onward(s));
            || s'.worker.Quitting?
            || (Active(s'.worker) && s'.mutex == Free
                && (|s'.entries| < |s.entries|
                    || (|s'.entries| == |s.entries| && Distance(s'.worker) < Distance(s.worker))))
  {
  }

  lemma {:induction false} FreeCanEnd(s: State)
    requires Inv(s) && Stops(s) && Active(s.worker) && s.mutex == Free
    ensures CanEnd(s)
    decreases |s.entries|, Distance(s.worker)
  {
    var s' := Do(s, Onward(s));
    OnwardComesCloser(s);
    StepKeepsInv(s, Onward(s));
    StepKeepsStops(s, Onward(s));
    if s'.worker.Quitting? {
      QuittingCanEnd(s');
    } else {
      FreeCanEnd(s');
    }
    CanEndAfter(s, Onward(s));
  }

  // Beside a worker at work, an add that will not wait for a flush leaves the mutex.
  lemma ActiveMeetsAdd(s: State, t: Tid)
    requires Inv(s) && Stops(s) && Active(s.worker) && !LookBlocked(s) && s.mutex == ByCaller(t)
    ensures At(s, t).Pushing? || At(s, t).Waking? || (At(s, t).Entered? && !s.stop)
  {
    assert HoldsMutex(At(s, t));
    if HoldsStartMutex(At(s, t)) {
      assert s.startMutex == ByCaller(t);
    }
  }

  lemma WakingCanEnd(s: State, t: Tid)
    requires Inv(s) && Stops(s) && Active(s.worker) && At(s, t).Waking?
    ensures CanEnd(s)
  {
    StepKeepsInv(s, WakeUp(t));
    StepKeepsStops(s, WakeUp(t));
    FreeCanEnd(Do(s, WakeUp(t)));
    CanEndAfter(s, WakeUp(t));
  }

  lemma PushingCanEnd(s: State, t: Tid)
    requires Inv(s) && Stops(s) && Active(s.worker) && At(s, t).Pushing?
    ensures CanEnd(s)
  {
    StepKeepsInv(s, Push(t));
    StepKeepsStops(s, Push(t));
    WakingCanEnd(Do(s, Push(t)), t);
    CanEndAfter(s, Push(t));
  }

  lemma ActiveCanEnd(s: State)
    requires Inv(s) && Stops(s) && Active(s.worker) && !LookBlocked(s)
    ensures CanEnd(s)
  {
    if s.mutex == Free {
      FreeCanEnd(s);
    } else {
      var t := s.mutex.t;
      ActiveMeetsAdd(s, t);
      match At(s, t)
      case Waking(_) => WakingCanEnd(s, t);
      case Pushing(_) => PushingCanEnd(s, t);
      case Entered(_) =>
        StepKeepsInv(s, TestRunning(t));
        StepKeepsStops(s, TestRunning(t));
        PushingCanEnd(Do(s, TestRunning(t)), t);
        CanEndAfter(s, TestRunning(t));
    }
  }

  // From a state that is reached the worker can end, all writes going well, if and only if it is
  // not doomed; from a doomed one it does not end whatever the threads do.
  lemma WorkerCanEndExactly(s: State)
    requires Reachable(s) && !Joinable(s.worker)
    ensures CanEnd(s) <==> !Doomed(s)
    ensures Doomed(s) ==> forall steps :: CanRun(s, steps) ==> !Joinable(Run(s, steps).worker)
  {
    ReachableStops(s);
    if Doomed(s) {
      forall steps | CanRun(s, steps) ensures !Joinable(Run(s, steps).worker) {
        RunStaysDoomed(s, steps);
      }
    } else if s.worker.Ending? {
      EndingCanEnd(s);
    } else if s.worker.Quitting? {
      QuittingCanEnd(s);
    } else {
      ActiveCanEnd(s);
    }
  }

  // ----- the caller that waits for it -----

  // Waiting for the worker to end, the stop mutex held.
  predicate WaitsLocked(c: Caller) {
    c.Joining? || c == Awaiting(true)
  }

  lemma StepKeepsWaiting(s: State, t: Tid, step: Step)
    requires Inv(s) && s.worker.Ending? && WaitsLocked(At(s, t)) && Can(s, step)
    ensures Do(s, step).worker == s.worker && At(Do(s, step), t) == At(s, t)
  {
    assert HoldsStopMutex(At(s, t));
    assert HoldsStartMutex(At(s, t));
  }

  lemma {:induction false} RunKeepsWaiting(s: State, t: Tid, steps: seq<Step>)
    requires Inv(s) && s.worker.Ending? && WaitsLocked(At(s, t)) && CanRun(s, steps)
    ensures At(Run(s, steps), t) == At(s, t)
    decreases |steps|
  {
    if steps != [] {
      StepKeepsInv(s, steps[0]);
      StepKeepsWaiting(s, t, steps[0]);
      RunKeepsWaiting(Do(s, steps[0]), t, steps[1..]);
    }
  }

  // The thread is where it is for good.
  ghost predicate Stuck(s: State, t: Tid) {
    forall steps :: CanRun(s, steps) ==> At(Run(s, steps), t) == At(s, t)
  }

  lemma StepEndsWait(s: State, t: Tid, step: Step)
    requires Can(s, step) && At(Do(s, step), t) != At(s, t)
    ensures !Stuck(s, t)
  {
    assert [step][1..] == [];
    assert CanRun(Do(s, step), []);
    assert CanRun(s, [step]) && Run(s, [step]) == Do(s, step);
  }

  // The next step of a thread that has the stop mutex.
  function Released(s: State, t: Tid): Step
    requires HoldsStopMutex(At(s, t))
  {
    match At(s, t)
    case Joining(_) => JoinLast(t)
    case Resetting(_) => ResetSignal(t)
    case Clearing(_) => ClearStop(t)
    case Spawning(_) => Spawn(t)
    case Halting => FlushTest(t)
    case _ => FlushJoin(t)
  }

  lemma HolderMeetsNoWorkerAtWork(s: State, t: Tid)
    requires Inv(s) && Stops(s) && WaitsLocked(At(s, t))
    ensures s.worker.Ending? || Joinable(s.worker)
  {
    assert HoldsStartMutex(At(s, t));
    assert s.startMutex == ByCaller(t);
  }

  // A thread that has the stop mutex keeps it for ever if and only if it waits for the worker to
  // end while the worker waits for this very mutex to end.
  lemma HolderIsStuckExactly(s: State, t: Tid)
    requires Reachable(s) && HoldsStopMutex(At(s, t))
    ensures Stuck(s, t) <==> s.worker.Ending? && WaitsLocked(At(s, t))
  {
    ReachableStops(s);
    if s.worker.Ending? && WaitsLocked(At(s, t)) {
      forall steps | CanRun(s, steps) ensures At(Run(s, steps), t) == At(s, t) {
        RunKeepsWaiting(s, t, steps);
      }
    } else {
      if WaitsLocked(At(s, t)) {
        HolderMeetsNoWorkerAtWork(s, t);
      }
      StepEndsWait(s, t, Released(s, t));
    }
  }

  // Joining under both mutexes of a caller of add leaves no thread a step at all.
  lemma JoiningTooEarlyIsForEver(s: State, t: Tid)
    requires Inv(s) && s.worker.Ending? && At(s, t).Joining?
    ensures forall step :: !Can(s, step)
  {
    assert HoldsMutex(At(s, t)) && HoldsStartMutex(At(s, t)) && HoldsStopMutex(At(s, t));
    forall step | Can(s, step) ensures false {
    }
  }

  // ----- runs that lead there -----

  // A caller comes when no worker runs, up to the joining of the last one.
  lemma ReachJoining(s: State, e: Entry) returns (s': State)
    requires Reachable(s) && At(s, 0).Out? && s.stop && s.mutex == s.startMutex == s.stopMutex == Free
    ensures Reachable(s') && At(s', 0) == Joining(e) && At(s', 1) == At(s, 1)
    ensures s' == s.(callers := s'.callers, mutex := ByCaller(0), startMutex := ByCaller(0), stopMutex := ByCaller(0))
  {
    s' := Reach(s, Enter(0, e));
    s' := Reach(s', TestRunning(0));
    s' := Reach(s', LockStart(0));
    s' := Reach(s', TestStopped(0));
    s' := Reach(s', LockStop(0));
  }

  lemma ReachCleared(s: State, e: Entry) returns (s': State)
    requires Reachable(s) && At(s, 0) == Joining(e) && Joinable(s.worker)
    ensures Reachable(s') && At(s', 0) == Clearing(e) && At(s', 1) == At(s, 1)
    ensures s' == s.(callers := s'.callers, signal := false, worker := Absent)
  {
    s' := Reach(s, JoinLast(0));
    s' := Reach(s', ResetSignal(0));
  }

  lemma ReachSpawned(s: State, e: Entry) returns (s': State)
    requires Reachable(s) && At(s, 0) == Clearing(e)
    ensures Reachable(s') && At(s', 0) == Pushing(e) && At(s', 1) == At(s, 1)
    ensures s' == s.(callers := s'.callers, stop := false, worker := FallingAsleep,
                     startMutex := Free, stopMutex := Free)
  {
    s' := Reach(s, ClearStop(0));
    s' := Reach(s', Spawn(0));
  }

  lemma ReachStarted(s: State, e: Entry) returns (s': State)
    requires Reachable(s) && At(s, 0) == Joining(e) && Joinable(s.worker)
    ensures Reachable(s') && At(s', 0).Out? && At(s', 1) == At(s, 1)
    ensures !s'.stop && s'.signal && s'.worker == FallingAsleep
    ensures s'.entries == s.entries + [e] && s'.mutex == s'.startMutex == s'.stopMutex == Free
  {
    s' := ReachCleared(s, e);
    s' := ReachSpawned(s', e);
    s' := Reach(s', Push(0));
    s' := Reach(s', WakeUp(0));
  }

  lemma ReachTimeOut(s: State) returns (s': State)
    requires Reachable(s) && s.worker.FallingAsleep? && !s.stop && s.entries == [] && s.mutex == s.stopMutex == Free
    ensures Reachable(s') && s' == s.(worker := Ending(false), signal := false, stop := true)
  {
    s' := Reach(s, Sleep);
    s' := Reach(s', TimeOut);
    s' := Reach(s', SleepEnds);
    s' := Reach(s', Look);
    s' := Reach(s', Quit);
  }

  lemma ReachEmpty(s: State) returns (s': State)
    requires Reachable(s) && s.worker.FallingAsleep? && !s.stop && s.signal && |s.entries| == 1 && s.mutex == Free
    ensures Reachable(s') && s'.worker.FallingAsleep? && s'.entries == []
    ensures s' == s.(worker := s'.worker, entries := s'.entries, written := s'.written, signal := s'.signal)
  {
    s' := Reach(s, Sleep);
    s' := Reach(s', BeWoken);
    s' := Reach(s', SleepEnds);
    s' := Reach(s', Look);
    s' := Reach(s', Process(false));
    s' := Reach(s', Pop);
    s' := Reach(s', Look);
  }

  // An entry is added and written, and a minute passes without any other.
  lemma ReachEnding(e: Entry) returns (s: State)
    ensures Reachable(s) && s.worker.Ending? && s.stop && At(s, 0).Out? && At(s, 1).Out?
    ensures s.mutex == s.startMutex == s.stopMutex == Free
  {
    s := ReachWorker(e);
    s := ReachEmpty(s);
    s := ReachTimeOut(s);
  }

  lemma ReachWorker(e: Entry) returns (s: State)
    ensures Reachable(s) && s.worker.FallingAsleep? && !s.stop && s.signal && |s.entries| == 1
    ensures s.mutex == s.startMutex == s.stopMutex == Free && At(s, 0).Out? && At(s, 1).Out?
  {
    assert CanRun(INITIAL, []) && Run(INITIAL, []) == INITIAL;
    s := ReachJoining(INITIAL, e);
    s := ReachStarted(s, e);
  }

  // Another one is added between the worker's last look and its end.
  lemma JoiningTooEarlyIsReachable(e: Entry)
    ensures exists s: State :: Reachable(s) && s.worker.Ending? && At(s, 0).Joining? && forall step :: !Can(s, step)
  {
    var s := ReachEnding(e);
    s := ReachJoining(s, e);
    ReachableInv(s);
    JoiningTooEarlyIsForEver(s, 0);
  }

  // Or a flush comes there.
  lemma FlushingTooEarlyIsReachable(e: Entry)
    ensures exists s: State :: Reachable(s) && s.worker.Ending? && At(s, 1) == Awaiting(true) && Stuck(s, 1)
  {
    var s := ReachEnding(e);
    s := Reach(s, Flush(1));
    s := Reach(s, FlushLockStop(1));
    s := Reach(s, FlushTest(1));
    HolderIsStuckExactly(s, 1);
  }

  lemma ReachFlush(s: State) returns (s': State)
    requires Reachable(s) && At(s, 1).Out? && !s.stop && s.startMutex == s.stopMutex == Free
    ensures Reachable(s') && At(s', 0) == At(s, 0) && At(s', 1) == Awaiting(false)
    ensures s'.stop && s'.worker == s.worker && s'.mutex == s.mutex
  {
    s' := Reach(s, Flush(1));
    s' := Reach(s', FlushLockStop(1));
    s' := Reach(s', FlushTest(1));
    s' := Reach(s', FlushSignal(1));
  }

  // Or an add takes the mutex while a flush waits for a worker that has yet to look.
  lemma AddingDuringFlushIsReachable(e: Entry)
    ensures exists s: State :: Reachable(s) && LookBlocked(s) && At(s, 0).Starting? && At(s, 1) == Awaiting(false)
  {
    var s := ReachWorker(e);
    s := ReachFlush(s);
    s := Reach(s, Enter(0, e));
    s := Reach(s, TestRunning(0));
  }
}
