/** The database's write queue: threads that add entries, threads that flush, and the one worker
    thread that writes the entries, step by step between their locks. */
module DatabaseWorker {

  type Entry = seq<char>
  type Tid = nat

  datatype WakeUpType = WAKEUP | TIMEOUT | STOP

  // Where a calling thread is. The first ones are inside Database::add or remove.
  datatype Caller =
    | Out
    | Entered(e: Entry)      // holds the database's mutex, about to test running()
    | Starting(e: Entry)     // in Startable::start, wants its mutex
    | Owning(e: Entry)       // holds it, about to test _stop
    | Restarting(e: Entry)   // wants the stop mutex
    | Joining(e: Entry)      // holds it, waits for the last thread to end
    | Resetting(e: Entry)    // about to reset the signal
    | Clearing(e: Entry)     // about to clear _stop
    | Spawning(e: Entry)     // about to create the thread
    | Pushing(e: Entry)      // about to push the entry
    | Waking(e: Entry)       // pushed, about to set the signal
    // inside flush, which is Startable::stop
    | Flushing               // holds the startable's mutex, wants the stop mutex
    | Halting                // holds both, about to test _stop
    | Signalling             // holds the startable's mutex, about to set the signal
    | Awaiting(locked: bool) // waits for the thread to end, the stop mutex held or not

  datatype Worker =
    | Absent
    | FallingAsleep                  // in sleep, about to test _stop
    | Asleep                         // in Signal::wait
    | Awake(t: WakeUpType)           // out of it, about to test _stop
    | Looking(t: WakeUpType)         // about to look at the queue under the database's mutex
    | Processing(t: WakeUpType, e: Entry)
    | Popping(t: WakeUpType, e: Entry, failed: bool)
    | Quitting(failed: bool)         // holds the database's mutex, about to stop
    | Ending(failed: bool)           // run has returned, about to set _stop once more
    | Ended(failed: bool)            // to be joined

  datatype Owner = Free | ByWorker | ByCaller(t: Tid)

  datatype State = State(
    entries: seq<Entry>,   // the queue
    accepted: seq<Entry>,  // what was ever pushed
    written: seq<Entry>,   // what the worker has taken off the queue
    signal: bool,
    stop: bool,
    worker: Worker,
    callers: map<Tid, Caller>,
    mutex: Owner,          // Database::_mutex
    startMutex: Owner,     // Startable::_mutex
    stopMutex: Owner)      // Startable::_mutexStop

  datatype Step =
    | Enter(t: Tid, e: Entry) | TestRunning(t: Tid) | LockStart(t: Tid) | TestStopped(t: Tid) | LockStop(t: Tid)
    | JoinLast(t: Tid) | ResetSignal(t: Tid) | ClearStop(t: Tid) | Spawn(t: Tid) | SpawnFails(t: Tid)
    | Push(t: Tid) | WakeUp(t: Tid)
    | Flush(t: Tid) | FlushLockStop(t: Tid) | FlushTest(t: Tid) | FlushSignal(t: Tid) | FlushJoin(t: Tid)
    | Sleep | BeWoken | TimeOut | SleepEnds | Look | Process(failed: bool) | Pop | Quit | End

  const INITIAL: State := State([], [], [], false, true, Absent, map[], Free, Free, Free)

  function At(s: State, t: Tid): Caller {
    if t in s.callers then s.callers[t] else Out
  }

  function Move(s: State, t: Tid, c: Caller): State {
    s.(callers := s.callers[t := c])
  }

  predicate Joinable(w: Worker) {
    w.Absent? || w.Ended?
  }

  // The step is next for its thread and no lock keeps it waiting.
  predicate Can(s: State, step: Step) {
    match step
    case Enter(t, _) => At(s, t).Out? && s.mutex == Free
    case TestRunning(t) => At(s, t).Entered?
    case LockStart(t) => At(s, t).Starting? && s.startMutex == Free
    case TestStopped(t) => At(s, t).Owning?
    case LockStop(t) => At(s, t).Restarting? && s.stopMutex == Free
    case JoinLast(t) => At(s, t).Joining? && Joinable(s.worker)
    case ResetSignal(t) => At(s, t).Resetting?
    case ClearStop(t) => At(s, t).Clearing?
    case Spawn(t) => At(s, t).Spawning?
    case SpawnFails(t) => At(s, t).Spawning?
    case Push(t) => At(s, t).Pushing?
    case WakeUp(t) => At(s, t).Waking?
    case Flush(t) => At(s, t).Out? && s.startMutex == Free
    case FlushLockStop(t) => At(s, t).Flushing? && s.stopMutex == Free
    case FlushTest(t) => At(s, t).Halting?
    case FlushSignal(t) => At(s, t).Signalling?
    case FlushJoin(t) => At(s, t).Awaiting? && Joinable(s.worker)
    case Sleep => s.worker.FallingAsleep?
    case BeWoken => s.worker.Asleep? && s.signal
    case TimeOut => s.worker.Asleep?
    case SleepEnds => s.worker.Awake?
    case Look => s.worker.Looking? && s.mutex == Free
    case Process(_) => s.worker.Processing?
    case Pop => s.worker.Popping? && s.mutex == Free && s.entries != []
    case Quit => s.worker.Quitting? && s.stopMutex == Free
    case End => s.worker.Ending? && s.stopMutex == Free
  }

  function Do(s: State, step: Step): State
    requires Can(s, step)
  {
    match step
    // Database::add
    case Enter(t, e) => Move(s, t, Entered(e)).(mutex := ByCaller(t))
    case TestRunning(t) => Move(s, t, if s.stop then Starting(At(s, t).e) else Pushing(At(s, t).e))
    case Push(t) =>
      var e := At(s, t).e;
      Move(s, t, Waking(e)).(entries := s.entries + [e], accepted := s.accepted + [e])
    case WakeUp(t) => Move(s, t, Out).(signal := true, mutex := Free)
    // Startable::start
    case LockStart(t) => Move(s, t, Owning(At(s, t).e)).(startMutex := ByCaller(t))
    case TestStopped(t) =>
      if s.stop then Move(s, t, Restarting(At(s, t).e))
      else Move(s, t, Pushing(At(s, t).e)).(startMutex := Free)
    case LockStop(t) => Move(s, t, Joining(At(s, t).e)).(stopMutex := ByCaller(t))
    case JoinLast(t) => Move(s, t, Resetting(At(s, t).e)).(worker := Absent)
    case ResetSignal(t) => Move(s, t, Clearing(At(s, t).e)).(signal := false)
    case ClearStop(t) => Move(s, t, Spawning(At(s, t).e)).(stop := false)
    case Spawn(t) =>
      Move(s, t, Pushing(At(s, t).e)).(worker := FallingAsleep, startMutex := Free, stopMutex := Free)
    case SpawnFails(t) =>
      Move(s, t, Out).(stop := true, mutex := Free, startMutex := Free, stopMutex := Free)
    // Startable::stop
    case Flush(t) => Move(s, t, Flushing).(startMutex := ByCaller(t))
    case FlushLockStop(t) => Move(s, t, Halting).(stopMutex := ByCaller(t))
    case FlushTest(t) =>
      if s.stop then Move(s, t, Awaiting(true))
      else Move(s, t, Signalling).(stop := true, stopMutex := Free)
    case FlushSignal(t) => Move(s, t, Awaiting(false)).(signal := true)
    case FlushJoin(t) =>
      Move(s, t, Out).(worker := Absent, startMutex := Free,
                       stopMutex := if At(s, t).locked then Free else s.stopMutex)
    // Startable::sleep and Signal::wait
    case Sleep => s.(worker := if s.stop then Looking(STOP) else Asleep)
    case BeWoken => s.(worker := Awake(WAKEUP), signal := false)
    case TimeOut => s.(worker := Awake(TIMEOUT), signal := false)
    case SleepEnds => s.(worker := Looking(if s.stop then STOP else s.worker.t))
    // Database::run
    case Look =>
      if s.entries != [] then s.(worker := Processing(s.worker.t, s.entries[0]))
      else if s.worker.t != WAKEUP then s.(worker := Quitting(false), mutex := ByWorker)
      else s.(worker := FallingAsleep)
    case Process(failed) => s.(worker := Popping(s.worker.t, s.worker.e, failed))
    case Pop =>
      var popped := s.(entries := s.entries[1..], written := s.written + [s.worker.e]);
      if s.worker.failed then popped.(worker := Quitting(true), mutex := ByWorker)
      else popped.(worker := Looking(s.worker.t))
    case Quit => s.(worker := Ending(s.worker.failed), stop := true, mutex := Free)
    // Startable::process
    case End => s.(worker := Ended(s.worker.failed), stop := true)
  }

  // ----- what every step keeps -----

  predicate HoldsMutex(c: Caller) {
    c.Entered? || c.Starting? || c.Owning? || c.Restarting? || c.Joining? || c.Resetting? || c.Clearing?
    || c.Spawning? || c.Pushing? || c.Waking?
  }

  predicate HoldsStartMutex(c: Caller) {
    c.Owning? || c.Restarting? || c.Joining? || c.Resetting? || c.Clearing? || c.Spawning?
    || c.Flushing? || c.Halting? || c.Signalling? || c.Awaiting?
  }

  predicate HoldsStopMutex(c: Caller) {
    c.Joining? || c.Resetting? || c.Clearing? || c.Spawning? || c.Halting? || (c.Awaiting? && c.locked)
  }

  // The worker has yet to look at the queue before it can quit.
  predicate Active(w: Worker) {
    w.FallingAsleep? || w.Asleep? || w.Awake? || w.Looking? || w.Processing? || w.Popping?
  }

  // A caller is inside a lock exactly when the lock names it.
  ghost predicate MutexHeld(s: State) {
    && (forall t :: HoldsMutex(At(s, t)) <==> s.mutex == ByCaller(t))
    && (s.worker.Quitting? <==> s.mutex == ByWorker)
  }

  ghost predicate StartMutexHeld(s: State) {
    (forall t :: HoldsStartMutex(At(s, t)) <==> s.startMutex == ByCaller(t)) && s.startMutex != ByWorker
  }

  ghost predicate StopMutexHeld(s: State) {
    (forall t :: HoldsStopMutex(At(s, t)) <==> s.stopMutex == ByCaller(t)) && s.stopMutex != ByWorker
  }

  ghost predicate Locks(s: State) {
    MutexHeld(s) && StartMutexHeld(s) && StopMutexHeld(s)
  }

  // The caller that has a lock, if any.
  function Inside(s: State, owner: Owner): Caller {
    if owner.ByCaller? then At(s, owner.t) else Out
  }

  // Entries leave the queue in the order they were accepted, the one being written still first.
  ghost predicate Order(s: State) {
    && s.accepted == s.written + s.entries
    && (s.worker.Processing? || s.worker.Popping? ==> s.entries != [] && s.entries[0] == s.worker.e)
  }

  // One worker at most: a thread is created once the last one was joined. Running means a worker
  // that has not looked at the queue for the last time.
  ghost predicate Lives(s: State) {
    && (var c := Inside(s, s.startMutex); c.Resetting? || c.Clearing? || c.Spawning? ==> s.worker == Absent)
    && (!s.stop ==> Active(s.worker) || s.worker.Quitting? || Inside(s, s.mutex).Spawning?)
    && (var c := Inside(s, s.mutex); c.Pushing? || c.Waking? ==> Active(s.worker))
    && (s.worker == Quitting(false) || s.worker == Ending(false) || s.worker == Ended(false) ==> s.entries == [])
  }

  // Somebody is about to set the signal.
  ghost predicate SignalComing(s: State) {
    Inside(s, s.mutex).Pushing? || Inside(s, s.mutex).Waking? || Inside(s, s.startMutex).Signalling?
  }

  ghost predicate Wakes(s: State) {
    (s.worker.FallingAsleep? || s.worker.Asleep?) && s.entries != [] && !s.signal ==>
      SignalComing(s) || (s.stop && s.worker.FallingAsleep?)
  }

  ghost predicate Inv(s: State) {
    Locks(s) && Order(s) && Lives(s) && Wakes(s)
  }

  lemma InitialInv()
    ensures Inv(INITIAL)
  {
  }

  // The worker's own steps; all others are a caller's.
  predicate ByTheWorker(step: Step) {
    step.Sleep? || step.BeWoken? || step.TimeOut? || step.SleepEnds? || step.Look? || step.Process? || step.Pop?
    || step.Quit? || step.End?
  }

  lemma WorkerKeepsMutex(s: State, step: Step)
    requires Inv(s) && Can(s, step) && ByTheWorker(step)
    ensures MutexHeld(Do(s, step))
  {
  }

  lemma CallerKeepsMutex(s: State, step: Step)
    requires Inv(s) && Can(s, step) && !ByTheWorker(step)
    ensures MutexHeld(Do(s, step))
  {
  }

  lemma StepKeepsMutex(s: State, step: Step)
    requires Inv(s) && Can(s, step)
    ensures MutexHeld(Do(s, step))
  {
    if ByTheWorker(step) {
      WorkerKeepsMutex(s, step);
    } else {
      CallerKeepsMutex(s, step);
    }
  }

  lemma WorkerKeepsStartMutex(s: State, step: Step)
    requires Inv(s) && Can(s, step) && ByTheWorker(step)
    ensures StartMutexHeld(Do(s, step))
  {
  }

  lemma CallerKeepsStartMutex(s: State, step: Step)
    requires Inv(s) && Can(s, step) && !ByTheWorker(step)
    ensures StartMutexHeld(Do(s, step))
  {
  }

  lemma StepKeepsStartMutex(s: State, step: Step)
    requires Inv(s) && Can(s, step)
    ensures StartMutexHeld(Do(s, step))
  {
    if ByTheWorker(step) {
      WorkerKeepsStartMutex(s, step);
    } else {
      CallerKeepsStartMutex(s, step);
    }
  }

  lemma WorkerKeepsStopMutex(s: State, step: Step)
    requires Inv(s) && Can(s, step) && ByTheWorker(step)
    ensures StopMutexHeld(Do(s, step))
  {
  }

  lemma CallerKeepsStopMutex(s: State, step: Step)
    requires Inv(s) && Can(s, step) && !ByTheWorker(step)
    ensures StopMutexHeld(Do(s, step))
  {
  }

  lemma StepKeepsStopMutex(s: State, step: Step)
    requires Inv(s) && Can(s, step)
    ensures StopMutexHeld(Do(s, step))
  {
    if ByTheWorker(step) {
      WorkerKeepsStopMutex(s, step);
    } else {
      CallerKeepsStopMutex(s, step);
    }
  }

  lemma PopKeepsOrder(s: State)
    requires Order(s) && Can(s, Pop)
    ensures Order(Do(s, Pop))
  {
  }

  lemma WorkerKeepsOrder(s: State, step: Step)
    requires Inv(s) && Can(s, step) && ByTheWorker(step)
    ensures Order(Do(s, step))
  {
    if step.Pop? {
      PopKeepsOrder(s);
    } else {
      assert Do(s, step).entries == s.entries && Do(s, step).written == s.written;
    }
  }

  lemma CallerKeepsOrder(s: State, step: Step)
    requires Inv(s) && Can(s, step) && !ByTheWorker(step)
    ensures Order(Do(s, step))
  {
  }

  lemma StepKeepsOrder(s: State, step: Step)
    requires Inv(s) && Can(s, step)
    ensures Order(Do(s, step))
  {
    if ByTheWorker(step) {
      WorkerKeepsOrder(s, step);
    } else {
      CallerKeepsOrder(s, step);
    }
  }

  // The steps between waking up and looking at the queue.
  predicate InSleep(step: Step) {
    step.Sleep? || step.BeWoken? || step.TimeOut? || step.SleepEnds?
  }

  lemma SleepKeepsLives(s: State, step: Step)
    requires Lives(s) && Can(s, step) && InSleep(step)
    ensures Lives(Do(s, step))
  {
    assert Do(s, step).callers == s.callers;
  }

  lemma WritingKeepsLives(s: State, step: Step)
    requires Inv(s) && Can(s, step) && (step.Look? || step.Process? || step.Pop?)
    ensures Lives(Do(s, step))
  {
  }

  lemma EndingKeepsLives(s: State, step: Step)
    requires Inv(s) && Can(s, step) && (step.Quit? || step.End?)
    ensures Lives(Do(s, step))
  {
  }

  lemma WorkerKeepsLives(s: State, step: Step)
    requires Inv(s) && Can(s, step) && ByTheWorker(step)
    ensures Lives(Do(s, step))
  {
    if InSleep(step) {
      SleepKeepsLives(s, step);
    } else if step.Quit? || step.End? {
      EndingKeepsLives(s, step);
    } else {
      WritingKeepsLives(s, step);
    }
  }

  lemma CallerKeepsLives(s: State, step: Step)
    requires Inv(s) && Can(s, step) && !ByTheWorker(step)
    ensures Lives(Do(s, step))
  {
  }

  lemma StepKeepsLives(s: State, step: Step)
    requires Inv(s) && Can(s, step)
    ensures Lives(Do(s, step))
  {
    if ByTheWorker(step) {
      WorkerKeepsLives(s, step);
    } else {
      CallerKeepsLives(s, step);
    }
  }

  lemma StepKeepsWakes(s: State, step: Step)
    requires Inv(s) && Can(s, step)
    ensures Wakes(Do(s, step))
  {
  }

  // ----- every run -----

  predicate CanRun(s: State, steps: seq<Step>)
    decreases |steps|
  {
    steps != [] ==> Can(s, steps[0]) && CanRun(Do(s, steps[0]), steps[1..])
  }

  function Run(s: State, steps: seq<Step>): State
    requires CanRun(s, steps)
    decreases |steps|
  {
    if steps == [] then s else Run(Do(s, steps[0]), steps[1..])
  }

  lemma StepKeepsInv(s: State, step: Step)
    requires Inv(s) && Can(s, step)
    ensures Inv(Do(s, step))
  {
    StepKeepsMutex(s, step);
    StepKeepsStartMutex(s, step);
    StepKeepsStopMutex(s, step);
    StepKeepsOrder(s, step);
    StepKeepsLives(s, step);
    StepKeepsWakes(s, step);
  }

  lemma {:induction false} RunKeepsInv(s: State, steps: seq<Step>)
    requires Inv(s) && CanRun(s, steps)
    ensures Inv(Run(s, steps))
    decreases |steps|
  {
    if steps != [] {
      StepKeepsInv(s, steps[0]);
      RunKeepsInv(Do(s, steps[0]), steps[1..]);
    }
  }

  lemma ReachedInv(steps: seq<Step>)
    requires CanRun(INITIAL, steps)
    ensures Inv(Run(INITIAL, steps))
  {
    InitialInv();
    RunKeepsInv(INITIAL, steps);
  }

  ghost function PushedIn(s: State, steps: seq<Step>): seq<Entry>
    requires CanRun(s, steps)
    decreases |steps|
  {
    if steps == [] then []
    else (if steps[0].Push? then [At(s, steps[0].t).e] else []) + PushedIn(Do(s, steps[0]), steps[1..])
  }

  lemma {:induction false} RunAccepts(s: State, steps: seq<Step>)
    requires CanRun(s, steps)
    ensures Run(s, steps).accepted == s.accepted + PushedIn(s, steps)
    decreases |steps|
  {
    if steps != [] {
      var s' := Do(s, steps[0]);
      var pushed := if steps[0].Push? then [At(s, steps[0].t).e] else [];
      assert s'.accepted == s.accepted + pushed;
      RunAccepts(s', steps[1..]);
      assert (s.accepted + pushed) + PushedIn(s', steps[1..]) == s.accepted + (pushed + PushedIn(s', steps[1..]));
    }
  }

  // Whatever the interleaving, what the worker has taken followed by what is queued is what was
  // pushed, in order: no entry is lost, repeated or overtaken.
  lemma QueueIsFirstInFirstOut(steps: seq<Step>)
    requires CanRun(INITIAL, steps)
    ensures var s := Run(INITIAL, steps); s.written + s.entries == PushedIn(INITIAL, steps)
  {
    ReachedInv(steps);
    RunAccepts(INITIAL, steps);
  }

  // A worker asleep on an unset signal over a queue that is not empty is about to be woken: a
  // caller that pushed or will push under the mutex, or a flush, is next to set the signal.
  lemma NoWakeUpIsLost(steps: seq<Step>)
    requires CanRun(INITIAL, steps)
    ensures var s := Run(INITIAL, steps);
            s.worker.Asleep? && !s.signal && s.entries != [] ==>
              exists t :: At(s, t).Pushing? || At(s, t).Waking? || At(s, t).Signalling?
  {
    ReachedInv(steps);
    var s := Run(INITIAL, steps);
    if s.worker.Asleep? && !s.signal && s.entries != [] {
      if Inside(s, s.startMutex).Signalling? {
        assert At(s, s.startMutex.t).Signalling?;
      } else {
        var c := At(s, s.mutex.t);
        assert c.Pushing? || c.Waking?;
      }
    }
  }

  // The worker ends without a failure on an empty queue only, and the queue stays empty until
  // it is joined; a new worker is created only when no other is left.
  lemma WorkerEndsOnEmptyQueue(steps: seq<Step>)
    requires CanRun(INITIAL, steps)
    ensures var s := Run(INITIAL, steps);
            && (s.worker == Quitting(false) || s.worker == Ending(false) || s.worker == Ended(false) ==>
                  s.entries == [])
            && (forall t :: Can(s, Spawn(t)) ==> s.worker == Absent)
  {
    ReachedInv(steps);
    var s := Run(INITIAL, steps);
    forall t | Can(s, Spawn(t)) ensures s.worker == Absent {
      assert HoldsStartMutex(At(s, t));
    }
  }

  // ----- entries wait for a worker -----

  predicate NoWriteFails(steps: seq<Step>) {
    forall i :: 0 <= i < |steps| ==> steps[i] != Process(true)
  }

  // The worker met no failure, and nothing is queued unless it will look again.
  predicate Attended(s: State) {
    && (Active(s.worker) || s.entries == [])
    && (s.worker.Popping? || s.worker.Quitting? || s.worker.Ending? || s.worker.Ended? ==> !s.worker.failed)
  }

  lemma WorkerKeepsAttended(s: State, step: Step)
    requires Attended(s) && Can(s, step) && ByTheWorker(step) && step != Process(true)
    ensures Attended(Do(s, step))
  {
  }

  lemma CallerKeepsAttended(s: State, step: Step)
    requires Attended(s) && Lives(s) && MutexHeld(s) && Can(s, step) && !ByTheWorker(step)
    ensures Attended(Do(s, step))
  {
    if step.Push? {
      assert HoldsMutex(At(s, step.t));
    }
  }

  lemma {:induction false} RunKeepsAttended(s: State, steps: seq<Step>)
    requires Inv(s) && Attended(s) && CanRun(s, steps) && NoWriteFails(steps)
    ensures Attended(Run(s, steps))
    decreases |steps|
  {
    if steps != [] {
      StepKeepsInv(s, steps[0]);
      if ByTheWorker(steps[0]) {
        WorkerKeepsAttended(s, steps[0]);
      } else {
        CallerKeepsAttended(s, steps[0]);
      }
      RunKeepsAttended(Do(s, steps[0]), steps[1..]);
    }
  }

  // Unless a write fails, whatever is queued has a worker that will look at it, and with no caller
  // at work this worker is not left asleep. After a failure the entries wait for the next caller.
  lemma EntriesWaitForAWorker(steps: seq<Step>)
    requires CanRun(INITIAL, steps)
    ensures var s := Run(INITIAL, steps);
            && (NoWriteFails(steps) && s.entries != [] ==> Active(s.worker))
            && ((forall t :: At(s, t).Out?) && s.entries != [] ==>
                  || (Active(s.worker) && (s.worker.Asleep? ==> s.signal))
                  || s.worker == Quitting(true) || s.worker == Ending(true) || s.worker == Ended(true)
                  || s.worker == Absent)
  {
    ReachedInv(steps);
    if NoWriteFails(steps) {
      InitialInv();
      RunKeepsAttended(INITIAL, steps);
    }
  }

  // ----- a write that fails -----

  predicate NoNewWorker(steps: seq<Step>) {
    forall i :: 0 <= i < |steps| ==> !steps[i].Spawn?
  }

  // The worker failed and is past its queue, or is gone.
  predicate Over(w: Worker) {
    w.Absent? || ((w.Quitting? || w.Ending? || w.Ended?) && w.failed)
  }

  lemma {:induction false} NothingTakenOnceOver(s: State, steps: seq<Step>)
    requires Over(s.worker) && CanRun(s, steps) && NoNewWorker(steps)
    ensures Over(Run(s, steps).worker) && Run(s, steps).written == s.written
    ensures forall i :: 0 <= i < |steps| ==> !steps[i].Look? && !steps[i].Process? && !steps[i].Pop?
    decreases |steps|
  {
    if steps != [] {
      StepStaysOver(s, steps[0]);
      NothingTakenOnceOver(Do(s, steps[0]), steps[1..]);
    }
  }

  lemma StepStaysOver(s: State, step: Step)
    requires Over(s.worker) && Can(s, step) && !step.Spawn?
    ensures Over(Do(s, step).worker) && Do(s, step).written == s.written
    ensures !step.Look? && !step.Process? && !step.Pop?
  {
  }

  lemma StepStaysFailed(s: State, step: Step)
    requires s.worker.Popping? && s.worker.failed && Can(s, step) && !step.Spawn? && !step.Pop?
    requires Inv(s)
    ensures Do(s, step).worker == s.worker && Do(s, step).written == s.written
    ensures !step.Look? && !step.Process?
  {
  }

  lemma {:induction false} FailedTakesItsOwn(s: State, steps: seq<Step>)
    requires Inv(s) && s.worker.Popping? && s.worker.failed && CanRun(s, steps) && NoNewWorker(steps)
    ensures Run(s, steps).written == s.written || Run(s, steps).written == s.written + [s.worker.e]
    ensures forall i :: 0 <= i < |steps| ==> !steps[i].Look? && !steps[i].Process?
    decreases |steps|
  {
    if steps != [] {
      StepKeepsInv(s, steps[0]);
      if steps[0].Pop? {
        NothingTakenOnceOver(Do(s, Pop), steps[1..]);
      } else {
        StepStaysFailed(s, steps[0]);
        FailedTakesItsOwn(Do(s, steps[0]), steps[1..]);
      }
    }
  }

  /** After a write that fails, whatever the threads do, the worker takes no entry but the one that
      failed and looks at none, until a new worker is created. */
  lemma FailureStopsWorker(s: State, steps: seq<Step>)
    requires Reachable(s) && Can(s, Process(true)) && CanRun(Do(s, Process(true)), steps) && NoNewWorker(steps)
    ensures var s' := Run(Do(s, Process(true)), steps);
            s'.written == s.written || s'.written == s.written + [s.worker.e]
    ensures forall i :: 0 <= i < |steps| ==> !steps[i].Look? && !steps[i].Process?
  {
    ReachableInv(s);
    StepKeepsInv(s, Process(true));
    FailedTakesItsOwn(Do(s, Process(true)), steps);
  }

  // ----- states that are reached -----

  ghost predicate Reachable(s: State) {
    exists steps :: CanRun(INITIAL, steps) && Run(INITIAL, steps) == s
  }

  lemma {:induction false} RunOneMore(s: State, steps: seq<Step>, step: Step)
    requires CanRun(s, steps) && Can(Run(s, steps), step)
    ensures CanRun(s, steps + [step]) && Run(s, steps + [step]) == Do(Run(s, steps), step)
    decreases |steps|
  {
    if steps == [] {
      assert [step][1..] == [];
      assert steps + [step] == [step];
    } else {
      assert (steps + [step])[1..] == steps[1..] + [step];
      RunOneMore(Do(s, steps[0]), steps[1..], step);
    }
  }

  lemma Reach(s: State, step: Step) returns (s': State)
    requires Reachable(s) && Can(s, step)
    ensures s' == Do(s, step) && Reachable(s')
  {
    var steps :| CanRun(INITIAL, steps) && Run(INITIAL, steps) == s;
    RunOneMore(INITIAL, steps, step);
    s' := Do(s, step);
  }

  lemma ReachableInv(s: State)
    requires Reachable(s)
    ensures Inv(s)
  {
    var steps :| CanRun(INITIAL, steps) && Run(INITIAL, steps) == s;
    ReachedInv(steps);
  }
}
