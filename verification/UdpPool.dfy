/** socket_udp/common/thread_pool/thread_pool.c: callers of AddTaskToPool and the
    pool's workers, one step per source action, under any schedule.

    Task number i is the one passed by the i-th call of AddTaskToPool. The
    signal follows the unlock, a signal wakes one sleeper if there is any, and
    a sleeper may also wake for no reason. */
module UdpPool {
  import opened Runs
  import opened Tally

  /** Where a call of AddTaskToPool stands. */
  datatype CallPc =
    | Entered      // before pthread_mutex_lock
    | Locked       // holds the mutex, has not enqueued yet
    | Enqueued     // holds the mutex, task is in the queue
    | SignalDue    // mutex released, pthread_cond_signal still to come
    | Returned

  /** Where a worker stands in the loop of ProcessTask. */
  datatype WorkerPc =
    | Contending            // before pthread_mutex_lock
    | Testing               // holds the mutex, about to dequeue
    | FoundEmpty            // holds the mutex, dequeue said QUEUE_EMPTY
    | Sleeping              // inside pthread_cond_wait
    | Woken                 // woken, wants the mutex back
    | Taken(task: nat)      // holds the mutex and a task
    | Running(task: nat)    // mutex released, runs the handler

  datatype Holder = Free | Call(i: nat) | Worker(w: nat)

  datatype State = State(
    mutex: Holder,
    queue: seq<nat>,
    calls: seq<CallPc>,
    workers: seq<WorkerPc>,
    enqueued: seq<nat>,   // history: tasks in the order they entered the queue
    dequeued: seq<nat>,   // history: tasks in the order they left it
    finished: seq<nat>)   // history: tasks whose handler returned

  datatype Step =
    | NewCall
    | CallLock(i: nat)
    | Enqueue(i: nat)
    | CallUnlock(i: nat)
    | Signal(i: nat, w: nat)
    | WorkerLock(w: nat)
    | Test(w: nat)
    | Wait(w: nat)
    | WakeSpuriously(w: nat)
    | WorkerUnlock(w: nat)
    | Finish(w: nat)

  predicate IsWorker(s: State, w: nat, pc: WorkerPc) {
    w < |s.workers| && s.workers[w] == pc
  }

  predicate SomeSleeper(s: State) {
    exists w :: 0 <= w < |s.workers| && s.workers[w] == Sleeping
  }

  predicate Enabled(s: State, step: Step) {
    match step
    case NewCall => true
    case CallLock(i) => i < |s.calls| && s.calls[i] == Entered && s.mutex == Free
    case Enqueue(i) => i < |s.calls| && s.calls[i] == Locked
    case CallUnlock(i) => i < |s.calls| && s.calls[i] == Enqueued
    case Signal(i, w) => i < |s.calls| && s.calls[i] == SignalDue && (SomeSleeper(s) ==> IsWorker(s, w, Sleeping))
    case WorkerLock(w) => (IsWorker(s, w, Contending) || IsWorker(s, w, Woken)) && s.mutex == Free
    case Test(w) => IsWorker(s, w, Testing)
    case Wait(w) => IsWorker(s, w, FoundEmpty)
    case WakeSpuriously(w) => IsWorker(s, w, Sleeping)
    case WorkerUnlock(w) => w < |s.workers| && s.workers[w].Taken?
    case Finish(w) => w < |s.workers| && s.workers[w].Running?
  }

  function Exec(s: State, step: Step): State
    requires Enabled(s, step)
  {
    match step
    case NewCall => s.(calls := s.calls + [Entered])
    case CallLock(i) => s.(calls := s.calls[i := Locked], mutex := Call(i))
    case Enqueue(i) => s.(calls := s.calls[i := Enqueued], queue := s.queue + [i], enqueued := s.enqueued + [i])
    case CallUnlock(i) => s.(calls := s.calls[i := SignalDue], mutex := Free)
    case Signal(i, w) =>
      var t := s.(calls := s.calls[i := Returned]);
      if SomeSleeper(s) then t.(workers := s.workers[w := Woken]) else t
    case WorkerLock(w) => s.(workers := s.workers[w := Testing], mutex := Worker(w))
    case Test(w) =>
      if s.queue == [] then s.(workers := s.workers[w := FoundEmpty])
      else
        s.(workers := s.workers[w := Taken(s.queue[0])], queue := s.queue[1..], dequeued := s.dequeued + [s.queue[0]])
    case Wait(w) => s.(workers := s.workers[w := Sleeping], mutex := Free)
    case WakeSpuriously(w) => s.(workers := s.workers[w := Woken])
    case WorkerUnlock(w) => s.(workers := s.workers[w := Running(s.workers[w].task)], mutex := Free)
    case Finish(w) => s.(workers := s.workers[w := Contending], finished := s.finished + [s.workers[w].task])
  }

  ghost predicate Init(s: State) {
    s.mutex == Free && s.queue == s.enqueued == s.dequeued == s.finished == [] && s.calls == [] &&
    forall w :: 0 <= w < |s.workers| ==> s.workers[w] == Contending
  }

  ghost predicate Next(s: State, s': State) {
    exists step :: Enabled(s, step) && s' == Exec(s, step)
  }

  /** A run of the pool: any number of callers and workers, any interleaving. */
  ghost predicate IsRun(run: seq<State>) {
    |run| > 0 && Init(run[0]) && forall k :: 0 <= k < |run| - 1 ==> Next(run[k], run[k + 1])
  }

  ghost predicate Moves(s: State, step: Step, t: State) {
    Enabled(s, step) && t == Exec(s, step)
  }

  /** A run with its steps. */
  ghost predicate IsTrace(run: seq<State>, steps: seq<Step>) {
    Trace(run, steps, Moves) && Init(run[0])
  }

  lemma TraceIsRun(run: seq<State>, steps: seq<Step>)
    requires IsTrace(run, steps)
    ensures IsRun(run)
  {
    forall k | 0 <= k < |run| - 1 ensures Next(run[k], run[k + 1]) {
      assert Moves(run[k], steps[k], run[k + 1]);
    }
  }

  // ---------------------------------------------------------------- invariant

  predicate CallHolds(pc: CallPc) { pc == Locked || pc == Enqueued }
  predicate WorkerHolds(pc: WorkerPc) { pc == Testing || pc == FoundEmpty || pc.Taken? }

  /** The mutex has the one holder it says it has. */
  ghost predicate MutexInv(s: State) {
    (forall i :: 0 <= i < |s.calls| ==> (CallHolds(s.calls[i]) <==> s.mutex == Call(i))) &&
    (forall w :: 0 <= w < |s.workers| ==> (WorkerHolds(s.workers[w]) <==> s.mutex == Worker(w))) &&
    (s.mutex.Call? ==> s.mutex.i < |s.calls|) && (s.mutex.Worker? ==> s.mutex.w < |s.workers|)
  }

  function Due(pc: CallPc): nat { if pc == Enqueued || pc == SignalDue then 1 else 0 }
  function Awake(pc: WorkerPc): nat { if pc == Contending || pc == Testing || pc == Woken then 1 else 0 }

  /** Wakeup accounting: a worker sleeps only if each queued task has a signal
      still to come or an awake worker heading for the dequeue. */
  ghost predicate WakeupInv(s: State) {
    (SomeSleeper(s) ==> |s.queue| <= Total(s.calls, Due) + Total(s.workers, Awake)) &&
    (forall w :: 0 <= w < |s.workers| && s.workers[w] == FoundEmpty ==> s.queue == [])
  }

  /** One for a worker that has task x in hand. */
  ghost function Has(x: nat): WorkerPc -> nat {
    (pc: WorkerPc) => if (pc.Taken? || pc.Running?) && pc.task == x then 1 else 0
  }

  predicate HasEnqueued(pc: CallPc) { pc == Enqueued || pc == SignalDue || pc == Returned }

  /** Task x: enqueued once, by its own call; once dequeued, with one worker or finished. */
  ghost predicate TaskInv(s: State, x: nat) {
    Occurs(s.enqueued, x) == (if x < |s.calls| && HasEnqueued(s.calls[x]) then 1 else 0) &&
    Occurs(s.dequeued, x) == Total(s.workers, Has(x)) + Occurs(s.finished, x)
  }

  ghost predicate Fifo(s: State) {
    s.enqueued == s.dequeued + s.queue
  }

  ghost predicate Inv(s: State) {
    MutexInv(s) && WakeupInv(s) && Fifo(s) && forall x: nat :: TaskInv(s, x)
  }

  lemma InitInv(s: State)
    requires Init(s)
    ensures Inv(s)
  {
    forall x: nat ensures TaskInv(s, x) {
      TotalZero(s.workers, Has(x));
    }
  }

  lemma MutexKept(s: State, step: Step)
    requires MutexInv(s) && Enabled(s, step)
    ensures MutexInv(Exec(s, step))
  {
  }

  /** What a step does to the two totals of the wakeup account. */
  lemma TotalsAfter(s: State, step: Step)
    requires Enabled(s, step)
    ensures var t := Exec(s, step);
            Total(t.calls, Due) == Total(s.calls, Due)
              + (if step.Enqueue? then 1 else 0) - (if step.Signal? then 1 else 0)
    ensures var t := Exec(s, step);
            Total(t.workers, Awake) == Total(s.workers, Awake)
              + (if step.Finish? || step.WakeSpuriously? || (step.Signal? && SomeSleeper(s)) then 1 else 0)
              - (if step.Test? then 1 else 0)
  {
    var t := Exec(s, step);
    if step == NewCall {
      TotalAppend(s.calls, Entered, Due);
    } else if step.CallLock? || step.Enqueue? || step.CallUnlock? || step.Signal? {
      TotalUpdate(s.calls, step.i, t.calls[step.i], Due);
    }
    if MovesWorker(s, step) {
      TotalUpdate(s.workers, step.w, t.workers[step.w], Awake);
    }
  }

  /** Only pthread_cond_wait puts a worker to sleep. */
  lemma SleepersAfter(s: State, step: Step)
    requires Enabled(s, step) && SomeSleeper(Exec(s, step))
    ensures step.Wait? || SomeSleeper(s)
  {
    var t := Exec(s, step);
    var w :| 0 <= w < |t.workers| && t.workers[w] == Sleeping;
    assert step.Wait? || s.workers[w] == Sleeping;
  }

  lemma EmptyKept(s: State, step: Step, w: nat)
    requires Inv(s) && Enabled(s, step)
    requires w < |s.workers| && Exec(s, step).workers[w] == FoundEmpty
    ensures Exec(s, step).queue == []
  {
    if s.workers[w] == FoundEmpty {
      assert s.mutex == Worker(w);
    }
  }

  lemma WakeupKept(s: State, step: Step)
    requires Inv(s) && Enabled(s, step)
    ensures WakeupInv(Exec(s, step))
  {
    var t := Exec(s, step);
    if SomeSleeper(t) {
      SleepersAfter(s, step);
      TotalsAfter(s, step);
    }
    forall w | 0 <= w < |t.workers| && t.workers[w] == FoundEmpty ensures t.queue == [] {
      EmptyKept(s, step, w);
    }
  }

  lemma FifoKept(s: State, step: Step)
    requires Fifo(s) && Enabled(s, step)
    ensures Fifo(Exec(s, step))
  {
    assert s.queue != [] ==> s.queue == [s.queue[0]] + s.queue[1..];
  }

  predicate MovesWorker(s: State, step: Step) {
    step.WorkerLock? || step.Test? || step.Wait? || step.WakeSpuriously? || step.WorkerUnlock? || step.Finish?
    || (step.Signal? && SomeSleeper(s))
  }

  lemma CallsAfter(s: State, step: Step, x: nat)
    requires Enabled(s, step)
    ensures var t := Exec(s, step);
            (x < |t.calls| && HasEnqueued(t.calls[x])) <==>
              (x < |s.calls| && HasEnqueued(s.calls[x])) || step == Enqueue(x)
    ensures step == Enqueue(x) ==> !HasEnqueued(s.calls[x])
  {
  }

  lemma HistoriesAfter(s: State, step: Step, x: nat)
    requires Enabled(s, step)
    ensures Occurs(Exec(s, step).enqueued, x) == Occurs(s.enqueued, x) + if step == Enqueue(x) then 1 else 0
    ensures Occurs(Exec(s, step).dequeued, x) ==
              Occurs(s.dequeued, x) + if step.Test? && s.queue != [] && s.queue[0] == x then 1 else 0
    ensures Occurs(Exec(s, step).finished, x) ==
              Occurs(s.finished, x) + if step.Finish? && s.workers[step.w].task == x then 1 else 0
  {
    if step.Enqueue? {
      TotalAppend(s.enqueued, step.i, Is(x));
    } else if step.Test? && s.queue != [] {
      TotalAppend(s.dequeued, s.queue[0], Is(x));
    } else if step.Finish? {
      TotalAppend(s.finished, s.workers[step.w].task, Is(x));
    }
  }

  /** Task x changes hands only when it is dequeued or finished. */
  lemma InHandAfter(s: State, step: Step, x: nat)
    requires Enabled(s, step)
    ensures Total(Exec(s, step).workers, Has(x)) == Total(s.workers, Has(x))
              + (if step.Test? && s.queue != [] && s.queue[0] == x then 1 else 0)
              - (if step.Finish? && s.workers[step.w].task == x then 1 else 0)
  {
    if MovesWorker(s, step) {
      TotalUpdate(s.workers, step.w, Exec(s, step).workers[step.w], Has(x));
    }
  }

  lemma TaskKept(s: State, step: Step, x: nat)
    requires TaskInv(s, x) && Enabled(s, step)
    ensures TaskInv(Exec(s, step), x)
  {
    CallsAfter(s, step, x);
    HistoriesAfter(s, step, x);
    InHandAfter(s, step, x);
  }

  lemma StepKeepsInv(s: State, step: Step)
    requires Inv(s) && Enabled(s, step)
    ensures Inv(Exec(s, step))
  {
    MutexKept(s, step);
    WakeupKept(s, step);
    FifoKept(s, step);
    forall x: nat ensures TaskInv(Exec(s, step), x) {
      TaskKept(s, step, x);
    }
  }

  lemma RunKeepsInv(run: seq<State>, k: nat)
    requires IsRun(run) && k < |run|
    ensures Inv(run[k])
  {
    InitInv(run[0]);
    forall j | 0 <= j < |run| - 1 && Inv(run[j]) ensures Inv(run[j + 1]) {
      assert Next(run[j], run[j + 1]);
      var step :| Enabled(run[j], step) && run[j + 1] == Exec(run[j], step);
      StepKeepsInv(run[j], step);
    }
    Throughout(run, Inv, k);
  }

  // ----------------------------------------------------------------- theorems

  /** In every reachable state: while some worker sleeps, each queued task is
      matched by a signal still to come or an awake worker heading to dequeue. */
  lemma NoTaskStranded(run: seq<State>, k: nat)
    requires IsRun(run) && k < |run| && SomeSleeper(run[k])
    ensures |run[k].queue| <= Total(run[k].calls, Due) + Total(run[k].workers, Awake)
  {
    RunKeepsInv(run, k);
  }

  /** Tasks leave the queue in the order they entered it, and each task that
      entered is in exactly one place: the queue, one worker, or finished. */
  lemma ExactlyOnceInOrder(run: seq<State>, k: nat, x: nat)
    requires IsRun(run) && k < |run|
    ensures var s := run[k];
            s.dequeued <= s.enqueued &&
            Occurs(s.queue, x) + Total(s.workers, Has(x)) + Occurs(s.finished, x) ==
              if x < |s.calls| && HasEnqueued(s.calls[x]) then 1 else 0
  {
    RunKeepsInv(run, k);
    var s := run[k];
    assert TaskInv(s, x);
    TotalConcat(s.dequeued, s.queue, Is(x));
  }

  function CountsCall(step: Step): nat { if step.NewCall? then 1 else 0 }

  /** There is a task for each call of AddTaskToPool made, and no other. */
  lemma EachCallHasItsTask(run: seq<State>, steps: seq<Step>, k: nat)
    requires IsTrace(run, steps) && k <= |steps|
    ensures |run[k].calls| == Total(steps[..k], CountsCall)
  {
    var law := (s: State, done: seq<Step>) => |s.calls| == Total(done, CountsCall);
    forall j | 0 <= j < |steps| && law(run[j], steps[..j]) ensures law(run[j + 1], steps[..j] + [steps[j]]) {
      assert Moves(run[j], steps[j], run[j + 1]);
      TotalAppend(steps[..j], steps[j], CountsCall);
    }
    LawThroughout(run, steps, law, k);
  }

  // ----------------------------------------------------------------- progress

  /** Steps the pool takes by itself, whether or not handlers return. */
  predicate Internal(step: Step) {
    !step.NewCall? && !step.WakeSpuriously? && !step.Finish?
  }

  /** The same with handlers that do return. */
  predicate Settling(step: Step) {
    Internal(step) || step.Finish?
  }

  function CallRank(pc: CallPc): nat {
    match pc case Entered => 11 case Locked => 10 case Enqueued => 5 case SignalDue => 4 case Returned => 0
  }

  function WorkerRank(pc: WorkerPc): nat {
    match pc
    case Contending => 3
    case Woken => 3
    case Testing => 2
    case FoundEmpty => 1
    case Taken(_) => 5
    case Sleeping => 0
    case Running(_) => 4
  }

  ghost function Rank(s: State): nat {
    4 * |s.queue| + Total(s.calls, CallRank) + Total(s.workers, WorkerRank)
  }

  lemma CallRankAfter(s: State, step: Step)
    requires Enabled(s, step) && Settling(step)
    ensures Total(Exec(s, step).calls, CallRank) == Total(s.calls, CallRank) -
              match step
              case CallLock(_) => 1
              case Enqueue(_) => 5
              case CallUnlock(_) => 1
              case Signal(_, _) => 4
              case _ => 0
  {
    if step.CallLock? || step.Enqueue? || step.CallUnlock? || step.Signal? {
      TotalUpdate(s.calls, step.i, Exec(s, step).calls[step.i], CallRank);
    }
  }

  lemma WorkerRankAfter(s: State, step: Step)
    requires Enabled(s, step) && Settling(step)
    ensures var r, r' := Total(s.workers, WorkerRank), Total(Exec(s, step).workers, WorkerRank);
            if step.Signal? then r' <= r + 3
            else if step.Test? && s.queue != [] then r' == r + 3
            else if MovesWorker(s, step) then r' < r
            else r' == r
  {
    if MovesWorker(s, step) {
      TotalUpdate(s.workers, step.w, Exec(s, step).workers[step.w], WorkerRank);
    }
  }

  lemma SettlingStepsDescend(s: State, step: Step)
    requires Enabled(s, step) && Settling(step)
    ensures Rank(Exec(s, step)) < Rank(s)
  {
    CallRankAfter(s, step);
    WorkerRankAfter(s, step);
  }

  ghost predicate SettlingNext(s: State, s': State) {
    exists step :: Enabled(s, step) && Settling(step) && s' == Exec(s, step)
  }

  /** Without new calls and spurious wakeups any schedule, with handlers that
      return or not, comes to rest after at most Rank steps. */
  lemma PoolComesToRest(run: seq<State>)
    requires |run| > 0 && forall k :: 0 <= k < |run| - 1 ==> SettlingNext(run[k], run[k + 1])
    ensures |run| - 1 <= Rank(run[0])
  {
    forall k | 0 <= k < |run| - 1 ensures Rank(run[k + 1]) < Rank(run[k]) {
      assert SettlingNext(run[k], run[k + 1]);
      var step :| Enabled(run[k], step) && Settling(step) && run[k + 1] == Exec(run[k], step);
      SettlingStepsDescend(run[k], step);
    }
    DescentEnds(run, Rank);
  }

  ghost predicate AtRest(s: State) {
    forall step :: Internal(step) ==> !Enabled(s, step)
  }

  lemma RestFreesMutex(s: State)
    requires MutexInv(s) && AtRest(s)
    ensures s.mutex == Free
  {
    forall i: nat | i < |s.calls| ensures !CallHolds(s.calls[i]) {
      assert !Enabled(s, Enqueue(i)) && !Enabled(s, CallUnlock(i));
    }
    forall w: nat | w < |s.workers| ensures !WorkerHolds(s.workers[w]) {
      assert !Enabled(s, Test(w)) && !Enabled(s, Wait(w)) && !Enabled(s, WorkerUnlock(w));
    }
  }

  lemma RestReturnsCalls(s: State, i: nat)
    requires MutexInv(s) && AtRest(s) && i < |s.calls|
    ensures s.calls[i] == Returned
  {
    RestFreesMutex(s);
    assert !Enabled(s, CallLock(i)) && !Enabled(s, Enqueue(i)) && !Enabled(s, CallUnlock(i));
    if SomeSleeper(s) {
      var w :| 0 <= w < |s.workers| && s.workers[w] == Sleeping;
      assert !Enabled(s, Signal(i, w));
    } else {
      assert !Enabled(s, Signal(i, 0));
    }
  }

  lemma RestParksWorkers(s: State, w: nat)
    requires MutexInv(s) && AtRest(s) && w < |s.workers|
    ensures s.workers[w] == Sleeping || s.workers[w].Running?
  {
    RestFreesMutex(s);
    assert !Enabled(s, WorkerLock(w)) && !Enabled(s, Test(w)) && !Enabled(s, Wait(w)) && !Enabled(s, WorkerUnlock(w));
  }

  /** A pool at rest that meets the invariant has its mutex free, every call
      returned, every worker asleep or busy, and nothing queued beside a sleeper. */
  lemma RestIsServed(s: State)
    requires Inv(s) && AtRest(s)
    ensures s.mutex == Free
    ensures forall i :: 0 <= i < |s.calls| ==> s.calls[i] == Returned
    ensures forall w :: 0 <= w < |s.workers| ==> s.workers[w] == Sleeping || s.workers[w].Running?
    ensures s.queue == [] || forall w :: 0 <= w < |s.workers| ==> s.workers[w].Running?
  {
    RestFreesMutex(s);
    forall i | 0 <= i < |s.calls| ensures s.calls[i] == Returned {
      RestReturnsCalls(s, i);
    }
    forall w | 0 <= w < |s.workers| ensures s.workers[w] == Sleeping || s.workers[w].Running? {
      RestParksWorkers(s, w);
    }
    TotalZero(s.calls, Due);
    TotalZero(s.workers, Awake);
  }

  /** No lost wakeup, even if handlers never return: when a reachable pool is at
      rest, every call has returned, and the queue is empty unless all workers
      are busy. */
  lemma RestMeansServed(run: seq<State>, k: nat)
    requires IsRun(run) && k < |run| && AtRest(run[k])
    ensures var s := run[k];
            s.mutex == Free &&
            (forall i :: 0 <= i < |s.calls| ==> s.calls[i] == Returned) &&
            (s.queue == [] || forall w :: 0 <= w < |s.workers| ==> s.workers[w].Running?)
  {
    RunKeepsInv(run, k);
    RestIsServed(run[k]);
  }

  /** With handlers that return and one worker at least, a reachable pool at
      rest has an empty queue and has finished the task of every call, once. */
  lemma RestMeansFinished(run: seq<State>, k: nat, x: nat)
    requires IsRun(run) && k < |run| && |run[k].workers| > 0 && x < |run[k].calls|
    requires forall step :: Settling(step) ==> !Enabled(run[k], step)
    ensures run[k].queue == [] && Occurs(run[k].finished, x) == 1
  {
    var s := run[k];
    RunKeepsInv(run, k);
    RestIsServed(s);
    forall w: nat | w < |s.workers| ensures s.workers[w] == Sleeping {
      assert !Enabled(s, Finish(w));
    }
    assert s.workers[0] == Sleeping;
    TotalZero(s.workers, Has(x));
    assert TaskInv(s, x) && s.enqueued == s.dequeued;
  }

  lemma StepAdded(run: seq<State>, step: Step)
    requires IsRun(run) && Enabled(run[|run| - 1], step)
    ensures IsRun(run + [Exec(run[|run| - 1], step)])
  {
    var longer := run + [Exec(run[|run| - 1], step)];
    forall k | 0 <= k < |longer| - 1 ensures Next(longer[k], longer[k + 1]) {
      if k < |run| - 1 {
        assert Next(run[k], run[k + 1]);
      }
    }
  }

  /** Any run can be carried on to rest. */
  lemma {:induction false} Settle(run: seq<State>) returns (longer: seq<State>)
    requires IsRun(run)
    ensures IsRun(longer) && run <= longer
    ensures forall step :: Settling(step) ==> !Enabled(longer[|longer| - 1], step)
    ensures |longer[|longer| - 1].calls| == |run[|run| - 1].calls|
    ensures |longer[|longer| - 1].workers| == |run[|run| - 1].workers|
    decreases Rank(run[|run| - 1])
  {
    var s := run[|run| - 1];
    longer := run;
    if step :| Settling(step) && Enabled(s, step) {
      StepAdded(run, step);
      SettlingStepsDescend(s, step);
      longer := Settle(run + [Exec(s, step)]);
    }
  }

  /** From every reachable state one more call can be made, and finished. */
  lemma OneMoreCall(run: seq<State>) returns (longer: seq<State>)
    requires IsRun(run) && |run[|run| - 1].workers| > 0
    ensures IsRun(longer) && run <= longer
    ensures var x: nat := |run[|run| - 1].calls|; Occurs(longer[|longer| - 1].finished, x) == 1
  {
    StepAdded(run, NewCall);
    longer := Settle(run + [Exec(run[|run| - 1], NewCall)]);
    RestMeansFinished(longer, |longer| - 1, |run[|run| - 1].calls|);
  }
}
