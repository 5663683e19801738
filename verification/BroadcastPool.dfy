/** socket/common/thread_pool/thread_pool.c: callers of the two add_task_to_pool
    functions and the pool's workers, one step per source action, under any
    schedule. Here the broadcast happens inside the lock, a counter follows the
    queue, and a copied argument belongs to the task and dies with it. */
module BroadcastPool {
  import opened Runs
  import opened Tally

  /** Which function was called, and with what. */
  datatype Submission =
    | UseArg(given: bool)                                     // add_task_to_pool_use_arg_mem
    | ReleaseArg(given: bool, size: nat, mallocOk: bool)      // add_task_to_pool_release_arg_mem

  /** What the task's arg points to: nothing, the caller's memory, or the block
      that the call with this number allocated. */
  datatype Pointer = Null | CallerMemory | Block(call: nat)

  datatype Task = Task(arg: Pointer, argSize: nat)

  function TaskOf(call: nat, sub: Submission): Task {
    match sub
    case UseArg(given) => Task(if given then CallerMemory else Null, 0)
    case ReleaseArg(given, size, mallocOk) => Task(if given && mallocOk then Block(call) else Null, size)
  }

  datatype CallPc =
    | Entered       // argument copied, before pthread_mutex_lock
    | Locked        // holds the mutex
    | Enqueued      // holds the mutex, task queued, cur_tasks_cnt not yet raised
    | Counted       // holds the mutex, pthread_cond_broadcast still to come
    | Broadcasted   // holds the mutex
    | Returned

  datatype Caller = Caller(sub: Submission, pc: CallPc)

  datatype WorkerPc =
    | Contending                 // before pthread_mutex_lock
    | Testing                    // holds the mutex, about to dequeue
    | FoundEmpty                 // holds the mutex, dequeue found nothing
    | Sleeping                   // inside pthread_cond_wait
    | Woken                      // woken, wants the mutex back
    | Taken(task: nat)           // holds the mutex, cur_tasks_cnt not yet lowered
    | Uncounted(task: nat)       // holds the mutex
    | Running(task: nat)         // mutex released, handler not yet returned
    | HandlerDone(task: nat)     // before the conditional free

  datatype Holder = Free | ByCaller(i: nat) | ByWorker(w: nat)

  datatype Event =
    | Enqueue(task: nat)
    | Dequeue(task: nat)
    | HandlerCall(task: nat, arg: Pointer)
    | HandlerReturn(task: nat)
    | FreeArg(arg: Pointer)

  datatype State = State(
    mutex: Holder,
    queue: seq<nat>,
    curTasksCnt: nat,
    callers: seq<Caller>,
    workers: seq<WorkerPc>,
    log: seq<Event>)      // history of the run

  datatype Step =
    | NewCall(sub: Submission)
    | CallerLock(i: nat)
    | CallerEnqueue(i: nat)
    | CountUp(i: nat)
    | Broadcast(i: nat)
    | CallerUnlock(i: nat)
    | WorkerLock(w: nat)
    | Test(w: nat)
    | Wait(w: nat)
    | WakeSpuriously(w: nat)
    | CountDown(w: nat)
    | WorkerUnlock(w: nat)
    | HandlerReturns(w: nat)
    | MaybeFree(w: nat)

  const UINT32: nat := 0x1_0000_0000

  predicate IsCaller(s: State, i: nat, pc: CallPc) {
    i < |s.callers| && s.callers[i].pc == pc
  }

  predicate IsWorker(s: State, w: nat, pc: WorkerPc) {
    w < |s.workers| && s.workers[w] == pc
  }

  predicate Enabled(s: State, step: Step) {
    match step
    case NewCall(_) => true
    case CallerLock(i) => IsCaller(s, i, Entered) && s.mutex == Free
    case CallerEnqueue(i) => IsCaller(s, i, Locked)
    case CountUp(i) => IsCaller(s, i, Enqueued)
    case Broadcast(i) => IsCaller(s, i, Counted)
    case CallerUnlock(i) => IsCaller(s, i, Broadcasted)
    case WorkerLock(w) => (IsWorker(s, w, Contending) || IsWorker(s, w, Woken)) && s.mutex == Free
    case Test(w) => IsWorker(s, w, Testing)
    case Wait(w) => IsWorker(s, w, FoundEmpty)
    case WakeSpuriously(w) => IsWorker(s, w, Sleeping)
    case CountDown(w) => w < |s.workers| && s.workers[w].Taken?
    case WorkerUnlock(w) => w < |s.workers| && s.workers[w].Uncounted? && s.workers[w].task < |s.callers|
    case HandlerReturns(w) => w < |s.workers| && s.workers[w].Running?
    case MaybeFree(w) => w < |s.workers| && s.workers[w].HandlerDone? && s.workers[w].task < |s.callers|
  }

  function WakeAll(workers: seq<WorkerPc>): seq<WorkerPc> {
    seq(|workers|, w requires 0 <= w < |workers| => if workers[w] == Sleeping then Woken else workers[w])
  }

  function MoveCaller(s: State, i: nat, pc: CallPc): State
    requires i < |s.callers|
  {
    s.(callers := s.callers[i := s.callers[i].(pc := pc)])
  }

  function MoveWorker(s: State, w: nat, pc: WorkerPc): State
    requires w < |s.workers|
  {
    s.(workers := s.workers[w := pc])
  }

  /** What a step adds to the history. */
  function Events(s: State, step: Step): (e: seq<Event>)
    requires Enabled(s, step)
    ensures |e| <= 1
  {
    match step
    case CallerEnqueue(i) => [Enqueue(i)]
    case Test(w) => if s.queue == [] then [] else [Dequeue(s.queue[0])]
    case WorkerUnlock(w) => var x := s.workers[w].task; [HandlerCall(x, TaskOf(x, s.callers[x].sub).arg)]
    case HandlerReturns(w) => [HandlerReturn(s.workers[w].task)]
    case MaybeFree(w) =>
      var task := TaskOf(s.workers[w].task, s.callers[s.workers[w].task].sub);
      if task.argSize > 0 && task.arg != Null then [FreeArg(task.arg)] else []
    case _ => []
  }

  function Move(s: State, step: Step): (t: State)
    requires Enabled(s, step)
    ensures t.log == s.log
  {
    match step
    case NewCall(sub) => s.(callers := s.callers + [Caller(sub, Entered)])
    case CallerLock(i) => MoveCaller(s, i, Locked).(mutex := ByCaller(i))
    case CallerEnqueue(i) => MoveCaller(s, i, Enqueued).(queue := s.queue + [i])
    case CountUp(i) => MoveCaller(s, i, Counted).(curTasksCnt := (s.curTasksCnt + 1) % UINT32)
    case Broadcast(i) => MoveCaller(s, i, Broadcasted).(workers := WakeAll(s.workers))
    case CallerUnlock(i) => MoveCaller(s, i, Returned).(mutex := Free)
    case WorkerLock(w) => MoveWorker(s, w, Testing).(mutex := ByWorker(w))
    case Test(w) =>
      if s.queue == [] then MoveWorker(s, w, FoundEmpty)
      else MoveWorker(s, w, Taken(s.queue[0])).(queue := s.queue[1..])
    case Wait(w) => MoveWorker(s, w, Sleeping).(mutex := Free)
    case WakeSpuriously(w) => MoveWorker(s, w, Woken)
    case CountDown(w) => MoveWorker(s, w, Uncounted(s.workers[w].task)).(curTasksCnt := (s.curTasksCnt - 1) % UINT32)
    case WorkerUnlock(w) => MoveWorker(s, w, Running(s.workers[w].task)).(mutex := Free)
    case HandlerReturns(w) => MoveWorker(s, w, HandlerDone(s.workers[w].task))
    case MaybeFree(w) => MoveWorker(s, w, Contending)
  }

  function Exec(s: State, step: Step): State
    requires Enabled(s, step)
  {
    Move(s, step).(log := s.log + Events(s, step))
  }

  ghost predicate Init(s: State) {
    s.mutex == Free && s.queue == [] && s.curTasksCnt == 0 && s.callers == [] && s.log == [] &&
    forall w :: 0 <= w < |s.workers| ==> s.workers[w] == Contending
  }

  ghost predicate Next(s: State, s': State) {
    exists step :: Enabled(s, step) && s' == Exec(s, step)
  }

  ghost predicate IsRun(run: seq<State>) {
    |run| > 0 && Init(run[0]) && forall k :: 0 <= k < |run| - 1 ==> Next(run[k], run[k + 1])
  }

  ghost predicate Moves(s: State, step: Step, t: State) {
    Enabled(s, step) && t == Exec(s, step)
  }

  /** A run with its steps. */
  ghost predicate IsTrace(run: seq<State>, steps: seq<Step>) {
    Trace(run, steps, Moves) && Init(run[0])
  }

  lemma TraceIsRun(run: seq<State>, steps: seq<Step>)
    requires IsTrace(run, steps)
    ensures IsRun(run)
  {
    forall k | 0 <= k < |run| - 1 ensures Next(run[k], run[k + 1]) {
      assert Moves(run[k], steps[k], run[k + 1]);
    }
  }

  // ------------------------------------------------- mutex, counter and sleep

  predicate CallerHolds(pc: CallPc) { pc != Entered && pc != Returned }
  predicate WorkerHolds(pc: WorkerPc) { pc == Testing || pc == FoundEmpty || pc.Taken? || pc.Uncounted? }

  ghost predicate MutexInv(s: State) {
    (forall i :: 0 <= i < |s.callers| ==> (CallerHolds(s.callers[i].pc) <==> s.mutex == ByCaller(i))) &&
    (forall w :: 0 <= w < |s.workers| ==> (WorkerHolds(s.workers[w]) <==> s.mutex == ByWorker(w))) &&
    (s.mutex.ByCaller? ==> s.mutex.i < |s.callers|) && (s.mutex.ByWorker? ==> s.mutex.w < |s.workers|)
  }

  /** How far the counter is behind the queue, by what the mutex holder is doing. */
  ghost function Lag(s: State): int
    requires MutexInv(s)
  {
    if s.mutex.ByCaller? && s.callers[s.mutex.i].pc == Enqueued then 1
    else if s.mutex.ByWorker? && s.workers[s.mutex.w].Taken? then -1
    else 0
  }

  ghost predicate CountInv(s: State) {
    MutexInv(s) && s.curTasksCnt == (|s.queue| - Lag(s)) % UINT32
  }

  ghost predicate BroadcastPending(s: State) {
    MutexInv(s) && s.mutex.ByCaller? &&
    (s.callers[s.mutex.i].pc == Enqueued || s.callers[s.mutex.i].pc == Counted)
  }

  ghost predicate SleepInv(s: State) {
    (forall w :: 0 <= w < |s.workers| && s.workers[w] == Sleeping ==> s.queue == [] || BroadcastPending(s)) &&
    (forall w :: 0 <= w < |s.workers| && s.workers[w] == FoundEmpty ==> s.queue == [])
  }

  lemma CallersHoldKept(s: State, step: Step, i: nat)
    requires MutexInv(s) && Enabled(s, step) && i < |Exec(s, step).callers|
    ensures CallerHolds(Exec(s, step).callers[i].pc) <==> Exec(s, step).mutex == ByCaller(i)
  {
  }

  lemma WorkersHoldKept(s: State, step: Step, w: nat)
    requires MutexInv(s) && Enabled(s, step) && w < |Exec(s, step).workers|
    ensures WorkerHolds(Exec(s, step).workers[w]) <==> Exec(s, step).mutex == ByWorker(w)
  {
  }

  lemma MutexKept(s: State, step: Step)
    requires MutexInv(s) && Enabled(s, step)
    ensures MutexInv(Exec(s, step))
  {
    var t := Exec(s, step);
    forall i: nat | i < |t.callers| ensures CallerHolds(t.callers[i].pc) <==> t.mutex == ByCaller(i) {
      CallersHoldKept(s, step, i);
    }
    forall w: nat | w < |t.workers| ensures WorkerHolds(t.workers[w]) <==> t.mutex == ByWorker(w) {
      WorkersHoldKept(s, step, w);
    }
  }

  lemma LagAfter(s: State, step: Step)
    requires MutexInv(s) && Enabled(s, step) && MutexInv(Exec(s, step))
    ensures var t := Exec(s, step);
            |t.queue| - Lag(t) == |s.queue| - Lag(s)
              + (if step.CountUp? then 1 else 0) - (if step.CountDown? then 1 else 0)
  {
  }

  lemma CountKept(s: State, step: Step)
    requires CountInv(s) && Enabled(s, step)
    ensures CountInv(Exec(s, step))
  {
    MutexKept(s, step);
    LagAfter(s, step);
  }

  lemma SleepKept(s: State, step: Step, w: nat)
    requires MutexInv(s) && SleepInv(s) && Enabled(s, step) && w < |s.workers|
    ensures var t := Exec(s, step);
            (t.workers[w] == Sleeping ==> t.queue == [] || BroadcastPending(t)) &&
            (t.workers[w] == FoundEmpty ==> t.queue == [])
  {
    MutexKept(s, step);
    var t := Exec(s, step);
    if t.workers[w] == Sleeping && s.workers[w] == Sleeping {
      assert s.queue == [] || BroadcastPending(s);
    }
  }

  function Asleep(pc: WorkerPc): nat { if pc == Sleeping then 1 else 0 }

  /** Only pthread_cond_wait puts a worker to sleep; a broadcast wakes all
      sleepers, a spurious wakeup one, and nothing else any. */
  lemma SleepersAfter(s: State, step: Step)
    requires Enabled(s, step)
    ensures Total(Exec(s, step).workers, Asleep) ==
              if step.Broadcast? then 0
              else Total(s.workers, Asleep) + (if step.Wait? then 1 else 0) - (if step.WakeSpuriously? then 1 else 0)
  {
    var t := Exec(s, step);
    if step.Broadcast? {
      TotalZero(t.workers, Asleep);
    } else if MovesWorker(step) {
      TotalUpdate(s.workers, step.w, t.workers[step.w], Asleep);
    }
  }

  // ------------------------------------------------------ tasks and arguments

  ghost function IsEvent(e: Event): Event -> nat {
    (f: Event) => if e == f then 1 else 0
  }

  /** How often e happened. */
  ghost function Seen(log: seq<Event>, e: Event): nat {
    Total(log, IsEvent(e))
  }

  /** One for a worker between the dequeue of x and the return of its handler. */
  ghost function Has(x: nat): WorkerPc -> nat {
    (pc: WorkerPc) => if (pc.Taken? || pc.Uncounted? || pc.Running?) && pc.task == x then 1 else 0
  }

  /** One for a worker inside the handler of x. */
  ghost function InHandler(x: nat): WorkerPc -> nat {
    (pc: WorkerPc) => if pc.Running? && pc.task == x then 1 else 0
  }

  /** One for a call of the handler of x, whatever it was given. */
  ghost function CallsOf(x: nat): Event -> nat {
    (e: Event) => if e.HandlerCall? && e.task == x then 1 else 0
  }

  /** One for a worker whose handler of x returned and which has not come to the free yet. */
  ghost function Releasing(x: nat): WorkerPc -> nat {
    (pc: WorkerPc) => if pc.HandlerDone? && pc.task == x then 1 else 0
  }

  /** Call x got a block of its own for a copy of one byte or more. */
  predicate OwnsCopy(s: State, x: nat) {
    x < |s.callers| && var sub := s.callers[x].sub; sub.ReleaseArg? && sub.given && sub.mallocOk && sub.size > 0
  }

  predicate HasEnqueued(s: State, x: nat) {
    x < |s.callers| && s.callers[x].pc != Entered && s.callers[x].pc != Locked
  }

  /** The stations of task x: enqueued by its call, queued, with a worker,
      handled, and its copy, if it owns one, freed. */
  ghost predicate TaskInv(s: State, x: nat) {
    Seen(s.log, Enqueue(x)) == (if HasEnqueued(s, x) then 1 else 0) &&
    Seen(s.log, Enqueue(x)) == Occurs(s.queue, x) + Seen(s.log, Dequeue(x)) &&
    Seen(s.log, Dequeue(x)) == Total(s.workers, Has(x)) + Seen(s.log, HandlerReturn(x)) &&
    if OwnsCopy(s, x)
      then Seen(s.log, HandlerReturn(x)) == Total(s.workers, Releasing(x)) + Seen(s.log, FreeArg(Block(x)))
      else Total(s.workers, Releasing(x)) <= Seen(s.log, HandlerReturn(x)) && Seen(s.log, FreeArg(Block(x))) == 0
  }

  /** The handler of x has been called as often as it runs or has returned. */
  ghost predicate CalledInv(s: State, x: nat) {
    Total(s.log, CallsOf(x)) == Total(s.workers, InHandler(x)) + Seen(s.log, HandlerReturn(x))
  }

  /** What a handler is to be given: the caller's own pointer, or a copy of its
      own if there was something to copy and memory to copy it to. */
  ghost predicate RightArg(s: State, x: nat, arg: Pointer) {
    x < |s.callers| &&
    match s.callers[x].sub
    case UseArg(given) => arg == if given then CallerMemory else Null
    case ReleaseArg(given, _, mallocOk) => arg == if given && mallocOk then Block(x) else Null
  }

  ghost predicate ArgInv(s: State) {
    forall k :: 0 <= k < |s.log| && s.log[k].HandlerCall? ==> RightArg(s, s.log[k].task, s.log[k].arg)
  }

  lemma LogAfter(s: State, step: Step, f: Event -> nat)
    requires Enabled(s, step)
    ensures var es := Events(s, step);
            Total(Exec(s, step).log, f) == Total(s.log, f) + if es == [] then 0 else f(es[0])
  {
    var es := Events(s, step);
    if es == [] {
      assert s.log + es == s.log;
    } else {
      assert es == [es[0]];
      TotalAppend(s.log, es[0], f);
    }
  }

  lemma SeenAfter(s: State, step: Step, e: Event)
    requires Enabled(s, step)
    ensures Seen(Exec(s, step).log, e) == Seen(s.log, e) + if Events(s, step) == [e] then 1 else 0
  {
    LogAfter(s, step, IsEvent(e));
  }

  predicate MovesWorker(step: Step) {
    step.WorkerLock? || step.Test? || step.Wait? || step.WakeSpuriously? || step.CountDown? || step.WorkerUnlock?
    || step.HandlerReturns? || step.MaybeFree?
  }

  lemma HasAfterMove(s: State, step: Step, x: nat)
    requires Enabled(s, step) && MovesWorker(step)
    ensures var t := Exec(s, step);
            |t.workers| == |s.workers| && t.workers == s.workers[step.w := t.workers[step.w]] &&
            Has(x)(t.workers[step.w]) == Has(x)(s.workers[step.w])
              + (if Events(s, step) == [Dequeue(x)] then 1 else 0)
              - (if Events(s, step) == [HandlerReturn(x)] then 1 else 0)
  {
  }

  lemma HasAfter(s: State, step: Step, x: nat)
    requires Enabled(s, step)
    ensures Total(Exec(s, step).workers, Has(x)) == Total(s.workers, Has(x))
              + (if Events(s, step) == [Dequeue(x)] then 1 else 0)
              - (if Events(s, step) == [HandlerReturn(x)] then 1 else 0)
  {
    var t := Exec(s, step);
    if MovesWorker(step) {
      HasAfterMove(s, step, x);
      TotalUpdate(s.workers, step.w, t.workers[step.w], Has(x));
    } else if step.Broadcast? {
      TotalSame(s.workers, t.workers, Has(x));
    }
  }

  lemma ReleasingAfter(s: State, step: Step, x: nat)
    requires Enabled(s, step)
    ensures Total(Exec(s, step).workers, Releasing(x)) == Total(s.workers, Releasing(x))
              + (if Events(s, step) == [HandlerReturn(x)] then 1 else 0)
              - (if step.MaybeFree? && s.workers[step.w].task == x then 1 else 0)
  {
    var t := Exec(s, step);
    if MovesWorker(step) {
      TotalUpdate(s.workers, step.w, t.workers[step.w], Releasing(x));
    } else if step.Broadcast? {
      TotalSame(s.workers, t.workers, Releasing(x));
    }
  }

  lemma InHandlerAfter(s: State, step: Step, x: nat)
    requires Enabled(s, step)
    ensures Total(Exec(s, step).workers, InHandler(x)) == Total(s.workers, InHandler(x))
              + (if step.WorkerUnlock? && s.workers[step.w].task == x then 1 else 0)
              - (if step.HandlerReturns? && s.workers[step.w].task == x then 1 else 0)
  {
    var t := Exec(s, step);
    if MovesWorker(step) {
      TotalUpdate(s.workers, step.w, t.workers[step.w], InHandler(x));
    } else if step.Broadcast? {
      TotalSame(s.workers, t.workers, InHandler(x));
    }
  }

  lemma CalledAfter(s: State, step: Step, x: nat)
    requires Enabled(s, step)
    ensures Total(Exec(s, step).log, CallsOf(x)) == Total(s.log, CallsOf(x))
              + if step.WorkerUnlock? && s.workers[step.w].task == x then 1 else 0
  {
    LogAfter(s, step, CallsOf(x));
  }

  lemma ReturnedAfter(s: State, step: Step, x: nat)
    requires Enabled(s, step)
    ensures Seen(Exec(s, step).log, HandlerReturn(x)) == Seen(s.log, HandlerReturn(x))
              + if step.HandlerReturns? && s.workers[step.w].task == x then 1 else 0
  {
    SeenAfter(s, step, HandlerReturn(x));
  }

  lemma CalledKept(s: State, step: Step, x: nat)
    requires CalledInv(s, x) && Enabled(s, step)
    ensures CalledInv(Exec(s, step), x)
  {
    InHandlerAfter(s, step, x);
    CalledAfter(s, step, x);
    ReturnedAfter(s, step, x);
  }

  lemma SubmissionsAfter(s: State, step: Step)
    requires Enabled(s, step)
    ensures |Exec(s, step).callers| == |s.callers| + if step.NewCall? then 1 else 0
    ensures forall i :: 0 <= i < |s.callers| ==> Exec(s, step).callers[i].sub == s.callers[i].sub
    ensures step.NewCall? ==> Exec(s, step).callers[|s.callers|].sub == step.sub
  {
  }

  lemma ArgKept(s: State, step: Step)
    requires ArgInv(s) && Enabled(s, step)
    ensures ArgInv(Exec(s, step))
  {
    var t, es := Exec(s, step), Events(s, step);
    SubmissionsAfter(s, step);
    forall k | 0 <= k < |t.log| && t.log[k].HandlerCall? ensures RightArg(t, t.log[k].task, t.log[k].arg) {
      if k < |s.log| {
        assert t.log[k] == s.log[k];
        assert RightArg(s, s.log[k].task, s.log[k].arg);
      } else {
        assert t.log[k] == es[0] && step.WorkerUnlock?;
        assert RightArg(s, es[0].task, es[0].arg);
      }
    }
  }

  lemma QueueAfter(s: State, step: Step, x: nat)
    requires Enabled(s, step)
    ensures Occurs(Exec(s, step).queue, x) == Occurs(s.queue, x)
              + (if Events(s, step) == [Enqueue(x)] then 1 else 0)
              - (if Events(s, step) == [Dequeue(x)] then 1 else 0)
  {
    if step.CallerEnqueue? {
      TotalAppend(s.queue, step.i, Is(x));
    } else if step.Test? && s.queue != [] {
      assert s.queue == [s.queue[0]] + s.queue[1..];
      TotalConcat([s.queue[0]], s.queue[1..], Is(x));
    }
  }

  lemma CallsAfter(s: State, step: Step, x: nat)
    requires TaskInv(s, x) && Enabled(s, step)
    ensures HasEnqueued(Exec(s, step), x) <==> HasEnqueued(s, x) || Events(s, step) == [Enqueue(x)]
    ensures Events(s, step) == [Enqueue(x)] ==> !HasEnqueued(s, x)
    ensures x < |s.callers| ==> OwnsCopy(Exec(s, step), x) == OwnsCopy(s, x)
  {
  }

  lemma FreeAfter(s: State, step: Step, x: nat)
    requires Enabled(s, step)
    ensures Events(s, step) == [FreeArg(Block(x))] <==> step.MaybeFree? && s.workers[step.w].task == x && OwnsCopy(s, x)
  {
  }

  lemma TaskKept(s: State, step: Step, x: nat)
    requires TaskInv(s, x) && Enabled(s, step)
    ensures TaskInv(Exec(s, step), x)
  {
    SeenAfter(s, step, Enqueue(x));
    SeenAfter(s, step, Dequeue(x));
    SeenAfter(s, step, HandlerReturn(x));
    SeenAfter(s, step, FreeArg(Block(x)));
    HasAfter(s, step, x);
    ReleasingAfter(s, step, x);
    QueueAfter(s, step, x);
    CallsAfter(s, step, x);
    FreeAfter(s, step, x);
  }

  // ------------------------------------------------------------ order of events

  /** The tasks of the Enqueue events, in order; Dequeues likewise. */
  ghost function EnqueueOrder(log: seq<Event>): seq<nat> {
    if log == [] then []
    else var e := log[|log| - 1]; EnqueueOrder(log[..|log| - 1]) + if e.Enqueue? then [e.task] else []
  }

  ghost function DequeueOrder(log: seq<Event>): seq<nat> {
    if log == [] then []
    else var e := log[|log| - 1]; DequeueOrder(log[..|log| - 1]) + if e.Dequeue? then [e.task] else []
  }

  ghost predicate WasCalled(log: seq<Event>, x: nat) {
    exists k :: 0 <= k < |log| && CallsOf(x)(log[k]) > 0
  }

  /** What e depends on is in the log, and only blocks are freed. */
  ghost predicate Caused(log: seq<Event>, e: Event) {
    match e
    case Enqueue(_) => true
    case Dequeue(x) => Enqueue(x) in log
    case HandlerCall(x, _) => Dequeue(x) in log
    case HandlerReturn(x) => WasCalled(log, x)
    case FreeArg(p) => p.Block? && HandlerReturn(p.call) in log
  }

  ghost predicate Causal(log: seq<Event>) {
    forall k :: 0 <= k < |log| ==> Caused(log[..k], log[k])
  }

  ghost predicate OrderInv(s: State) {
    Fifo(s) && Causal(s.log)
  }

  lemma SeenIsIn(log: seq<Event>, e: Event)
    requires Seen(log, e) > 0
    ensures e in log
  {
    TotalPositive(log, IsEvent(e));
  }

  lemma SeenIffIn(log: seq<Event>, e: Event)
    ensures e in log <==> Seen(log, e) > 0
  {
    if e in log {
      var j :| 0 <= j < |log| && log[j] == e;
      TotalAtLeast(log, j, IsEvent(e));
    } else if Seen(log, e) > 0 {
      SeenIsIn(log, e);
    }
  }

  lemma OrdersAppend(log: seq<Event>, e: Event)
    ensures EnqueueOrder(log + [e]) == EnqueueOrder(log) + if e.Enqueue? then [e.task] else []
    ensures DequeueOrder(log + [e]) == DequeueOrder(log) + if e.Dequeue? then [e.task] else []
  {
    assert (log + [e])[..|log|] == log;
  }

  ghost predicate Fifo(s: State) {
    EnqueueOrder(s.log) == DequeueOrder(s.log) + s.queue
  }

  lemma QueueFollowsEvents(s: State, step: Step)
    requires Enabled(s, step)
    ensures var t, es := Exec(s, step), Events(s, step);
            if es != [] && es[0].Enqueue? then t.queue == s.queue + [es[0].task]
            else if es != [] && es[0].Dequeue? then s.queue == [es[0].task] + t.queue
            else t.queue == s.queue
  {
  }

  lemma FifoAppend(log: seq<Event>, queue: seq<nat>, e: Event, queue': seq<nat>)
    requires EnqueueOrder(log) == DequeueOrder(log) + queue
    requires if e.Enqueue? then queue' == queue + [e.task]
             else if e.Dequeue? then queue == [e.task] + queue' else queue' == queue
    ensures EnqueueOrder(log + [e]) == DequeueOrder(log + [e]) + queue'
  {
    OrdersAppend(log, e);
  }

  lemma FifoKept(s: State, step: Step)
    requires Fifo(s) && Enabled(s, step)
    ensures Fifo(Exec(s, step))
  {
    var t, es := Exec(s, step), Events(s, step);
    QueueFollowsEvents(s, step);
    if es == [] {
      assert t.log == s.log;
    } else {
      assert t.log == s.log + [es[0]];
      FifoAppend(s.log, s.queue, es[0], t.queue);
    }
  }

  lemma NewEventCaused(s: State, step: Step)
    requires Enabled(s, step) && Events(s, step) != [] && forall x: nat :: TaskInv(s, x) && CalledInv(s, x)
    ensures Caused(s.log, Events(s, step)[0])
  {
    match Events(s, step)[0] {
      case Enqueue(_) =>
      case Dequeue(x) =>
        assert TaskInv(s, x);
        TotalAtLeast(s.queue, 0, Is(x));
        SeenIsIn(s.log, Enqueue(x));
      case HandlerCall(x, _) =>
        assert TaskInv(s, x);
        TotalAtLeast(s.workers, step.w, Has(x));
        SeenIsIn(s.log, Dequeue(x));
      case HandlerReturn(x) =>
        assert CalledInv(s, x);
        TotalAtLeast(s.workers, step.w, InHandler(x));
        TotalPositive(s.log, CallsOf(x));
      case FreeArg(p) =>
        var x := s.workers[step.w].task;
        assert TaskInv(s, x);
        TotalAtLeast(s.workers, step.w, Releasing(x));
        SeenIsIn(s.log, HandlerReturn(x));
    }
  }

  lemma CausalKept(s: State, step: Step)
    requires Causal(s.log) && Enabled(s, step) && forall x: nat :: TaskInv(s, x) && CalledInv(s, x)
    ensures Causal(Exec(s, step).log)
  {
    var t, es, n := Exec(s, step), Events(s, step), |s.log|;
    forall k | 0 <= k < |t.log| ensures Caused(t.log[..k], t.log[k]) {
      if k < n {
        assert t.log[k] == s.log[k] && t.log[..k] == s.log[..k];
      } else {
        assert t.log[..n] == s.log && t.log[n] == es[0];
        NewEventCaused(s, step);
      }
    }
  }

  // ------------------------------------------------------------------ theorems

  ghost predicate Inv(s: State) {
    CountInv(s) && SleepInv(s) && OrderInv(s) && ArgInv(s) && forall x: nat :: TaskInv(s, x) && CalledInv(s, x)
  }

  lemma InitInv(s: State)
    requires Init(s)
    ensures Inv(s)
  {
    forall x: nat ensures TaskInv(s, x) && CalledInv(s, x) {
      TotalZero(s.workers, Has(x));
      TotalZero(s.workers, InHandler(x));
      TotalZero(s.workers, Releasing(x));
    }
  }

  lemma StepKeepsInv(s: State, step: Step)
    requires Inv(s) && Enabled(s, step)
    ensures Inv(Exec(s, step))
  {
    var t := Exec(s, step);
    CountKept(s, step);
    forall w: nat | w < |s.workers|
      ensures (t.workers[w] == Sleeping ==> t.queue == [] || BroadcastPending(t)) &&
              (t.workers[w] == FoundEmpty ==> t.queue == [])
    {
      SleepKept(s, step, w);
    }
    FifoKept(s, step);
    CausalKept(s, step);
    ArgKept(s, step);
    forall x: nat ensures TaskInv(t, x) && CalledInv(t, x) {
      TaskKept(s, step, x);
      CalledKept(s, step, x);
    }
  }

  lemma RunKeepsInv(run: seq<State>, k: nat)
    requires IsRun(run) && k < |run|
    ensures Inv(run[k])
  {
    InitInv(run[0]);
    forall j | 0 <= j < |run| - 1 && Inv(run[j]) ensures Inv(run[j + 1]) {
      assert Next(run[j], run[j + 1]);
      var step :| Enabled(run[j], step) && run[j + 1] == Exec(run[j], step);
      StepKeepsInv(run[j], step);
    }
    Throughout(run, Inv, k);
  }

  /** Whenever the mutex is free, the counter is the queue's length (as a
      32-bit number) and nobody sleeps beside a queued task. */
  lemma FreeMutexMeansSettled(run: seq<State>, k: nat)
    requires IsRun(run) && k < |run| && run[k].mutex == Free
    ensures run[k].curTasksCnt == |run[k].queue| % UINT32
    ensures run[k].queue != [] ==> forall w :: 0 <= w < |run[k].workers| ==> run[k].workers[w] != Sleeping
  {
    RunKeepsInv(run, k);
  }

  /** Tasks are dequeued in the order they were enqueued. */
  lemma FirstInFirstOut(run: seq<State>, k: nat)
    requires IsRun(run) && k < |run|
    ensures EnqueueOrder(run[k].log) == DequeueOrder(run[k].log) + run[k].queue
  {
    RunKeepsInv(run, k);
  }

  /** Each enqueued task is in exactly one place: queued, with one worker, or handled. */
  lemma ExactlyOnce(run: seq<State>, k: nat, x: nat)
    requires IsRun(run) && k < |run|
    ensures var s := run[k];
            Occurs(s.queue, x) + Total(s.workers, Has(x)) + Seen(s.log, HandlerReturn(x)) ==
              if HasEnqueued(s, x) then 1 else 0
  {
    RunKeepsInv(run, k);
    assert TaskInv(run[k], x);
  }

  /** Argument ownership: only blocks are freed, none twice, each after its
      handler returned; a copy outlives its handler by the one step of its
      worker; borrowed and empty arguments are never freed. */
  lemma CopiesFreedOnceAfterUse(run: seq<State>, k: nat, x: nat)
    requires IsRun(run) && k < |run|
    ensures var s := run[k];
            Causal(s.log) &&
            Seen(s.log, FreeArg(Block(x))) <= 1 &&
            (!OwnsCopy(s, x) ==> FreeArg(Block(x)) !in s.log) &&
            (OwnsCopy(s, x) && HandlerReturn(x) in s.log ==>
               (FreeArg(Block(x)) in s.log <==> Total(s.workers, Releasing(x)) == 0))
  {
    RunKeepsInv(run, k);
    var s := run[k];
    assert TaskInv(s, x);
    SeenIffIn(s.log, FreeArg(Block(x)));
    SeenIffIn(s.log, HandlerReturn(x));
  }

  /** The calls made so far, in order. */
  ghost function Submitted(steps: seq<Step>): seq<Submission> {
    if steps == [] then []
    else
      var n := |steps| - 1;
      Submitted(steps[..n]) + if steps[n].NewCall? then [steps[n].sub] else []
  }

  ghost predicate SubmissionLaw(s: State, done: seq<Step>) {
    |s.callers| == |Submitted(done)| && forall i :: 0 <= i < |s.callers| ==> s.callers[i].sub == Submitted(done)[i]
  }

  /** Call x is the x-th call that was made, with what it was made with. */
  lemma CallsAreSubmissions(run: seq<State>, steps: seq<Step>, k: nat)
    requires IsTrace(run, steps) && k <= |steps|
    ensures SubmissionLaw(run[k], steps[..k])
  {
    forall j | 0 <= j < |steps| && SubmissionLaw(run[j], steps[..j])
      ensures SubmissionLaw(run[j + 1], steps[..j] + [steps[j]])
    {
      assert Moves(run[j], steps[j], run[j + 1]);
      SubmissionsAfter(run[j], steps[j]);
      assert (steps[..j] + [steps[j]])[..j] == steps[..j];
    }
    LawThroughout(run, steps, SubmissionLaw, k);
  }

  /** Handlers get what the caller submitted: its own pointer from the first
      function; from the second a block of this call just when there was an
      argument and memory for the copy; otherwise NULL. */
  lemma HandlersGetTheirArgument(run: seq<State>, steps: seq<Step>, k: nat, j: nat)
    requires IsTrace(run, steps) && k <= |steps| && j < |run[k].log| && run[k].log[j].HandlerCall?
    ensures var HandlerCall(x, arg) := run[k].log[j];
            x < |Submitted(steps[..k])| &&
            match Submitted(steps[..k])[x]
            case UseArg(given) => arg == if given then CallerMemory else Null
            case ReleaseArg(given, _, mallocOk) => arg == if given && mallocOk then Block(x) else Null
  {
    TraceIsRun(run, steps);
    RunKeepsInv(run, k);
    CallsAreSubmissions(run, steps, k);
    assert RightArg(run[k], run[k].log[j].task, run[k].log[j].arg);
  }

  // ------------------------------------------------------------------ progress

  /** Whatever a worker has in hand was passed by a call. */
  lemma TaskInHandHasCall(s: State, w: nat)
    requires Inv(s) && w < |s.workers|
    requires s.workers[w].Uncounted? || s.workers[w].HandlerDone?
    ensures s.workers[w].task < |s.callers|
  {
    var x := s.workers[w].task;
    assert TaskInv(s, x);
    if s.workers[w].Uncounted? {
      TotalAtLeast(s.workers, w, Has(x));
    } else {
      TotalAtLeast(s.workers, w, Releasing(x));
    }
  }

  /** A worker that has its task can always go on to the handler. */
  lemma HandlerIsNeverStuck(run: seq<State>, k: nat, w: nat)
    requires IsRun(run) && k < |run| && w < |run[k].workers| && run[k].workers[w].Uncounted?
    ensures Enabled(run[k], WorkerUnlock(w))
  {
    RunKeepsInv(run, k);
    TaskInHandHasCall(run[k], w);
  }

  lemma FreeIsNeverStuck(run: seq<State>, k: nat, w: nat)
    requires IsRun(run) && k < |run| && w < |run[k].workers| && run[k].workers[w].HandlerDone?
    ensures Enabled(run[k], MaybeFree(w))
  {
    RunKeepsInv(run, k);
    TaskInHandHasCall(run[k], w);
  }

  /** All steps but new calls and spurious wakeups: handlers do return. */
  predicate Settling(step: Step) {
    !step.NewCall? && !step.WakeSpuriously?
  }

  /** A call that has not broadcast yet may wake each of n workers. */
  function CallRank(n: nat): Caller -> nat {
    (c: Caller) =>
      match c.pc
      case Entered => 11 + 3 * n
      case Locked => 10 + 3 * n
      case Enqueued => 3 + 3 * n
      case Counted => 2 + 3 * n
      case Broadcasted => 1
      case Returned => 0
  }

  function WorkerRank(pc: WorkerPc): nat {
    match pc
    case Taken(_) => 7
    case Uncounted(_) => 6
    case Running(_) => 5
    case HandlerDone(_) => 4
    case Contending => 3
    case Woken => 3
    case Testing => 2
    case FoundEmpty => 1
    case Sleeping => 0
  }

  ghost function Rank(s: State): nat {
    6 * |s.queue| + Total(s.callers, CallRank(|s.workers|)) + Total(s.workers, WorkerRank)
  }

  lemma {:induction false} WakeAllRank(workers: seq<WorkerPc>)
    ensures Total(WakeAll(workers), WorkerRank) <= Total(workers, WorkerRank) + 3 * |workers|
  {
    if workers != [] {
      var n := |workers| - 1;
      WakeAllRank(workers[..n]);
      assert WakeAll(workers)[..n] == WakeAll(workers[..n]);
    }
  }

  lemma CallRankAfter(s: State, step: Step, n: nat)
    requires Enabled(s, step) && Settling(step)
    ensures Total(Exec(s, step).callers, CallRank(n)) == Total(s.callers, CallRank(n)) -
              match step
              case CallerLock(_) => 1
              case CallerEnqueue(_) => 7
              case CountUp(_) => 1
              case Broadcast(_) => 1 + 3 * n
              case CallerUnlock(_) => 1
              case _ => 0
  {
    if !MovesWorker(step) {
      TotalUpdate(s.callers, step.i, Exec(s, step).callers[step.i], CallRank(n));
    }
  }

  lemma WorkerRankAfter(s: State, step: Step)
    requires Enabled(s, step) && Settling(step)
    ensures |Exec(s, step).workers| == |s.workers|
    ensures var r, r' := Total(s.workers, WorkerRank), Total(Exec(s, step).workers, WorkerRank);
            if step.Broadcast? then r' <= r + 3 * |s.workers|
            else if step.Test? && s.queue != [] then r' == r + 5
            else if MovesWorker(step) then r' < r
            else r' == r
  {
    if MovesWorker(step) {
      TotalUpdate(s.workers, step.w, Exec(s, step).workers[step.w], WorkerRank);
    } else if step.Broadcast? {
      WakeAllRank(s.workers);
    }
  }

  lemma SettlingStepsDescend(s: State, step: Step)
    requires Enabled(s, step) && Settling(step)
    ensures Rank(Exec(s, step)) < Rank(s)
  {
    WorkerRankAfter(s, step);
    CallRankAfter(s, step, |s.workers|);
  }

  ghost predicate SettlingNext(s: State, s': State) {
    exists step :: Enabled(s, step) && Settling(step) && s' == Exec(s, step)
  }

  /** Without new calls and spurious wakeups any schedule comes to rest after at
      most Rank steps. */
  lemma PoolComesToRest(run: seq<State>)
    requires |run| > 0 && forall k :: 0 <= k < |run| - 1 ==> SettlingNext(run[k], run[k + 1])
    ensures |run| - 1 <= Rank(run[0])
  {
    forall k | 0 <= k < |run| - 1 ensures Rank(run[k + 1]) < Rank(run[k]) {
      assert SettlingNext(run[k], run[k + 1]);
      var step :| Enabled(run[k], step) && Settling(step) && run[k + 1] == Exec(run[k], step);
      SettlingStepsDescend(run[k], step);
    }
    DescentEnds(run, Rank);
  }

  ghost predicate AtRest(s: State) {
    forall step :: Settling(step) ==> !Enabled(s, step)
  }

  lemma RestEndsCalls(s: State, i: nat)
    requires AtRest(s) && i < |s.callers|
    ensures !CallerHolds(s.callers[i].pc)
  {
    assert !Enabled(s, CallerEnqueue(i)) && !Enabled(s, CountUp(i));
    assert !Enabled(s, Broadcast(i)) && !Enabled(s, CallerUnlock(i));
  }

  lemma RestEndsSections(s: State, w: nat)
    requires Inv(s) && AtRest(s) && w < |s.workers|
    ensures !WorkerHolds(s.workers[w])
  {
    assert !Enabled(s, Test(w)) && !Enabled(s, Wait(w)) && !Enabled(s, CountDown(w)) && !Enabled(s, WorkerUnlock(w));
    if s.workers[w].Uncounted? {
      TaskInHandHasCall(s, w);
    }
  }

  lemma RestFreesMutex(s: State)
    requires Inv(s) && AtRest(s)
    ensures s.mutex == Free
  {
    if s.mutex.ByCaller? {
      RestEndsCalls(s, s.mutex.i);
    } else if s.mutex.ByWorker? {
      RestEndsSections(s, s.mutex.w);
    }
  }

  lemma RestParksThreads(s: State)
    requires Inv(s) && AtRest(s)
    ensures forall i :: 0 <= i < |s.callers| ==> s.callers[i].pc == Returned
    ensures forall w :: 0 <= w < |s.workers| ==> s.workers[w] == Sleeping
  {
    RestFreesMutex(s);
    forall i: nat | i < |s.callers| ensures s.callers[i].pc == Returned {
      assert !Enabled(s, CallerLock(i));
    }
    forall w: nat | w < |s.workers| ensures s.workers[w] == Sleeping {
      assert !Enabled(s, WorkerLock(w)) && !Enabled(s, HandlerReturns(w)) && !Enabled(s, MaybeFree(w));
      if s.workers[w].HandlerDone? {
        TaskInHandHasCall(s, w);
      }
    }
  }

  /** No lost wakeup, no lost task, no leak: a reachable pool at rest, with one
      worker at least, has an empty queue; the handler of every call has
      returned once, and every owned copy was freed, once. */
  lemma RestMeansDone(run: seq<State>, k: nat, x: nat)
    requires IsRun(run) && k < |run| && AtRest(run[k]) && |run[k].workers| > 0 && x < |run[k].callers|
    ensures run[k].queue == [] && run[k].curTasksCnt == 0
    ensures Total(run[k].log, CallsOf(x)) == 1 && Seen(run[k].log, HandlerReturn(x)) == 1
    ensures Seen(run[k].log, FreeArg(Block(x))) == if OwnsCopy(run[k], x) then 1 else 0
  {
    var s := run[k];
    RunKeepsInv(run, k);
    RestFreesMutex(s);
    RestParksThreads(s);
    assert s.workers[0] == Sleeping;
    assert TaskInv(s, x) && CalledInv(s, x);
    TotalZero(s.workers, Has(x));
    TotalZero(s.workers, InHandler(x));
    TotalZero(s.workers, Releasing(x));
  }

  lemma StepAdded(run: seq<State>, step: Step)
    requires IsRun(run) && Enabled(run[|run| - 1], step)
    ensures IsRun(run + [Exec(run[|run| - 1], step)])
  {
    var longer := run + [Exec(run[|run| - 1], step)];
    forall k | 0 <= k < |longer| - 1 ensures Next(longer[k], longer[k + 1]) {
      if k < |run| - 1 {
        assert Next(run[k], run[k + 1]);
      }
    }
  }

  /** Any run can be carried on to rest. */
  lemma {:induction false} Settle(run: seq<State>) returns (longer: seq<State>)
    requires IsRun(run)
    ensures IsRun(longer) && run <= longer && AtRest(longer[|longer| - 1])
    ensures var s, t := run[|run| - 1], longer[|longer| - 1];
            |t.workers| == |s.workers| && |t.callers| == |s.callers| &&
            forall i :: 0 <= i < |s.callers| ==> t.callers[i].sub == s.callers[i].sub
    decreases Rank(run[|run| - 1])
  {
    var s := run[|run| - 1];
    longer := run;
    if step :| Settling(step) && Enabled(s, step) {
      StepAdded(run, step);
      SettlingStepsDescend(s, step);
      WorkerRankAfter(s, step);
      SubmissionsAfter(s, step);
      longer := Settle(run + [Exec(s, step)]);
    }
  }

  lemma CalledWithRightArg(run: seq<State>, k: nat, x: nat) returns (arg: Pointer)
    requires IsRun(run) && k < |run| && Total(run[k].log, CallsOf(x)) > 0
    ensures HandlerCall(x, arg) in run[k].log && RightArg(run[k], x, arg)
  {
    var t := run[k];
    RunKeepsInv(run, k);
    TotalPositive(t.log, CallsOf(x));
    var j :| 0 <= j < |t.log| && CallsOf(x)(t.log[j]) > 0;
    arg := t.log[j].arg;
    assert t.log[j] == HandlerCall(x, arg);
  }

  /** From every reachable state any further call can be made, and its handler
      will be called with the right argument. */
  lemma OneMoreCall(run: seq<State>, sub: Submission) returns (longer: seq<State>, arg: Pointer)
    requires IsRun(run) && |run[|run| - 1].workers| > 0
    ensures IsRun(longer) && run <= longer
    ensures var x: nat := |run[|run| - 1].callers|;
            HandlerCall(x, arg) in longer[|longer| - 1].log &&
            match sub
            case UseArg(given) => arg == if given then CallerMemory else Null
            case ReleaseArg(given, _, mallocOk) => arg == if given && mallocOk then Block(x) else Null
  {
    var x: nat := |run[|run| - 1].callers|;
    var next := Exec(run[|run| - 1], NewCall(sub));
    StepAdded(run, NewCall(sub));
    longer := Settle(run + [next]);
    RestMeansDone(longer, |longer| - 1, x);
    arg := CalledWithRightArg(longer, |longer| - 1, x);
    assert next.callers[x].sub == sub;
  }
}
