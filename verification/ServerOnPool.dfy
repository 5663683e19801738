/** socket_udp/server on socket_udp/common/thread_pool: the server's threads and
    handlers running on the pool itself, with its mutex, its signals and its
    sleeping workers, in place of the plain queue that ServerPipeline has.

    Every run of the two together is, seen from the pool, a run of UdpPool and,
    seen from the server, a run of ServerPipeline. So what is proved of either
    holds here, and a missed wakeup cannot keep a message from its worker. */
module ServerOnPool {
  import opened Common
  import opened Runs
  import opened Tally
  import opened RegistrySpec
  import U = UdpPool
  import P = ServerPipeline
  import H = ServerHistory

  datatype State = State(
    pool: U.State,
    tasks: seq<P.Job>,       // what each call of AddTaskToPool passed
    server: P.State,         // all but its jobs, which stay in the pool
    submission: Option<nat>) // the dispatcher's latest call of AddTaskToPool

  datatype Step =
    | CallNotify(job: P.Job)  // the epoll thread calls AddTaskToPool
    | CallSubmit              // the dispatcher calls it
    | OfPool(pool: U.Step)
    | OfServer(server: P.Step)

  function Task(c: State, i: nat): P.Job {
    if i < |c.tasks| then c.tasks[i] else P.Receive
  }

  /** The jobs the pool's queue stands for. */
  function Jobs(c: State): seq<P.Job> {
    seq(|c.pool.queue|, j requires 0 <= j < |c.pool.queue| => Task(c, c.pool.queue[j]))
  }

  /** The system as the server sees it. */
  function View(c: State): P.State {
    c.server.(jobs := Jobs(c))
  }

  predicate WaitsToEnqueue(pc: U.CallPc) { pc == U.Entered || pc == U.Locked }

  /** The dispatcher is inside AddTaskToPool. */
  predicate InCall(c: State) {
    c.submission.Some? && c.submission.value < |c.pool.calls| && c.pool.calls[c.submission.value] != U.Returned
  }

  predicate InHandler(c: State, w: nat) {
    w < |c.pool.workers| && c.pool.workers[w].Running?
  }

  predicate HandlerDone(c: State, w: nat) {
    w < |c.server.workers| && c.server.workers[w] == P.Idle
  }

  /** The pool's calls begin below, its handlers end when the server's do; the
      server's hand-overs to and from the queue happen inside the pool. */
  predicate Enabled(c: State, step: Step) {
    !c.server.fault &&
    match step
    case CallNotify(job) => !job.Forward?
    case CallSubmit => c.server.dispatcher.Submitting? && !InCall(c)
    case OfPool(p) => U.Enabled(c.pool, p) && !p.NewCall? && (p.Finish? ==> HandlerDone(c, p.w))
    case OfServer(p) =>
      P.Enabled(View(c), p) && !p.Notify? && !p.Submit? && !p.Take? &&
      (p.Fetch? ==> !InCall(c)) && (P.MovesWorker(p) ==> InHandler(c, p.w))
  }

  function BeginCall(c: State, job: P.Job): State {
    c.(pool := U.Exec(c.pool, U.NewCall), tasks := c.tasks + [job])
  }

  function Exec(c: State, step: Step): State
    requires Enabled(c, step)
  {
    match step
    case CallNotify(job) => BeginCall(c, job)
    case CallSubmit =>
      BeginCall(c, P.Forward(c.server.dispatcher.block, c.server.dispatcher.id)).(submission := Some(|c.pool.calls|))
    case OfPool(p) =>
      var next := c.(pool := U.Exec(c.pool, p));
      if p.Enqueue? && Task(c, p.i).Forward? then
        next.(server := c.server.(dispatcher := P.Polling))
      else if p.Test? && c.pool.queue != [] && p.w < |c.server.workers| then
        next.(server := P.Move(c.server, p.w, P.Started(Task(c, c.pool.queue[0]))))
      else next
    case OfServer(p) => c.(server := P.Exec(View(c), p).(jobs := []))
  }

  ghost predicate Init(c: State) {
    U.Init(c.pool) && P.Init(c.server) && |c.server.workers| == |c.pool.workers| &&
    c.tasks == [] && c.submission == None
  }

  ghost predicate Next(c: State, c': State) {
    exists step :: Enabled(c, step) && c' == Exec(c, step)
  }

  ghost predicate IsRun(run: seq<State>) {
    |run| > 0 && Init(run[0]) && forall k :: 0 <= k < |run| - 1 ==> Next(run[k], run[k + 1])
  }

  ghost predicate Moves(c: State, step: Step, c': State) {
    Enabled(c, step) && c' == Exec(c, step)
  }

  /** A run with its steps. */
  ghost predicate IsTrace(run: seq<State>, steps: seq<Step>) {
    Trace(run, steps, Moves) && Init(run[0])
  }

  lemma TraceIsRun(run: seq<State>, steps: seq<Step>)
    requires IsTrace(run, steps)
    ensures IsRun(run)
  {
    forall k | 0 <= k < |run| - 1 ensures Next(run[k], run[k + 1]) {
      assert Moves(run[k], steps[k], run[k + 1]);
    }
  }

  lemma RunHasSteps(run: seq<State>) returns (steps: seq<Step>)
    requires IsRun(run)
    ensures IsTrace(run, steps)
  {
    forall k | 0 <= k < |run| - 1 ensures SomeStep(run[k], run[k + 1], Moves) {
      assert Next(run[k], run[k + 1]);
      var step :| Enabled(run[k], step) && run[k + 1] == Exec(run[k], step);
      assert Moves(run[k], step, run[k + 1]);
    }
    steps := TakenSteps(run, Moves);
  }

  // ------------------------------------------------------- how the two are tied

  ghost predicate TasksInv(c: State) {
    |c.tasks| == |c.pool.calls| && forall j :: 0 <= j < |c.pool.queue| ==> c.pool.queue[j] < |c.tasks|
  }

  /** Only a worker that was given a task is in a handler. */
  ghost predicate HandlerInv(c: State) {
    |c.server.workers| == |c.pool.workers| &&
    forall w :: 0 <= w < |c.pool.workers| ==>
      c.pool.workers[w].Taken? || c.pool.workers[w].Running? || c.server.workers[w] == P.Idle
  }

  /** A message on its way into the queue is the one the dispatcher submits. */
  ghost predicate SubmissionInv(c: State) {
    (forall i :: 0 <= i < |c.pool.calls| && WaitsToEnqueue(c.pool.calls[i]) && Task(c, i).Forward? ==>
      c.submission == Some(i) && c.server.dispatcher == P.Submitting(Task(c, i).block, Task(c, i).id)) &&
    (c.submission.Some? ==> c.submission.value < |c.tasks| && c.tasks[c.submission.value].Forward?)
  }

  ghost predicate Tied(c: State) {
    U.Inv(c.pool) && TasksInv(c) && HandlerInv(c) && SubmissionInv(c) && c.server.jobs == []
  }

  lemma StepKeepsTasks(c: State, step: Step)
    requires TasksInv(c) && Enabled(c, step)
    ensures TasksInv(Exec(c, step))
  {
  }

  lemma PoolKeepsHandlers(c: State, p: U.Step)
    requires HandlerInv(c) && Enabled(c, OfPool(p))
    ensures HandlerInv(Exec(c, OfPool(p)))
  {
  }

  lemma ServerKeepsHandlers(c: State, p: P.Step)
    requires HandlerInv(c) && Enabled(c, OfServer(p))
    ensures HandlerInv(Exec(c, OfServer(p)))
  {
  }

  lemma StepKeepsHandlers(c: State, step: Step)
    requires HandlerInv(c) && Enabled(c, step)
    ensures HandlerInv(Exec(c, step))
  {
    match step {
      case OfPool(p) => PoolKeepsHandlers(c, p);
      case OfServer(p) => ServerKeepsHandlers(c, p);
      case _ =>
    }
  }

  lemma PoolKeepsSubmission(c: State, p: U.Step)
    requires TasksInv(c) && SubmissionInv(c) && Enabled(c, OfPool(p))
    ensures SubmissionInv(Exec(c, OfPool(p)))
  {
  }

  lemma ServerKeepsSubmission(c: State, p: P.Step)
    requires SubmissionInv(c) && Enabled(c, OfServer(p))
    ensures SubmissionInv(Exec(c, OfServer(p)))
  {
  }

  lemma StepKeepsSubmission(c: State, step: Step)
    requires TasksInv(c) && SubmissionInv(c) && Enabled(c, step)
    ensures SubmissionInv(Exec(c, step))
  {
    match step {
      case OfPool(p) => PoolKeepsSubmission(c, p);
      case OfServer(p) => ServerKeepsSubmission(c, p);
      case _ =>
    }
  }

  lemma StepKeepsTied(c: State, step: Step)
    requires Tied(c) && Enabled(c, step)
    ensures Tied(Exec(c, step))
  {
    StepKeepsTasks(c, step);
    StepKeepsHandlers(c, step);
    StepKeepsSubmission(c, step);
    if step.CallNotify? || step.CallSubmit? {
      U.StepKeepsInv(c.pool, U.NewCall);
    } else if step.OfPool? {
      U.StepKeepsInv(c.pool, step.pool);
    }
  }

  lemma RunKeepsTied(run: seq<State>, k: nat)
    requires IsRun(run) && k < |run|
    ensures Tied(run[k])
  {
    U.InitInv(run[0].pool);
    forall j | 0 <= j < |run| - 1 && Tied(run[j]) ensures Tied(run[j + 1]) {
      assert Next(run[j], run[j + 1]);
      var step :| Enabled(run[j], step) && run[j + 1] == Exec(run[j], step);
      StepKeepsTied(run[j], step);
    }
    Throughout(run, Tied, k);
  }

  // ---------------------------------------------------------------- refinement

  /** What the server sees of a step, if anything. */
  ghost function ServerStep(c: State, step: Step): Option<P.Step> {
    match step
    case CallNotify(_) => None
    case CallSubmit => None
    case OfServer(p) => Some(p)
    case OfPool(p) =>
      if p.Enqueue? then Some(if Task(c, p.i).Forward? then P.Submit else P.Notify(Task(c, p.i)))
      else if p.Test? && c.pool.queue != [] then Some(P.Take(p.w))
      else None
  }

  lemma EnqueueRefines(c: State, i: nat)
    requires Tied(c) && Enabled(c, OfPool(U.Enqueue(i)))
    ensures var p := if Task(c, i).Forward? then P.Submit else P.Notify(Task(c, i));
            P.Enabled(View(c), p) && View(Exec(c, OfPool(U.Enqueue(i)))) == P.Exec(View(c), p)
  {
    assert Jobs(Exec(c, OfPool(U.Enqueue(i)))) == Jobs(c) + [Task(c, i)];
  }

  lemma DequeueRefines(c: State, w: nat)
    requires Tied(c) && Enabled(c, OfPool(U.Test(w))) && c.pool.queue != []
    ensures P.Enabled(View(c), P.Take(w)) && View(Exec(c, OfPool(U.Test(w)))) == P.Exec(View(c), P.Take(w))
  {
    assert Jobs(Exec(c, OfPool(U.Test(w)))) == Jobs(c)[1..];
  }

  lemma UnseenStepsStutter(c: State, step: Step)
    requires Tied(c) && Enabled(c, step) && ServerStep(c, step) == None
    ensures View(Exec(c, step)) == View(c)
  {
    assert Jobs(Exec(c, step)) == Jobs(c);
  }

  lemma StepRefines(c: State, step: Step)
    requires Tied(c) && Enabled(c, step)
    ensures match ServerStep(c, step)
            case None => View(Exec(c, step)) == View(c)
            case Some(p) => P.Enabled(View(c), p) && View(Exec(c, step)) == P.Exec(View(c), p)
  {
    match step {
      case OfServer(p) =>
        assert Jobs(Exec(c, step)) == Jobs(c) == P.Exec(View(c), p).jobs;
      case OfPool(p) =>
        if p.Enqueue? {
          EnqueueRefines(c, p.i);
        } else if p.Test? && c.pool.queue != [] {
          DequeueRefines(c, p.w);
        } else {
          UnseenStepsStutter(c, step);
        }
      case _ => UnseenStepsStutter(c, step);
    }
  }

  ghost function PoolOf(c: State): U.State { c.pool }

  /** What the pool sees of a step, if anything. */
  ghost function PoolStep(c: State, step: Step): Option<U.Step> {
    match step
    case OfPool(p) => Some(p)
    case OfServer(_) => None
    case _ => Some(U.NewCall)
  }

  /** Every run, seen from the pool, is a run of the pool, step for step. */
  lemma RunsThePool(run: seq<State>, steps: seq<Step>)
    requires IsTrace(run, steps)
    ensures var seen := SeenStates(run, steps, PoolOf, PoolStep);
            U.IsTrace(seen, SeenSteps(run, steps, PoolStep)) && seen[|seen| - 1] == run[|steps|].pool
  {
    forall k | 0 <= k < |steps| ensures Refines(run[k], steps[k], run[k + 1], PoolOf, PoolStep, U.Moves) {
      assert Moves(run[k], steps[k], run[k + 1]);
    }
    SeenIsTrace(run, steps, PoolOf, PoolStep, U.Moves);
  }

  /** Every run, seen from the server, is a run of the server over a plain
      queue, step for step. */
  lemma RunsTheServer(run: seq<State>, steps: seq<Step>)
    requires IsTrace(run, steps)
    ensures var seen := SeenStates(run, steps, View, ServerStep);
            P.IsTrace(seen, SeenSteps(run, steps, ServerStep)) && seen[|seen| - 1] == View(run[|steps|])
  {
    TraceIsRun(run, steps);
    forall k | 0 <= k < |steps| ensures Refines(run[k], steps[k], run[k + 1], View, ServerStep, P.Moves) {
      assert Moves(run[k], steps[k], run[k + 1]);
      RunKeepsTied(run, k);
      StepRefines(run[k], steps[k]);
    }
    SeenIsTrace(run, steps, View, ServerStep, P.Moves);
    assert View(run[0]) == run[0].server;
  }

  /** So all the server's safety properties hold on the pool. */
  lemma ServerKeepsInv(run: seq<State>, k: nat)
    requires IsRun(run) && k < |run|
    ensures P.Inv(View(run[k]))
  {
    var steps := RunHasSteps(run);
    var before, done := run[..k + 1], steps[..k];
    assert IsTrace(before, done);
    RunsTheServer(before, done);
    var seen := SeenStates(before, done, View, ServerStep);
    P.TraceIsRun(seen, SeenSteps(before, done, ServerStep));
    P.RunKeepsInv(seen, |seen| - 1);
  }

  // -------------------------------------------------------------- notifications

  /** The notifications of the epoll thread, in order. */
  ghost function Notified(steps: seq<Step>): seq<P.Job> {
    if steps == [] then []
    else
      var n := |steps| - 1;
      Notified(steps[..n]) + if steps[n].CallNotify? then [steps[n].job] else []
  }

  ghost function NotForward(tasks: seq<P.Job>): seq<P.Job> {
    if tasks == [] then []
    else
      var n := |tasks| - 1;
      NotForward(tasks[..n]) + if tasks[n].Forward? then [] else [tasks[n]]
  }

  lemma TasksAfter(c: State, step: Step)
    requires Enabled(c, step)
    ensures Exec(c, step).tasks ==
              match step
              case CallNotify(job) => c.tasks + [job]
              case CallSubmit => c.tasks + [P.Forward(c.server.dispatcher.block, c.server.dispatcher.id)]
              case _ => c.tasks
  {
  }

  /** The pool is given the notifications that were made, in order, and besides
      them only messages; every one has its call of AddTaskToPool. */
  lemma NotificationsReachThePool(run: seq<State>, steps: seq<Step>, k: nat)
    requires IsTrace(run, steps) && k <= |steps|
    ensures NotForward(run[k].tasks) == Notified(steps[..k]) && |run[k].tasks| == |run[k].pool.calls|
  {
    var law := (c: State, done: seq<Step>) => NotForward(c.tasks) == Notified(done);
    forall j | 0 <= j < |steps| && law(run[j], steps[..j]) ensures law(run[j + 1], steps[..j] + [steps[j]]) {
      assert Moves(run[j], steps[j], run[j + 1]);
      var done, tasks := steps[..j] + [steps[j]], run[j + 1].tasks;
      TasksAfter(run[j], steps[j]);
      assert done[..|done| - 1] == steps[..j];
      assert |tasks| > |run[j].tasks| ==> tasks[..|tasks| - 1] == run[j].tasks;
    }
    LawThroughout(run, steps, law, k);
    TraceIsRun(run, steps);
    RunKeepsTied(run, k);
  }

  // ------------------------------------------------------------------ progress

  /** Steps the system takes by itself, not waiting for the network or the terminal. */
  predicate Internal(step: Step) {
    match step
    case CallNotify(_) => false
    case CallSubmit => true
    case OfPool(p) => U.Settling(p)
    case OfServer(p) => P.Internal(p)
  }

  /** The same with every recvfrom and read returning, but nothing new coming in. */
  predicate Draining(step: Step) {
    Internal(step) || (step.OfServer? && P.Draining(step.server))
  }

  /** The dispatcher has a copy and has not called AddTaskToPool for it yet. */
  predicate CallDue(c: State) {
    c.server.dispatcher.Submitting? &&
    !(c.submission.Some? && c.submission.value < |c.pool.calls| && WaitsToEnqueue(c.pool.calls[c.submission.value]))
  }

  ghost function Calls(c: State): seq<(U.CallPc, P.Job)> {
    seq(|c.pool.calls|, i requires 0 <= i < |c.pool.calls| => (c.pool.calls[i], Task(c, i)))
  }

  /** One for a notification that is not in the queue yet. */
  function Coming(call: (U.CallPc, P.Job)): nat {
    if WaitsToEnqueue(call.0) && !call.1.Forward? then 1 else 0
  }

  /** How many steps the system can at most take with nothing new coming in. */
  ghost function Rank(c: State): nat {
    13 * (P.Rank(View(c)) + 2 * Total(Calls(c), Coming)) + U.Rank(c.pool) + if CallDue(c) then 12 else 0
  }

  predicate NotifiesServer(c: State, step: Step) {
    step.OfPool? && step.pool.Enqueue? && !Task(c, step.pool.i).Forward?
  }

  lemma ComingAfterMove(c: State, t: State, i: nat, pc: U.CallPc)
    requires i < |c.pool.calls| && t.pool.calls == c.pool.calls[i := pc] && t.tasks == c.tasks
    ensures Total(Calls(t), Coming) + Coming((c.pool.calls[i], Task(c, i))) ==
              Total(Calls(c), Coming) + Coming((pc, Task(c, i)))
  {
    assert Calls(t) == Calls(c)[i := (pc, Task(c, i))];
    TotalUpdate(Calls(c), i, (pc, Task(c, i)), Coming);
  }

  lemma ComingAfterPool(c: State, p: U.Step)
    requires Enabled(c, OfPool(p))
    ensures Total(Calls(Exec(c, OfPool(p))), Coming) ==
              Total(Calls(c), Coming) - if NotifiesServer(c, OfPool(p)) then 1 else 0
  {
    var t := Exec(c, OfPool(p));
    if p.CallLock? {
      ComingAfterMove(c, t, p.i, U.Locked);
    } else if p.Enqueue? {
      ComingAfterMove(c, t, p.i, U.Enqueued);
    } else if p.CallUnlock? {
      ComingAfterMove(c, t, p.i, U.SignalDue);
    } else if p.Signal? {
      ComingAfterMove(c, t, p.i, U.Returned);
    } else {
      assert Calls(t) == Calls(c);
    }
  }

  /** Only entering the queue ends a notification's coming. */
  lemma ComingAfter(c: State, step: Step)
    requires TasksInv(c) && Enabled(c, step) && Draining(step)
    ensures Total(Calls(Exec(c, step)), Coming) == Total(Calls(c), Coming) - if NotifiesServer(c, step) then 1 else 0
  {
    match step {
      case OfPool(p) => ComingAfterPool(c, p);
      case CallSubmit =>
        var t := Exec(c, step);
        var call := (U.Entered, t.tasks[|c.tasks|]);
        assert Calls(t) == Calls(c) + [call];
        TotalAppend(Calls(c), call, Coming);
      case OfServer(_) =>
        assert Calls(Exec(c, step)) == Calls(c);
    }
  }

  /** What the server sees of the system's own steps lowers its rank, except notifications. */
  lemma ServerRankAfter(c: State, step: Step)
    requires Tied(c) && Enabled(c, step) && Draining(step)
    ensures P.Rank(View(Exec(c, step))) <= P.Rank(View(c)) +
              if NotifiesServer(c, step) then 2 else if ServerStep(c, step).Some? then -1 else 0
  {
    StepRefines(c, step);
    if ServerStep(c, step).Some? {
      var p := ServerStep(c, step).value;
      if p.Notify? {
        TotalAppend(Jobs(c), p.job, P.JobRank);
      } else {
        P.DrainingStepsDescend(View(c), p);
      }
    }
  }

  lemma PoolRankAfter(c: State, step: Step)
    requires Enabled(c, step) && Draining(step)
    ensures var t := Exec(c, step);
            match step
            case OfPool(_) => U.Rank(t.pool) < U.Rank(c.pool)
            case _ => U.Rank(t.pool) == U.Rank(c.pool) + if step.CallSubmit? then 11 else 0
  {
    if step.OfPool? {
      U.SettlingStepsDescend(c.pool, step.pool);
    } else if step.CallSubmit? {
      TotalAppend(c.pool.calls, U.Entered, U.CallRank);
    }
  }

  /** A call falls due only when the dispatcher has made a copy. */
  lemma CallDueAfter(c: State, step: Step)
    requires Tied(c) && Enabled(c, step)
    ensures step.CallSubmit? ==> CallDue(c) && !CallDue(Exec(c, step))
    ensures CallDue(Exec(c, step)) && !CallDue(c) ==> step.OfServer? && step.server.Copy?
  {
  }

  lemma DrainingStepsDescend(c: State, step: Step)
    requires Tied(c) && Enabled(c, step) && Draining(step)
    ensures Rank(Exec(c, step)) < Rank(c)
  {
    ComingAfter(c, step);
    ServerRankAfter(c, step);
    PoolRankAfter(c, step);
    CallDueAfter(c, step);
  }

  ghost predicate DrainingNext(c: State, c': State) {
    exists step :: Enabled(c, step) && Draining(step) && c' == Exec(c, step)
  }

  lemma RankFalls(run: seq<State>, k: nat)
    requires IsRun(run) && k < |run| - 1 && DrainingNext(run[k], run[k + 1])
    ensures Rank(run[k + 1]) < Rank(run[k])
  {
    var step :| Enabled(run[k], step) && Draining(step) && run[k + 1] == Exec(run[k], step);
    RunKeepsTied(run, k);
    DrainingStepsDescend(run[k], step);
  }

  /** From any reachable state, with nothing new coming in and without spurious
      wakeups, the system comes to rest under every schedule, whether recvfrom
      and read return or not. */
  lemma {:induction false} SystemComesToRest(run: seq<State>, n: nat)
    requires IsRun(run) && n < |run|
    requires forall k :: n <= k < |run| - 1 ==> DrainingNext(run[k], run[k + 1])
    ensures |run| - 1 - n <= Rank(run[n])
    decreases |run| - n
  {
    if n < |run| - 1 {
      RankFalls(run, n);
      SystemComesToRest(run, n + 1);
    }
  }

  ghost predicate AtRest(c: State) {
    forall step :: Internal(step) ==> !Enabled(c, step)
  }

  lemma RestOfPool(c: State)
    requires AtRest(c) && !c.server.fault
    ensures U.AtRest(c.pool)
  {
    forall p | U.Internal(p) ensures !U.Enabled(c.pool, p) {
      assert !Enabled(c, OfPool(p));
    }
  }

  lemma RestBlocks(c: State, p: P.Step)
    requires Tied(c) && AtRest(c) && !c.server.fault && P.Internal(p)
    ensures !P.Enabled(View(c), p)
  {
    RestOfPool(c);
    U.RestIsServed(c.pool);
    if p.Take? {
      assert !Enabled(c, OfPool(U.Finish(p.w)));
    } else if p.Submit? {
      assert !Enabled(c, CallSubmit);
    } else {
      assert !Enabled(c, OfServer(p));
    }
  }

  /** With the pool at rest every message it still holds back has all workers
      blocked, so the server has nothing left to do either. */
  lemma RestOfServer(c: State)
    requires Tied(c) && AtRest(c) && !c.server.fault
    ensures P.AtRest(View(c))
    ensures Jobs(c) != [] ==> forall w :: 0 <= w < |c.pool.workers| ==> c.pool.workers[w].Running?
  {
    RestOfPool(c);
    U.RestIsServed(c.pool);
    forall p | P.Internal(p) ensures !P.Enabled(View(c), p) {
      RestBlocks(c, p);
    }
  }

  /** No message is lost on the pool: in a reachable state at rest, where no
      lookup failed, an accepted message has been delivered, once, if and only
      if it is not in the pool's queue; and it is there only while every worker
      of the pool is blocked in recvfrom or read. */
  lemma RestMeansDelivered(run: seq<State>, k: nat, x: nat)
    requires IsRun(run) && k < |run| && AtRest(run[k]) && !run[k].server.fault && x < |run[k].server.accepted|
    ensures var c := run[k];
            |c.server.workers| == |c.pool.workers| &&
            (Total(c.server.delivered, P.For(x)) == 1 <==> x !in P.JobIds(Jobs(c))) &&
            (Total(c.server.delivered, P.For(x)) != 1 ==>
              forall w :: 0 <= w < |c.pool.workers| ==>
                c.pool.workers[w].Running? && P.Blocked(c.server.workers[w]))
  {
    RunKeepsTied(run, k);
    ServerKeepsInv(run, k);
    RestOfServer(run[k]);
    P.RestLeavesOnlyJobs(View(run[k]), x);
  }

  ghost predicate Drained(c: State) {
    forall step :: Draining(step) ==> !Enabled(c, step)
  }

  lemma DrainedHasNoJobs(c: State)
    requires Tied(c) && P.HeapInv(View(c)) && Drained(c) && |c.pool.workers| > 0 && !c.server.fault
    ensures c.pool.queue == []
  {
    RestOfPool(c);
    U.RestIsServed(c.pool);
    RestOfServer(c);
    P.RestParksWorkers(View(c), 0);
    assert !Enabled(c, OfServer(P.ReceiveFails(0))) && !Enabled(c, OfServer(P.ReadReturns(0)));
    assert !Enabled(c, OfPool(U.Finish(0)));
  }

  /** Once every recvfrom and read has returned as well, every accepted message
      has been delivered, once, and nothing is left in the pool. */
  lemma DrainedMeansDelivered(run: seq<State>, k: nat, x: nat)
    requires IsRun(run) && k < |run| && |run[k].pool.workers| > 0 && !run[k].server.fault && Drained(run[k])
    ensures run[k].pool.queue == []
    ensures x < |run[k].server.accepted| ==> Total(run[k].server.delivered, P.For(x)) == 1
  {
    var c := run[k];
    RunKeepsTied(run, k);
    ServerKeepsInv(run, k);
    DrainedHasNoJobs(c);
    RestOfServer(c);
    if x < |c.server.accepted| {
      P.RestLeavesOnlyJobs(View(c), x);
    }
  }

  /** What f counts, of the steps handlers and dispatcher take. */
  ghost function ByServer(f: P.Step -> nat): Step -> nat {
    (step: Step) => if step.OfServer? then f(step.server) else 0
  }

  /** What f counts of the one step the server sees, if any. */
  ghost function Counted(f: P.Step -> nat, seen: Option<P.Step>): nat {
    match seen case None => 0 case Some(p) => f(p)
  }

  lemma {:induction false} ServerStepsCounted(run: seq<State>, steps: seq<Step>, f: P.Step -> nat)
    requires |run| == |steps| + 1
    requires forall k :: 0 <= k < |steps| ==> Counted(f, ServerStep(run[k], steps[k])) == ByServer(f)(steps[k])
    ensures Total(SeenSteps(run, steps, ServerStep), f) == Total(steps, ByServer(f))
    decreases |steps|
  {
    if steps != [] {
      var n := |steps| - 1;
      var before := SeenSteps(run[..n + 1], steps[..n], ServerStep);
      ServerStepsCounted(run[..n + 1], steps[..n], f);
      assert Counted(f, ServerStep(run[n], steps[n])) == ByServer(f)(steps[n]);
      match ServerStep(run[n], steps[n]) {
        case None =>
          assert SeenSteps(run, steps, ServerStep) == before;
        case Some(p) =>
          TotalAppend(before, p, f);
      }
    }
  }

  /** Datagrams arrive by steps of the server alone. */
  lemma ArrivalsCounted(run: seq<State>, steps: seq<Step>, f: P.Datagram -> nat)
    requires |run| == |steps| + 1
    ensures Total(SeenSteps(run, steps, ServerStep), H.Arrives(f)) == Total(steps, ByServer(H.Arrives(f)))
  {
    forall k | 0 <= k < |steps|
      ensures Counted(H.Arrives(f), ServerStep(run[k], steps[k])) == ByServer(H.Arrives(f))(steps[k])
    {
    }
    ServerStepsCounted(run, steps, H.Arrives(f));
  }

  /** On the pool as well: at rest, if no lookup failed, clients are registered
      as they signed up and confirmed as often, messages are accepted as they
      came, and live blocks are those of messages queued or displayed. */
  lemma RestMeansHandled(run: seq<State>, steps: seq<Step>, r: Registration, m: P.LcMsg, x: nat)
    requires IsTrace(run, steps) && AtRest(run[|steps|]) && !run[|steps|].server.fault
    ensures var c := run[|steps|];
            Total(steps, ByServer(H.Arrives(H.SigningUp(r)))) == Occurs(c.server.registry, r) &&
            Occurs(c.server.registry, r) == Occurs(c.server.confirmed, r) &&
            Total(steps, ByServer(H.Arrives(H.Carrying(m)))) == Total(c.server.accepted, H.AcceptedAs(m)) &&
            |H.BlocksOf(c.server.heap, x)| ==
              Total(Jobs(c), H.QueuedFor(x)) + Total(c.server.delivered, H.DisplayedAs(x))
  {
    var n := |steps|;
    TraceIsRun(run, steps);
    RunKeepsTied(run, n);
    RestOfServer(run[n]);
    RunsTheServer(run, steps);
    var seen, seenSteps := SeenStates(run, steps, View, ServerStep), SeenSteps(run, steps, ServerStep);
    H.RestMeansHandled(seen, seenSteps, |seenSteps|, r, m, x);
    assert seenSteps[..|seenSteps|] == seenSteps;
    ArrivalsCounted(run, steps, H.SigningUp(r));
    ArrivalsCounted(run, steps, H.Carrying(m));
  }

  // ------------------------------------------------------------------ a witness

  lemma {:induction false} ExtendRun(run: seq<State>, step: Step) returns (longer: seq<State>)
    requires IsRun(run) && Enabled(run[|run| - 1], step)
    ensures IsRun(longer) && longer == run + [Exec(run[|run| - 1], step)]
  {
    longer := run + [Exec(run[|run| - 1], step)];
    forall k | 0 <= k < |longer| - 1 ensures Next(longer[k], longer[k + 1]) {
      if k < |run| - 1 {
        assert Next(run[k], run[k + 1]);
      }
    }
  }

  /** One worker, which waits for the mutex, and nothing else going on in the pool. */
  ghost predicate Quiet(c: State) {
    c.pool.workers == [U.Contending] && c.pool.mutex == U.Free && c.pool.queue == [] &&
    c.server.workers == [P.Idle] && |c.tasks| == |c.pool.calls| &&
    !c.server.fault && c.server.jobs == [] && !InCall(c)
  }

  /** The one worker is in the handler of the last task. */
  ghost predicate Handling(c: State) {
    |c.pool.calls| > 0 && c.pool.workers == [U.Running(|c.pool.calls| - 1)] && c.pool.mutex == U.Free &&
    c.pool.queue == [] && |c.server.workers| == 1 && |c.tasks| == |c.pool.calls| &&
    !c.server.fault && c.server.jobs == [] && !InCall(c)
  }

  ghost function Begun(c: State, call: Step): P.State
    requires call.CallNotify? || (call.CallSubmit? && c.server.dispatcher.Submitting?)
  {
    match call
    case CallNotify(job) => c.server.(workers := [P.Started(job)])
    case CallSubmit =>
      var d := c.server.dispatcher;
      c.server.(workers := [P.Handling(d.block, d.id)], dispatcher := P.Polling)
  }

  /** From inside AddTaskToPool to its return. */
  lemma FinishCall(run: seq<State>, i: nat) returns (longer: seq<State>)
    requires IsRun(run) && !run[|run| - 1].server.fault
    requires var c := run[|run| - 1].pool;
             c.workers == [U.Contending] && c.mutex == U.Free && i < |c.calls| && c.calls[i] == U.Entered
    ensures IsRun(longer)
    ensures var c, t := run[|run| - 1], longer[|longer| - 1];
            t.pool == c.pool.(calls := c.pool.calls[i := U.Returned], queue := c.pool.queue + [i],
                              enqueued := c.pool.enqueued + [i]) &&
            t == c.(pool := t.pool,
                    server := if Task(c, i).Forward? then c.server.(dispatcher := P.Polling) else c.server)
  {
    var c := run[|run| - 1].pool;
    longer := ExtendRun(run, OfPool(U.CallLock(i)));
    longer := ExtendRun(longer, OfPool(U.Enqueue(i)));
    longer := ExtendRun(longer, OfPool(U.CallUnlock(i)));
    var t := longer[|longer| - 1].pool;
    assert t.calls == c.calls[i := U.SignalDue];
    assert !U.SomeSleeper(t);
    longer := ExtendRun(longer, OfPool(U.Signal(i, 0)));
  }

  /** The one worker takes the one task. */
  lemma TakeTask(run: seq<State>, i: nat) returns (longer: seq<State>)
    requires IsRun(run) && !run[|run| - 1].server.fault && |run[|run| - 1].server.workers| == 1
    requires var c := run[|run| - 1].pool; c.workers == [U.Contending] && c.mutex == U.Free && c.queue == [i]
    ensures IsRun(longer)
    ensures var c, t := run[|run| - 1], longer[|longer| - 1];
            t.pool == c.pool.(workers := [U.Running(i)], queue := [], dequeued := c.pool.dequeued + [i]) &&
            t == c.(pool := t.pool, server := c.server.(workers := [P.Started(Task(c, i))]))
  {
    longer := ExtendRun(run, OfPool(U.WorkerLock(0)));
    longer := ExtendRun(longer, OfPool(U.Test(0)));
    longer := ExtendRun(longer, OfPool(U.WorkerUnlock(0)));
  }

  /** A whole call of AddTaskToPool, and the worker takes the task. */
  lemma HandOver(run: seq<State>, call: Step) returns (longer: seq<State>)
    requires IsRun(run) && (call.CallNotify? || call.CallSubmit?)
    requires Quiet(run[|run| - 1]) && Enabled(run[|run| - 1], call)
    ensures IsRun(longer)
    ensures var c := longer[|longer| - 1];
            Handling(c) && c.server == Begun(run[|run| - 1], call)
  {
    var i := |run[|run| - 1].pool.calls|;
    longer := ExtendRun(run, call);
    longer := FinishCall(longer, i);
    longer := TakeTask(longer, i);
  }

  /** The handler returns, and the worker comes back for more. */
  lemma Return(run: seq<State>) returns (longer: seq<State>)
    requires IsRun(run) && Handling(run[|run| - 1]) && run[|run| - 1].server.workers == [P.Idle]
    ensures IsRun(longer) && Quiet(longer[|longer| - 1]) && longer[|longer| - 1].server == run[|run| - 1].server
  {
    longer := ExtendRun(run, OfPool(U.Finish(0)));
  }

  /** One step of the handler, or of the dispatcher. */
  lemma Handle(run: seq<State>, p: P.Step) returns (longer: seq<State>)
    requires IsRun(run) && Enabled(run[|run| - 1], OfServer(p))
    ensures IsRun(longer) && |longer| > 0
    ensures var c, t := run[|run| - 1], longer[|longer| - 1];
            t == c.(server := P.Exec(View(c), p).(jobs := []))
  {
    longer := ExtendRun(run, OfServer(p));
  }

  /** A datagram comes in. */
  lemma TakeIn(run: seq<State>, msg: P.LcMsg, from: SockAddr) returns (longer: seq<State>)
    requires IsRun(run) && Quiet(run[|run| - 1])
    ensures IsRun(longer) && Handling(longer[|longer| - 1])
    ensures longer[|longer| - 1].server == run[|run| - 1].server.(workers := [P.Received(msg, from)])
  {
    longer := HandOver(run, CallNotify(P.Receive));
    longer := Handle(longer, P.ReceiveDatagram(0, msg, from));
  }

  lemma SignUp(run: seq<State>, client: Registration) returns (longer: seq<State>)
    requires IsRun(run) && Quiet(run[|run| - 1])
    ensures IsRun(longer) && Quiet(longer[|longer| - 1])
    ensures var s, t := run[|run| - 1].server, longer[|longer| - 1].server;
            t == s.(inbox := t.inbox, registry := [client] + s.registry, confirmed := s.confirmed + [client])
  {
    longer := TakeIn(run, P.LcMsg(P.SaveCliInfo, client.id, P.SERVER_ENDID, []), client.addr);
    longer := Handle(longer, P.Route(0));
    longer := Handle(longer, P.Reply(0));
    longer := Return(longer);
  }

  lemma Accept(run: seq<State>, msg: P.LcMsg, from: SockAddr) returns (longer: seq<State>)
    requires IsRun(run) && Quiet(run[|run| - 1]) && msg.msgType == P.DataMsg
    ensures IsRun(longer) && Quiet(longer[|longer| - 1])
    ensures var s, t := run[|run| - 1].server, longer[|longer| - 1].server;
            t == s.(inbox := t.inbox, msgQueue := s.msgQueue + [P.Item(|s.accepted|, msg)],
                    accepted := s.accepted + [P.Acceptance(msg, s.registry)])
  {
    longer := TakeIn(run, msg, from);
    longer := Handle(longer, P.Route(0));
    longer := Return(longer);
  }

  /** The dispatcher copies the next message and hands it to the worker. */
  lemma Dispatch(run: seq<State>, block: nat) returns (longer: seq<State>)
    requires IsRun(run) && Quiet(run[|run| - 1])
    requires var s := run[|run| - 1].server; s.dispatcher == P.Polling && s.msgQueue != [] && block !in s.heap
    ensures IsRun(longer) && Handling(longer[|longer| - 1])
    ensures var s, t := run[|run| - 1].server, longer[|longer| - 1].server;
            t == s.(msgQueue := s.msgQueue[1..], buffer := s.msgQueue[0], heap := s.heap[block := s.msgQueue[0]],
                    workers := [P.Handling(block, s.msgQueue[0].id)])
  {
    longer := Handle(run, P.Fetch);
    longer := Handle(longer, P.Copy(block));
    longer := HandOver(longer, CallSubmit);
  }

  /** A client signs up, a message comes in, and the worker gets it. */
  lemma MessageReachesWorker(client: Registration, msg: P.LcMsg, from: SockAddr) returns (run: seq<State>)
    requires msg.msgType == P.DataMsg
    ensures IsRun(run) && Handling(run[|run| - 1])
    ensures var s := run[|run| - 1].server; var item := P.Item(0, msg);
            s == P.State([], P.Polling, item, [], [P.Handling(0, 0)], map[0 := item], [client], false, s.inbox,
                         [P.Acceptance(msg, [client])], [], [client])
  {
    var item := P.Item(0, msg);
    var server := P.State([], P.Polling, item, [], [P.Idle], map[], [], false, [], [], [], []);
    run := [State(U.State(U.Free, [], [], [U.Contending], [], [], []), [], server, None)];
    assert Init(run[0]) && IsRun(run);
    run := SignUp(run, client);
    run := Accept(run, msg, from);
    assert run[|run| - 1].server.msgQueue == [item];
    run := Dispatch(run, 0);
  }

  /** Messages do get through: a client signs up and is confirmed, and whatever
      data message then comes in for it, or for the server, is delivered. */
  lemma MessageGetsThrough(client: Registration, msg: P.LcMsg, from: SockAddr) returns (run: seq<State>)
    requires msg.msgType == P.DataMsg && (msg.dest == client.id || msg.dest == P.SERVER_ENDID)
    ensures IsRun(run)
    ensures var s := run[|run| - 1].server;
            s.registry == s.confirmed == [client] && s.accepted == [P.Acceptance(msg, [client])] &&
            s.delivered == [if msg.dest == P.SERVER_ENDID then P.Displayed(0, msg)
                            else P.Sent(0, msg, client.addr, [client])]
  {
    run := MessageReachesWorker(client, msg, from);
    if msg.dest == P.SERVER_ENDID {
      run := Handle(run, P.Display(0));
    } else {
      assert Lookup([client], msg.dest) == Some(client.addr);
      run := Handle(run, P.LookUp(0));
      run := Handle(run, P.Send(0));
    }
  }

  lemma DrainingKeepsNotices(c: State, step: Step)
    requires Enabled(c, step) && Draining(step)
    ensures NotForward(Exec(c, step).tasks) == NotForward(c.tasks)
    ensures |Exec(c, step).pool.workers| == |c.pool.workers|
  {
    var tasks := Exec(c, step).tasks;
    TasksAfter(c, step);
    assert |tasks| > |c.tasks| ==> tasks[..|tasks| - 1] == c.tasks;
  }

  lemma DrainingStep(run: seq<State>) returns (longer: seq<State>)
    requires IsRun(run) && !Drained(run[|run| - 1])
    ensures Continues(run, longer) && Continues(longer, longer)
    ensures Rank(longer[|longer| - 1]) < Rank(run[|run| - 1])
  {
    var c := run[|run| - 1];
    var step :| Draining(step) && Enabled(c, step);
    RunKeepsTied(run, |run| - 1);
    DrainingStepsDescend(c, step);
    DrainingKeepsNotices(c, step);
    longer := ExtendRun(run, step);
  }

  /** The run goes on, and makes no more notifications. */
  ghost predicate Continues(run: seq<State>, longer: seq<State>) {
    0 < |run| <= |longer| && run <= longer && IsRun(longer) &&
    NotForward(longer[|longer| - 1].tasks) == NotForward(run[|run| - 1].tasks) &&
    |longer[|longer| - 1].pool.workers| == |run[|run| - 1].pool.workers|
  }

  lemma StillContinues(run: seq<State>, next: seq<State>, longer: seq<State>)
    requires Continues(run, next) && Continues(next, longer)
    ensures Continues(run, longer)
  {
  }

  /** Any run can be carried on until nothing is left to do. */
  lemma {:induction false} Drain(run: seq<State>) returns (longer: seq<State>)
    requires Continues(run, run)
    ensures Continues(run, longer) && Drained(longer[|longer| - 1])
    decreases Rank(run[|run| - 1])
  {
    if Drained(run[|run| - 1]) {
      longer := run;
    } else {
      var next := DrainingStep(run);
      longer := Drain(next);
      StillContinues(run, next, longer);
    }
  }

  /** From every reachable state, unless a lookup has failed, any further
      notification can be made and served. */
  lemma OneMoreNotification(run: seq<State>, job: P.Job) returns (longer: seq<State>)
    requires IsRun(run) && |run[|run| - 1].pool.workers| > 0 && !run[|run| - 1].server.fault && !job.Forward?
    ensures IsRun(longer) && run <= longer
    ensures var c, t := run[|run| - 1], longer[|longer| - 1];
            NotForward(t.tasks) == NotForward(c.tasks) + [job] && (t.server.fault || t.pool.queue == [])
  {
    var c := run[|run| - 1];
    longer := ExtendRun(run, CallNotify(job));
    assert (c.tasks + [job])[..|c.tasks|] == c.tasks;
    longer := Drain(longer);
    if !longer[|longer| - 1].server.fault {
      DrainedMeansDelivered(longer, |longer| - 1, 0);
    }
  }
}
