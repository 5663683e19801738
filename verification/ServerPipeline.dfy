/** socket_udp/server: how a datagram travels from PorcessUdpMsg through the
    message queue, the dispatcher SrvMsgProcessThread and the pool to
    SrvMsgProcessTask, one step per source action, under any schedule.

    The pool appears here as a first-in first-out queue that idle workers take
    from; ServerOnPool proves that on the pool itself the server has no other
    runs. Sockets are the environment: what arrives is a parameter of the step,
    what is sent is recorded. Messages carry the number of their acceptance,
    which no step looks at. */
module ServerPipeline {
  import opened Common
  import opened Runs
  import opened Tally
  import opened RegistrySpec

  datatype MsgType = UnknownMsgType | SaveCliInfo | DataMsg
  datatype LcMsg = LcMsg(msgType: MsgType, src: EndId, dest: EndId, data: seq<int>)

  const SERVER_ENDID: EndId := 0

  datatype Item = Item(id: nat, msg: LcMsg)

  /** A task in the pool's queue: PorcessUdpMsg, ProcessStdin, or SrvMsgProcessTask with its block. */
  datatype Job = Receive | ReadInput | Forward(block: nat, id: nat)

  datatype Dispatcher =
    | Polling                          // before DeSrvMsgQueue
    | Copying                          // message in the buffer, before malloc and memcpy
    | Submitting(block: nat, id: nat)  // copy made, before AddTaskToPool

  datatype WorkerPc =
    | Idle
    | Receiving                                                            // before recvfrom
    | Reading                                                              // before read
    | Received(msg: LcMsg, from: SockAddr)                                 // before the branch on msgType
    | Replying(to: Registration)                                           // registered, before sendto
    | Handling(block: nat, id: nat)                                        // in SrvMsgProcessTask
    | Sending(block: nat, id: nat, addr: SockAddr, known: seq<Registration>)  // address looked up, before sendto
    | Freeing(block: nat, id: nat)                                         // before free

  datatype Datagram = Datagram(msg: LcMsg, from: SockAddr)

  datatype Acceptance = Acceptance(msg: LcMsg, known: seq<Registration>)

  datatype Delivery =
    | Displayed(id: nat, msg: LcMsg)
    | Sent(id: nat, msg: LcMsg, addr: SockAddr, known: seq<Registration>)

  datatype State = State(
    msgQueue: seq<Item>,
    dispatcher: Dispatcher,
    buffer: Item,                 // the dispatcher's one buffer
    jobs: seq<Job>,
    workers: seq<WorkerPc>,
    heap: map<nat, Item>,         // live copies
    registry: seq<Registration>,  // newest first
    fault: bool,                  // a lookup result of NULL was followed
    inbox: seq<Datagram>,         // history of what was received, in the order it was acted on
    accepted: seq<Acceptance>,    // history, with the registry of the moment
    delivered: seq<Delivery>,     // history
    confirmed: seq<Registration>) // history of replies to registrations

  datatype Step =
    | Notify(job: Job)
    | Take(w: nat)
    | ReadReturns(w: nat)
    | ReceiveFails(w: nat)
    | ReceiveDatagram(w: nat, msg: LcMsg, from: SockAddr)
    | Route(w: nat)
    | Reply(w: nat)
    | Fetch
    | Copy(block: nat)
    | Submit
    | Display(w: nat)
    | LookUp(w: nat)
    | Send(w: nat)
    | Skip(w: nat)
    | Release(w: nat)

  /** A worker in SrvMsgProcessTask whose block holds a message of this kind. */
  predicate HandlesBlock(s: State, w: nat) {
    w < |s.workers| && s.workers[w].Handling? && s.workers[w].block in s.heap
  }

  predicate Enabled(s: State, step: Step) {
    !s.fault &&
    match step
    case Notify(job) => !job.Forward?
    case Take(w) => w < |s.workers| && s.workers[w] == Idle && s.jobs != []
    case ReadReturns(w) => w < |s.workers| && s.workers[w] == Reading
    case ReceiveFails(w) => w < |s.workers| && s.workers[w] == Receiving
    case ReceiveDatagram(w, _, _) => w < |s.workers| && s.workers[w] == Receiving
    case Route(w) => w < |s.workers| && s.workers[w].Received?
    case Reply(w) => w < |s.workers| && s.workers[w].Replying?
    case Fetch => s.dispatcher == Polling && s.msgQueue != []
    case Copy(b) => s.dispatcher == Copying && b !in s.heap
    case Submit => s.dispatcher.Submitting?
    case Display(w) => HandlesBlock(s, w) && var m := s.heap[s.workers[w].block].msg;
                       m.msgType == DataMsg && m.dest == SERVER_ENDID
    case LookUp(w) => HandlesBlock(s, w) && var m := s.heap[s.workers[w].block].msg;
                      m.msgType == DataMsg && m.dest != SERVER_ENDID
    case Send(w) => w < |s.workers| && s.workers[w].Sending? && s.workers[w].block in s.heap
    case Skip(w) => HandlesBlock(s, w) && s.heap[s.workers[w].block].msg.msgType != DataMsg
    case Release(w) => w < |s.workers| && s.workers[w].Freeing? && s.workers[w].block in s.heap
  }

  function Move(s: State, w: nat, pc: WorkerPc): State
    requires w < |s.workers|
  {
    s.(workers := s.workers[w := pc])
  }

  /** Where a worker stands when it enters the handler of a job. */
  function Started(job: Job): WorkerPc {
    match job
    case Receive => Receiving
    case ReadInput => Reading
    case Forward(block, id) => Handling(block, id)
  }

  function Exec(s: State, step: Step): State
    requires Enabled(s, step)
  {
    match step
    case Notify(job) => s.(jobs := s.jobs + [job])
    case Take(w) => Move(s, w, Started(s.jobs[0])).(jobs := s.jobs[1..])
    case ReadReturns(w) => Move(s, w, Idle)
    case ReceiveFails(w) => Move(s, w, Idle)
    case ReceiveDatagram(w, msg, from) => Move(s, w, Received(msg, from))
    case Route(w) =>
      var Received(msg, from) := s.workers[w];
      var s := s.(inbox := s.inbox + [Datagram(msg, from)]);
      if msg.msgType == SaveCliInfo && msg.dest == SERVER_ENDID then
        var r := Registration(msg.src, from);
        Move(s, w, Replying(r)).(registry := [r] + s.registry)
      else if msg.msgType == DataMsg then
        Move(s, w, Idle).(msgQueue := s.msgQueue + [Item(|s.accepted|, msg)],
                          accepted := s.accepted + [Acceptance(msg, s.registry)])
      else Move(s, w, Idle)
    case Reply(w) => Move(s, w, Idle).(confirmed := s.confirmed + [s.workers[w].to])
    case Fetch => s.(dispatcher := Copying, buffer := s.msgQueue[0], msgQueue := s.msgQueue[1..])
    case Copy(b) => s.(dispatcher := Submitting(b, s.buffer.id), heap := s.heap[b := s.buffer])
    case Submit => s.(dispatcher := Polling, jobs := s.jobs + [Forward(s.dispatcher.block, s.dispatcher.id)])
    case Display(w) =>
      var Handling(b, id) := s.workers[w];
      Move(s, w, Idle).(delivered := s.delivered + [Displayed(id, s.heap[b].msg)])
    case LookUp(w) =>
      var Handling(b, id) := s.workers[w];
      (match Lookup(s.registry, s.heap[b].msg.dest)
       case None => s.(fault := true)
       case Some(addr) => Move(s, w, Sending(b, id, addr, s.registry)))
    case Send(w) =>
      var Sending(b, id, addr, known) := s.workers[w];
      Move(s, w, Freeing(b, id)).(delivered := s.delivered + [Sent(id, s.heap[b].msg, addr, known)])
    case Skip(w) => Move(s, w, Freeing(s.workers[w].block, s.workers[w].id))
    case Release(w) => Move(s, w, Idle).(heap := s.heap - {s.workers[w].block})
  }

  ghost predicate Init(s: State) {
    s.msgQueue == [] && s.dispatcher == Polling && s.jobs == [] && s.heap == map[] && s.registry == [] &&
    !s.fault && s.inbox == [] && s.accepted == [] && s.delivered == [] && s.confirmed == [] &&
    forall w :: 0 <= w < |s.workers| ==> s.workers[w] == Idle
  }

  ghost predicate Next(s: State, s': State) {
    exists step :: Enabled(s, step) && s' == Exec(s, step)
  }

  ghost predicate IsRun(run: seq<State>) {
    |run| > 0 && Init(run[0]) && forall k :: 0 <= k < |run| - 1 ==> Next(run[k], run[k + 1])
  }

  ghost predicate Moves(s: State, step: Step, t: State) {
    Enabled(s, step) && t == Exec(s, step)
  }

  /** A run with its steps. */
  ghost predicate IsTrace(run: seq<State>, steps: seq<Step>) {
    Trace(run, steps, Moves) && Init(run[0])
  }

  lemma TraceIsRun(run: seq<State>, steps: seq<Step>)
    requires IsTrace(run, steps)
    ensures IsRun(run)
  {
    forall k | 0 <= k < |run| - 1 ensures Next(run[k], run[k + 1]) {
      assert Moves(run[k], steps[k], run[k + 1]);
    }
  }

  // ------------------------------------------------ order of messages in flight

  ghost function QueueIds(q: seq<Item>): seq<nat> {
    seq(|q|, j requires 0 <= j < |q| => q[j].id)
  }

  ghost function JobIds(jobs: seq<Job>): seq<nat> {
    if jobs == [] then [] else (if jobs[0].Forward? then [jobs[0].id] else []) + JobIds(jobs[1..])
  }

  ghost function DispatcherIds(s: State): seq<nat> {
    match s.dispatcher
    case Polling => []
    case Copying => [s.buffer.id]
    case Submitting(_, id) => [id]
  }

  /** Accepted messages no worker has taken yet, next one first. */
  ghost function InFlight(s: State): seq<nat> {
    JobIds(s.jobs) + DispatcherIds(s) + QueueIds(s.msgQueue)
  }

  /** How many messages workers have taken so far. */
  ghost function TakenCount(s: State): int {
    |s.accepted| - |InFlight(s)|
  }

  ghost predicate OrderInv(s: State) {
    TakenCount(s) >= 0 && forall j :: 0 <= j < |InFlight(s)| ==> InFlight(s)[j] == TakenCount(s) + j
  }

  lemma {:induction false} JobIdsAppend(jobs: seq<Job>, job: Job)
    ensures JobIds(jobs + [job]) == JobIds(jobs) + if job.Forward? then [job.id] else []
  {
    var e: seq<nat> := if job.Forward? then [job.id] else [];
    if jobs == [] {
      assert jobs + [job] == [job];
      assert JobIds([job]) == e + JobIds([]);
    } else {
      var h: seq<nat> := if jobs[0].Forward? then [jobs[0].id] else [];
      JobIdsAppend(jobs[1..], job);
      assert (jobs + [job])[1..] == jobs[1..] + [job];
      assert JobIds(jobs + [job]) == h + (JobIds(jobs[1..]) + e);
      assert JobIds(jobs) == h + JobIds(jobs[1..]);
    }
  }

  /** The line only gains the newest acceptance at its end and loses its head to a worker. */
  ghost predicate LineMoved(s: State, t: State, taken: seq<nat>) {
    if |t.accepted| == |s.accepted| + 1 then taken == [] && InFlight(t) == InFlight(s) + [|s.accepted|]
    else |t.accepted| == |s.accepted| && InFlight(s) == taken + InFlight(t)
  }

  ghost function TakenBy(s: State, step: Step): seq<nat>
    requires Enabled(s, step)
  {
    if step.Take? && s.jobs[0].Forward? then [s.jobs[0].id] else []
  }

  lemma FetchMovesLine(s: State)
    requires Enabled(s, Fetch)
    ensures LineMoved(s, Exec(s, Fetch), [])
  {
    var t := Exec(s, Fetch);
    assert QueueIds(s.msgQueue) == [s.msgQueue[0].id] + QueueIds(t.msgQueue);
    assert InFlight(s) == JobIds(s.jobs) + QueueIds(s.msgQueue);
    assert InFlight(t) == JobIds(s.jobs) + [s.msgQueue[0].id] + QueueIds(t.msgQueue);
  }

  lemma SubmitMovesLine(s: State)
    requires Enabled(s, Submit)
    ensures LineMoved(s, Exec(s, Submit), [])
  {
    var t := Exec(s, Submit);
    JobIdsAppend(s.jobs, Forward(s.dispatcher.block, s.dispatcher.id));
    assert JobIds(t.jobs) + DispatcherIds(t) == JobIds(s.jobs) + DispatcherIds(s);
  }

  lemma NotifyMovesLine(s: State, job: Job)
    requires Enabled(s, Notify(job))
    ensures LineMoved(s, Exec(s, Notify(job)), [])
  {
    JobIdsAppend(s.jobs, job);
    assert JobIds(s.jobs + [job]) == JobIds(s.jobs);
  }

  lemma RouteMovesLine(s: State, w: nat)
    requires Enabled(s, Route(w))
    ensures LineMoved(s, Exec(s, Route(w)), [])
  {
    var t := Exec(s, Route(w));
    if |t.accepted| > |s.accepted| {
      assert QueueIds(t.msgQueue) == QueueIds(s.msgQueue) + [|s.accepted|];
    }
  }

  lemma TakeMovesLine(s: State, w: nat)
    requires Enabled(s, Take(w))
    ensures LineMoved(s, Exec(s, Take(w)), TakenBy(s, Take(w)))
  {
    var t := Exec(s, Take(w));
    assert JobIds(s.jobs) == TakenBy(s, Take(w)) + JobIds(t.jobs);
  }

  lemma OthersLeaveLine(s: State, step: Step)
    requires Enabled(s, step) && !step.Notify? && !step.Fetch? && !step.Submit? && !step.Route? && !step.Take?
    ensures LineMoved(s, Exec(s, step), [])
  {
    var t := Exec(s, step);
    assert t.jobs == s.jobs && t.msgQueue == s.msgQueue && t.accepted == s.accepted;
    assert DispatcherIds(t) == DispatcherIds(s);
  }

  lemma LineAfter(s: State, step: Step)
    requires Enabled(s, step)
    ensures LineMoved(s, Exec(s, step), TakenBy(s, step))
  {
    match step {
      case Notify(job) => NotifyMovesLine(s, job);
      case Fetch => FetchMovesLine(s);
      case Submit => SubmitMovesLine(s);
      case Route(w) => RouteMovesLine(s, w);
      case Take(w) => TakeMovesLine(s, w);
      case _ => OthersLeaveLine(s, step);
    }
  }

  lemma OrderKept(s: State, step: Step)
    requires OrderInv(s) && Enabled(s, step)
    ensures OrderInv(Exec(s, step))
    ensures TakenCount(Exec(s, step)) == TakenCount(s) + |TakenBy(s, step)|
    ensures TakenBy(s, step) != [] ==> TakenBy(s, step)[0] == TakenCount(s)
  {
    var t := Exec(s, step);
    LineAfter(s, step);
    if |t.accepted| == |s.accepted| {
      assert forall j :: 0 <= j < |InFlight(t)| ==> InFlight(t)[j] == InFlight(s)[j + |TakenBy(s, step)|];
      assert TakenBy(s, step) != [] ==> InFlight(s)[0] == TakenBy(s, step)[0];
    }
  }

  // ------------------------------------------------- contents, copies, lifetimes

  /** The item still is what was accepted under its number. */
  ghost predicate Stored(s: State, item: Item) {
    item.id < |s.accepted| && item.msg == s.accepted[item.id].msg && item.msg.msgType == DataMsg
  }

  ghost predicate LiveCopy(s: State, block: nat, id: nat) {
    block in s.heap && s.heap[block].id == id && Stored(s, s.heap[block])
  }

  predicate HasBlock(pc: WorkerPc) { pc.Handling? || pc.Sending? || pc.Freeing? }

  ghost predicate QueueInv(s: State) {
    (forall j :: 0 <= j < |s.msgQueue| ==> Stored(s, s.msgQueue[j])) &&
    (s.dispatcher == Copying ==> Stored(s, s.buffer))
  }

  /** Every block a task still refers to is live and holds its own message. */
  ghost predicate HeapInv(s: State) {
    (s.dispatcher.Submitting? ==> LiveCopy(s, s.dispatcher.block, s.dispatcher.id)) &&
    (forall j :: 0 <= j < |s.jobs| && s.jobs[j].Forward? ==> LiveCopy(s, s.jobs[j].block, s.jobs[j].id)) &&
    (forall w :: 0 <= w < |s.workers| && HasBlock(s.workers[w]) ==> LiveCopy(s, s.workers[w].block, s.workers[w].id))
  }

  ghost function Busy(x: nat): WorkerPc -> nat {
    (pc: WorkerPc) => if (pc.Handling? || pc.Sending?) && pc.id == x then 1 else 0
  }

  ghost function FreeingOf(x: nat): WorkerPc -> nat {
    (pc: WorkerPc) => if pc.Freeing? && pc.id == x then 1 else 0
  }

  ghost function For(x: nat): Delivery -> nat {
    (d: Delivery) => if d.id == x then 1 else 0
  }

  /** A message taken from the line is with one worker or delivered, not both;
      its block is freed only after it was delivered. */
  ghost predicate WorkInv(s: State, x: nat) {
    Total(s.workers, Busy(x)) + Total(s.delivered, For(x)) == (if x < TakenCount(s) then 1 else 0) &&
    Total(s.workers, FreeingOf(x)) <= Total(s.delivered, For(x))
  }

  /** Registry and acceptances only grow, by what Route puts there. */
  lemma RouteGrows(s: State, step: Step)
    requires Enabled(s, step)
    ensures var t := Exec(s, step);
            if t.registry != s.registry then
              step.Route? && |t.registry| == |s.registry| + 1 && t.registry == [t.registry[0]] + s.registry &&
              t.accepted == s.accepted
            else
              t.accepted == s.accepted ||
              (step.Route? && t.accepted == s.accepted + [Acceptance(s.workers[step.w].msg, s.registry)])
    ensures s.accepted <= Exec(s, step).accepted
  {
  }

  lemma StoredKept(s: State, step: Step, item: Item)
    requires Enabled(s, step) && Stored(s, item)
    ensures Stored(Exec(s, step), item)
  {
    RouteGrows(s, step);
  }

  lemma NewItemStored(s: State, step: Step, j: nat)
    requires Enabled(s, step) && j < |Exec(s, step).msgQueue|
    ensures var q := Exec(s, step).msgQueue; q[j] in s.msgQueue || Stored(Exec(s, step), q[j])
  {
  }

  lemma QueueKept(s: State, step: Step)
    requires QueueInv(s) && Enabled(s, step)
    ensures QueueInv(Exec(s, step))
  {
    var t := Exec(s, step);
    forall j | 0 <= j < |t.msgQueue| ensures Stored(t, t.msgQueue[j]) {
      NewItemStored(s, step, j);
      if t.msgQueue[j] in s.msgQueue {
        StoredKept(s, step, t.msgQueue[j]);
      }
    }
    if t.dispatcher == Copying {
      StoredKept(s, step, t.buffer);
    }
  }

  predicate MovesWorker(step: Step) {
    !step.Notify? && !step.Fetch? && !step.Copy? && !step.Submit?
  }

  lemma WorkersAfter(s: State, step: Step, f: WorkerPc -> nat)
    requires Enabled(s, step)
    ensures var t := Exec(s, step);
            Total(t.workers, f) == Total(s.workers, f) +
              if MovesWorker(step) && !t.fault then f(t.workers[step.w]) - f(s.workers[step.w]) else 0
  {
    var t := Exec(s, step);
    if MovesWorker(step) && !t.fault {
      TotalUpdate(s.workers, step.w, t.workers[step.w], f);
    }
  }

  lemma SkipImpossible(s: State, w: nat)
    requires HeapInv(s)
    ensures !Enabled(s, Skip(w))
  {
  }

  lemma DeliveredAfter(s: State, step: Step, x: nat)
    requires Enabled(s, step)
    ensures Total(Exec(s, step).delivered, For(x)) == Total(s.delivered, For(x))
              + if (step.Display? || step.Send?) && s.workers[step.w].id == x then 1 else 0
  {
    if step.Display? || step.Send? {
      TotalAppend(s.delivered, Exec(s, step).delivered[|s.delivered|], For(x));
    }
  }

  lemma BusyAfter(s: State, step: Step, x: nat)
    requires Enabled(s, step) && !step.Skip?
    ensures Total(Exec(s, step).workers, Busy(x)) == Total(s.workers, Busy(x))
              + (if TakenBy(s, step) == [x] then 1 else 0)
              - (if (step.Display? || step.Send?) && s.workers[step.w].id == x then 1 else 0)
  {
    WorkersAfter(s, step, Busy(x));
  }

  lemma FreeingAfter(s: State, step: Step, x: nat)
    requires Enabled(s, step) && !step.Skip?
    ensures Total(Exec(s, step).workers, FreeingOf(x)) == Total(s.workers, FreeingOf(x))
              + (if step.Send? && s.workers[step.w].id == x then 1 else 0)
              - (if step.Release? && s.workers[step.w].id == x then 1 else 0)
  {
    WorkersAfter(s, step, FreeingOf(x));
  }

  lemma WorkKept(s: State, step: Step, x: nat)
    requires WorkInv(s, x) && OrderInv(s) && Enabled(s, step) && !step.Skip?
    ensures WorkInv(Exec(s, step), x)
  {
    OrderKept(s, step);
    DeliveredAfter(s, step, x);
    BusyAfter(s, step, x);
    FreeingAfter(s, step, x);
  }

  lemma {:induction false} JobInLine(jobs: seq<Job>, j: nat)
    requires j < |jobs| && jobs[j].Forward?
    ensures jobs[j].id in JobIds(jobs)
  {
    if j > 0 {
      JobInLine(jobs[1..], j - 1);
    }
  }

  lemma InLineNotTaken(s: State, x: nat)
    requires OrderInv(s) && x in InFlight(s)
    ensures x >= TakenCount(s)
  {
    var j :| 0 <= j < |InFlight(s)| && InFlight(s)[j] == x;
  }

  /** The block a worker is about to free is nobody else's. */
  lemma FreedBlockIsUnshared(s: State, w: nat)
    requires OrderInv(s) && HeapInv(s) && w < |s.workers| && s.workers[w].Freeing? && WorkInv(s, s.workers[w].id)
    ensures s.dispatcher.Submitting? ==> s.dispatcher.block != s.workers[w].block
    ensures forall j :: 0 <= j < |s.jobs| && s.jobs[j].Forward? ==> s.jobs[j].block != s.workers[w].block
    ensures forall v :: 0 <= v < |s.workers| && v != w && HasBlock(s.workers[v]) ==>
              s.workers[v].block != s.workers[w].block
  {
    var x := s.workers[w].id;
    TotalAtLeast(s.workers, w, FreeingOf(x));
    if s.dispatcher.Submitting? {
      InLineNotTaken(s, s.dispatcher.id);
    }
    forall j | 0 <= j < |s.jobs| && s.jobs[j].Forward? ensures s.jobs[j].block != s.workers[w].block {
      JobInLine(s.jobs, j);
      InLineNotTaken(s, s.jobs[j].id);
    }
    forall v | 0 <= v < |s.workers| && v != w && HasBlock(s.workers[v])
      ensures s.workers[v].block != s.workers[w].block
    {
      TotalAtLeast(s.workers, v, Busy(x));
      TotalTwo(s.workers, if v < w then v else w, if v < w then w else v, FreeingOf(x));
    }
  }

  lemma CopyLives(s: State, step: Step, block: nat, id: nat)
    requires Enabled(s, step) && LiveCopy(s, block, id)
    requires step.Release? ==> s.workers[step.w].block != block
    ensures LiveCopy(Exec(s, step), block, id)
  {
  }

  /** A worker's block comes from the pool's queue or was its own before. */
  lemma BlockHadOwner(s: State, step: Step, w: nat)
    requires Enabled(s, step) && w < |s.workers| && HasBlock(Exec(s, step).workers[w])
    ensures var pc := Exec(s, step).workers[w];
            if step == Take(w) then s.jobs[0] == Forward(pc.block, pc.id)
            else HasBlock(s.workers[w]) && s.workers[w].block == pc.block && s.workers[w].id == pc.id &&
                 !(step == Release(w))
  {
  }

  lemma WorkerBlocksKept(s: State, step: Step, w: nat)
    requires OrderInv(s) && HeapInv(s) && Enabled(s, step)
    requires step.Release? ==> WorkInv(s, s.workers[step.w].id)
    requires w < |s.workers| && HasBlock(Exec(s, step).workers[w])
    ensures LiveCopy(Exec(s, step), Exec(s, step).workers[w].block, Exec(s, step).workers[w].id)
  {
    BlockHadOwner(s, step, w);
    if step.Release? {
      FreedBlockIsUnshared(s, step.w);
    }
    CopyLives(s, step, Exec(s, step).workers[w].block, Exec(s, step).workers[w].id);
  }

  lemma QueuedBlocksKept(s: State, step: Step)
    requires OrderInv(s) && QueueInv(s) && HeapInv(s) && Enabled(s, step)
    requires step.Release? ==> WorkInv(s, s.workers[step.w].id)
    ensures var t := Exec(s, step);
            (t.dispatcher.Submitting? ==> LiveCopy(t, t.dispatcher.block, t.dispatcher.id)) &&
            forall j :: 0 <= j < |t.jobs| && t.jobs[j].Forward? ==> LiveCopy(t, t.jobs[j].block, t.jobs[j].id)
  {
    var t := Exec(s, step);
    if step.Release? {
      FreedBlockIsUnshared(s, step.w);
    }
    if t.dispatcher.Submitting? && !step.Copy? {
      CopyLives(s, step, t.dispatcher.block, t.dispatcher.id);
    }
    forall j | 0 <= j < |t.jobs| && t.jobs[j].Forward? ensures LiveCopy(t, t.jobs[j].block, t.jobs[j].id) {
      CopyLives(s, step, t.jobs[j].block, t.jobs[j].id);
    }
  }

  lemma HeapKept(s: State, step: Step)
    requires OrderInv(s) && QueueInv(s) && HeapInv(s) && Enabled(s, step)
    requires step.Release? ==> WorkInv(s, s.workers[step.w].id)
    ensures HeapInv(Exec(s, step))
  {
    var t := Exec(s, step);
    QueuedBlocksKept(s, step);
    forall w | 0 <= w < |t.workers| && HasBlock(t.workers[w]) ensures LiveCopy(t, t.workers[w].block, t.workers[w].id) {
      WorkerBlocksKept(s, step, w);
    }
  }

  // ------------------------------------------------------ addresses and deliveries

  /** The address is the newest one of the destination in the registry of the
      lookup, which came between the acceptance and now. */
  ghost predicate Addressed(s: State, id: nat, addr: SockAddr, known: seq<Registration>) {
    id < |s.accepted| && s.accepted[id].msg.dest != SERVER_ENDID &&
    Lookup(known, s.accepted[id].msg.dest) == Some(addr) &&
    Older(s.accepted[id].known, known) && Older(known, s.registry)
  }

  ghost predicate Honoured(s: State, d: Delivery) {
    d.id < |s.accepted| && d.msg == s.accepted[d.id].msg &&
    match d
    case Displayed(_, _) => d.msg.dest == SERVER_ENDID
    case Sent(_, _, addr, known) => Addressed(s, d.id, addr, known)
  }

  ghost predicate AddressInv(s: State) {
    (forall x :: 0 <= x < |s.accepted| ==> Older(s.accepted[x].known, s.registry)) &&
    (forall w :: 0 <= w < |s.workers| && s.workers[w].Sending? ==>
       Addressed(s, s.workers[w].id, s.workers[w].addr, s.workers[w].known)) &&
    (forall j :: 0 <= j < |s.delivered| ==> Honoured(s, s.delivered[j]))
  }

  /** Some message was accepted for an ID that was not registered then. */
  ghost predicate StrangerAccepted(s: State) {
    exists x :: 0 <= x < |s.accepted| && s.accepted[x].msg.dest != SERVER_ENDID &&
                Lookup(s.accepted[x].known, s.accepted[x].msg.dest) == None
  }

  lemma OlderKept(s: State, step: Step, known: seq<Registration>)
    requires Enabled(s, step) && Older(known, s.registry)
    ensures Older(known, Exec(s, step).registry)
  {
    var t := Exec(s, step);
    RouteGrows(s, step);
    if t.registry != s.registry {
      OlderStep(known, s.registry, t.registry[0]);
    }
  }

  lemma AcceptancesKept(s: State, step: Step)
    requires AddressInv(s) && Enabled(s, step)
    ensures forall x :: 0 <= x < |Exec(s, step).accepted| ==>
              Older(Exec(s, step).accepted[x].known, Exec(s, step).registry)
  {
    var t := Exec(s, step);
    RouteGrows(s, step);
    forall x | 0 <= x < |t.accepted| ensures Older(t.accepted[x].known, t.registry) {
      if x < |s.accepted| {
        assert t.accepted[x] == s.accepted[x];
        OlderKept(s, step, s.accepted[x].known);
      }
    }
  }

  lemma AddressedKept(s: State, step: Step, id: nat, addr: SockAddr, known: seq<Registration>)
    requires Addressed(s, id, addr, known) && Enabled(s, step)
    ensures Addressed(Exec(s, step), id, addr, known)
  {
    RouteGrows(s, step);
    OlderKept(s, step, known);
  }

  lemma NewSender(s: State, w: nat)
    requires AddressInv(s) && HeapInv(s) && Enabled(s, LookUp(w)) && !Exec(s, LookUp(w)).fault
    ensures var t := Exec(s, LookUp(w)); var pc := t.workers[w];
            pc.Sending? && Addressed(t, pc.id, pc.addr, pc.known)
  {
    assert LiveCopy(s, s.workers[w].block, s.workers[w].id);
  }

  lemma SenderIsNewOrOld(s: State, step: Step, w: nat)
    requires Enabled(s, step) && w < |s.workers| && Exec(s, step).workers[w].Sending?
    ensures Exec(s, step).workers[w] == s.workers[w] || (step == LookUp(w) && !Exec(s, step).fault)
  {
  }

  lemma SendersKept(s: State, step: Step, w: nat)
    requires AddressInv(s) && HeapInv(s) && Enabled(s, step)
    requires w < |s.workers| && Exec(s, step).workers[w].Sending?
    ensures var pc := Exec(s, step).workers[w]; Addressed(Exec(s, step), pc.id, pc.addr, pc.known)
  {
    SenderIsNewOrOld(s, step, w);
    if Exec(s, step).workers[w] == s.workers[w] {
      AddressedKept(s, step, s.workers[w].id, s.workers[w].addr, s.workers[w].known);
    } else {
      NewSender(s, w);
    }
  }

  lemma DeliveriesKept(s: State, step: Step, j: nat)
    requires AddressInv(s) && HeapInv(s) && Enabled(s, step) && j < |Exec(s, step).delivered|
    ensures Honoured(Exec(s, step), Exec(s, step).delivered[j])
  {
    var t := Exec(s, step);
    var d := t.delivered[j];
    if j < |s.delivered| {
      assert d == s.delivered[j];
      if d.Sent? {
        AddressedKept(s, step, d.id, d.addr, d.known);
      }
    } else {
      assert LiveCopy(s, s.workers[step.w].block, s.workers[step.w].id);
    }
  }

  lemma AddressKept(s: State, step: Step)
    requires AddressInv(s) && HeapInv(s) && Enabled(s, step)
    ensures AddressInv(Exec(s, step))
  {
    var t := Exec(s, step);
    AcceptancesKept(s, step);
    forall w | 0 <= w < |t.workers| && t.workers[w].Sending?
      ensures Addressed(t, t.workers[w].id, t.workers[w].addr, t.workers[w].known)
    {
      SendersKept(s, step, w);
    }
    forall j | 0 <= j < |t.delivered| ensures Honoured(t, t.delivered[j]) {
      DeliveriesKept(s, step, j);
    }
  }

  /** Following NULL needs a message whose destination was unknown on arrival. */
  lemma FaultNeedsStranger(s: State, step: Step)
    requires AddressInv(s) && HeapInv(s) && Enabled(s, step) && Exec(s, step).fault
    ensures StrangerAccepted(Exec(s, step))
  {
    var b, x := s.workers[step.w].block, s.workers[step.w].id;
    assert LiveCopy(s, b, x);
    if Lookup(s.accepted[x].known, s.accepted[x].msg.dest).Some? {
      OlderLookup(s.accepted[x].known, s.registry, s.accepted[x].msg.dest);
    }
  }

  /** Who signed up with the server, newest first. */
  ghost function SignUps(inbox: seq<Datagram>): seq<Registration> {
    if inbox == [] then []
    else
      var d, earlier := inbox[|inbox| - 1], SignUps(inbox[..|inbox| - 1]);
      if d.msg.msgType == SaveCliInfo && d.msg.dest == SERVER_ENDID then [Registration(d.msg.src, d.from)] + earlier
      else earlier
  }

  /** The data messages received, in order. */
  ghost function DataIn(inbox: seq<Datagram>): seq<LcMsg> {
    if inbox == [] then []
    else
      var d, earlier := inbox[|inbox| - 1], DataIn(inbox[..|inbox| - 1]);
      if d.msg.msgType == DataMsg then earlier + [d.msg] else earlier
  }

  ghost predicate InboxInv(s: State) {
    s.registry == SignUps(s.inbox) && |s.accepted| == |DataIn(s.inbox)| &&
    forall x :: 0 <= x < |s.accepted| ==> s.accepted[x].msg == DataIn(s.inbox)[x]
  }

  lemma InboxAppend(inbox: seq<Datagram>, d: Datagram)
    ensures SignUps(inbox + [d]) ==
              (if d.msg.msgType == SaveCliInfo && d.msg.dest == SERVER_ENDID
               then [Registration(d.msg.src, d.from)] else []) + SignUps(inbox)
    ensures DataIn(inbox + [d]) == DataIn(inbox) + if d.msg.msgType == DataMsg then [d.msg] else []
  {
    assert (inbox + [d])[..|inbox|] == inbox;
  }

  lemma InboxKept(s: State, step: Step)
    requires InboxInv(s) && Enabled(s, step)
    ensures InboxInv(Exec(s, step))
  {
    if step.Route? {
      InboxAppend(s.inbox, Datagram(s.workers[step.w].msg, s.workers[step.w].from));
    }
  }

  // ------------------------------------------------------------------ theorems

  /** One for a worker that is about to confirm r. */
  ghost function Answering(r: Registration): WorkerPc -> nat {
    (pc: WorkerPc) => if pc.Replying? && pc.to == r then 1 else 0
  }

  /** Each registration has been confirmed, or a worker is about to do it. */
  ghost predicate ConfirmInv(s: State, r: Registration) {
    Occurs(s.registry, r) == Occurs(s.confirmed, r) + Total(s.workers, Answering(r))
  }

  ghost predicate Inv(s: State) {
    OrderInv(s) && QueueInv(s) && HeapInv(s) && AddressInv(s) && InboxInv(s) &&
    (forall x: nat :: WorkInv(s, x)) && (forall r :: ConfirmInv(s, r)) && (s.fault ==> StrangerAccepted(s))
  }

  lemma InitInv(s: State)
    requires Init(s)
    ensures Inv(s)
  {
    assert InFlight(s) == [];
    forall x: nat ensures WorkInv(s, x) {
      TotalZero(s.workers, Busy(x));
      TotalZero(s.workers, FreeingOf(x));
    }
    forall r ensures ConfirmInv(s, r) {
      TotalZero(s.workers, Answering(r));
    }
  }

  /** The step acts on a datagram by which r signs up. */
  predicate SignsUp(s: State, step: Step, r: Registration)
    requires Enabled(s, step)
  {
    step.Route? && var Received(msg, from) := s.workers[step.w];
    msg.msgType == SaveCliInfo && msg.dest == SERVER_ENDID && Registration(msg.src, from) == r
  }

  lemma RegisteredAfter(s: State, step: Step, r: Registration)
    requires Enabled(s, step)
    ensures Occurs(Exec(s, step).registry, r) == Occurs(s.registry, r) + if SignsUp(s, step, r) then 1 else 0
  {
    var t := Exec(s, step);
    RouteGrows(s, step);
    if t.registry != s.registry {
      TotalConcat([t.registry[0]], s.registry, Is(r));
    }
  }

  lemma AnsweringAfter(s: State, step: Step, r: Registration)
    requires Enabled(s, step)
    ensures Total(Exec(s, step).workers, Answering(r)) == Total(s.workers, Answering(r))
              + (if SignsUp(s, step, r) then 1 else 0)
              - (if step.Reply? && s.workers[step.w].to == r then 1 else 0)
  {
    WorkersAfter(s, step, Answering(r));
  }

  lemma ConfirmKept(s: State, step: Step, r: Registration)
    requires ConfirmInv(s, r) && Enabled(s, step)
    ensures ConfirmInv(Exec(s, step), r)
  {
    AnsweringAfter(s, step, r);
    RegisteredAfter(s, step, r);
    if step.Reply? {
      TotalAppend(s.confirmed, s.workers[step.w].to, Is(r));
    }
  }

  lemma StepKeepsInv(s: State, step: Step)
    requires Inv(s) && Enabled(s, step)
    ensures Inv(Exec(s, step))
  {
    var t := Exec(s, step);
    if step.Skip? {
      SkipImpossible(s, step.w);
    }
    OrderKept(s, step);
    QueueKept(s, step);
    if step.Release? {
      assert WorkInv(s, s.workers[step.w].id);
    }
    HeapKept(s, step);
    AddressKept(s, step);
    InboxKept(s, step);
    forall x: nat ensures WorkInv(t, x) {
      WorkKept(s, step, x);
    }
    forall r ensures ConfirmInv(t, r) {
      ConfirmKept(s, step, r);
    }
    if t.fault {
      FaultNeedsStranger(s, step);
    }
  }

  lemma RunKeepsInv(run: seq<State>, k: nat)
    requires IsRun(run) && k < |run|
    ensures Inv(run[k])
  {
    InitInv(run[0]);
    forall j | 0 <= j < |run| - 1 && Inv(run[j]) ensures Inv(run[j + 1]) {
      assert Next(run[j], run[j + 1]);
      var step :| Enabled(run[j], step) && run[j + 1] == Exec(run[j], step);
      StepKeepsInv(run[j], step);
    }
    Throughout(run, Inv, k);
  }

  lemma {:induction false} ConsecutiveOccurs(s: seq<nat>, from: int, x: nat)
    requires forall j :: 0 <= j < |s| ==> s[j] == from + j
    ensures Occurs(s, x) == if from <= x < from + |s| then 1 else 0
  {
    if s != [] {
      ConsecutiveOccurs(s[..|s| - 1], from, x);
    }
  }

  /** Conservation: an accepted message is in exactly one place, the message
      queue, the dispatcher, the pool's queue, one worker, or delivered. */
  lemma EachMessageInOnePlace(run: seq<State>, k: nat, x: nat)
    requires IsRun(run) && k < |run|
    ensures var s := run[k];
            Occurs(QueueIds(s.msgQueue), x) + Occurs(DispatcherIds(s), x) + Occurs(JobIds(s.jobs), x) +
            Total(s.workers, Busy(x)) + Total(s.delivered, For(x)) == if x < |s.accepted| then 1 else 0
  {
    RunKeepsInv(run, k);
    var s := run[k];
    ConsecutiveOccurs(InFlight(s), TakenCount(s), x);
    TotalConcat(JobIds(s.jobs) + DispatcherIds(s), QueueIds(s.msgQueue), Is(x));
    TotalConcat(JobIds(s.jobs), DispatcherIds(s), Is(x));
    assert WorkInv(s, x);
  }

  /** Messages wait for a worker in the order they were accepted. */
  lemma WaitInOrder(run: seq<State>, k: nat)
    requires IsRun(run) && k < |run|
    ensures forall j :: 0 <= j < |InFlight(run[k])| ==>
              InFlight(run[k])[j] == |run[k].accepted| - |InFlight(run[k])| + j
  {
    RunKeepsInv(run, k);
  }

  /** A delivery carries the accepted message unchanged, at most one per
      message; one for the server is displayed, any other goes to the newest
      address of its destination at the moment of the lookup. */
  lemma DeliveriesAreFaithful(run: seq<State>, k: nat, j: nat)
    requires IsRun(run) && k < |run| && j < |run[k].delivered|
    ensures Honoured(run[k], run[k].delivered[j])
    ensures forall i :: 0 <= i < |run[k].delivered| && i != j ==> run[k].delivered[i].id != run[k].delivered[j].id
  {
    RunKeepsInv(run, k);
    var s := run[k];
    var x := s.delivered[j].id;
    assert WorkInv(s, x);
    forall i | 0 <= i < |s.delivered| && i != j ensures s.delivered[i].id != x {
      TotalTwo(s.delivered, if i < j then i else j, if i < j then j else i, For(x));
    }
  }

  /** No task ever touches a freed block, although blocks are reused. */
  lemma NoUseAfterFree(run: seq<State>, k: nat)
    requires IsRun(run) && k < |run|
    ensures HeapInv(run[k])
  {
    RunKeepsInv(run, k);
  }

  /** If every message was registered for when it arrived, no lookup fails. */
  lemma KnownDestinationsNeverFault(run: seq<State>, k: nat)
    requires IsRun(run) && k < |run| && !StrangerAccepted(run[k])
    ensures !run[k].fault
  {
    RunKeepsInv(run, k);
  }

  /** The lookup follows NULL exactly when nobody registered the destination. */
  lemma LookUpFaultsIffUnregistered(s: State, w: nat)
    requires Enabled(s, LookUp(w))
    ensures Exec(s, LookUp(w)).fault <==>
              forall j :: 0 <= j < |s.registry| ==> s.registry[j].id != s.heap[s.workers[w].block].msg.dest
  {
    LookupIsNewest(s.registry, s.heap[s.workers[w].block].msg.dest);
  }

  lemma {:induction false} ExtendRun(run: seq<State>, step: Step) returns (longer: seq<State>)
    requires IsRun(run) && Enabled(run[|run| - 1], step)
    ensures IsRun(longer) && |longer| == |run| + 1 && longer[|run|] == Exec(run[|run| - 1], step)
  {
    longer := run + [Exec(run[|run| - 1], step)];
    forall k | 0 <= k < |longer| - 1 ensures Next(longer[k], longer[k + 1]) {
      if k < |run| - 1 {
        assert Next(run[k], run[k + 1]);
      }
    }
  }

  /** A run on one worker that accepts msg and nothing else. */
  lemma AcceptOne(msg: LcMsg, from: SockAddr) returns (run: seq<State>)
    requires msg.msgType == DataMsg
    ensures IsRun(run) && run[|run| - 1] ==
              State([Item(0, msg)], Polling, Item(0, msg), [], [Idle], map[], [], false,
                    [Datagram(msg, from)], [Acceptance(msg, [])], [], [])
  {
    run := [State([], Polling, Item(0, msg), [], [Idle], map[], [], false, [], [], [], [])];
    run := ExtendRun(run, Notify(Receive));
    run := ExtendRun(run, Take(0));
    run := ExtendRun(run, ReceiveDatagram(0, msg, from));
    run := ExtendRun(run, Route(0));
  }

  /** Such a run exists: a message for an ID nobody registered. */
  lemma UnregisteredDestinationFaults(msg: LcMsg, from: SockAddr) returns (run: seq<State>)
    requires msg.msgType == DataMsg && msg.dest != SERVER_ENDID
    ensures IsRun(run) && run[|run| - 1].fault
  {
    run := AcceptOne(msg, from);
    run := ExtendRun(run, Fetch);
    run := ExtendRun(run, Copy(0));
    run := ExtendRun(run, Submit);
    run := ExtendRun(run, Take(0));
    run := ExtendRun(run, LookUp(0));
  }

  /** Each registration is answered once, to its own address: every one in the
      registry has been confirmed or has a worker about to do so. */
  lemma EachRegistrationAnswered(run: seq<State>, k: nat, r: Registration)
    requires IsRun(run) && k < |run|
    ensures Occurs(run[k].registry, r) == Occurs(run[k].confirmed, r) + Total(run[k].workers, Answering(r))
  {
    RunKeepsInv(run, k);
    assert ConfirmInv(run[k], r);
  }

  /** Replies go only to addresses that are in the registry. */
  lemma RepliesToRegistered(run: seq<State>, k: nat, j: nat)
    requires IsRun(run) && k < |run| && j < |run[k].confirmed|
    ensures run[k].confirmed[j] in run[k].registry
  {
    var r := run[k].confirmed[j];
    EachRegistrationAnswered(run, k, r);
    TotalAtLeast(run[k].confirmed, j, Is(r));
    TotalPositive(run[k].registry, Is(r));
  }

  /** The registry is who signed up, newest first, and the accepted messages
      are the data messages received, in order; nothing else gets in. */
  lemma OnlyWhatWasReceived(run: seq<State>, k: nat)
    requires IsRun(run) && k < |run|
    ensures var s := run[k];
            s.registry == SignUps(s.inbox) && |s.accepted| == |DataIn(s.inbox)| &&
            forall x :: 0 <= x < |s.accepted| ==> s.accepted[x].msg == DataIn(s.inbox)[x]
  {
    RunKeepsInv(run, k);
  }

  // ------------------------------------------------------------------ progress

  /** Steps the server takes by itself, not waiting for the network or the terminal. */
  predicate Internal(step: Step) {
    !step.Notify? && !step.ReadReturns? && !step.ReceiveFails? && !step.ReceiveDatagram?
  }

  /** The same with every recvfrom and read returning, but nothing new coming in. */
  predicate Draining(step: Step) {
    Internal(step) || step.ReadReturns? || step.ReceiveFails?
  }

  /** Waiting inside recvfrom or read. */
  predicate Blocked(pc: WorkerPc) { pc == Receiving || pc == Reading }

  function JobRank(job: Job): nat { if job.Forward? then 5 else 2 }

  function DispatcherRank(d: Dispatcher): nat {
    match d case Polling => 0 case Copying => 7 case Submitting(_, _) => 6
  }

  function WorkerRank(pc: WorkerPc): nat {
    match pc
    case Idle => 0
    case Receiving => 1
    case Reading => 1
    case Received(_, _) => 9
    case Replying(_) => 1
    case Handling(_, _) => 4
    case Sending(_, _, _, _) => 3
    case Freeing(_, _) => 2
  }

  /** How many steps the server can at most take with nothing new coming in. */
  ghost function Rank(s: State): nat {
    8 * |s.msgQueue| + DispatcherRank(s.dispatcher) + Total(s.jobs, JobRank) + Total(s.workers, WorkerRank)
      + if s.fault then 0 else 1
  }

  ghost function JobDelta(s: State, step: Step): int
    requires Enabled(s, step)
  {
    (if step.Submit? then 5 else 0) - (if step.Take? then JobRank(s.jobs[0]) else 0)
  }

  ghost function WorkerDelta(s: State, step: Step): int
    requires Enabled(s, step)
  {
    var t := Exec(s, step);
    if MovesWorker(step) && !t.fault then WorkerRank(t.workers[step.w]) - WorkerRank(s.workers[step.w]) else 0
  }

  lemma JobRankAfter(s: State, step: Step)
    requires Enabled(s, step) && Draining(step)
    ensures Total(Exec(s, step).jobs, JobRank) == Total(s.jobs, JobRank) + JobDelta(s, step)
  {
    if step.Submit? {
      TotalAppend(s.jobs, Exec(s, step).jobs[|s.jobs|], JobRank);
    } else if step.Take? {
      assert s.jobs == [s.jobs[0]] + s.jobs[1..];
      TotalConcat([s.jobs[0]], s.jobs[1..], JobRank);
    }
  }

  lemma WorkerRankAfter(s: State, step: Step)
    requires Enabled(s, step) && Draining(step)
    ensures Total(Exec(s, step).workers, WorkerRank) == Total(s.workers, WorkerRank) + WorkerDelta(s, step)
  {
    WorkersAfter(s, step, WorkerRank);
  }

  lemma DeltasDescend(s: State, step: Step)
    requires Enabled(s, step) && Draining(step)
    ensures var t := Exec(s, step);
            8 * |t.msgQueue| + DispatcherRank(t.dispatcher) + JobDelta(s, step) + WorkerDelta(s, step) <
            8 * |s.msgQueue| + DispatcherRank(s.dispatcher) + if t.fault then 1 else 0
  {
  }

  lemma DrainingStepsDescend(s: State, step: Step)
    requires Enabled(s, step) && Draining(step)
    ensures Rank(Exec(s, step)) < Rank(s)
  {
    JobRankAfter(s, step);
    WorkerRankAfter(s, step);
    DeltasDescend(s, step);
  }

  ghost predicate DrainingNext(s: State, s': State) {
    exists step :: Enabled(s, step) && Draining(step) && s' == Exec(s, step)
  }

  /** With nothing new coming in the server comes to rest after at most Rank
      steps, whether recvfrom and read return or not. */
  lemma ServerComesToRest(run: seq<State>)
    requires |run| > 0 && forall k :: 0 <= k < |run| - 1 ==> DrainingNext(run[k], run[k + 1])
    ensures |run| - 1 <= Rank(run[0])
  {
    forall k | 0 <= k < |run| - 1 ensures Rank(run[k + 1]) < Rank(run[k]) {
      assert DrainingNext(run[k], run[k + 1]);
      var step :| Enabled(run[k], step) && Draining(step) && run[k + 1] == Exec(run[k], step);
      DrainingStepsDescend(run[k], step);
    }
    DescentEnds(run, Rank);
  }

  ghost predicate AtRest(s: State) {
    forall step :: Internal(step) ==> !Enabled(s, step)
  }

  /** malloc always finds an address that is not in use. */
  lemma UnusedBlock(used: set<nat>) returns (b: nat)
    ensures b !in used
  {
    b := 0;
    var rest := used;
    while rest != {}
      invariant forall x :: x in used ==> x in rest || x < b
      decreases rest
    {
      var x :| x in rest;
      b := if x < b then b else x + 1;
      rest := rest - {x};
    }
  }

  lemma RestEmptiesDispatcher(s: State)
    requires AtRest(s) && !s.fault
    ensures s.dispatcher == Polling && s.msgQueue == []
  {
    var b := UnusedBlock(s.heap.Keys);
    assert !Enabled(s, Copy(b)) && !Enabled(s, Submit) && !Enabled(s, Fetch);
  }

  lemma RestParksWorkers(s: State, w: nat)
    requires AtRest(s) && !s.fault && HeapInv(s) && w < |s.workers|
    ensures Blocked(s.workers[w]) || (s.workers[w] == Idle && s.jobs == [])
  {
    assert !Enabled(s, Take(w)) && !Enabled(s, Route(w)) && !Enabled(s, Reply(w));
    assert !Enabled(s, Display(w)) && !Enabled(s, LookUp(w)) && !Enabled(s, Skip(w));
    assert !Enabled(s, Send(w)) && !Enabled(s, Release(w));
    assert HasBlock(s.workers[w]) ==> LiveCopy(s, s.workers[w].block, s.workers[w].id);
  }

  /** What is left undelivered in a state at rest that meets the invariant. */
  lemma RestLeavesOnlyJobs(s: State, x: nat)
    requires Inv(s) && AtRest(s) && !s.fault && x < |s.accepted|
    ensures Total(s.delivered, For(x)) == if x in JobIds(s.jobs) then 0 else 1
    ensures s.jobs != [] ==> forall w :: 0 <= w < |s.workers| ==> Blocked(s.workers[w])
  {
    RestEmptiesDispatcher(s);
    forall w: nat | w < |s.workers| ensures Blocked(s.workers[w]) || (s.workers[w] == Idle && s.jobs == []) {
      RestParksWorkers(s, w);
    }
    TotalZero(s.workers, Busy(x));
    assert WorkInv(s, x);
    var line := InFlight(s);
    assert line == JobIds(s.jobs);
    if x >= TakenCount(s) {
      assert line[x - TakenCount(s)] == x;
    }
  }

  /** No message is lost: in a reachable state at rest, where no lookup failed,
      an accepted message has been delivered, once, if and only if it is not
      still waiting in the pool's queue; and one waits there only while every
      worker is blocked in recvfrom or read. */
  lemma RestMeansDelivered(run: seq<State>, k: nat, x: nat)
    requires IsRun(run) && k < |run| && AtRest(run[k]) && !run[k].fault && x < |run[k].accepted|
    ensures Total(run[k].delivered, For(x)) == 1 <==> x !in JobIds(run[k].jobs)
    ensures Total(run[k].delivered, For(x)) != 1 ==>
              forall w :: 0 <= w < |run[k].workers| ==> Blocked(run[k].workers[w])
  {
    RunKeepsInv(run, k);
    RestLeavesOnlyJobs(run[k], x);
  }

  /** That exception is real: the one worker waits for a second datagram while
      the first one's message waits for a worker. */
  lemma MessageStarves(msg: LcMsg, from: SockAddr) returns (run: seq<State>)
    requires msg.msgType == DataMsg
    ensures IsRun(run)
    ensures var s := run[|run| - 1];
            AtRest(s) && !s.fault && |s.accepted| == 1 && Total(s.delivered, For(0)) == 0
  {
    run := AcceptOne(msg, from);
    run := ExtendRun(run, Notify(Receive));
    run := ExtendRun(run, Take(0));
    run := ExtendRun(run, Fetch);
    run := ExtendRun(run, Copy(0));
    run := ExtendRun(run, Submit);
    var s := run[|run| - 1];
    assert s.workers == [Receiving] && s.dispatcher == Polling && s.msgQueue == [] && s.delivered == [];
  }

  /** Otherwise there is none: once every recvfrom and read has returned, a
      reachable server at rest, with one worker at least and no failed lookup,
      has served all its jobs and delivered every accepted message, once. */
  lemma DrainedMeansDelivered(run: seq<State>, k: nat, x: nat)
    requires IsRun(run) && k < |run| && |run[k].workers| > 0 && !run[k].fault && x < |run[k].accepted|
    requires forall step :: Draining(step) ==> !Enabled(run[k], step)
    ensures run[k].jobs == [] && Total(run[k].delivered, For(x)) == 1
  {
    var s := run[k];
    assert !Enabled(s, ReceiveFails(0)) && !Enabled(s, ReadReturns(0));
    RunKeepsInv(run, k);
    RestLeavesOnlyJobs(s, x);
  }
}
