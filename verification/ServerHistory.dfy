/** socket_udp/server: accounts over whole traces of ServerPipeline. Every
    datagram that arrives, every notification and every block of memory is
    followed from the step that brings it in to the one that disposes of it. */
module ServerHistory {
  import opened Common
  import opened Runs
  import opened Tally
  import opened RegistrySpec
  import opened ServerPipeline

  lemma JobsAfter(s: State, step: Step, f: Job -> nat)
    requires Enabled(s, step)
    ensures Total(Exec(s, step).jobs, f) == Total(s.jobs, f)
              + (if step.Notify? then f(step.job) else 0)
              + (if step.Submit? then f(Forward(s.dispatcher.block, s.dispatcher.id)) else 0)
              - (if step.Take? then f(s.jobs[0]) else 0)
  {
    if step.Notify? || step.Submit? {
      TotalAppend(s.jobs, Exec(s, step).jobs[|s.jobs|], f);
    } else if step.Take? {
      assert s.jobs == [s.jobs[0]] + s.jobs[1..];
      TotalConcat([s.jobs[0]], s.jobs[1..], f);
    }
  }

  // ------------------------------------------------------------------ datagrams

  /** What f counts, of the datagrams that steps bring in. */
  ghost function Arrives(f: Datagram -> nat): Step -> nat {
    (step: Step) => if step.ReceiveDatagram? then f(Datagram(step.msg, step.from)) else 0
  }

  /** What f counts, of the datagrams that workers have received and not acted on yet. */
  ghost function Holds(f: Datagram -> nat): WorkerPc -> nat {
    (pc: WorkerPc) => if pc.Received? then f(Datagram(pc.msg, pc.from)) else 0
  }

  ghost predicate DatagramLaw(s: State, done: seq<Step>, f: Datagram -> nat) {
    Total(done, Arrives(f)) == Total(s.inbox, f) + Total(s.workers, Holds(f))
  }

  lemma HoldsAfter(s: State, step: Step, f: Datagram -> nat)
    requires Enabled(s, step) && MovesWorker(step) && !Exec(s, step).fault
    ensures Holds(f)(Exec(s, step).workers[step.w]) - Holds(f)(s.workers[step.w]) ==
              Arrives(f)(step) - if step.Route? then Holds(f)(s.workers[step.w]) else 0
  {
  }

  lemma InboxAfter(s: State, step: Step)
    requires Enabled(s, step)
    ensures Exec(s, step).inbox ==
              if step.Route? then s.inbox + [Datagram(s.workers[step.w].msg, s.workers[step.w].from)] else s.inbox
  {
  }

  lemma DatagramKept(s: State, done: seq<Step>, step: Step, f: Datagram -> nat)
    requires DatagramLaw(s, done, f) && Enabled(s, step)
    ensures DatagramLaw(Exec(s, step), done + [step], f)
  {
    TotalAppend(done, step, Arrives(f));
    WorkersAfter(s, step, Holds(f));
    InboxAfter(s, step);
    if MovesWorker(step) && !Exec(s, step).fault {
      HoldsAfter(s, step, f);
    }
    if step.Route? {
      TotalAppend(s.inbox, Datagram(s.workers[step.w].msg, s.workers[step.w].from), f);
    }
  }

  /** Whatever one counts of the datagrams that arrived, it is the same of those
      acted on and those still in the hands of workers: each is acted on once,
      as it came, message and sender. */
  lemma EachDatagramActedOn(run: seq<State>, steps: seq<Step>, k: nat, f: Datagram -> nat)
    requires IsTrace(run, steps) && k <= |steps|
    ensures Total(steps[..k], Arrives(f)) == Total(run[k].inbox, f) + Total(run[k].workers, Holds(f))
  {
    var law := (s: State, done: seq<Step>) => DatagramLaw(s, done, f);
    TotalZero(run[0].workers, Holds(f));
    forall j | 0 <= j < |steps| && law(run[j], steps[..j]) ensures law(run[j + 1], steps[..j] + [steps[j]]) {
      assert Moves(run[j], steps[j], run[j + 1]);
      DatagramKept(run[j], steps[..j], steps[j], f);
    }
    LawThroughout(run, steps, law, k);
  }

  /** One for a datagram by which r signs up with the server. */
  ghost function SigningUp(r: Registration): Datagram -> nat {
    (d: Datagram) =>
      if d.msg.msgType == SaveCliInfo && d.msg.dest == SERVER_ENDID && r == Registration(d.msg.src, d.from) then 1
      else 0
  }

  /** One for a datagram that carries the data message m. */
  ghost function Carrying(m: LcMsg): Datagram -> nat {
    (d: Datagram) => if d.msg == m && m.msgType == DataMsg then 1 else 0
  }

  ghost function AcceptedAs(m: LcMsg): Acceptance -> nat {
    (a: Acceptance) => if a.msg == m then 1 else 0
  }

  lemma {:induction false} SignUpsCounted(inbox: seq<Datagram>, r: Registration)
    ensures Occurs(SignUps(inbox), r) == Total(inbox, SigningUp(r))
  {
    if inbox != [] {
      var n := |inbox| - 1;
      var d, earlier := inbox[n], SignUps(inbox[..n]);
      SignUpsCounted(inbox[..n], r);
      TotalConcat([Registration(d.msg.src, d.from)], earlier, Is(r));
    }
  }

  lemma {:induction false} DataCounted(inbox: seq<Datagram>, m: LcMsg)
    ensures Occurs(DataIn(inbox), m) == Total(inbox, Carrying(m))
    ensures m.msgType != DataMsg ==> m !in DataIn(inbox)
  {
    if inbox != [] {
      var n := |inbox| - 1;
      DataCounted(inbox[..n], m);
      TotalAppend(DataIn(inbox[..n]), inbox[n].msg, Is(m));
    }
  }

  lemma {:induction false} AcceptedCounted(accepted: seq<Acceptance>, data: seq<LcMsg>, m: LcMsg)
    requires |accepted| == |data| && forall x :: 0 <= x < |accepted| ==> accepted[x].msg == data[x]
    ensures Total(accepted, AcceptedAs(m)) == Occurs(data, m)
  {
    if data != [] {
      AcceptedCounted(accepted[..|data| - 1], data[..|data| - 1], m);
    }
  }

  /** A client is registered under an address as often as it signed up from
      there, and a message accepted as often as it arrived, but for what workers
      still have in hand. */
  lemma RegistryAndAcceptancesAreArrivals(run: seq<State>, steps: seq<Step>, k: nat, r: Registration, m: LcMsg)
    requires IsTrace(run, steps) && k <= |steps|
    ensures Total(steps[..k], Arrives(SigningUp(r))) ==
              Occurs(run[k].registry, r) + Total(run[k].workers, Holds(SigningUp(r)))
    ensures Total(steps[..k], Arrives(Carrying(m))) ==
              Total(run[k].accepted, AcceptedAs(m)) + Total(run[k].workers, Holds(Carrying(m)))
  {
    var s := run[k];
    EachDatagramActedOn(run, steps, k, SigningUp(r));
    EachDatagramActedOn(run, steps, k, Carrying(m));
    TraceIsRun(run, steps);
    OnlyWhatWasReceived(run, k);
    SignUpsCounted(s.inbox, r);
    DataCounted(s.inbox, m);
    AcceptedCounted(s.accepted, DataIn(s.inbox), m);
  }

  // -------------------------------------------------------------- notifications

  /** Where a worker waits in the handler of a notification. */
  function Waiting(job: Job): WorkerPc {
    if job == Receive then Receiving else Reading
  }

  /** One for a step that queues this notification, or that ends the wait in its handler. */
  ghost function Notifies(job: Job): Step -> nat {
    (step: Step) => if step == Notify(job) then 1 else 0
  }

  ghost function EndsWait(job: Job): Step -> nat {
    (step: Step) =>
      if (job == Receive && (step.ReceiveDatagram? || step.ReceiveFails?)) || (job == ReadInput && step.ReadReturns?)
      then 1 else 0
  }

  ghost predicate NotificationLaw(s: State, done: seq<Step>, job: Job) {
    Total(done, Notifies(job)) == Occurs(s.jobs, job) + Occurs(s.workers, Waiting(job)) + Total(done, EndsWait(job))
  }

  lemma WaitingAfter(s: State, step: Step, job: Job)
    requires Enabled(s, step) && !job.Forward? && MovesWorker(step) && !Exec(s, step).fault
    ensures Is(Waiting(job))(Exec(s, step).workers[step.w]) - Is(Waiting(job))(s.workers[step.w]) ==
              (if step.Take? && s.jobs[0] == job then 1 else 0) - EndsWait(job)(step)
  {
  }

  lemma NotificationKept(s: State, done: seq<Step>, step: Step, job: Job)
    requires NotificationLaw(s, done, job) && Enabled(s, step) && !job.Forward?
    ensures NotificationLaw(Exec(s, step), done + [step], job)
  {
    TotalAppend(done, step, Notifies(job));
    TotalAppend(done, step, EndsWait(job));
    JobsAfter(s, step, Is(job));
    WorkersAfter(s, step, Is(Waiting(job)));
    if MovesWorker(step) && !Exec(s, step).fault {
      WaitingAfter(s, step, job);
    }
  }

  /** Each notification leads to one recvfrom (or one read): it is queued, or a
      worker waits in it, or it has returned. */
  lemma EachNotificationServed(run: seq<State>, steps: seq<Step>, k: nat, job: Job)
    requires IsTrace(run, steps) && k <= |steps| && !job.Forward?
    ensures Total(steps[..k], Notifies(job)) ==
              Occurs(run[k].jobs, job) + Occurs(run[k].workers, Waiting(job)) + Total(steps[..k], EndsWait(job))
  {
    var law := (s: State, done: seq<Step>) => NotificationLaw(s, done, job);
    TotalZero(run[0].workers, Is(Waiting(job)));
    forall j | 0 <= j < |steps| && law(run[j], steps[..j]) ensures law(run[j + 1], steps[..j] + [steps[j]]) {
      assert Moves(run[j], steps[j], run[j + 1]);
      NotificationKept(run[j], steps[..j], steps[j], job);
    }
    LawThroughout(run, steps, law, k);
  }

  // --------------------------------------------------------------------- blocks

  /** The live blocks that hold message x. */
  ghost function BlocksOf(heap: map<nat, Item>, x: nat): set<nat> {
    set b | b in heap && heap[b].id == x
  }

  ghost function QueuedFor(x: nat): Job -> nat {
    (job: Job) => if job.Forward? && job.id == x then 1 else 0
  }

  ghost function HasBlockOf(x: nat): WorkerPc -> nat {
    (pc: WorkerPc) => if HasBlock(pc) && pc.id == x then 1 else 0
  }

  ghost function DisplayedAs(x: nat): Delivery -> nat {
    (d: Delivery) => if d.Displayed? && d.id == x then 1 else 0
  }

  ghost function SubmittedAs(d: Dispatcher, x: nat): nat {
    if d.Submitting? && d.id == x then 1 else 0
  }

  /** A block is with the dispatcher, queued, with a worker, or left over from a display. */
  ghost predicate BlockLaw(s: State, x: nat) {
    |BlocksOf(s.heap, x)| == SubmittedAs(s.dispatcher, x) + Total(s.jobs, QueuedFor(x))
                             + Total(s.workers, HasBlockOf(x)) + Total(s.delivered, DisplayedAs(x))
  }

  lemma BlockAdded(heap: map<nat, Item>, b: nat, item: Item, x: nat)
    requires b !in heap
    ensures |BlocksOf(heap[b := item], x)| == |BlocksOf(heap, x)| + if item.id == x then 1 else 0
  {
    assert BlocksOf(heap[b := item], x) == BlocksOf(heap, x) + if item.id == x then {b} else {};
  }

  lemma BlockRemoved(heap: map<nat, Item>, b: nat, x: nat)
    requires b in heap
    ensures |BlocksOf(heap, x)| == |BlocksOf(heap - {b}, x)| + if heap[b].id == x then 1 else 0
  {
    assert BlocksOf(heap, x) == BlocksOf(heap - {b}, x) + if heap[b].id == x then {b} else {};
  }

  lemma HeapChange(s: State, step: Step)
    requires Enabled(s, step)
    ensures Exec(s, step).heap ==
              if step.Copy? then s.heap[step.block := s.buffer]
              else if step.Release? then s.heap - {s.workers[step.w].block}
              else s.heap
  {
  }

  lemma HeapAfter(s: State, step: Step, x: nat)
    requires Enabled(s, step) && HeapInv(s)
    ensures |BlocksOf(Exec(s, step).heap, x)| == |BlocksOf(s.heap, x)|
              + (if step.Copy? && s.buffer.id == x then 1 else 0)
              - (if step.Release? && s.workers[step.w].id == x then 1 else 0)
  {
    HeapChange(s, step);
    if step.Copy? {
      BlockAdded(s.heap, step.block, s.buffer, x);
    } else if step.Release? {
      assert LiveCopy(s, s.workers[step.w].block, s.workers[step.w].id);
      BlockRemoved(s.heap, s.workers[step.w].block, x);
    }
  }

  lemma SubmittedAfter(s: State, step: Step, x: nat)
    requires Enabled(s, step)
    ensures SubmittedAs(Exec(s, step).dispatcher, x) == SubmittedAs(s.dispatcher, x)
              + (if step.Copy? && s.buffer.id == x then 1 else 0)
              - (if step.Submit? && s.dispatcher.id == x then 1 else 0)
  {
  }

  lemma HasBlockAfter(s: State, step: Step, x: nat)
    requires Enabled(s, step) && MovesWorker(step) && !Exec(s, step).fault
    ensures HasBlockOf(x)(Exec(s, step).workers[step.w]) - HasBlockOf(x)(s.workers[step.w]) ==
              (if step.Take? then QueuedFor(x)(s.jobs[0]) else 0)
              - (if (step.Display? || step.Release?) && s.workers[step.w].id == x then 1 else 0)
  {
  }

  lemma DisplayedAfter(s: State, step: Step, x: nat)
    requires Enabled(s, step)
    ensures Total(Exec(s, step).delivered, DisplayedAs(x)) ==
              Total(s.delivered, DisplayedAs(x)) + if step.Display? && s.workers[step.w].id == x then 1 else 0
  {
    if step.Display? || step.Send? {
      TotalAppend(s.delivered, Exec(s, step).delivered[|s.delivered|], DisplayedAs(x));
    }
  }

  lemma BlockKept(s: State, step: Step, x: nat)
    requires BlockLaw(s, x) && HeapInv(s) && Enabled(s, step)
    ensures BlockLaw(Exec(s, step), x)
  {
    HeapAfter(s, step, x);
    SubmittedAfter(s, step, x);
    JobsAfter(s, step, QueuedFor(x));
    WorkersAfter(s, step, HasBlockOf(x));
    DisplayedAfter(s, step, x);
    if MovesWorker(step) && !Exec(s, step).fault {
      HasBlockAfter(s, step, x);
    }
  }

  /** No block leaks but those of displayed messages: in every reachable state
      each live block of message x has its one holder. */
  lemma EachBlockAccountedFor(run: seq<State>, k: nat, x: nat)
    requires IsRun(run) && k < |run|
    ensures var s := run[k];
            |BlocksOf(s.heap, x)| == SubmittedAs(s.dispatcher, x) + Total(s.jobs, QueuedFor(x))
                                     + Total(s.workers, HasBlockOf(x)) + Total(s.delivered, DisplayedAs(x))
  {
    TotalZero(run[0].workers, HasBlockOf(x));
    assert BlocksOf(run[0].heap, x) == {};
    forall j | 0 <= j < |run| - 1 && BlockLaw(run[j], x) ensures BlockLaw(run[j + 1], x) {
      assert Next(run[j], run[j + 1]);
      var step :| Enabled(run[j], step) && run[j + 1] == Exec(run[j], step);
      RunKeepsInv(run, j);
      BlockKept(run[j], step, x);
    }
    Throughout(run, (s: State) => BlockLaw(s, x), k);
  }

  // ---------------------------------------------------------- moments of record

  /** The step accepts message x, with the registry of that moment. */
  ghost predicate Accepts(s: State, step: Step, x: nat, a: Acceptance) {
    step.Route? && step.w < |s.workers| && s.workers[step.w].Received? &&
    |s.accepted| == x && s.workers[step.w].msg == a.msg && s.registry == a.known
  }

  /** The step looks up the destination of message x in this registry. */
  ghost predicate LooksUp(s: State, step: Step, x: nat, known: seq<Registration>) {
    step.LookUp? && step.w < |s.workers| && s.workers[step.w].Handling? && s.workers[step.w].id == x &&
    s.registry == known
  }

  ghost predicate AcceptedBefore(run: seq<State>, steps: seq<Step>, n: nat, x: nat, a: Acceptance)
    requires |run| == |steps| + 1 && n <= |steps|
  {
    exists j :: 0 <= j < n && Accepts(run[j], steps[j], x, a)
  }

  ghost predicate LookedUpBefore(run: seq<State>, steps: seq<Step>, n: nat, x: nat, known: seq<Registration>)
    requires |run| == |steps| + 1 && n <= |steps|
  {
    exists j :: 0 <= j < n && LooksUp(run[j], steps[j], x, known)
  }

  /** What the records of acceptances and of lookups say did happen. */
  ghost predicate RecordsTrue(run: seq<State>, steps: seq<Step>, n: nat)
    requires |run| == |steps| + 1 && n <= |steps|
  {
    var s := run[n];
    (forall x :: 0 <= x < |s.accepted| ==> AcceptedBefore(run, steps, n, x, s.accepted[x])) &&
    (forall w :: 0 <= w < |s.workers| && s.workers[w].Sending? ==>
       LookedUpBefore(run, steps, n, s.workers[w].id, s.workers[w].known)) &&
    (forall i :: 0 <= i < |s.delivered| && s.delivered[i].Sent? ==>
       LookedUpBefore(run, steps, n, s.delivered[i].id, s.delivered[i].known))
  }

  lemma NewAcceptance(s: State, step: Step)
    requires Enabled(s, step)
    ensures var t := Exec(s, step);
            s.accepted <= t.accepted &&
            forall x :: |s.accepted| <= x < |t.accepted| ==> Accepts(s, step, x, t.accepted[x])
  {
    RouteGrows(s, step);
  }

  lemma NewLookUp(s: State, step: Step, w: nat)
    requires Enabled(s, step) && w < |s.workers| && Exec(s, step).workers[w].Sending?
    ensures var pc := Exec(s, step).workers[w]; pc == s.workers[w] || LooksUp(s, step, pc.id, pc.known)
  {
    SenderIsNewOrOld(s, step, w);
  }

  lemma NewDelivery(s: State, step: Step)
    requires Enabled(s, step)
    ensures var t := Exec(s, step);
            s.delivered <= t.delivered &&
            forall i :: |s.delivered| <= i < |t.delivered| && t.delivered[i].Sent? ==>
              step.Send? && s.workers[step.w].id == t.delivered[i].id && s.workers[step.w].known == t.delivered[i].known
  {
  }

  lemma RecordsKept(run: seq<State>, steps: seq<Step>, n: nat)
    requires IsTrace(run, steps) && n < |steps| && RecordsTrue(run, steps, n)
    ensures RecordsTrue(run, steps, n + 1)
  {
    var s, step, t := run[n], steps[n], run[n + 1];
    assert Moves(s, step, t);
    NewAcceptance(s, step);
    forall x | 0 <= x < |t.accepted| ensures AcceptedBefore(run, steps, n + 1, x, t.accepted[x]) {
      if x < |s.accepted| {
        assert AcceptedBefore(run, steps, n, x, s.accepted[x]);
      }
    }
    forall w | 0 <= w < |t.workers| && t.workers[w].Sending?
      ensures LookedUpBefore(run, steps, n + 1, t.workers[w].id, t.workers[w].known)
    {
      NewLookUp(s, step, w);
      if t.workers[w] == s.workers[w] {
        assert LookedUpBefore(run, steps, n, s.workers[w].id, s.workers[w].known);
      }
    }
    NewDelivery(s, step);
    forall i | 0 <= i < |t.delivered| && t.delivered[i].Sent?
      ensures LookedUpBefore(run, steps, n + 1, t.delivered[i].id, t.delivered[i].known)
    {
      if i < |s.delivered| {
        assert LookedUpBefore(run, steps, n, s.delivered[i].id, s.delivered[i].known);
      } else {
        assert LookedUpBefore(run, steps, n, s.workers[step.w].id, s.workers[step.w].known);
      }
    }
  }

  lemma {:induction false} RecordsThroughout(run: seq<State>, steps: seq<Step>, n: nat)
    requires IsTrace(run, steps) && n <= |steps|
    ensures RecordsTrue(run, steps, n)
  {
    if n > 0 {
      RecordsThroughout(run, steps, n - 1);
      RecordsKept(run, steps, n - 1);
    }
  }

  /** Whatever was sent went to the address that was the newest of its
      destination when this very message was looked up. */
  lemma SentToNewestAtLookUp(run: seq<State>, steps: seq<Step>, n: nat, i: nat)
    requires IsTrace(run, steps) && n <= |steps| && i < |run[n].delivered| && run[n].delivered[i].Sent?
    ensures var d := run[n].delivered[i];
            exists j :: 0 <= j < n && LooksUp(run[j], steps[j], d.id, d.known) &&
                        Lookup(run[j].registry, d.msg.dest) == Some(d.addr)
  {
    var d := run[n].delivered[i];
    TraceIsRun(run, steps);
    DeliveriesAreFaithful(run, n, i);
    RecordsThroughout(run, steps, n);
    assert LookedUpBefore(run, steps, n, d.id, d.known);
    var j :| 0 <= j < n && LooksUp(run[j], steps[j], d.id, d.known);
    assert Lookup(run[j].registry, d.msg.dest) == Some(d.addr);
  }

  // ----------------------------------------------------------------------- rest

  lemma RestClearsServer(s: State)
    requires HeapInv(s) && AtRest(s) && !s.fault
    ensures s.dispatcher == Polling
    ensures forall w :: 0 <= w < |s.workers| ==> Blocked(s.workers[w]) || s.workers[w] == Idle
  {
    RestEmptiesDispatcher(s);
    forall w: nat | w < |s.workers| ensures Blocked(s.workers[w]) || s.workers[w] == Idle {
      RestParksWorkers(s, w);
    }
  }

  lemma RestEmptiesHands(s: State, r: Registration, m: LcMsg, x: nat)
    requires HeapInv(s) && AtRest(s) && !s.fault
    ensures Total(s.workers, Holds(SigningUp(r))) == 0 && Total(s.workers, Holds(Carrying(m))) == 0
    ensures Total(s.workers, Answering(r)) == 0 && Total(s.workers, HasBlockOf(x)) == 0
    ensures SubmittedAs(s.dispatcher, x) == 0
  {
    RestClearsServer(s);
    TotalZero(s.workers, Holds(SigningUp(r)));
    TotalZero(s.workers, Holds(Carrying(m)));
    TotalZero(s.workers, Answering(r));
    TotalZero(s.workers, HasBlockOf(x));
  }

  /** At rest, if no lookup failed, everything that arrived has been acted on:
      clients are registered as they signed up and confirmed as often, messages
      are accepted as they came, and a live block belongs to a message that is
      still queued or was displayed. */
  lemma RestMeansHandled(run: seq<State>, steps: seq<Step>, k: nat, r: Registration, m: LcMsg, x: nat)
    requires IsTrace(run, steps) && k <= |steps| && AtRest(run[k]) && !run[k].fault
    ensures var s := run[k];
            Total(steps[..k], Arrives(SigningUp(r))) == Occurs(s.registry, r) == Occurs(s.confirmed, r) &&
            Total(steps[..k], Arrives(Carrying(m))) == Total(s.accepted, AcceptedAs(m)) &&
            |BlocksOf(s.heap, x)| == Total(s.jobs, QueuedFor(x)) + Total(s.delivered, DisplayedAs(x))
  {
    var s := run[k];
    TraceIsRun(run, steps);
    RunKeepsInv(run, k);
    RegistryAndAcceptancesAreArrivals(run, steps, k, r, m);
    EachRegistrationAnswered(run, k, r);
    EachBlockAccountedFor(run, k, x);
    RestEmptiesHands(s, r, m, x);
  }
}
