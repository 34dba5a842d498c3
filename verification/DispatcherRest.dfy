/** How the dispatcher comes to rest: without new events, clients and octets, every token finds its way
    back to epoll. */
module DispatcherRest {
  import opened Bytes
  import opened Counting
  import opened Dispatcher
  import opened DispatcherProofs
  import opened DispatcherTheorems

  // ----- The measure -----

  type Conns = map<nat, Conn>

  ghost function Unsent(conns: Conns, fd: nat): nat {
    if fd in conns then |conns[fd].unsent| else 0
  }

  /** What is left to do for an event, a task and a handler, in steps. */
  ghost function EventWork(conns: Conns): Event -> nat {
    (e: Event) => match e case Listen => 2 case Ready(fd, k) => 6 + Unsent(conns, fd)
  }

  ghost function TaskWork(conns: Conns): Task -> nat {
    (t: Task) => 5 + Unsent(conns, t.fd)
  }

  ghost function HandlerWork(conns: Conns): Worker -> nat {
    (w: Worker) =>
      match w
      case Idle => 0
      case Reading(_) => 4
      case Writing(fd) => 4 + Unsent(conns, fd)
      case Processing(_) => 3
      case Rearming(_, _) => 2
  }

  ghost function Work(s: Server): nat {
    Sum(s.batch, EventWork(s.conns)) + Sum(s.queue, TaskWork(s.conns)) + Sum(s.workers, HandlerWork(s.conns))
    + (if s.accepting then 1 else 0)
  }

  /** Steps the kernel and the peers do not have to bring about. */
  predicate Internal(step: Step) {
    !step.Wait? && !step.Accept? && !step.ReadSome?
  }

  /** A change to one connector is invisible to the work of all who do not hold it. */
  lemma WorkAgrees(s: Server, w: nat, fd: nat, c: Conn)
    requires OnlyWorker(s, w, fd) && w < |s.workers|
    ensures var conns := s.conns[fd := c];
            && Sum(s.batch, EventWork(conns)) == Sum(s.batch, EventWork(s.conns))
            && Sum(s.queue, TaskWork(conns)) == Sum(s.queue, TaskWork(s.conns))
            && Sum(s.workers[w := Idle], HandlerWork(conns)) == Sum(s.workers[w := Idle], HandlerWork(s.conns))
  {
    var conns := s.conns[fd := c];
    SumAgrees(s.batch, EventWork(conns), EventWork(s.conns));
    SumAgrees(s.queue, TaskWork(conns), TaskWork(s.conns));
    SumAgrees(s.workers[w := Idle], HandlerWork(conns), HandlerWork(s.conns));
  }

  /** The work of a handler that changes its connector changes by its own share. */
  lemma ActingWork(s: Server, w: nat, c: Conn, to: Worker)
    requires TokensOk(s) && w < |s.workers| && !s.workers[w].Idle?
    ensures var fd := s.workers[w].fd;
            var conns := s.conns[fd := c];
            Work(Acted(s, w, c, to)) + HandlerWork(s.conns)(s.workers[w]) == Work(s) + HandlerWork(conns)(to)
  {
    var fd := s.workers[w].fd;
    var conns := s.conns[fd := c];
    HolderIsAlone(s, w, fd);
    WorkAgrees(s, w, fd, c);
    SumUpdate(s.workers, w, Idle, HandlerWork(s.conns));
    assert s.workers[w := Idle][w := to] == s.workers[w := to];
    SumUpdate(s.workers[w := Idle], w, to, HandlerWork(conns));
  }

  lemma ReadEndWorks(s: Server, w: nat, failed: bool)
    requires Inv(s) && Enabled(s, ReadEnd(w, failed))
    ensures Work(Apply(s, ReadEnd(w, failed))) < Work(s)
  {
    ReadEndKeepsInv(s, w, failed);
    hide Inv, Apply;
    SumUpdate(s.workers, w, Processing(s.workers[w].fd), HandlerWork(s.conns));
  }

  lemma ProcessWorks(s: Server, w: nat, reply: bytes)
    requires Inv(s) && Enabled(s, Process(w, reply))
    ensures Work(Apply(s, Process(w, reply))) < Work(s)
  {
    var fd := s.workers[w].fd;
    HolderIsAlone(s, w, fd);
    var c := s.conns[fd];
    if c.unread == [] {
      SameConn(s, w, Rearming(fd, Input));
      ActingWork(s, w, c, Rearming(fd, Input));
    } else {
      ActingWork(s, w, Processed(c, reply), Rearming(fd, Output));
    }
  }

  lemma WriteSomeWorks(s: Server, w: nat, n: nat)
    requires Inv(s) && Enabled(s, WriteSome(w, n))
    ensures Work(Apply(s, WriteSome(w, n))) < Work(s)
  {
    var fd := s.workers[w].fd;
    HolderIsAlone(s, w, fd);
    var c := s.conns[fd];
    var c' := SentSome(c, n);
    ActingWork(s, w, c', if Complete(c') then Processing(fd) else Writing(fd));
  }

  lemma GivingUpWorks(s: Server, w: nat, wouldBlock: bool)
    requires Inv(s) && w < |s.workers| && s.workers[w].Writing?
    ensures Work(GivenUp(s, w, wouldBlock)) < Work(s)
  {
    var fd := s.workers[w].fd;
    HolderIsAlone(s, w, fd);
    var to := if Complete(s.conns[fd]) then Processing(fd) else if wouldBlock then Rearming(fd, Output) else Idle;
    SumUpdate(s.workers, w, to, HandlerWork(s.conns));
  }

  lemma GaveUpWorks(s: Server, step: Step, w: nat, wouldBlock: bool)
    requires Inv(s) && Enabled(s, step)
    requires (step == WriteNone(w) && !wouldBlock) || step == WriteError(w, wouldBlock)
    ensures Work(Apply(s, step)) < Work(s)
  {
    hide Work, Inv;
    GivingUpWorks(s, w, wouldBlock);
  }

  lemma PassingStepWorks(s: Server, step: Step)
    requires Inv(s) && Enabled(s, step) && (step.Take? || step.Rearm? || step.AcceptDone?)
    ensures Work(Apply(s, step)) < Work(s)
  {
    match step
    case Take(w) =>
      var t := s.queue[0];
      SumUpdate(s.workers, w, if t.ReadTask? then Reading(t.fd) else Writing(t.fd), HandlerWork(s.conns));
    case Rearm(w) => SumUpdate(s.workers, w, Idle, HandlerWork(s.conns));
    case AcceptDone =>
  }

  lemma DispatchWorks(s: Server)
    requires Inv(s) && Enabled(s, Dispatch)
    ensures Work(Apply(s, Dispatch)) < Work(s)
  {
    match s.batch[0]
    case Listen =>
    case Ready(fd, HangUp) => ClosingWorks(s, fd);
    case Ready(fd, Readable) => SumAppend(s.queue, ReadTask(fd), TaskWork(s.conns));
    case Ready(fd, Writable) => SumAppend(s.queue, WriteTask(fd), TaskWork(s.conns));
  }

  lemma ClosingWorks(s: Server, fd: nat)
    requires Inv(s) && s.batch != [] && s.batch[0] == Ready(fd, HangUp) && !s.accepting
    ensures Work(Closed(s.(batch := s.batch[1..]), fd)) < Work(s)
  {
    HangUpIsAlone(s, fd);
    var conns := s.conns[fd := Shut(s.conns[fd])];
    SumAgrees(s.batch[1..], EventWork(conns), EventWork(s.conns));
    SumAgrees(s.queue, TaskWork(conns), TaskWork(s.conns));
    SumAgrees(s.workers, HandlerWork(conns), HandlerWork(s.conns));
  }

  lemma InternalStepWorks(s: Server, step: Step)
    requires Inv(s) && Enabled(s, step) && Internal(step)
    ensures Work(Apply(s, step)) < Work(s)
  {
    hide Work, Inv, Apply;
    match step
    case Dispatch => DispatchWorks(s);
    case Take(_) => PassingStepWorks(s, step);
    case Rearm(_) => PassingStepWorks(s, step);
    case AcceptDone => PassingStepWorks(s, step);
    case ReadEnd(w, failed) => ReadEndWorks(s, w, failed);
    case Process(w, reply) => ProcessWorks(s, w, reply);
    case WriteSome(w, n) => WriteSomeWorks(s, w, n);
    case WriteNone(w) => GaveUpWorks(s, step, w, false);
    case WriteError(w, wouldBlock) => GaveUpWorks(s, step, w, wouldBlock);
  }

  /** A run of internal steps is never longer than the work there was at its start. */
  lemma {:induction false} RestIsReached(s: Server, steps: seq<Step>)
    requires Inv(s) && Runnable(s, steps)
    requires forall i :: 0 <= i < |steps| ==> Internal(steps[i])
    ensures |steps| + Work(After(s, steps)) <= Work(s)
    decreases |steps|
  {
    if steps != [] {
      hide Work, Inv, Enabled, Apply;
      InternalStepWorks(s, steps[0]);
      StepKeepsInv(s, steps[0]);
      RestIsReached(Apply(s, steps[0]), steps[1..]);
    }
  }

  ghost predicate AtRest(s: Server) {
    forall step :: Internal(step) ==> !Enabled(s, step)
  }

  /** At rest every live connection waits in epoll, armed, unless its write handler gave up. */
  lemma EveryoneIsArmed(s: Server, fd: nat)
    requires Reachable(s) && AtRest(s) && |s.workers| > 0
    requires Live(s, fd) && fd !in s.stalled
    ensures fd in s.epoll && s.epoll[fd].Armed?
  {
    ReachableInv(s);
    hide Inv, Reachable;
    RestIsEmpty(s);
    IdleCountsNothing(s.workers, fd);
    OneOwner(s, fd);
  }

  lemma RestIsEmpty(s: Server)
    requires AtRest(s) && |s.workers| > 0
    ensures s.batch == [] && s.queue == [] && !s.accepting
    ensures forall w :: 0 <= w < |s.workers| ==> s.workers[w] == Idle
  {
    assert !Enabled(s, AcceptDone) && !Enabled(s, Dispatch);
    forall w: nat | w < |s.workers| ensures s.workers[w] == Idle {
      assert !Enabled(s, ReadEnd(w, false)) && !Enabled(s, Process(w, [0]));
      assert !Enabled(s, WriteNone(w)) && !Enabled(s, Rearm(w));
    }
    assert !Enabled(s, Take(0));
  }
}
