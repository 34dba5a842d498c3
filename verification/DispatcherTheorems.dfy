/** What holds in every state the dispatcher can reach and along every run. */
module DispatcherTheorems {
  import opened Bytes
  import opened Counting
  import opened Dispatcher
  import opened DispatcherProofs
  import Connector
  import Gather

  // ----- Runs -----

  ghost predicate Runnable(s: Server, steps: seq<Step>)
    decreases |steps|
  {
    steps == [] || (Enabled(s, steps[0]) && Runnable(Apply(s, steps[0]), steps[1..]))
  }

  ghost function After(s: Server, steps: seq<Step>): Server
    requires Runnable(s, steps)
    decreases |steps|
  {
    if steps == [] then s else After(Apply(s, steps[0]), steps[1..])
  }

  lemma {:induction false} RunKeepsInv(s: Server, steps: seq<Step>)
    requires Inv(s) && Runnable(s, steps)
    ensures Inv(After(s, steps))
    decreases |steps|
  {
    hide Inv, Enabled, Apply;
    if steps != [] {
      StepKeepsInv(s, steps[0]);
      RunKeepsInv(Apply(s, steps[0]), steps[1..]);
    }
  }

  ghost predicate Reachable(s: Server) {
    exists start, steps :: Initial(start) && Runnable(start, steps) && After(start, steps) == s
  }

  lemma ReachableInv(s: Server)
    requires Reachable(s)
    ensures Inv(s)
  {
    hide Inv, Initial, Runnable, After;
    var start, steps :| Initial(start) && Runnable(start, steps) && After(start, steps) == s;
    InitialInv(start);
    RunKeepsInv(start, steps);
  }

  // ----- Ownership -----

  /** The right to act on a connector is never in two places, is in none for a connector that is not
      live, and is in exactly one for a live one unless its write handler gave up. */
  lemma OneOwner(s: Server, fd: nat)
    requires Reachable(s)
    ensures Tokens(s, fd) <= 1
    ensures !Live(s, fd) ==> Tokens(s, fd) == 0
    ensures Live(s, fd) ==> (Tokens(s, fd) == 1 <==> fd !in s.stalled)
  {
    ReachableInv(s);
    assert TokenOk(s, fd);
  }

  /** A write handler returns without re-arming. */
  ghost predicate GivesUp(s: Server, step: Step) {
    && (step.WriteNone? || (step.WriteError? && !step.wouldBlock))
    && step.w < |s.workers| && s.workers[step.w].Writing? && !Complete(ConnOf(s, s.workers[step.w].fd))
  }

  ghost predicate NobodyGivesUp(s: Server, steps: seq<Step>)
    requires Runnable(s, steps)
    decreases |steps|
  {
    steps == [] || (!GivesUp(s, steps[0]) && NobodyGivesUp(Apply(s, steps[0]), steps[1..]))
  }

  lemma {:induction false} OnlyGivingUpStalls(s: Server, steps: seq<Step>)
    requires Runnable(s, steps) && NobodyGivesUp(s, steps)
    ensures After(s, steps).stalled == s.stalled
    decreases |steps|
  {
    if steps != [] {
      StallsOf(s, steps[0]);
      OnlyGivingUpStalls(Apply(s, steps[0]), steps[1..]);
    }
  }

  lemma StallsOf(s: Server, step: Step)
    requires Enabled(s, step)
    ensures !GivesUp(s, step) ==> Apply(s, step).stalled == s.stalled
    ensures GivesUp(s, step) ==> Apply(s, step).stalled == s.stalled + {s.workers[step.w].fd}
  {
  }

  /** Giving up leaves a live connection without a token at the end of the run. */
  lemma {:induction false} GivingUpLoses(s: Server, steps: seq<Step>) returns (fd: nat)
    requires Inv(s) && Runnable(s, steps) && !NobodyGivesUp(s, steps)
    ensures Live(After(s, steps), fd) && Tokens(After(s, steps), fd) == 0
    decreases |steps|
  {
    hide Inv, Enabled, Apply, GivesUp, Live, Tokens;
    StepKeepsInv(s, steps[0]);
    var s' := Apply(s, steps[0]);
    if GivesUp(s, steps[0]) {
      fd := Stalling(s, steps[0]);
      StalledForEver(s', steps[1..], fd);
    } else {
      fd := GivingUpLoses(s', steps[1..]);
    }
  }

  lemma Stalling(s: Server, step: Step) returns (fd: nat)
    requires Enabled(s, step) && GivesUp(s, step)
    ensures fd in Apply(s, step).stalled
  {
    StallsOf(s, step);
    fd := s.workers[step.w].fd;
  }

  /** At the end of a run every live connection has exactly one token if and only if writev neither
      returned 0 nor failed for good with octets left to send, at any step of the run. */
  lemma NoConnectionIsLost(start: Server, steps: seq<Step>)
    requires Initial(start) && Runnable(start, steps)
    ensures NobodyGivesUp(start, steps)
       <==> forall fd: nat :: Live(After(start, steps), fd) ==> Tokens(After(start, steps), fd) == 1
  {
    hide Runnable, After, NobodyGivesUp, Tokens;
    InitialInv(start);
    if NobodyGivesUp(start, steps) {
      OnlyGivingUpStalls(start, steps);
      forall fd: nat | Live(After(start, steps), fd) ensures Tokens(After(start, steps), fd) == 1 {
        OneOwner(After(start, steps), fd);
      }
    } else {
      var fd := GivingUpLoses(start, steps);
    }
  }

  // ----- Races -----

  datatype Thread = MainThread | PoolThread(w: nat)

  function ThreadOf(step: Step): Thread {
    match step
    case Wait(_) => MainThread
    case Dispatch => MainThread
    case Accept(_) => MainThread
    case AcceptDone => MainThread
    case Take(w) => PoolThread(w)
    case ReadSome(w, _) => PoolThread(w)
    case ReadEnd(w, _) => PoolThread(w)
    case Process(w, _) => PoolThread(w)
    case WriteSome(w, _) => PoolThread(w)
    case WriteNone(w) => PoolThread(w)
    case WriteError(w, _) => PoolThread(w)
    case Rearm(w) => PoolThread(w)
  }

  /** Whether the step reads or writes the connector `fd`: Init and Close do, and every step of a
      handler does. */
  ghost predicate Touches(s: Server, step: Step, fd: nat) {
    match step
    case Wait(_) => false
    case Dispatch => s.batch != [] && s.batch[0] == Ready(fd, HangUp)
    case Accept(f) => f == fd
    case AcceptDone => false
    case Take(_) => false
    case _ => var t := ThreadOf(step); t.PoolThread? && Holds(s, t.w, fd)
  }

  /** No two threads ever have a step to take on one connector. */
  lemma NoRace(s: Server, a: Step, b: Step, fd: nat)
    requires Reachable(s) && Enabled(s, a) && Enabled(s, b) && ThreadOf(a) != ThreadOf(b)
    requires Touches(s, a, fd)
    ensures !Touches(s, b, fd)
  {
    ReachableInv(s);
    if ThreadOf(a).PoolThread? {
      HolderIsAlone(s, ThreadOf(a).w, fd);
    } else if ThreadOf(b).PoolThread? && Holds(s, ThreadOf(b).w, fd) {
      HolderIsAlone(s, ThreadOf(b).w, fd);
    }
  }

  /** The asserts of the event loop: a client event names a known, live connector. */
  lemma EventsNameClients(s: Server)
    requires Reachable(s) && s.batch != [] && s.batch[0].Ready?
    ensures Live(s, s.batch[0].fd)
  {
    ReachableInv(s);
    assert EventFor(s.batch[0].fd)(s.batch[0]);
    assert TokenOk(s, s.batch[0].fd);
  }

  // ----- Requests and responses -----

  /** Whoever waits in epoll has read and answered everything that arrived. He waits for input exactly
      when every response went out whole, and for output as long as something is left to send. */
  lemma Alternation(s: Server, fd: nat)
    requires Reachable(s) && fd in s.epoll && s.epoll[fd].Armed?
    ensures Live(s, fd)
    ensures var c := s.conns[fd];
            && c.unread == [] && c.arrived == Concat(c.parsed) && |c.parsed| == |c.replies|
            && (s.epoll[fd] == Armed(Input) <==> c.unsent == [])
            && (s.epoll[fd] == Armed(Input) <==> c.wire == Concat(c.replies))
  {
    ReachableInv(s);
    assert ArmOk(ConnOf(s, fd), s.epoll[fd].direction);
    var c := s.conns[fd];
    assert HistoryOk(c);
    assert c.wire + [] == c.wire && Concat(c.parsed) + [] == Concat(c.parsed);
    assert |c.wire + c.unsent| == |c.wire| + |c.unsent|;
  }

  /** A write handler begins, and goes on, with nothing unread and something to send, in a size the
      completion test can tell from nothing. */
  lemma WritersHaveSomethingToSend(s: Server, w: nat)
    requires Reachable(s) && w < |s.workers| && s.workers[w].Writing?
    ensures var c := ConnOf(s, s.workers[w].fd);
            c.live && c.unread == [] && 0 < |c.unsent| < Gather.TWO_TO_32 && !Complete(c)
  {
    ReachableInv(s);
    var fd := s.workers[w].fd;
    HolderIsAlone(s, w, fd);
    assert WorkerOk(ConnOf(s, fd), s.workers[w]) && HistoryOk(s.conns[fd]);
    CompleteIsEmpty(s.conns[fd]);
  }

  /** No response is overwritten: at every moment the client has been sent a prefix of its responses,
      and what is missing of them is still to be sent. */
  lemma NoResponseIsLost(s: Server, fd: nat)
    requires Reachable(s) && Live(s, fd)
    ensures var c := s.conns[fd];
            c.wire + c.unsent == Concat(c.replies) && Concat(c.parsed) + c.unread == c.arrived
  {
    ReachableInv(s);
    assert HistoryOk(s.conns[fd]);
  }

  /** A response is built only when nothing of the one before is left to send. */
  lemma ResponsesDoNotOverlap(s: Server, w: nat, reply: bytes)
    requires Reachable(s) && Enabled(s, Process(w, reply))
    ensures var c := ConnOf(s, s.workers[w].fd); c.live && c.unsent == [] && c.wire == Concat(c.replies)
  {
    ReachableInv(s);
    var fd := s.workers[w].fd;
    HolderIsAlone(s, w, fd);
    assert WorkerOk(ConnOf(s, fd), s.workers[w]) && HistoryOk(s.conns[fd]);
    assert s.conns[fd].wire + [] == s.conns[fd].wire;
  }

  /** Although Close clears no buffer, a connector reused by a new client starts with both empty. */
  lemma ReusedConnectorIsClean(s: Server, fd: nat)
    requires Reachable(s) && Enabled(s, Accept(fd))
    ensures !Live(s, fd) && Quiet(ConnOf(s, fd))
  {
    ReachableInv(s);
    assert fd in s.conns ==> HistoryOk(s.conns[fd]);
  }

  // ----- The user counter -----

  /** user_cnt is the number of live connectors, and no step makes the 16 bits wrap. */
  lemma UserCountExact(s: Server, step: Step)
    requires Reachable(s) && Enabled(s, step)
    ensures s.userCnt == |LiveFds(s)| <= MAX_CLIENTS
    ensures var s' := Apply(s, step);
            && s'.userCnt - s.userCnt == |LiveFds(s')| - |LiveFds(s)|
            && -1 <= s'.userCnt - s.userCnt <= 1
            && (s'.userCnt > s.userCnt ==> step.Accept? && s.userCnt < MAX_CLIENTS)
  {
    ReachableInv(s);
    StepKeepsInv(s, step);
    UserCountChange(s, step);
  }

  lemma UserCountChange(s: Server, step: Step)
    requires Inv(s) && Enabled(s, step)
    ensures var s' := Apply(s, step);
            -1 <= s'.userCnt - s.userCnt <= 1
            && (s'.userCnt > s.userCnt ==> step.Accept? && s.userCnt < MAX_CLIENTS)
  {
    match step
    case Dispatch => DispatchedCount(s);
    case Accept(fd) => hide Inv;
    case ReadEnd(w, failed) => ReadEndKeepsInv(s, w, failed);
    case _ => UncountedStep(s, step);
  }

  lemma DispatchedCount(s: Server)
    requires Inv(s) && Enabled(s, Dispatch)
    ensures s.userCnt - 1 <= Apply(s, Dispatch).userCnt <= s.userCnt
  {
    if s.batch[0].Ready? && s.batch[0].kind == HangUp {
      HangUpIsAlone(s, s.batch[0].fd);
      assert s.batch[0].fd in LiveFds(s);
    }
  }

  lemma UncountedStep(s: Server, step: Step)
    requires Enabled(s, step) && !step.Dispatch? && !step.Accept? && !step.ReadEnd?
    ensures Apply(s, step).userCnt == s.userCnt
  {
  }

  // ----- Descriptors -----

  /** A client that hangs up has its descriptor closed, which accept may then return again. */
  lemma HangUpClosesDescriptor(s: Server, fd: nat)
    requires Reachable(s) && Enabled(s, Dispatch) && s.batch[0] == Ready(fd, HangUp)
    ensures fd in s.open && Live(s, fd)
    ensures var s' := Apply(s, Dispatch);
            fd !in s'.open && !Live(s', fd) && fd !in s'.epoll && fd in s'.conns && s'.open == s.open - {fd}
  {
    ReachableInv(s);
    HangUpIsAlone(s, fd);
  }

  /** During the run `fd` is accepted while the server is full. */
  ghost predicate AcceptedWhenFull(s: Server, steps: seq<Step>, fd: nat)
    requires Runnable(s, steps)
    decreases |steps|
  {
    steps != [] &&
    ((steps[0] == Accept(fd) && s.userCnt >= MAX_CLIENTS) || AcceptedWhenFull(Apply(s, steps[0]), steps[1..], fd))
  }

  ghost predicate OpenForNobody(s: Server, fd: nat) {
    fd in s.open && !Live(s, fd)
  }

  lemma OpenForNobodyStep(s: Server, step: Step, fd: nat)
    requires Inv(s) && Enabled(s, step)
    ensures OpenForNobody(Apply(s, step), fd)
       <==> OpenForNobody(s, fd) || (step == Accept(fd) && s.userCnt >= MAX_CLIENTS)
  {
    hide TokensOk, PlacesOk, HistoriesOk;
    match step
    case ReadEnd(w, failed) => assert Connector.LastReturn(failed).0 != 0 || Connector.LastReturn(failed).1;
    case Dispatch =>
      if s.batch[0].Ready? && s.batch[0].kind == HangUp && s.batch[0].fd == fd {
        ClosedIsNotOpen(s.(batch := s.batch[1..]), fd);
      }
    case _ => HandlersKeepLive(s, step, fd);
  }

  lemma ClosedIsNotOpen(s: Server, fd: nat)
    ensures OpenForNobody(Closed(s, fd), fd) <==> OpenForNobody(s, fd)
  {
  }

  /** A handler's step neither opens nor closes; the connector it acts on is live. */
  lemma HandlersKeepLive(s: Server, step: Step, fd: nat)
    requires Inv(s) && Enabled(s, step) && !step.Dispatch? && !step.ReadEnd?
    ensures !step.Accept? ==> Apply(s, step).open == s.open && (Live(Apply(s, step), fd) <==> Live(s, fd))
  {
    if step.ReadSome? || step.Process? || step.WriteSome? {
      HolderIsAlone(s, step.w, s.workers[step.w].fd);
      hide Inv;
      ActingKeepsLive(s, step, fd);
    } else {
      hide Inv;
    }
  }

  lemma ActingKeepsLive(s: Server, step: Step, fd: nat)
    requires Enabled(s, step) && (step.ReadSome? || step.Process? || step.WriteSome?)
    requires Live(s, s.workers[step.w].fd)
    ensures Apply(s, step).open == s.open && (Live(Apply(s, step), fd) <==> Live(s, fd))
  {
  }

  lemma {:induction false} OpenForNobodyRun(s: Server, steps: seq<Step>, fd: nat)
    requires Inv(s) && Runnable(s, steps)
    ensures OpenForNobody(After(s, steps), fd) <==> OpenForNobody(s, fd) || AcceptedWhenFull(s, steps, fd)
    decreases |steps|
  {
    hide Inv, Enabled, Apply, OpenForNobody;
    if steps != [] {
      OpenForNobodyStep(s, steps[0], fd);
      StepKeepsInv(s, steps[0]);
      OpenForNobodyRun(Apply(s, steps[0]), steps[1..], fd);
    }
  }

  /** After any run a descriptor is open if and only if it was open at the start, or belongs to a live
      connector, or was accepted at the limit of clients during the run. */
  lemma OpenDescriptorsAre(start: Server, steps: seq<Step>, fd: nat)
    requires Initial(start) && Runnable(start, steps)
    ensures fd in After(start, steps).open
       <==> fd in start.open || Live(After(start, steps), fd) || AcceptedWhenFull(start, steps, fd)
  {
    InitialInv(start);
    RunKeepsInv(start, steps);
    OpenForNobodyRun(start, steps, fd);
  }

  // ----- The order of tasks -----

  /** The task a step of the main thread adds, if any. */
  ghost function AddedBy(s: Server, step: Step): seq<Task> {
    if step.Dispatch? && s.batch != [] && s.batch[0].Ready? && s.batch[0].kind == Readable then [ReadTask(s.batch[0].fd)]
    else if step.Dispatch? && s.batch != [] && s.batch[0].Ready? && s.batch[0].kind == Writable then [WriteTask(s.batch[0].fd)]
    else []
  }

  /** The task that a worker is at after it was idle. */
  ghost function TakenBy(s: Server, step: Step): seq<Task>
    requires Enabled(s, step)
  {
    if step.Take? && step.w < |Apply(s, step).workers| then
      match Apply(s, step).workers[step.w]
      case Reading(fd) => [ReadTask(fd)]
      case Writing(fd) => [WriteTask(fd)]
      case _ => []
    else []
  }

  ghost function AddedIn(s: Server, steps: seq<Step>): seq<Task>
    requires Runnable(s, steps)
    decreases |steps|
  {
    if steps == [] then [] else AddedBy(s, steps[0]) + AddedIn(Apply(s, steps[0]), steps[1..])
  }

  ghost function TakenIn(s: Server, steps: seq<Step>): seq<Task>
    requires Runnable(s, steps)
    decreases |steps|
  {
    if steps == [] then [] else TakenBy(s, steps[0]) + TakenIn(Apply(s, steps[0]), steps[1..])
  }

  lemma TasksMove(s: Server, step: Step)
    requires Enabled(s, step)
    ensures s.queue + AddedBy(s, step) == TakenBy(s, step) + Apply(s, step).queue
  {
  }

  /** Workers take up tasks in the order in which the main thread found the events, each once. */
  lemma {:induction false} TasksInOrder(s: Server, steps: seq<Step>)
    requires Runnable(s, steps)
    ensures s.queue + AddedIn(s, steps) == TakenIn(s, steps) + After(s, steps).queue
    decreases |steps|
  {
    hide Enabled, Apply, AddedBy, TakenBy;
    if steps == [] {
      assert s.queue + [] == [] + s.queue;
    } else {
      var s' := Apply(s, steps[0]);
      TasksMove(s, steps[0]);
      TasksInOrder(s', steps[1..]);
      var a, b := AddedBy(s, steps[0]), AddedIn(s', steps[1..]);
      var t, u := TakenBy(s, steps[0]), TakenIn(s', steps[1..]);
      assert s.queue + (a + b) == (s.queue + a) + b;
      assert (t + s'.queue) + b == t + (s'.queue + b);
      assert t + (u + After(s, steps).queue) == (t + u) + After(s, steps).queue;
    }
  }

  // ----- What is never given back -----

  /** A descriptor that accept returned while the server was full is neither closed nor served: it
      stays open, without a live connector, for ever. */
  lemma {:induction false} LeakedForEver(s: Server, steps: seq<Step>, fd: nat)
    requires Runnable(s, steps) && fd in s.open && !Live(s, fd)
    ensures fd in After(s, steps).open && !Live(After(s, steps), fd)
    decreases |steps|
  {
    if steps != [] {
      LeakedStep(s, steps[0], fd);
      LeakedForEver(Apply(s, steps[0]), steps[1..], fd);
    }
  }

  lemma LeakedStep(s: Server, step: Step, fd: nat)
    requires Enabled(s, step) && fd in s.open && !Live(s, fd)
    ensures fd in Apply(s, step).open && !Live(Apply(s, step), fd)
  {
  }

  /** An accepted descriptor is served, and the loop goes on, exactly when the server is not full; it is
      open either way. */
  lemma AcceptAtLimitLeaks(s: Server, fd: nat)
    requires Reachable(s) && Enabled(s, Accept(fd))
    ensures var s' := Apply(s, Accept(fd));
            fd in s'.open && (Live(s', fd) <==> s.userCnt < MAX_CLIENTS) && (s'.accepting <==> s.userCnt < MAX_CLIENTS)
  {
    ReusedConnectorIsClean(s, fd);
  }

  /** A connection whose write handler gave up stays open and counted, and nobody acts on it again. */
  lemma {:induction false} StalledForEver(s: Server, steps: seq<Step>, fd: nat)
    requires Inv(s) && Runnable(s, steps) && fd in s.stalled
    ensures var s' := After(s, steps);
            fd in s'.stalled && Live(s', fd) && fd in s'.open && Tokens(s', fd) == 0
    decreases |steps|
  {
    if steps == [] {
      assert TokenOk(s, fd);
    } else {
      StepKeepsInv(s, steps[0]);
      hide Inv;
      StalledStaysStalled(s, steps[0], fd);
      StalledForEver(Apply(s, steps[0]), steps[1..], fd);
    }
  }

  lemma StalledStaysStalled(s: Server, step: Step, fd: nat)
    requires Enabled(s, step) && fd in s.stalled
    ensures fd in Apply(s, step).stalled
  {
  }
}
