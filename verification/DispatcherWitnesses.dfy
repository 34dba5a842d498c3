/** Runs of the dispatcher that end badly: one that loses a connection, and those that lead to the
    limit of clients. */
module DispatcherWitnesses {
  import opened Bytes
  import opened Counting
  import opened Dispatcher
  import opened DispatcherProofs
  import opened DispatcherTheorems
  import Gather
  import Request
  import Served = ServedRequests

  // ----- Longer runs -----

  lemma {:induction false} RunOn(s: Server, a: seq<Step>, b: seq<Step>)
    requires Runnable(s, a) && Runnable(After(s, a), b)
    ensures Runnable(s, a + b) && After(s, a + b) == After(After(s, a), b)
    decreases |a|
  {
    hide Enabled, Apply;
    if a == [] {
      assert a + b == b;
    } else {
      RunOn(Apply(s, a[0]), a[1..], b);
      assert (a + b)[1..] == a[1..] + b;
    }
  }

  lemma OneStep(s: Server, step: Step)
    requires Enabled(s, step)
    ensures Runnable(s, [step]) && After(s, [step]) == Apply(s, step)
  {
    assert [step][1..] == [];
    assert Runnable(Apply(s, step), []);
  }

  /** One more step from a reachable state. */
  lemma Goes(s: Server, step: Step, s': Server)
    requires Reachable(s) && Enabled(s, step) && Apply(s, step) == s'
    ensures Reachable(s')
  {
    hide Enabled, Apply, Initial, Runnable, After;
    var start, steps :| Initial(start) && Runnable(start, steps) && After(start, steps) == s;
    OneStep(s, step);
    RunOn(start, steps, [step]);
  }

  lemma CountOne(e: Event)
    ensures forall fd: nat :: Count([e], EventFor(fd)) == if e.Ready? && e.fd == fd then 1 else 0
  {
    assert [e][1..] == [];
  }

  // ----- A connection is lost -----

  /** What a server has open before its first event: the standard streams, epoll and the listener. */
  const OPEN: set<nat> := {0, 1, 2, 3, 4}

  const CLIENT: nat := 5

  ghost const START: Server := Server(map[], OPEN, map[], [], false, [], [Idle], 0, {})

  /** A server with one worker and one connection. */
  ghost function At(conn: Conn, r: Registration, batch: seq<Event>, queue: seq<Task>, worker: Worker): Server {
    Server(map[CLIENT := conn], OPEN + {CLIENT}, map[CLIENT := r], batch, false, queue, [worker], 1, {})
  }

  const ASKING: Conn := Conn(true, [], [], [], [], [], [])

  function Asked(request: bytes): Conn {
    Conn(true, request, [], request, [], [], [])
  }

  function Answered(request: bytes, reply: bytes): Conn {
    Conn(true, [], reply, request, [request], [reply], [])
  }

  /** A client connects. */
  lemma Connects()
    ensures Reachable(At(ASKING, Armed(Input), [], [], Idle))
  {
    Listens();
    var accepting := START.(accepting := true);
    var added := At(ASKING, Armed(Input), [], [], Idle).(accepting := true);
    Goes(accepting, Accept(CLIENT), added);
    Goes(added, AcceptDone, At(ASKING, Armed(Input), [], [], Idle));
  }

  /** The listening socket becomes readable. */
  lemma Listens()
    ensures Reachable(START.(accepting := true))
  {
    assert Runnable(START, []) && After(START, []) == START;
    assert Reachable(START);
    CountOne(Listen);
    var notified := START.(batch := [Listen]);
    Goes(START, Wait([Listen]), notified);
    Goes(notified, Dispatch, START.(accepting := true));
  }

  /** The client's socket becomes readable, and a worker takes the read task. */
  lemma IsNoticed()
    ensures Reachable(At(ASKING, Fired, [], [], Reading(CLIENT)))
  {
    Connects();
    var armed := At(ASKING, Armed(Input), [], [], Idle);
    CountOne(Ready(CLIENT, Readable));
    var notified := At(ASKING, Fired, [Ready(CLIENT, Readable)], [], Idle);
    Goes(armed, Wait([Ready(CLIENT, Readable)]), notified);
    var queued := At(ASKING, Fired, [], [ReadTask(CLIENT)], Idle);
    Goes(notified, Dispatch, queued);
    Goes(queued, Take(0), At(ASKING, Fired, [], [], Reading(CLIENT)));
  }

  /** The worker reads a request. */
  lemma Asks(request: bytes)
    requires request != []
    ensures Reachable(At(Asked(request), Fired, [], [], Reading(CLIENT)))
  {
    IsNoticed();
    var taken := At(ASKING, Fired, [], [], Reading(CLIENT));
    assert Arrived(ASKING, request) == Asked(request);
    Goes(taken, ReadSome(0, request), At(Asked(request), Fired, [], [], Reading(CLIENT)));
  }

  /** The worker builds the response and arms for output. */
  lemma IsAnswered(request: bytes, reply: bytes)
    requires request != [] && 0 < |reply| < Gather.TWO_TO_32
    ensures Reachable(At(Answered(request, reply), Armed(Output), [], [], Idle))
  {
    Asks(request);
    var read := At(Asked(request), Fired, [], [], Processing(CLIENT));
    Goes(At(Asked(request), Fired, [], [], Reading(CLIENT)), ReadEnd(0, true), read);
    var processed := At(Answered(request, reply), Fired, [], [], Rearming(CLIENT, Output));
    assert Processed(Asked(request), reply) == Answered(request, reply);
    Goes(read, Process(0, reply), processed);
    Goes(processed, Rearm(0), At(Answered(request, reply), Armed(Output), [], [], Idle));
  }

  /** The socket becomes writable, and a worker takes the write task. */
  lemma IsWriting(request: bytes, reply: bytes)
    requires request != [] && 0 < |reply| < Gather.TWO_TO_32
    ensures Reachable(At(Answered(request, reply), Fired, [], [], Writing(CLIENT)))
  {
    IsAnswered(request, reply);
    var c := Answered(request, reply);
    CountOne(Ready(CLIENT, Writable));
    var notified := At(c, Fired, [Ready(CLIENT, Writable)], [], Idle);
    Goes(At(c, Armed(Output), [], [], Idle), Wait([Ready(CLIENT, Writable)]), notified);
    var queued := At(c, Fired, [], [WriteTask(CLIENT)], Idle);
    Goes(notified, Dispatch, queued);
    Goes(queued, Take(0), At(c, Fired, [], [], Writing(CLIENT)));
  }

  /** The run that loses a connection: a client asks for the home page, and while the response is sent
      one writev returns 0. */
  lemma WritevZeroLosesConnection(reply: bytes)
    requires 0 < |reply| < Gather.TWO_TO_32
    ensures exists s, fd: nat ::
              && Reachable(s) && Live(s, fd) && Tokens(s, fd) == 0
              && s.conns[fd].parsed == [Served.HomeRequest().Printed()] && s.conns[fd].unsent == reply
    ensures forall q :: Request.Parse(Request.Started(q), Served.HomeRequest().Printed()).Done?
  {
    hide Request.Parse;
    forall q ensures Request.Parse(Request.Started(q), Served.HomeRequest().Printed()).Done? {
      Served.HomeRequestParses(q);
    }
    var request := Served.HomeRequest().Printed();
    assert |request| >= |CRLF|;
    IsWriting(request, reply);
    var lost := At(Answered(request, reply), Fired, [], [], Idle).(stalled := {CLIENT});
    Goes(At(Answered(request, reply), Fired, [], [], Writing(CLIENT)), WriteNone(0), lost);
    hide Reachable, Tokens;
    OneOwner(lost, CLIENT);
    assert Live(lost, CLIENT) && Tokens(lost, CLIENT) == 0;
  }

  // ----- A descriptor is used again -----

  /** The client is gone, and with it its response; its descriptor is closed. */
  ghost function Gone(request: bytes, reply: bytes): Server {
    Server(map[CLIENT := Shut(Answered(request, reply))], OPEN, map[], [], false, [], [Idle], 0, {})
  }

  /** A client hangs up before it has read its response. */
  lemma HangsUp(request: bytes, reply: bytes)
    requires request != [] && 0 < |reply| < Gather.TWO_TO_32
    ensures Reachable(Gone(request, reply))
  {
    IsAnswered(request, reply);
    var c := Answered(request, reply);
    CountOne(Ready(CLIENT, HangUp));
    var told := At(c, Fired, [Ready(CLIENT, HangUp)], [], Idle);
    Goes(At(c, Armed(Output), [], [], Idle), Wait([Ready(CLIENT, HangUp)]), told);
    assert OPEN + {CLIENT} - {CLIENT} == OPEN;
    Goes(told, Dispatch, Gone(request, reply));
  }

  /** A reachable state in which a known descriptor was closed and is accepted again, for a client that
      finds nothing of the one before: nothing unread, nothing unsent, no history. */
  lemma ADescriptorIsReused(request: bytes, reply: bytes) returns (s: Server)
    requires request != [] && 0 < |reply| < Gather.TWO_TO_32
    ensures Reachable(s) && Enabled(s, Accept(CLIENT)) && CLIENT in s.conns && CLIENT !in s.open
    ensures s.conns[CLIENT].replies == [reply] && s.conns[CLIENT].wire == []
    ensures Apply(s, Accept(CLIENT)).conns[CLIENT] == ASKING
  {
    HangsUp(request, reply);
    CountOne(Listen);
    var gone := Gone(request, reply);
    Goes(gone, Wait([Listen]), gone.(batch := [Listen]));
    s := gone.(accepting := true);
    Goes(gone.(batch := [Listen]), Dispatch, s);
  }

  // ----- The limit of clients -----

  /** While the accept loop runs, `n` clients are served, on descriptors from CLIENT on. */
  ghost predicate Accepted(s: Server, n: nat) {
    Reachable(s) && s.accepting && s.userCnt == n && forall fd :: fd in s.open ==> fd < CLIENT + n
  }

  lemma {:induction false} ManyAreAccepted(n: nat) returns (s: Server)
    requires n <= MAX_CLIENTS
    ensures Accepted(s, n)
    decreases n
  {
    if n == 0 {
      Listens();
      s := START.(accepting := true);
    } else {
      var before := ManyAreAccepted(n - 1);
      var fd := CLIENT + (n - 1);
      s := Apply(before, Accept(fd));
      Goes(before, Accept(fd), s);
    }
  }

  /** A reachable state has an open descriptor without a live connector, accepted at the limit;
      whatever happens next, it is neither closed nor served. */
  lemma ADescriptorLeaks() returns (s: Server, fd: nat)
    ensures Reachable(s) && s.userCnt == MAX_CLIENTS && fd >= CLIENT && fd in s.open && !Live(s, fd)
    ensures forall steps :: Runnable(s, steps) ==>
              fd in After(s, steps).open && !Live(After(s, steps), fd)
  {
    var full := ManyAreAccepted(MAX_CLIENTS);
    fd := CLIENT + MAX_CLIENTS;
    s := Apply(full, Accept(fd));
    AcceptAtLimitLeaks(full, fd);
    Goes(full, Accept(fd), s);
    hide Reachable;
    forall steps | Runnable(s, steps) ensures fd in After(s, steps).open && !Live(After(s, steps), fd) {
      LeakedForEver(s, steps, fd);
    }
  }
}
