/** The connection dispatcher of src/webserver.cpp as a step system: the main thread's event and accept
    loops, the kernel's one-shot registrations, the queue of tasks and the pool's handlers. No lock
    protects a connector, so a step is one access of one thread, and the kernel chooses freely. */
module Dispatcher {
  import opened Bytes
  import opened Counting
  import Connector
  import Gather

  datatype Direction = Input | Output

  /** A one-shot registration with epoll, before and after it fired. */
  datatype Registration = Armed(direction: Direction) | Fired

  datatype Kind = HangUp | Readable | Writable

  datatype Event = Listen | Ready(fd: nat, kind: Kind)

  datatype Task = ReadTask(fd: nat) | WriteTask(fd: nat)

  /** Where a pool thread is: in the read loop, in the write loop, in _Process, before modFd. */
  datatype Worker =
    | Idle
    | Reading(fd: nat)
    | Writing(fd: nat)
    | Processing(fd: nat)
    | Rearming(fd: nat, direction: Direction)

  /** A connector. `arrived`, `parsed`, `replies` and `wire` are the history of the present client:
      the octets put into the read buffer, the contents handed to the parser, the responses built,
      and the octets sent. */
  datatype Conn = Conn(live: bool, unread: bytes, unsent: bytes,
                       arrived: bytes, parsed: seq<bytes>, replies: seq<bytes>, wire: bytes)

  const NEW_CONN: Conn := Conn(false, [], [], [], [], [], [])

  datatype Server = Server(
    conns: map<nat, Conn>,           // _clients
    open: set<nat>,                  // descriptors the process has open
    epoll: map<nat, Registration>,
    batch: seq<Event>,               // what is left of the last epoll_wait
    accepting: bool,                 // inside _HandleNewConnection
    queue: seq<Task>,
    workers: seq<Worker>,
    userCnt: nat,
    stalled: set<nat>)               // whose handler returned without re-arming

  const MAX_CLIENTS: nat := 65535

  predicate Live(s: Server, fd: nat) {
    fd in s.conns && s.conns[fd].live
  }

  function LiveFds(s: Server): set<nat> {
    set fd | fd in s.conns && s.conns[fd].live
  }

  // ----- Steps -----

  datatype Step =
    | Wait(events: seq<Event>)                    // main: epoll_wait returns
    | Dispatch                                    // main: the next event of the batch
    | Accept(fd: nat)                             // main: accept returns a descriptor; 0 is served by nobody,
                                                  // as the assert of _SetNoBlock fails on it
    | AcceptDone                                  // main: accept fails
    | Take(w: nat)                                // a worker takes the oldest task
    | ReadSome(w: nat, data: bytes)               // Read_FD appended `data`
    | ReadEnd(w: nat, failed: bool)               // Read returned, after a readv of -1 or of 0
    | Process(w: nat, reply: bytes)               // HttpConnector::Process, with the response it builds
    | WriteSome(w: nat, n: nat)                   // writev sent n octets
    | WriteNone(w: nat)                           // writev returned 0
    | WriteError(w: nat, wouldBlock: bool)        // Write returned -1, segments untouched, as intended
    | Rearm(w: nat)                               // modFd

  ghost predicate Deliverable(s: Server, e: Event) {
    e.Ready? ==>
      && e.fd in s.epoll && s.epoll[e.fd].Armed?
      && (e.kind == Readable ==> s.epoll[e.fd].direction == Input)
      && (e.kind == Writable ==> s.epoll[e.fd].direction == Output)
  }

  ghost predicate Enabled(s: Server, step: Step) {
    match step
    case Wait(events) =>
      && s.batch == [] && !s.accepting
      && (forall i :: 0 <= i < |events| ==> Deliverable(s, events[i]))
      && (forall fd: nat :: Count(events, EventFor(fd)) <= 1)
    case Dispatch => s.batch != [] && !s.accepting
    case Accept(fd) => s.accepting && fd !in s.open && (fd > 0 || s.userCnt >= MAX_CLIENTS)
    case AcceptDone => s.accepting
    case Take(w) => w < |s.workers| && s.workers[w].Idle? && s.queue != []
    case ReadSome(w, data) => w < |s.workers| && s.workers[w].Reading? && data != []
    case ReadEnd(w, _) => w < |s.workers| && s.workers[w].Reading?
    case Process(w, reply) =>
      w < |s.workers| && s.workers[w].Processing? && 0 < |reply| < Gather.TWO_TO_32
    case WriteSome(w, n) =>
      w < |s.workers| && s.workers[w].Writing? && s.workers[w].fd in s.conns
      && 0 < n <= |s.conns[s.workers[w].fd].unsent|
    case WriteNone(w) => w < |s.workers| && s.workers[w].Writing?
    case WriteError(w, _) => w < |s.workers| && s.workers[w].Writing?
    case Rearm(w) => w < |s.workers| && s.workers[w].Rearming?
  }

  ghost function ConnOf(s: Server, fd: nat): Conn {
    if fd in s.conns then s.conns[fd] else NEW_CONN
  }

  ghost function WithWorker(s: Server, w: nat, to: Worker): Server
    requires w < |s.workers|
  {
    s.(workers := s.workers[w := to])
  }

  ghost function WithConn(s: Server, fd: nat, c: Conn): Server {
    s.(conns := s.conns[fd := c])
  }

  // What the handlers and the main thread do to one connector.

  /** Init: a new client, and buffers as they are. */
  ghost function Opened(c: Conn): Conn {
    c.(live := true, arrived := [], parsed := [], replies := [], wire := [])
  }

  /** Close: the segments are dropped, the read buffer is not. */
  ghost function Shut(c: Conn): Conn {
    c.(live := false, unsent := [])
  }

  ghost function Arrived(c: Conn, data: bytes): Conn {
    c.(unread := c.unread + data, arrived := c.arrived + data)
  }

  /** HttpConnector::Process with something to read: the response replaces whatever was unsent. */
  ghost function Processed(c: Conn, reply: bytes): Conn {
    c.(unread := [], unsent := reply, parsed := c.parsed + [c.unread], replies := c.replies + [reply])
  }

  ghost function SentSome(c: Conn, n: nat): Conn
    requires n <= |c.unsent|
  {
    c.(unsent := c.unsent[n..], wire := c.wire + c.unsent[..n])
  }

  /** _AddConnection: Init, then addFd. */
  ghost function Added(s: Server, fd: nat): Server {
    s.(conns := s.conns[fd := Opened(ConnOf(s, fd))],
       open := s.open + {fd},
       epoll := if fd in s.epoll then s.epoll else s.epoll[fd := Armed(Input)],
       userCnt := (s.userCnt + 1) % Connector.COUNTER_RANGE)
  }

  /** _CloseConnection: delFd, then Close, which does nothing to a connector that is not live. */
  ghost function Closed(s: Server, fd: nat): Server {
    var unregistered := s.(epoll := s.epoll - {fd});
    if !Live(s, fd) then unregistered
    else
      unregistered.(conns := s.conns[fd := Shut(s.conns[fd])],
                    open := s.open - {fd},
                    userCnt := (s.userCnt - 1) % Connector.COUNTER_RANGE)
  }

  ghost function Fire(epoll: map<nat, Registration>, events: seq<Event>): map<nat, Registration> {
    map fd | fd in epoll :: if Count(events, EventFor(fd)) > 0 then Fired else epoll[fd]
  }

  ghost function Apply(s: Server, step: Step): Server
    requires Enabled(s, step)
  {
    match step
    case Wait(events) => s.(epoll := Fire(s.epoll, events), batch := events)
    case Dispatch =>
      var rest := s.(batch := s.batch[1..]);
      (match s.batch[0]
       case Listen => rest.(accepting := true)
       case Ready(fd, HangUp) => Closed(rest, fd)
       case Ready(fd, Readable) => rest.(queue := s.queue + [ReadTask(fd)])
       case Ready(fd, Writable) => rest.(queue := s.queue + [WriteTask(fd)]))
    case Accept(fd) =>
      if s.userCnt >= MAX_CLIENTS then s.(open := s.open + {fd}, accepting := false) else Added(s, fd)
    case AcceptDone => s.(accepting := false)
    case Take(w) =>
      var t := s.queue[0];
      WithWorker(s, w, if t.ReadTask? then Reading(t.fd) else Writing(t.fd)).(queue := s.queue[1..])
    case ReadSome(w, data) =>
      var fd := s.workers[w].fd;
      WithConn(s, fd, Arrived(ConnOf(s, fd), data))
    case ReadEnd(w, failed) =>
      var fd := s.workers[w].fd;
      var (ret, status) := Connector.LastReturn(failed);
      if ret == 0 && !status then Closed(WithWorker(s, w, Idle), fd) else WithWorker(s, w, Processing(fd))
    case Process(w, reply) =>
      var fd := s.workers[w].fd;
      var c := ConnOf(s, fd);
      if c.unread == [] then WithWorker(s, w, Rearming(fd, Input))
      else WithWorker(WithConn(s, fd, Processed(c, reply)), w, Rearming(fd, Output))
    case WriteSome(w, n) =>
      var fd := s.workers[w].fd;
      var c' := SentSome(ConnOf(s, fd), n);
      WithWorker(WithConn(s, fd, c'), w, if Complete(c') then Processing(fd) else Writing(fd))
    case WriteNone(w) => GivenUp(s, w, false)
    case WriteError(w, wouldBlock) => GivenUp(s, w, wouldBlock)
    case Rearm(w) =>
      var fd := s.workers[w].fd;
      WithWorker(s, w, Idle).(epoll := if fd in s.epoll then s.epoll[fd := Armed(s.workers[w].direction)] else s.epoll)
  }

  /** The completion test of _FunWrite. */
  ghost predicate Complete(c: Conn) {
    Gather.Narrowed(|c.unsent|) == 0
  }

  /** _FunWrite after Write came back early: on to _Process if there is nothing left, back to epoll
      if the socket would block, else nothing at all. */
  ghost function GivenUp(s: Server, w: nat, wouldBlock: bool): Server
    requires w < |s.workers| && s.workers[w].Writing?
  {
    var fd := s.workers[w].fd;
    if Complete(ConnOf(s, fd)) then WithWorker(s, w, Processing(fd))
    else if wouldBlock then WithWorker(s, w, Rearming(fd, Output))
    else WithWorker(s, w, Idle).(stalled := s.stalled + {fd})
  }

  // ----- Counting tokens -----

  ghost function EventFor(fd: nat): Event -> bool {
    (e: Event) => e.Ready? && e.fd == fd
  }

  ghost function TaskFor(fd: nat): Task -> bool {
    (t: Task) => t.fd == fd
  }

  ghost function HandlerOf(fd: nat): Worker -> bool {
    (w: Worker) => !w.Idle? && w.fd == fd
  }

  ghost function ArmedCount(s: Server, fd: nat): nat {
    if fd in s.epoll && s.epoll[fd].Armed? then 1 else 0
  }

  /** In how many places the right to act on connector `fd` is. */
  ghost function Tokens(s: Server, fd: nat): nat {
    ArmedCount(s, fd) + Count(s.batch, EventFor(fd)) + Count(s.queue, TaskFor(fd)) + Count(s.workers, HandlerOf(fd))
  }

  // ----- The invariant -----

  ghost predicate Quiet(c: Conn) {
    c.unread == [] && c.unsent == []
  }

  ghost predicate ArmOk(c: Conn, d: Direction) {
    c.unread == [] && (d == Input <==> c.unsent == [])
  }

  ghost predicate EventOk(c: Conn, k: Kind) {
    c.unread == [] && (k == Readable ==> c.unsent == []) && (k == Writable ==> c.unsent != [])
  }

  ghost predicate TaskOk(c: Conn, t: Task) {
    c.unread == [] && (t.ReadTask? <==> c.unsent == [])
  }

  ghost predicate WorkerOk(c: Conn, w: Worker) {
    match w
    case Idle => true
    case Reading(_) => c.unsent == []
    case Writing(_) => c.unread == [] && c.unsent != []
    case Processing(_) => c.unsent == []
    case Rearming(_, d) => ArmOk(c, d)
  }

  /** Every live connector's token is in exactly one place unless its handler gave up, and no other
      connector has one. */
  ghost predicate TokensOk(s: Server) {
    forall fd: nat :: TokenOk(s, fd)
  }

  ghost predicate TokenOk(s: Server, fd: nat) {
    Tokens(s, fd) + (if fd in s.stalled then 1 else 0) == if Live(s, fd) then 1 else 0
  }

  ghost predicate DescriptorsOk(s: Server) {
    && (forall fd :: fd in s.epoll <==> Live(s, fd))
    && (forall fd :: Live(s, fd) ==> fd in s.open)
    && s.userCnt == |LiveFds(s)| <= MAX_CLIENTS
  }

  /** What the place of the token says about the connector's buffers. */
  ghost predicate PlacesOk(s: Server) {
    && (forall fd :: fd in s.epoll && s.epoll[fd].Armed? ==> ArmOk(ConnOf(s, fd), s.epoll[fd].direction))
    && (forall i :: 0 <= i < |s.batch| && s.batch[i].Ready? ==> EventOk(ConnOf(s, s.batch[i].fd), s.batch[i].kind))
    && (forall i :: 0 <= i < |s.queue| ==> TaskOk(ConnOf(s, s.queue[i].fd), s.queue[i]))
    && (forall i :: 0 <= i < |s.workers| && !s.workers[i].Idle? ==> WorkerOk(ConnOf(s, s.workers[i].fd), s.workers[i]))
  }

  /** The history of a client adds up: what arrived is what was parsed and what is unread; what was
      sent and what is unsent is the responses, whole and in order, one for each parse. */
  ghost predicate HistoryOk(c: Conn) {
    if c.live then
      && c.arrived == Concat(c.parsed) + c.unread
      && Concat(c.replies) == c.wire + c.unsent
      && |c.parsed| == |c.replies|
      && |c.unsent| < Gather.TWO_TO_32
    else Quiet(c)
  }

  ghost predicate HistoriesOk(s: Server) {
    forall fd :: fd in s.conns ==> HistoryOk(s.conns[fd])
  }

  ghost predicate Inv(s: Server) {
    TokensOk(s) && DescriptorsOk(s) && PlacesOk(s) && HistoriesOk(s)
  }

  /** A server before its first event, with some descriptors open and an idle pool. */
  ghost predicate Initial(s: Server) {
    && s.conns == map[] && s.epoll == map[] && s.batch == [] && !s.accepting && s.queue == []
    && (forall i :: 0 <= i < |s.workers| ==> s.workers[i] == Idle)
    && s.userCnt == 0 && s.stalled == {}
  }
}
