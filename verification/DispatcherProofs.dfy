/** Every step of the dispatcher keeps its invariant. */
module DispatcherProofs {
  import opened Bytes
  import opened Counting
  import opened Dispatcher
  import Gather

  // ----- Holding a token excludes every other place -----

  ghost predicate Holds(s: Server, w: nat, fd: nat) {
    w < |s.workers| && !s.workers[w].Idle? && s.workers[w].fd == fd
  }

  /** No place but worker `w` can act on `fd`. */
  ghost predicate OnlyWorker(s: Server, w: nat, fd: nat) {
    && Live(s, fd) && fd !in s.stalled && ArmedCount(s, fd) == 0
    && (forall i :: 0 <= i < |s.batch| && s.batch[i].Ready? ==> s.batch[i].fd != fd)
    && (forall i :: 0 <= i < |s.queue| ==> s.queue[i].fd != fd)
    && (forall i :: 0 <= i < |s.workers| && i != w && !s.workers[i].Idle? ==> s.workers[i].fd != fd)
  }

  lemma HolderIsAlone(s: Server, w: nat, fd: nat)
    requires TokensOk(s) && Holds(s, w, fd)
    ensures OnlyWorker(s, w, fd)
  {
    assert TokenOk(s, fd);
    assert HandlerOf(fd)(s.workers[w]);
    CountedIsThere(s.workers, w, HandlerOf(fd));
    forall i | 0 <= i < |s.batch| && s.batch[i].Ready? ensures s.batch[i].fd != fd {
      NoneCounted(s.batch, EventFor(fd), i);
    }
    forall i | 0 <= i < |s.queue| ensures s.queue[i].fd != fd {
      NoneCounted(s.queue, TaskFor(fd), i);
    }
    forall i | 0 <= i < |s.workers| && i != w && !s.workers[i].Idle? ensures s.workers[i].fd != fd {
      if s.workers[i].fd == fd {
        assert HandlerOf(fd)(s.workers[i]);
        CountedTwice(s.workers, if i < w then i else w, if i < w then w else i, HandlerOf(fd));
      }
    }
  }

  // ----- A handler that keeps its connector -----

  /** Worker `w` changes its connector to `c` and goes on to `to`. */
  ghost function Acted(s: Server, w: nat, c: Conn, to: Worker): Server
    requires w < |s.workers| && !s.workers[w].Idle?
  {
    WithWorker(WithConn(s, s.workers[w].fd, c), w, to)
  }

  lemma ActingKeepsTokens(s: Server, w: nat, c: Conn, to: Worker, fd: nat)
    requires w < |s.workers| && !s.workers[w].Idle? && !to.Idle? && to.fd == s.workers[w].fd
    requires TokensOk(s) && Live(s, to.fd) && c.live
    ensures TokenOk(Acted(s, w, c, to), fd)
  {
    assert TokenOk(s, fd);
    CountUpdate(s.workers, w, to, HandlerOf(fd));
  }

  lemma ActingKeepsInv(s: Server, w: nat, c: Conn, to: Worker)
    requires Inv(s) && w < |s.workers| && !s.workers[w].Idle? && !to.Idle? && to.fd == s.workers[w].fd
    requires c.live && HistoryOk(c) && WorkerOk(c, to)
    ensures Inv(Acted(s, w, c, to))
  {
    HolderIsAlone(s, w, to.fd);
    forall fd: nat ensures TokenOk(Acted(s, w, c, to), fd) {
      ActingKeepsTokens(s, w, c, to, fd);
    }
    ActingKeepsPlaces(s, w, c, to);
    hide TokensOk, PlacesOk;
    assert LiveFds(Acted(s, w, c, to)) == LiveFds(s);
  }

  lemma ActingKeepsPlaces(s: Server, w: nat, c: Conn, to: Worker)
    requires PlacesOk(s) && w < |s.workers| && !s.workers[w].Idle? && !to.Idle? && to.fd == s.workers[w].fd
    requires OnlyWorker(s, w, to.fd) && WorkerOk(c, to)
    ensures PlacesOk(Acted(s, w, c, to))
  {
    forall fd | fd != to.fd ensures ConnOf(Acted(s, w, c, to), fd) == ConnOf(s, fd) {
    }
  }

  lemma SameWorker(s: Server, w: nat, c: Conn)
    requires w < |s.workers| && !s.workers[w].Idle?
    ensures Acted(s, w, c, s.workers[w]) == WithConn(s, s.workers[w].fd, c)
  {
    assert s.workers[w := s.workers[w]] == s.workers;
  }

  lemma SameConn(s: Server, w: nat, to: Worker)
    requires w < |s.workers| && !s.workers[w].Idle? && s.workers[w].fd in s.conns
    ensures Acted(s, w, s.conns[s.workers[w].fd], to) == WithWorker(s, w, to)
  {
    var fd := s.workers[w].fd;
    assert s.conns[fd := s.conns[fd]] == s.conns;
  }

  lemma ReadSomeKeepsInv(s: Server, w: nat, data: bytes)
    requires Inv(s) && Enabled(s, ReadSome(w, data))
    ensures Inv(Apply(s, ReadSome(w, data)))
  {
    var fd := s.workers[w].fd;
    HolderIsAlone(s, w, fd);
    var c := s.conns[fd];
    ArrivedKeepsHistory(c, data);
    ActingKeepsInv(s, w, Arrived(c, data), s.workers[w]);
    SameWorker(s, w, Arrived(c, data));
  }

  lemma ArrivedKeepsHistory(c: Conn, data: bytes)
    requires HistoryOk(c) && c.live
    ensures HistoryOk(Arrived(c, data))
  {
    hide Concat;
    assert Concat(c.parsed) + c.unread + data == Concat(c.parsed) + (c.unread + data);
  }

  /** Includes that the handler never closes the connector itself. */
  lemma ReadEndKeepsInv(s: Server, w: nat, failed: bool)
    requires Inv(s) && Enabled(s, ReadEnd(w, failed))
    ensures Inv(Apply(s, ReadEnd(w, failed)))
    ensures Apply(s, ReadEnd(w, failed)) == WithWorker(s, w, Processing(s.workers[w].fd))
  {
    var fd := s.workers[w].fd;
    HolderIsAlone(s, w, fd);
    ActingKeepsInv(s, w, s.conns[fd], Processing(fd));
    SameConn(s, w, Processing(fd));
  }

  lemma ProcessKeepsInv(s: Server, w: nat, reply: bytes)
    requires Inv(s) && Enabled(s, Process(w, reply))
    ensures Inv(Apply(s, Process(w, reply)))
  {
    var fd := s.workers[w].fd;
    HolderIsAlone(s, w, fd);
    var c := s.conns[fd];
    if c.unread == [] {
      ActingKeepsInv(s, w, c, Rearming(fd, Input));
      SameConn(s, w, Rearming(fd, Input));
    } else {
      ProcessKeepsHistory(c, reply);
      ActingKeepsInv(s, w, Processed(c, reply), Rearming(fd, Output));
    }
  }

  /** The new response follows those sent before because nothing of them is left to send. */
  lemma ProcessKeepsHistory(c: Conn, reply: bytes)
    requires HistoryOk(c) && c.live && c.unsent == [] && |reply| < Gather.TWO_TO_32
    ensures HistoryOk(Processed(c, reply))
  {
    ConcatSnoc(c.parsed, c.unread);
    ConcatSnoc(c.replies, reply);
    hide Concat;
    assert c.wire + [] == c.wire;
    assert c.arrived + [] == c.arrived;
  }

  lemma CompleteIsEmpty(c: Conn)
    requires |c.unsent| < Gather.TWO_TO_32
    ensures Complete(c) <==> c.unsent == []
  {
  }

  lemma SentSomeKeepsHistory(c: Conn, n: nat)
    requires HistoryOk(c) && c.live && n <= |c.unsent|
    ensures HistoryOk(SentSome(c, n))
  {
    hide Concat;
    assert c.unsent == c.unsent[..n] + c.unsent[n..];
    assert c.wire + c.unsent[..n] + c.unsent[n..] == c.wire + c.unsent;
  }

  lemma WriteSomeKeepsInv(s: Server, w: nat, n: nat)
    requires Inv(s) && Enabled(s, WriteSome(w, n))
    ensures Inv(Apply(s, WriteSome(w, n)))
  {
    var fd := s.workers[w].fd;
    HolderIsAlone(s, w, fd);
    var c := s.conns[fd];
    var c' := SentSome(c, n);
    SentSomeKeepsHistory(c, n);
    CompleteIsEmpty(c');
    ActingKeepsInv(s, w, c', if Complete(c') then Processing(fd) else Writing(fd));
  }

  // ----- A handler that lets its connector go -----

  lemma RearmKeepsInv(s: Server, w: nat)
    requires Inv(s) && Enabled(s, Rearm(w))
    ensures Inv(Apply(s, Rearm(w)))
  {
    HolderIsAlone(s, w, s.workers[w].fd);
    RearmKeepsTokens(s, w);
    RearmKeepsPlaces(s, w);
    hide PlacesOk, TokensOk;
    assert LiveFds(Apply(s, Rearm(w))) == LiveFds(s);
  }

  lemma RearmKeepsPlaces(s: Server, w: nat)
    requires PlacesOk(s) && Enabled(s, Rearm(w))
    ensures PlacesOk(Apply(s, Rearm(w)))
  {
    forall f ensures ConnOf(Apply(s, Rearm(w)), f) == ConnOf(s, f) {
    }
  }

  lemma RearmKeepsTokens(s: Server, w: nat)
    requires Inv(s) && Enabled(s, Rearm(w))
    ensures TokensOk(Apply(s, Rearm(w)))
  {
    HolderIsAlone(s, w, s.workers[w].fd);
    forall f: nat ensures TokenOk(Apply(s, Rearm(w)), f) {
      assert TokenOk(s, f);
      RearmMovesToken(s, w, f);
    }
  }

  lemma RearmMovesToken(s: Server, w: nat, f: nat)
    requires Enabled(s, Rearm(w)) && s.workers[w].fd in s.epoll && ArmedCount(s, s.workers[w].fd) == 0
    ensures Tokens(Apply(s, Rearm(w)), f) == Tokens(s, f)
  {
    CountUpdate(s.workers, w, Idle, HandlerOf(f));
  }

  lemma StallKeepsInv(s: Server, w: nat)
    requires Inv(s) && w < |s.workers| && s.workers[w].Writing?
    ensures Inv(WithWorker(s, w, Idle).(stalled := s.stalled + {s.workers[w].fd}))
  {
    var fd := s.workers[w].fd;
    HolderIsAlone(s, w, fd);
    var s' := WithWorker(s, w, Idle).(stalled := s.stalled + {fd});
    forall f: nat ensures TokenOk(s', f) {
      assert TokenOk(s, f);
      CountUpdate(s.workers, w, Idle, HandlerOf(f));
    }
    assert LiveFds(s') == LiveFds(s);
  }

  lemma GivenUpKeepsInv(s: Server, w: nat, wouldBlock: bool)
    requires Inv(s) && w < |s.workers| && s.workers[w].Writing?
    ensures Inv(GivenUp(s, w, wouldBlock))
  {
    var fd := s.workers[w].fd;
    HolderIsAlone(s, w, fd);
    CompleteIsEmpty(s.conns[fd]);
    assert WorkerOk(ConnOf(s, fd), s.workers[w]) && !Complete(ConnOf(s, fd));
    if wouldBlock {
      ActingKeepsInv(s, w, s.conns[fd], Rearming(fd, Output));
      SameConn(s, w, Rearming(fd, Output));
    } else {
      StallKeepsInv(s, w);
    }
  }

  // ----- Tokens on their way to a handler -----

  lemma TakeKeepsInv(s: Server, w: nat)
    requires Inv(s) && Enabled(s, Take(w))
    ensures Inv(Apply(s, Take(w)))
  {
    var t := s.queue[0];
    var s' := Apply(s, Take(w));
    TakeKeepsTokens(s, w);
    assert LiveFds(s') == LiveFds(s);
    assert PlacesOk(s') by {
      hide TokensOk, DescriptorsOk, HistoriesOk;
      assert TaskOk(ConnOf(s, t.fd), t);
      forall i | 0 <= i < |s'.queue| ensures s'.queue[i] == s.queue[i + 1] {
      }
    }
  }

  lemma TakeKeepsTokens(s: Server, w: nat)
    requires TokensOk(s) && Enabled(s, Take(w))
    ensures TokensOk(Apply(s, Take(w)))
  {
    var t := s.queue[0];
    forall f: nat ensures TokenOk(Apply(s, Take(w)), f) {
      assert TokenOk(s, f);
      CountUpdate(s.workers, w, if t.ReadTask? then Reading(t.fd) else Writing(t.fd), HandlerOf(f));
    }
  }

  /** The main thread passes an event on as a task. */
  lemma EnqueueKeepsInv(s: Server, t: Task)
    requires Inv(s) && s.batch != [] && s.batch[0] == Ready(t.fd, if t.ReadTask? then Readable else Writable)
    ensures Inv(s.(batch := s.batch[1..], queue := s.queue + [t]))
  {
    var s' := s.(batch := s.batch[1..], queue := s.queue + [t]);
    EnqueueKeepsTokens(s, t);
    assert LiveFds(s') == LiveFds(s);
    assert PlacesOk(s') by {
      hide TokensOk, DescriptorsOk, HistoriesOk;
      assert EventOk(ConnOf(s, t.fd), s.batch[0].kind);
      forall i | 0 <= i < |s'.batch| ensures s'.batch[i] == s.batch[i + 1] {
      }
    }
  }

  lemma EnqueueKeepsTokens(s: Server, t: Task)
    requires TokensOk(s)
    requires s.batch != [] && s.batch[0] == Ready(t.fd, if t.ReadTask? then Readable else Writable)
    ensures TokensOk(s.(batch := s.batch[1..], queue := s.queue + [t]))
  {
    forall f: nat ensures TokenOk(s.(batch := s.batch[1..], queue := s.queue + [t]), f) {
      assert TokenOk(s, f);
      CountAppend(s.queue, [t], TaskFor(f));
    }
  }

  lemma ListenKeepsInv(s: Server)
    requires Inv(s) && s.batch != [] && s.batch[0].Listen?
    ensures Inv(s.(batch := s.batch[1..], accepting := true))
  {
    var s' := s.(batch := s.batch[1..], accepting := true);
    forall f: nat ensures TokenOk(s', f) {
      assert TokenOk(s, f);
    }
    assert LiveFds(s') == LiveFds(s);
    assert PlacesOk(s') by {
      forall i | 0 <= i < |s'.batch| ensures s'.batch[i] == s.batch[i + 1] {
      }
    }
  }

  // ----- Closing -----

  /** The main thread, about to close `fd`, is the only one that can act on it. */
  lemma HangUpIsAlone(s: Server, fd: nat)
    requires TokensOk(s) && s.batch != [] && s.batch[0] == Ready(fd, HangUp)
    ensures Live(s, fd) && fd !in s.stalled && ArmedCount(s, fd) == 0
    ensures forall i :: 0 < i < |s.batch| && s.batch[i].Ready? ==> s.batch[i].fd != fd
    ensures forall i :: 0 <= i < |s.queue| ==> s.queue[i].fd != fd
    ensures forall i :: 0 <= i < |s.workers| && !s.workers[i].Idle? ==> s.workers[i].fd != fd
  {
    assert TokenOk(s, fd);
    assert EventFor(fd)(s.batch[0]);
    forall i | 0 < i < |s.batch| && s.batch[i].Ready? ensures s.batch[i].fd != fd {
      NoneCounted(s.batch[1..], EventFor(fd), i - 1);
    }
    forall i | 0 <= i < |s.queue| ensures s.queue[i].fd != fd {
      NoneCounted(s.queue, TaskFor(fd), i);
    }
    forall i | 0 <= i < |s.workers| && !s.workers[i].Idle? ensures s.workers[i].fd != fd {
      NoneCounted(s.workers, HandlerOf(fd), i);
    }
  }

  lemma HangUpKeepsInv(s: Server, fd: nat)
    requires Inv(s) && s.batch != [] && s.batch[0] == Ready(fd, HangUp)
    ensures Inv(Closed(s.(batch := s.batch[1..]), fd))
  {
    HangUpIsAlone(s, fd);
    HangUpKeepsTokens(s, fd);
    HangUpKeepsPlaces(s, fd);
    assert EventOk(ConnOf(s, fd), HangUp);
    ClosedKeepsRest(s, s.(batch := s.batch[1..]), fd);
  }

  lemma ClosedKeepsRest(s: Server, s1: Server, fd: nat)
    requires DescriptorsOk(s) && HistoriesOk(s) && Live(s, fd) && ConnOf(s, fd).unread == []
    requires s1 == s.(batch := s1.batch)
    ensures DescriptorsOk(Closed(s1, fd)) && HistoriesOk(Closed(s1, fd))
  {
    assert LiveFds(Closed(s1, fd)) == LiveFds(s) - {fd};
  }

  lemma HangUpKeepsTokens(s: Server, fd: nat)
    requires Inv(s) && s.batch != [] && s.batch[0] == Ready(fd, HangUp)
    ensures TokensOk(Closed(s.(batch := s.batch[1..]), fd))
  {
    HangUpIsAlone(s, fd);
    hide PlacesOk, HistoriesOk;
    forall f: nat ensures TokenOk(Closed(s.(batch := s.batch[1..]), fd), f) {
      assert TokenOk(s, f);
    }
  }

  lemma HangUpKeepsPlaces(s: Server, fd: nat)
    requires Inv(s) && s.batch != [] && s.batch[0] == Ready(fd, HangUp)
    ensures PlacesOk(Closed(s.(batch := s.batch[1..]), fd))
  {
    HangUpIsAlone(s, fd);
    var s' := Closed(s.(batch := s.batch[1..]), fd);
    hide Inv, TokensOk, DescriptorsOk, HistoriesOk;
    assert PlacesOk(s) by { RevealPlaces(s); }
    forall i | 0 <= i < |s'.batch| ensures s'.batch[i] == s.batch[i + 1] {
    }
    forall f | f != fd ensures ConnOf(s', f) == ConnOf(s, f) {
    }
  }

  lemma RevealPlaces(s: Server)
    requires Inv(s)
    ensures PlacesOk(s)
  {
  }

  // ----- New clients -----

  lemma AcceptKeepsInv(s: Server, fd: nat)
    requires Inv(s) && Enabled(s, Accept(fd))
    ensures Inv(Apply(s, Accept(fd)))
  {
    var s' := Apply(s, Accept(fd));
    assert !Live(s, fd) && TokenOk(s, fd);
    if s.userCnt >= MAX_CLIENTS {
      forall f: nat ensures TokenOk(s', f) {
        assert TokenOk(s, f);
      }
      assert LiveFds(s') == LiveFds(s);
    } else {
      AddedKeepsTokens(s, fd);
      AddedKeepsPlaces(s, fd);
      AddedKeepsRest(s, fd);
    }
  }

  lemma AddedKeepsRest(s: Server, fd: nat)
    requires DescriptorsOk(s) && HistoriesOk(s) && !Live(s, fd) && s.userCnt < MAX_CLIENTS
    ensures DescriptorsOk(Added(s, fd)) && HistoriesOk(Added(s, fd))
  {
    AddedKeepsDescriptors(s, fd);
    hide DescriptorsOk;
    assert Quiet(ConnOf(s, fd));
    assert Concat([]) + [] == [];
  }

  lemma AddedKeepsDescriptors(s: Server, fd: nat)
    requires DescriptorsOk(s) && !Live(s, fd) && s.userCnt < MAX_CLIENTS
    ensures DescriptorsOk(Added(s, fd))
  {
    assert LiveFds(Added(s, fd)) == LiveFds(s) + {fd};
  }

  lemma AddedKeepsTokens(s: Server, fd: nat)
    requires TokensOk(s) && DescriptorsOk(s) && !Live(s, fd)
    ensures TokensOk(Added(s, fd))
  {
    forall f: nat ensures TokenOk(Added(s, fd), f) {
      assert TokenOk(s, f);
    }
  }

  lemma AddedKeepsPlaces(s: Server, fd: nat)
    requires Inv(s) && !Live(s, fd)
    ensures PlacesOk(Added(s, fd))
  {
    var s' := Added(s, fd);
    assert TokenOk(s, fd);
    assert Quiet(ConnOf(s, fd)) && Quiet(ConnOf(s', fd));
    forall f | f != fd ensures ConnOf(s', f) == ConnOf(s, f) {
    }
    forall i | 0 <= i < |s.batch| && s.batch[i].Ready? ensures s.batch[i].fd != fd {
      NoneCounted(s.batch, EventFor(fd), i);
    }
    forall i | 0 <= i < |s.queue| ensures s.queue[i].fd != fd {
      NoneCounted(s.queue, TaskFor(fd), i);
    }
    forall i | 0 <= i < |s.workers| && !s.workers[i].Idle? ensures s.workers[i].fd != fd {
      NoneCounted(s.workers, HandlerOf(fd), i);
    }
  }

  // ----- Waiting -----

  lemma WaitKeepsInv(s: Server, events: seq<Event>)
    requires Inv(s) && Enabled(s, Wait(events))
    ensures Inv(Apply(s, Wait(events)))
  {
    var s' := Apply(s, Wait(events));
    forall f: nat ensures TokenOk(s', f) {
      assert TokenOk(s, f);
      assert Count(events, EventFor(f)) <= 1;
      if Count(events, EventFor(f)) > 0 {
        var i := CountedSomewhere(events, EventFor(f));
        assert Deliverable(s, events[i]);
      }
    }
    assert LiveFds(s') == LiveFds(s);
    forall i | 0 <= i < |events| && events[i].Ready? ensures EventOk(ConnOf(s, events[i].fd), events[i].kind) {
      assert Deliverable(s, events[i]);
    }
  }

  // ----- All steps -----

  lemma DispatchKeepsInv(s: Server)
    requires Inv(s) && Enabled(s, Dispatch)
    ensures Inv(Apply(s, Dispatch))
  {
    match s.batch[0]
    case Listen => ListenKeepsInv(s);
    case Ready(fd, HangUp) => HangUpKeepsInv(s, fd);
    case Ready(fd, Readable) => EnqueueKeepsInv(s, ReadTask(fd));
    case Ready(fd, Writable) => EnqueueKeepsInv(s, WriteTask(fd));
  }

  lemma AcceptDoneKeepsInv(s: Server)
    requires Inv(s)
    ensures Inv(s.(accepting := false))
  {
    var s' := s.(accepting := false);
    forall f: nat ensures TokenOk(s', f) {
      assert TokenOk(s, f);
    }
    assert LiveFds(s') == LiveFds(s);
  }

  lemma StepKeepsInv(s: Server, step: Step)
    requires Inv(s) && Enabled(s, step)
    ensures Inv(Apply(s, step))
  {
    hide Inv, GivenUp;
    match step
    case Wait(events) => WaitKeepsInv(s, events);
    case Dispatch => DispatchKeepsInv(s);
    case Accept(fd) => AcceptKeepsInv(s, fd);
    case AcceptDone => AcceptDoneKeepsInv(s);
    case Take(w) => TakeKeepsInv(s, w);
    case ReadSome(w, data) => ReadSomeKeepsInv(s, w, data);
    case ReadEnd(w, failed) => ReadEndKeepsInv(s, w, failed);
    case Process(w, reply) => ProcessKeepsInv(s, w, reply);
    case WriteSome(w, n) => WriteSomeKeepsInv(s, w, n);
    case WriteNone(w) => GivenUpKeepsInv(s, w, false);
    case WriteError(w, wouldBlock) => GivenUpKeepsInv(s, w, wouldBlock);
    case Rearm(w) => RearmKeepsInv(s, w);
  }

  lemma InitialInv(s: Server)
    requires Initial(s)
    ensures Inv(s)
  {
    forall fd: nat ensures TokenOk(s, fd) {
      IdleCountsNothing(s.workers, fd);
    }
    assert LiveFds(s) == {};
  }

  lemma {:induction false} IdleCountsNothing(workers: seq<Worker>, fd: nat)
    requires forall i :: 0 <= i < |workers| ==> workers[i] == Idle
    ensures Count(workers, HandlerOf(fd)) == 0
  {
    if workers != [] {
      IdleCountsNothing(workers[1..], fd);
    }
  }
}
