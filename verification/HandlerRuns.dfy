/** What the handlers do to a connector, octet by octet, as runs of the dispatcher's steps. */
module HandlerRuns {
  import opened Bytes
  import ByteBuffer
  import opened Dispatcher
  import opened DispatcherTheorems
  import Connector
  import Gather
  import Witnesses = DispatcherWitnesses

  // ----- _FunRead -----

  /** A connector after Read_FD appended each of these to its read buffer. */
  ghost function ArrivedAll(c: Conn, appended: seq<bytes>): Conn
    decreases |appended|
  {
    if appended == [] then c else ArrivedAll(Arrived(c, appended[0]), appended[1..])
  }

  ghost function ReadSteps(w: nat, appended: seq<bytes>): seq<Step> {
    if appended == [] then [] else [ReadSome(w, appended[0])] + ReadSteps(w, appended[1..])
  }

  ghost predicate InHandler(s: Server, w: nat) {
    w < |s.workers| && !s.workers[w].Idle? && s.workers[w].fd in s.conns
  }

  lemma {:induction false} ReadLoopIsARun(s: Server, w: nat, appended: seq<bytes>)
    requires InHandler(s, w) && s.workers[w].Reading?
    requires forall i :: 0 <= i < |appended| ==> appended[i] != []
    ensures var steps := ReadSteps(w, appended);
            var fd := s.workers[w].fd;
            Runnable(s, steps) && After(s, steps) == WithConn(s, fd, ArrivedAll(s.conns[fd], appended))
    decreases |appended|
  {
    var fd := s.workers[w].fd;
    if appended == [] {
      assert s.conns[fd := s.conns[fd]] == s.conns;
    } else {
      var steps := ReadSteps(w, appended);
      var s' := Apply(s, steps[0]);
      assert s'.conns[fd] == Arrived(s.conns[fd], appended[0]);
      ReadLoopIsARun(s', w, appended[1..]);
      assert steps[1..] == ReadSteps(w, appended[1..]);
      var last := ArrivedAll(s.conns[fd], appended);
      assert s'.conns[fd := last] == s.conns[fd := last];
    }
  }

  /** The read loop on the buffer is the run of the dispatcher's reads on the connection. */
  lemma {:induction false} ArrivedAllIsReadAll(b: ByteBuffer.Buf, chunks: seq<ByteBuffer.Recv>, c: Conn)
    requires b.Valid() && Connector.Arrives(b, chunks) && c.unread == b.content
    ensures ArrivedAll(c, Connector.Appended(b, chunks)).unread == Connector.ReadAll(b, chunks).content
    ensures var c' := ArrivedAll(c, Connector.Appended(b, chunks)); c'.live == c.live && c'.unsent == c.unsent
    decreases |chunks|
  {
    if chunks != [] {
      hide ByteBuffer.Received;
      var b' := ByteBuffer.Received(b, chunks[0]);
      var appended := Connector.Appended(b, chunks);
      Connector.ReceivedExtends(b, chunks[0]);
      assert b'.content == b.content + appended[0] && appended[1..] == Connector.Appended(b', chunks[1..]);
      ArrivedAllIsReadAll(b', chunks[1..], Arrived(c, appended[0]));
    }
  }

  /** What _Process leaves of a connector, and what it re-arms it for, if parsing does not break. */
  ghost function Leaves(c: Conn, reply: bytes): (Conn, Direction) {
    if c.unread == [] then (c, Input) else (Processed(c, reply), Output)
  }

  /** From a worker that has taken a read task to its modFd. */
  lemma FunReadIsARun(s: Server, w: nat, appended: seq<bytes>, failed: bool, reply: bytes)
    requires InHandler(s, w) && s.workers[w].Reading? && 0 < |reply| < Gather.TWO_TO_32
    requires forall i :: 0 <= i < |appended| ==> appended[i] != []
    ensures var steps := ReadSteps(w, appended) + [ReadEnd(w, failed), Process(w, reply)];
            var fd := s.workers[w].fd;
            var (c, d) := Leaves(ArrivedAll(s.conns[fd], appended), reply);
            Runnable(s, steps) && After(s, steps) == WithWorker(WithConn(s, fd, c), w, Rearming(fd, d))
  {
    hide Enabled, Apply, Runnable, After, ArrivedAll, Processed, ReadSteps, Leaves;
    hide WithConn, WithWorker;
    var fd := s.workers[w].fd;
    ReadLoopIsARun(s, w, appended);
    var arrived := ArrivedAll(s.conns[fd], appended);
    var read := WithConn(s, fd, arrived);
    var (c, d) := Leaves(arrived, reply);
    ConnTwice(s, fd, arrived, c);
    EndOfRead(read, w, failed, reply);
    Witnesses.RunOn(s, ReadSteps(w, appended), [ReadEnd(w, failed), Process(w, reply)]);
  }

  lemma ConnTwice(s: Server, fd: nat, a: Conn, c: Conn)
    ensures fd in WithConn(s, fd, a).conns && WithConn(s, fd, a).conns[fd] == a
    ensures WithConn(s, fd, a).workers == s.workers
    ensures WithConn(WithConn(s, fd, a), fd, c) == WithConn(s, fd, c)
  {
    assert s.conns[fd := a][fd := c] == s.conns[fd := c];
  }

  lemma EndOfRead(s: Server, w: nat, failed: bool, reply: bytes)
    requires InHandler(s, w) && s.workers[w].Reading? && 0 < |reply| < Gather.TWO_TO_32
    ensures var steps := [ReadEnd(w, failed), Process(w, reply)];
            var fd := s.workers[w].fd;
            var (c, d) := Leaves(s.conns[fd], reply);
            Runnable(s, steps) && After(s, steps) == WithWorker(WithConn(s, fd, c), w, Rearming(fd, d))
  {
    var fd := s.workers[w].fd;
    var s' := WithWorker(s, w, Processing(fd));
    Witnesses.OneStep(s, ReadEnd(w, failed));
    assert Apply(s, ReadEnd(w, failed)) == s';
    EndOfHandler(s', w, reply);
    Witnesses.RunOn(s, [ReadEnd(w, failed)], [Process(w, reply)]);
    assert [ReadEnd(w, failed)] + [Process(w, reply)] == [ReadEnd(w, failed), Process(w, reply)];
  }

  /** _Process, up to its modFd. */
  lemma EndOfHandler(s: Server, w: nat, reply: bytes)
    requires InHandler(s, w) && s.workers[w].Processing? && 0 < |reply| < Gather.TWO_TO_32
    ensures var fd := s.workers[w].fd;
            var (c, d) := Leaves(s.conns[fd], reply);
            && Runnable(s, [Process(w, reply)])
            && After(s, [Process(w, reply)]) == WithWorker(WithConn(s, fd, c), w, Rearming(fd, d))
  {
    var fd := s.workers[w].fd;
    Witnesses.OneStep(s, Process(w, reply));
    assert s.conns[fd := s.conns[fd]] == s.conns;
  }

  // ----- _FunWrite -----

  /** A connector after writev returned these, one after the other. */
  ghost function SentAll(c: Conn, results: seq<int>): Conn
    decreases |results|
  {
    if results == [] || results[0] <= 0 || results[0] > |c.unsent| then c
    else SentAll(SentSome(c, results[0]), results[1..])
  }

  ghost function WriteSteps(w: nat, results: seq<int>): seq<Step> {
    if results == [] then []
    else [if results[0] > 0 then WriteSome(w, results[0]) else WriteNone(w)] + WriteSteps(w, results[1..])
  }

  /** The segments and the write buffer of `io` hold what `c` has not sent yet. */
  ghost predicate Carries(io: Gather.Io, c: Conn) {
    Gather.InStep(io) && c.unsent == io.Remaining() && |c.unsent| < Gather.TWO_TO_32
  }

  lemma SentSomeIsWritev(io: Gather.Io, c: Conn, len: nat)
    requires Carries(io, c) && 0 < len <= |c.unsent|
    ensures Carries(Gather.AfterWritev(io, len).io, SentSome(c, len))
    ensures Gather.AfterWritev(io, len).Left? <==> SentSome(c, len).unsent == []
    ensures Gather.AfterWritev(io, len).Left? ==> Gather.AfterWritev(io, len).ending == Gather.Finished
    ensures Gather.AfterWritev(io, len).io.sent == io.sent + c.unsent[..len]
  {
    Gather.AfterWritevConserves(io, len);
    var p := Gather.AfterWritev(io, len);
    assert p.io.sent == io.sent + io.Remaining()[..len];
    assert p.io.sent + p.io.Remaining() == io.sent + io.Remaining();
    DropPrefix(io.sent, io.Remaining(), len, p.io.Remaining());
  }

  lemma DropPrefix(sent: bytes, all: bytes, len: nat, rest: bytes)
    requires len <= |all| && (sent + all[..len]) + rest == sent + all
    ensures rest == all[len..]
  {
    var n := |sent| + len;
    assert ((sent + all[..len]) + rest)[n..] == rest;
    assert (sent + all)[n..] == all[len..];
  }

  /** The run of Write on the segments is the run of the dispatcher's writes on the connection. */
  lemma {:induction false} SentAllIsRun(io: Gather.Io, c: Conn, results: seq<int>, before: bytes)
    requires Carries(io, c) && 0 < |c.unsent| && Gather.Legal(io, results) && c.wire == before + io.sent
    ensures Carries(Gather.Run(io, results).io, SentAll(c, results))
    ensures SentAll(c, results).wire == before + Gather.Run(io, results).io.sent
    decreases |results|
  {
    hide Gather.AfterWritev, SentSome;
    if results != [] {
      var p := Gather.AfterWritev(io, results[0]);
      if results[0] > 0 {
        SentSomeIsWritev(io, c, results[0]);
        SentSomeFields(io, c, results[0], before);
        if p.Looping? {
          hide Carries;
          SentAllIsRun(p.io, SentSome(c, results[0]), results[1..], before);
        } else {
          assert results[1..] == [];
        }
      } else {
        NothingSent(io, results[0]);
      }
    }
  }

  lemma SentSomeFields(io: Gather.Io, c: Conn, len: nat, before: bytes)
    requires len <= |c.unsent| && c.wire == before + io.sent
    ensures SentSome(c, len).wire == before + (io.sent + c.unsent[..len])
  {
  }

  /** A result that is not positive ends Write with the segments as they are. */
  lemma NothingSent(io: Gather.Io, len: int)
    requires -1 <= len <= 0 && 0 < |io.Remaining()| < Gather.TWO_TO_32
    ensures Gather.AfterWritev(io, len).Left? && Gather.AfterWritev(io, len).io == io
  {
  }

  /** Where Write leaves the server: the connection is `c`, and the last result was `last`. */
  ghost function WriteLeaves(s: Server, w: nat, c: Conn, last: int): Server
    requires w < |s.workers| && !s.workers[w].Idle?
  {
    var fd := s.workers[w].fd;
    var written := WithConn(s, fd, c);
    if last > 0 then WithWorker(written, w, Processing(fd))
    else WithWorker(written, w, Idle).(stalled := s.stalled + {fd})
  }

  lemma LeavesAlike(s: Server, w: nat, c: Conn, last: int, c1: Conn)
    requires w < |s.workers| && s.workers[w].Writing?
    ensures WriteLeaves(WithConn(s, s.workers[w].fd, c1), w, c, last) == WriteLeaves(s, w, c, last)
  {
    var fd := s.workers[w].fd;
    assert s.conns[fd := c1][fd := c] == s.conns[fd := c];
  }

  /** The run of dispatcher steps `io` stands for can be taken. */
  ghost predicate CanWrite(s: Server, w: nat, io: Gather.Io) {
    && InHandler(s, w) && s.workers[w].Writing?
    && Carries(io, s.conns[s.workers[w].fd]) && s.conns[s.workers[w].fd].unsent != []
  }

  /** From a worker that has taken a write task until Write returns, when writev did not fail. */
  lemma {:induction false} WriteIsARun(s: Server, w: nat, io: Gather.Io, results: seq<int>)
    requires CanWrite(s, w, io) && Gather.Legal(io, results)
    requires results != [] && Gather.Run(io, results).Left? && results[|results| - 1] >= 0
    ensures var steps := WriteSteps(w, results);
            var c := SentAll(s.conns[s.workers[w].fd], results);
            Runnable(s, steps) && After(s, steps) == WriteLeaves(s, w, c, results[|results| - 1])
    decreases |results|
  {
    hide Enabled, Apply, Runnable, After, Gather.AfterWritev, SentSome, WriteLeaves, Carries;
    if Gather.AfterWritev(io, results[0]).Left? {
      LastWrite(s, w, io, results[0]);
      assert results == [results[0]];
    } else {
      assert results[0] > 0 by { LoopsOnlyIfSent(io, results[0], s.conns[s.workers[w].fd]); }
      var fd := s.workers[w].fd;
      var c := s.conns[fd];
      NextWrite(s, w, io, results[0]);
      var s' := WithConn(s, fd, SentSome(c, results[0]));
      var steps := WriteSteps(w, results);
      assert steps[1..] == WriteSteps(w, results[1..]);
      WriteIsARun(s', w, Gather.AfterWritev(io, results[0]).io, results[1..]);
      FirstStep(s, steps);
      LeavesAlike(s, w, SentAll(c, results), results[|results| - 1], SentSome(c, results[0]));
    }
  }

  lemma LoopsOnlyIfSent(io: Gather.Io, len: int, c: Conn)
    requires Carries(io, c) && c.unsent != [] && -1 <= len <= |io.Remaining()|
    ensures Gather.AfterWritev(io, len).Looping? ==> 0 < len <= |c.unsent|
    ensures len == -1 ==> Gather.AfterWritev(io, len).Left?
  {
    Gather.AfterWritevConserves(io, len);
  }

  /** The result of writev that ends Write. */
  lemma LastWrite(s: Server, w: nat, io: Gather.Io, len: nat)
    requires CanWrite(s, w, io) && len <= |io.Remaining()| && Gather.AfterWritev(io, len).Left?
    ensures var steps := WriteSteps(w, [len]);
            var c := SentAll(s.conns[s.workers[w].fd], [len]);
            Runnable(s, steps) && After(s, steps) == WriteLeaves(s, w, c, len)
  {
    var steps := WriteSteps(w, [len]);
    var none: seq<int> := [];
    assert [len][1..] == none && WriteSteps(w, none) == [];
    assert steps == [if len > 0 then WriteSome(w, len) else WriteNone(w)];
    var c := s.conns[s.workers[w].fd];
    if len > 0 {
      SentSomeIsWritev(io, c, len);
      WriteSomeStep(s, w, len);
      assert [len][1..] == [] && SentAll(c, [len]) == SentSome(c, len);
    } else {
      WriteNoneStep(s, w);
    }
    hide Enabled, Apply, Runnable, After;
    Witnesses.OneStep(s, steps[0]);
  }

  /** One after which it goes on. */
  lemma NextWrite(s: Server, w: nat, io: Gather.Io, len: nat)
    requires CanWrite(s, w, io) && 0 < len <= |io.Remaining()| && Gather.AfterWritev(io, len).Looping?
    ensures var fd := s.workers[w].fd;
            var s' := WithConn(s, fd, SentSome(s.conns[fd], len));
            && Enabled(s, WriteSome(w, len)) && Apply(s, WriteSome(w, len)) == s'
            && CanWrite(s', w, Gather.AfterWritev(io, len).io)
  {
    SentSomeIsWritev(io, s.conns[s.workers[w].fd], len);
    WriteSomeStep(s, w, len);
    assert s.workers[w := s.workers[w]] == s.workers;
  }

  lemma FirstStep(s: Server, steps: seq<Step>)
    requires steps != [] && Enabled(s, steps[0]) && Runnable(Apply(s, steps[0]), steps[1..])
    ensures Runnable(s, steps) && After(s, steps) == After(Apply(s, steps[0]), steps[1..])
  {
  }

  lemma WriteSomeStep(s: Server, w: nat, n: nat)
    requires InHandler(s, w) && s.workers[w].Writing? && |s.conns[s.workers[w].fd].unsent| < Gather.TWO_TO_32
    requires 0 < n <= |s.conns[s.workers[w].fd].unsent|
    ensures Enabled(s, WriteSome(w, n))
    ensures var fd := s.workers[w].fd;
            var c' := SentSome(s.conns[fd], n);
            Apply(s, WriteSome(w, n)) ==
            WithWorker(WithConn(s, fd, c'), w, if c'.unsent == [] then Processing(fd) else Writing(fd))
  {
    var fd := s.workers[w].fd;
    assert s.workers[w := Writing(fd)] == s.workers;
  }

  lemma WriteNoneStep(s: Server, w: nat)
    requires InHandler(s, w) && s.workers[w].Writing?
    requires 0 < |s.conns[s.workers[w].fd].unsent| < Gather.TWO_TO_32
    ensures Enabled(s, WriteNone(w))
    ensures var fd := s.workers[w].fd;
            Apply(s, WriteNone(w)) ==
            WithWorker(WithConn(s, fd, s.conns[fd]), w, Idle).(stalled := s.stalled + {fd})
  {
    var fd := s.workers[w].fd;
    assert s.conns[fd := s.conns[fd]] == s.conns;
  }

  /** From a worker that has taken a write task to its modFd, when everything was sent. */
  lemma FunWriteIsARun(s: Server, w: nat, io: Gather.Io, results: seq<int>, reply: bytes)
    requires CanWrite(s, w, io) && s.conns[s.workers[w].fd].unread == []
    requires Gather.Legal(io, results) && Gather.Run(io, results).Left?
    requires results != [] && results[|results| - 1] > 0 && 0 < |reply| < Gather.TWO_TO_32
    ensures var steps := WriteSteps(w, results) + [Process(w, reply)];
            var fd := s.workers[w].fd;
            var c := SentAll(s.conns[fd], results);
            Runnable(s, steps) && After(s, steps) == WithWorker(WithConn(s, fd, c), w, Rearming(fd, Input))
  {
    hide Enabled, Apply, Runnable, After, SentAll, Processed, WriteSteps, Gather.Legal, Gather.Run;
    var fd := s.workers[w].fd;
    WriteIsARun(s, w, io, results);
    SentAllKeepsRest(s.conns[fd], results);
    var c := SentAll(s.conns[fd], results);
    var written := WithWorker(WithConn(s, fd, c), w, Processing(fd));
    EndOfHandler(written, w, reply);
    Witnesses.RunOn(s, WriteSteps(w, results), [Process(w, reply)]);
    assert written.conns[fd := c] == s.conns[fd := c];
  }

  lemma {:induction false} SentAllKeepsRest(c: Conn, results: seq<int>)
    ensures var c' := SentAll(c, results); c' == c.(unsent := c'.unsent, wire := c'.wire)
    decreases |results|
  {
    if results != [] && 0 < results[0] <= |c.unsent| {
      SentAllKeepsRest(SentSome(c, results[0]), results[1..]);
    }
  }
}
