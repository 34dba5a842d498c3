/** The handlers of src/webserver.cpp as the code a single thread runs on a connector, tied to the runs of
    the dispatcher's steps that do the same. */
module Handlers {
  import opened Bytes
  import opened ByteBuffer
  import opened Request
  import opened Connector
  import opened HandlerRuns
  import Dispatcher
  import Gather
  import Laws = RequestLaws

  /** What a handler leaves its connection to. */
  datatype Left =
    | ModFd(direction: Dispatcher.Direction)  // re-armed
    | Alone                                   // neither re-armed nor closed
    | Closed
    | Aborted                                 // no return: a failed assert, or a write past a string

  /** The dispatcher's view of a connector, with the history `h` of its client. */
  ghost function Seen(c: HttpConnector, h: Dispatcher.Conn): Dispatcher.Conn
    requires c.Valid()
    reads c, c.readBuffer, c.writeBuffer, c.readBuffer.buffer, c.writeBuffer.buffer
  {
    h.(live := c.status, unread := c.Unread(), unsent := c.IoView([]).Remaining())
  }

  /** The write buffer holds the unsent header. */
  ghost predicate InStep(c: HttpConnector)
    requires c.Valid()
    reads c, c.readBuffer, c.writeBuffer, c.writeBuffer.buffer
  {
    Gather.InStep(c.IoView([]))
  }

  /** WebServer::_Process. `after` is the history of the client from here on. */
  method Process(c: HttpConnector, stat: Stat, head: bytes, content: bytes, ghost h: Dispatcher.Conn)
    returns (left: Left, ghost after: Dispatcher.Conn)
    requires c.Valid()
    modifies c, c.request, c.readBuffer, c.readBuffer.buffer, c.writeBuffer, c.writeBuffer.buffer
    ensures c.Valid() && c.status == old(c.status)
    ensures left == Aborted <==>
              old(c.Unread()) != [] && Broken(Parse(Started(old(c.request.View())), old(c.Unread())))
    ensures left != Aborted ==>
              && left.ModFd? && Seen(c, after) == after
              && (after, left.direction) == Leaves(old(Seen(c, h)), head + content)
    ensures left == ModFd(Dispatcher.Output) ==>
              && InStep(c)
              && c.request.View() == Answered(Parse(Started(old(c.request.View())), old(c.Unread())), stat)
    ensures left == ModFd(Dispatcher.Input) ==> c.IoView([]) == old(c.IoView([]))
  {
    hide Parse, TurnOf, PathHandled, Answered;
    var before := Seen(c, h);
    var write, aborted := c.Process(stat, head, content);
    left := if aborted then Aborted else if write then ModFd(Dispatcher.Output) else ModFd(Dispatcher.Input);
    after := Leaves(before, head + content).0;
  }

  /** WebServer::_FunRead. Unless parsing breaks, it does what the dispatcher's steps do that
      HandlerRuns.FunReadIsARun puts together. The connector need not be in step: one that was closed
      before its header went out keeps that header in the write buffer for the next client. */
  method FunRead(c: HttpConnector, chunks: seq<Recv>, failed: bool, stat: Stat, head: bytes, content: bytes,
                 ghost h: Dispatcher.Conn)
    returns (left: Left, ghost after: Dispatcher.Conn)
    requires c.Valid() && Arrives(c.readBuffer.View(), chunks)
    modifies c, c.request, c.readBuffer, c.readBuffer.buffer, c.writeBuffer, c.writeBuffer.buffer
    ensures c.Valid() && c.status == old(c.status)
    ensures var unread := ReadAll(old(c.readBuffer.View()), chunks).content;
            && (left == Aborted <==> unread != [] && Broken(Parse(Started(old(c.request.View())), unread)))
            && (left == Aborted <==>
                  unread != [] && (!Laws.Framed(unread) || Laws.CutForm(old(c.request.View()), unread)))
            && (left == ModFd(Dispatcher.Output) ==>
                  c.request.View() == Answered(Parse(Started(old(c.request.View())), unread), stat))
    ensures left != Aborted ==>
              && left.ModFd? && Seen(c, after) == after
              && (after, left.direction) ==
                   Leaves(ArrivedAll(old(Seen(c, h)), Appended(old(c.readBuffer.View()), chunks)), head + content)
    ensures left == ModFd(Dispatcher.Output) || (left == ModFd(Dispatcher.Input) && old(InStep(c))) ==> InStep(c)
  {
    hide Laws.Framed, Laws.CutForm, Parse, ReadAll, PathHandled, Answered, Arrives, ArrivedAll, Appended;
    ghost var b, before := c.readBuffer.View(), Seen(c, h);
    ghost var read := ArrivedAll(before, Appended(b, chunks));
    ArrivedAllIsReadAll(b, chunks, before);
    var ret, status := c.Read(chunks, failed);
    if c.Unread() != [] {
      Laws.ParsingBreaksIff(c.request.View(), c.Unread());
    }
    if ret == 0 && !status {
      return Closed, before;
    }
    assert Seen(c, read) == read;
    left, after := Process(c, stat, head, content, read);
  }

  /** WebServer::_FunWrite, on a connector that was armed for output. `results` is what writev
      returned. The last result decides: all was sent and the connection is armed for input, or it is
      left alone with the rest unsent, or the assert fails; the branch that re-arms for output is
      never taken. HandlerRuns.WriteIsARun and FunWriteIsARun put the dispatcher's steps together that
      do the same. */
  method FunWrite(c: HttpConnector, stat: Stat, head: bytes, content: bytes, ghost h: Dispatcher.Conn)
    returns (left: Left, ghost results: seq<int>, ghost wire: bytes, ghost after: Dispatcher.Conn)
    requires c.Valid() && c.Unread() == [] && InStep(c)
    requires 0 < |c.IoView([]).Remaining()| < Gather.TWO_TO_32
    modifies c, c.request, c.readBuffer, c.readBuffer.buffer, c.writeBuffer, c.writeBuffer.buffer
    ensures c.Valid() && c.status == old(c.status) && c.Unread() == []
    ensures Gather.Legal(old(c.IoView([])), results) && Gather.Run(old(c.IoView([])), results).Left?
    ensures results != []
    ensures left == var last := results[|results| - 1];
                    if last > 0 then ModFd(Dispatcher.Input) else if last == 0 then Alone else Aborted
    ensures Seen(c, after) == after && after == SentAll(old(Seen(c, h)), results) && after.wire == h.wire + wire
    ensures wire + c.IoView([]).Remaining() == old(c.IoView([]).Remaining())
    ensures left == ModFd(Dispatcher.Input) <==> c.IoView([]).Remaining() == [] && left != Aborted
    ensures InStep(c)
  {
    hide Gather.Run, Gather.Legal, Gather.AfterWritev, Gather.Narrowed;
    hide Parse, TurnOf, SentAll, Answered, PathHandled;
    ghost var io, before := c.IoView([]), Seen(c, h);
    var ret, ok, tripped;
    ret, ok, tripped, results, wire := c.Write();
    after := SentAll(before, results);
    WriteEnded(io, before, results, wire);
    assert c.IoView(wire).Remaining() == c.IoView([]).Remaining();
    SentAllKeepsRest(before, results);
    assert Seen(c, after) == after;
    if tripped {
      return Aborted, results, wire, after;
    }
    if c.WriteableSize() == 0 {
      left, after := Process(c, stat, head, content, after);
    } else if ret < 0 {
      // errno tells EAGAIN from a fatal error; neither reaches this point
      left := ModFd(Dispatcher.Output);
    } else {
      left := Alone;
    }
  }

  /** What is known of the segments and the history when Write has ended. */
  lemma WriteEnded(io: Gather.Io, before: Dispatcher.Conn, results: seq<int>, wire: bytes)
    requires Carries(io, before) && before.unsent != [] && io.sent == []
    requires Gather.Legal(io, results) && Gather.Run(io, results).Left? && Gather.Run(io, results).io.sent == wire
    ensures results != []
    ensures var p := Gather.Run(io, results);
            var last := results[|results| - 1];
            && p.ending == (if last > 0 then Gather.Finished else if last == 0 then Gather.SentNothing
                            else Gather.AssertTripped)
            && (p.ending == Gather.Finished ==> p.io.Remaining() == [])
            && (p.ending == Gather.SentNothing ==> p.io.Remaining() != [])
            && Gather.InStep(p.io) && wire + p.io.Remaining() == io.Remaining()
            && (Gather.Narrowed(|p.io.Remaining()|) == 0 <==> p.io.Remaining() == [])
            && SentAll(before, results).unsent == p.io.Remaining()
            && SentAll(before, results).wire == before.wire + wire
  {
    Gather.StreamConserved(io, results);
    Gather.EndingTold(io, results);
    hide Gather.Run, Gather.Legal, Gather.Narrowed, SentAll;
    Gather.NarrowedToZero(|Gather.Run(io, results).io.Remaining()|);
    SentAllIsRun(io, before, results, before.wire);
  }
}
