/** HttpConnector (src/httpconnector.cpp): the read loop, request processing and the gather write over
    one connection's two buffers. */
module Connector {
  import opened Bytes
  import opened ByteBuffer
  import opened Request
  import Form
  import Gather
  import Laws = RequestLaws

  // ----- The read loop -----

  /** A schedule of readv results before the one that ends the loop. */
  ghost predicate Arrives(b: Buf, chunks: seq<Recv>)
    requires b.Valid()
    decreases |chunks|
  {
    chunks != [] ==> chunks[0].data != [] && chunks[0].Possible(b) && Arrives(Received(b, chunks[0]), chunks[1..])
  }

  ghost function ReadAll(b: Buf, chunks: seq<Recv>): (r: Buf)
    requires b.Valid() && Arrives(b, chunks)
    ensures r.Valid()
    decreases |chunks|
  {
    if chunks == [] then b else ReadAll(Received(b, chunks[0]), chunks[1..])
  }

  lemma ReceivedExtends(b: Buf, r: Recv)
    requires b.Valid() && r.Possible(b)
    ensures var more := Received(b, r).content;
            |b.content| <= |more| && more == b.content + more[|b.content|..]
    ensures r.data != [] ==> Received(b, r).content[|b.content|..] != []
  {
    ReceivedLength(b, r);
  }

  /** What each call of Read_FD appended. */
  ghost function Appended(b: Buf, chunks: seq<Recv>): (r: seq<bytes>)
    requires b.Valid() && Arrives(b, chunks)
    ensures |r| == |chunks| && forall i :: 0 <= i < |r| ==> r[i] != []
    decreases |chunks|
  {
    if chunks == [] then []
    else
      ReceivedExtends(b, chunks[0]);
      var b' := Received(b, chunks[0]);
      [b'.content[|b.content|..]] + Appended(b', chunks[1..])
  }

  lemma ReadAllStep(b: Buf, chunks: seq<Recv>, i: nat)
    requires b.Valid() && i < |chunks| && Arrives(b, chunks[i..])
    ensures chunks[i].Possible(b) && Arrives(Received(b, chunks[i]), chunks[i + 1..])
    ensures ReadAll(b, chunks[i..]) == ReadAll(Received(b, chunks[i]), chunks[i + 1..])
  {
    assert chunks[i..][1..] == chunks[i + 1..];
  }

  lemma ReadAllEnd(b: Buf, chunks: seq<Recv>)
    requires b.Valid()
    ensures Arrives(b, chunks[|chunks|..]) && ReadAll(b, chunks[|chunks|..]) == b
  {
  }

  /** The octets the peer sent. */
  function Stream(chunks: seq<Recv>): bytes {
    if chunks == [] then [] else chunks[0].data + Stream(chunks[1..])
  }

  lemma {:induction false} ReadAllGrows(b: Buf, chunks: seq<Recv>)
    requires b.Valid() && Arrives(b, chunks)
    ensures |ReadAll(b, chunks).content| >= |b.content| + |Stream(chunks)|
    ensures |ReadAll(b, chunks).content| == |b.content| + |Stream(chunks)| ==> |Stream(chunks)| <= b.Writeable()
    decreases |chunks|
  {
    if chunks != [] {
      ReceivedLength(b, chunks[0]);
      ReadAllGrows(Received(b, chunks[0]), chunks[1..]);
    }
  }

  lemma {:induction false} ReadAllFits(b: Buf, chunks: seq<Recv>)
    requires b.Valid() && Arrives(b, chunks) && |Stream(chunks)| <= b.Writeable()
    ensures ReadAll(b, chunks).content == b.content + Stream(chunks)
    decreases |chunks|
  {
    if chunks != [] {
      ReadAllFits(Received(b, chunks[0]), chunks[1..]);
      assert b.content + chunks[0].data + Stream(chunks[1..]) == b.content + Stream(chunks);
    }
  }

  /** However the kernel cuts the stream up, Read delivers exactly what the peer sent if and only if
      all of it fits the space that is writeable when Read is called. */
  lemma ReadIntactIff(b: Buf, chunks: seq<Recv>)
    requires b.Valid() && Arrives(b, chunks)
    ensures ReadAll(b, chunks).content == b.content + Stream(chunks) <==> |Stream(chunks)| <= b.Writeable()
  {
    ReadAllGrows(b, chunks);
    if |Stream(chunks)| <= b.Writeable() {
      ReadAllFits(b, chunks);
    }
  }

  /** What was received once stays first. */
  lemma {:induction false} ReadAllExtends(b: Buf, chunks: seq<Recv>)
    requires b.Valid() && Arrives(b, chunks)
    ensures b.content <= ReadAll(b, chunks).content
    decreases |chunks|
  {
    if chunks != [] {
      ReceivedExtends(b, chunks[0]);
      ReadAllExtends(Received(b, chunks[0]), chunks[1..]);
    }
  }

  /** Even where Read does not deliver the stream as it is, it delivers it first, and then old memory,
      if only the last piece overflows the writeable space, by no more than one spill array. */
  lemma {:induction false} StreamComesFirst(b: Buf, chunks: seq<Recv>)
    requires b.Valid() && Arrives(b, chunks) && chunks != []
    requires |Stream(chunks[..|chunks| - 1])| <= b.Writeable()
    requires |Stream(chunks)| <= b.Writeable() + SPILL
    ensures b.content + Stream(chunks) <= ReadAll(b, chunks).content
    decreases |chunks|
  {
    hide Received;
    var b' := Received(b, chunks[0]);
    ReceivedFirst(b, chunks[0]);
    if |chunks| == 1 {
      assert Stream(chunks) == chunks[0].data + [] == chunks[0].data;
    } else {
      var init := chunks[..|chunks| - 1];
      assert init[0] == chunks[0] && init[1..] == chunks[1..][..|chunks| - 2];
      ReceivedIntact(b, chunks[0]);
      ReceivedRoom(b, chunks[0]);
      StreamComesFirst(b', chunks[1..]);
      assert b.content + chunks[0].data + Stream(chunks[1..]) == b.content + Stream(chunks);
    }
  }

  /** A first piece within that bound comes first, whatever follows it. */
  lemma FirstBurstComesFirst(b: Buf, chunks: seq<Recv>)
    requires b.Valid() && Arrives(b, chunks) && chunks != []
    requires |chunks[0].data| <= b.Writeable() + SPILL
    ensures b.content + chunks[0].data <= ReadAll(b, chunks).content
  {
    ReceivedFirst(b, chunks[0]);
    ReadAllExtends(Received(b, chunks[0]), chunks[1..]);
  }

  /** From the octets of a printed message, in any pieces, to the fields of the request: which messages
      that fit the empty read buffer are recovered. */
  lemma MessageSurvivesArrival(b: Buf, chunks: seq<Recv>, q: Req, m: Laws.Message)
    requires b.Valid() && b.content == [] && Arrives(b, chunks) && Stream(chunks) == m.Printed()
    requires |m.Printed()| <= b.Writeable() && m.WellFormed()
    ensures ReadAll(b, chunks).content == m.Printed()
    ensures Laws.Recovered(q, m) <==> Laws.Survives(q, m)
  {
    ReadAllFits(b, chunks);
    hide Laws.Recovered, Laws.Survives, ReadAll;
    Laws.RecoveredIff(q, m);
  }

  /** What the call of Read_FD that ends the read loop returns: readv gave -1 or 0. */
  function LastReturn(failed: bool): (int, bool) {
    if failed then (-1, false) else (0, true)
  }

  const USERNAME: bytes := Text("username")
  const PWD: bytes := Text("pwd")

  /** A login looks two fields of the form up. */
  function LookedUp(q: Req): Req {
    if q.tasks then q.(form := Form.WithDefault(Form.WithDefault(q.form, USERNAME), PWD)) else q
  }

  /** A login finds both fields, each with the value it has in the form, or an empty one; it changes no
      field that is there and adds no other. */
  lemma LoginFindsFields(q: Req)
    requires q.tasks
    ensures var form := LookedUp(q).form;
            && form.Keys == q.form.Keys + {Text("username"), Text("pwd")}
            && (forall k :: k in form ==> form[k] == Form.Field(q.form, k))
            && LookedUp(q) == q.(form := form)
  {
    Form.WithDefaultLaws(q.form, USERNAME);
    Form.WithDefaultLaws(Form.WithDefault(q.form, USERNAME), PWD);
  }

  /** The request as the response leaves it, after a parse that does not break. */
  function Answered(r: Result, stat: Stat): Req
    requires !Broken(r)
  {
    LookedUp(PathResult(r, stat).q)
  }

  /** A login without a password leaves an empty one in the form. It stays empty through any number of
      plain forms, on the same connection or the next ones on its descriptor, as long as no pair of
      theirs but the last has the password as its key, whatever the value of the last. */
  lemma MissingPasswordSticks(q: Req, forms: seq<seq<Form.Pair>>, esc: set<byte>)
    requires q.tasks && PWD !in q.form && Form.Escapes(esc)
    requires forall i :: 0 <= i < |forms| ==>
               forms[i] != [] && Form.PlainPairs(forms[i], esc) && Form.DistinctKeys(forms[i])
               && !Form.HasKey(forms[i][..|forms[i]| - 1], PWD)
    ensures var form := Form.DecodedInTurn(forms, LookedUp(q).form, esc);
            PWD in form && form[PWD] == []
  {
    assert PWD != USERNAME by {
      assert |PWD| != |USERNAME|;
    }
    Form.KnownKeyStays(forms, LookedUp(q).form, esc, PWD);
  }

  /** The form after it, exactly: the password is still empty unless a pair before the last gives one. */
  lemma MissingPasswordStaysIff(q: Req, pairs: seq<Form.Pair>, esc: set<byte>)
    requires q.tasks && PWD !in q.form && Form.Escapes(esc)
    requires pairs != [] && Form.PlainPairs(pairs, esc) && Form.DistinctKeys(pairs)
    ensures var r := Form.Decoded(Form.Joined(pairs, esc), LookedUp(q).form);
            && r.Some? && PWD in r.value.form
            && (r.value.form[PWD] == [] <==>
                  forall i :: 0 <= i < |pairs| - 1 && pairs[i].key == PWD ==> pairs[i].value == [])
  {
    assert PWD != USERNAME by {
      assert |PWD| != |USERNAME|;
    }
    Form.KnownKeyIff(pairs, LookedUp(q).form, esc, PWD);
  }

  // ----- The class -----

  /** The static member user_cnt, a 16-bit counter. */
  class UserCounter {
    var count: nat

    constructor ()
      ensures count == 0
    {
      count := 0;
    }
  }

  const COUNTER_RANGE: nat := 0x1_0000

  class HttpConnector {
    var fd: int
    var status: bool
    const readBuffer: Buffer
    const writeBuffer: Buffer
    const request: HttpRequest
    const userCnt: UserCounter
    var file: bytes   // the octets segment 1 points into
    var base0: nat
    var len0: nat
    var base1: nat
    var len1: nat

    ghost predicate Valid()
      reads this, readBuffer, writeBuffer
    {
      && readBuffer != writeBuffer && readBuffer.buffer != writeBuffer.buffer
      && readBuffer.Valid() && readBuffer.buffer.Length > 0
      && writeBuffer.Valid() && writeBuffer.buffer.Length > 0
      && base0 + len0 <= writeBuffer.buffer.Length && base1 + len1 <= |file|
    }

    /** The segments and the write buffer, after `sent` went out. */
    ghost function IoView(sent: bytes): (io: Gather.Io)
      requires Valid()
      reads this, readBuffer, writeBuffer, writeBuffer.buffer
      ensures |io.seg0| == len0 && |io.seg1| == len1 && io.sent == sent
      ensures |io.buffered| == writeBuffer.ReadableSize()
    {
      Gather.Io(writeBuffer.buffer[base0..base0 + len0], file[base1..base1 + len1],
                writeBuffer.View().content, sent)
    }

    ghost function Unread(): bytes
      requires Valid()
      reads this, readBuffer, writeBuffer, readBuffer.buffer
    {
      readBuffer.View().content
    }

    constructor (userCnt: UserCounter)
      ensures Valid() && !status && fd == -1 && this.userCnt == userCnt
      ensures Unread() == [] && IoView([]) == Gather.Io([], [], [], [])
      ensures readBuffer.View().size == 1024
      ensures fresh(readBuffer) && fresh(writeBuffer) && fresh(request)
      ensures fresh(readBuffer.buffer) && fresh(writeBuffer.buffer)
    {
      fd, status := -1, false;
      readBuffer := new Buffer(1024);
      writeBuffer := new Buffer(1024);
      request := new HttpRequest();
      this.userCnt := userCnt;
      file, base0, len0, base1, len1 := [], 0, 0, 0, 0;
    }

    /** A new client: the buffers and segments stay as they are. */
    method Init(sockFd: int)
      requires Valid()
      modifies this`fd, this`status, userCnt
      ensures Valid() && fd == sockFd && status
      ensures userCnt.count == (old(userCnt.count) + 1) % COUNTER_RANGE
      ensures Unread() == old(Unread()) && IoView([]) == old(IoView([]))
    {
      fd := sockFd;
      userCnt.count := (userCnt.count + 1) % COUNTER_RANGE;
      status := true;
    }

    /** Drops the segments; the read buffer is not cleared. */
    method Close()
      requires Valid()
      modifies this, userCnt
      ensures Valid() && !status && fd == old(fd) && readBuffer.View() == old(readBuffer.View())
      ensures !old(status) ==> userCnt.count == old(userCnt.count) && IoView([]) == old(IoView([]))
      ensures old(status) ==> userCnt.count == (old(userCnt.count) - 1) % COUNTER_RANGE
      ensures old(status) ==> IoView([]) == Gather.Io([], [], old(IoView([])).buffered, [])
    {
      if status {
        status := false;
        userCnt.count := (userCnt.count - 1) % COUNTER_RANGE;
        file, base0, len0, base1, len1 := [], 0, 0, 0, 0;
      }
    }

    /** Reads until readv returns 0 (`failed` false) or -1. `chunks` is what it returns before. */
    method Read(chunks: seq<Recv>, failed: bool) returns (len: int, ok: bool)
      requires Valid() && Arrives(readBuffer.View(), chunks)
      modifies readBuffer, readBuffer.buffer
      ensures Valid() && IoView([]) == old(IoView([]))
      ensures readBuffer.buffer == old(readBuffer.buffer) || fresh(readBuffer.buffer)
      ensures readBuffer.View() == ReadAll(old(readBuffer.View()), chunks)
      ensures (len, ok) == LastReturn(failed)
    {
      hide Received, Recv.Possible, ReadAll, Arrives, Buf.Valid;
      assert chunks[0..] == chunks;
      var i := 0;
      while i < |chunks|
        invariant i <= |chunks|
        invariant Valid() && (readBuffer.buffer == old(readBuffer.buffer) || fresh(readBuffer.buffer))
        invariant Arrives(readBuffer.View(), chunks[i..])
        invariant ReadAll(readBuffer.View(), chunks[i..]) == ReadAll(old(readBuffer.View()), chunks)
      {
        ReadAllStep(readBuffer.View(), chunks, i);
        len, ok := readBuffer.ReadFd(Some(chunks[i]));
        i := i + 1;
      }
      ReadAllEnd(readBuffer.View(), chunks);
      var nothing := Recv([], Zeroes(), Zeroes());
      ReceivedNothing(readBuffer.View(), nothing);
      len, ok := readBuffer.ReadFd(if failed then None else Some(nothing));
    }

    function Zeroes(): (z: bytes)
      ensures |z| == 2 * SPILL
    {
      seq(2 * SPILL, _ => 0)
    }

    /** Handles one request if anything was read. `stat` is what the file system says of its path,
        `head` the response's header block and `content` the file's octets. `aborted` when parsing
        breaks. */
    method Process(stat: Stat, head: bytes, content: bytes) returns (write: bool, aborted: bool)
      requires Valid()
      modifies this, request, readBuffer, readBuffer.buffer, writeBuffer, writeBuffer.buffer
      ensures Valid() && status == old(status) && fd == old(fd)
      ensures old(Unread()) == [] ==>
                !write && !aborted && Unread() == [] && IoView([]) == old(IoView([]))
      ensures old(Unread()) != [] ==>
                var r := Parse(Started(old(request.View())), old(Unread()));
                && aborted == Broken(r)
                && (!aborted ==> write && request.View() == Answered(r, stat) && Unread() == []
                                 && readBuffer.View() == Cleared(old(readBuffer.View()))
                                 && IoView([]) == Gather.Io(head, content, head, []))
    {
      hide Parse, TurnOf, PathHandled;
      if readBuffer.ReadableSize() == 0 {
        return false, false;
      }
      request.Init();
      assert Restarted(request.View()) == request.View();
      var outcome := request.ReadBuff(readBuffer, stat);
      if outcome == AssertFailed || outcome == StringOverrun {
        return false, true;
      }
      readBuffer.ReleaseAllBuff();
      if request.tasks {
        var username, password := LookUp();
      }
      Respond(head, content);
      return true, false;
    }

    /** What a login reads from the request, and so puts into it. */
    method LookUp() returns (username: bytes, password: bytes)
      requires request.tasks
      modifies request`form
      ensures request.View() == LookedUp(old(request.View()))
      ensures username == Form.Field(old(request.form), Text("username"))
      ensures password == Form.Field(old(request.form), Text("pwd"))
    {
      assert |USERNAME| != |PWD|;
      username := request.SelectForm(USERNAME);
      password := request.SelectForm(PWD);
    }

    /** Points the segments at a new response. */
    method Respond(head: bytes, content: bytes)
      requires Valid()
      modifies this, writeBuffer, writeBuffer.buffer
      ensures Valid() && status == old(status) && fd == old(fd) && Unread() == old(Unread())
      ensures writeBuffer.buffer == old(writeBuffer.buffer) || fresh(writeBuffer.buffer)
      ensures IoView([]) == Gather.Io(head, content, head, [])
    {
      HeadWriteBuff(head);
      file := content;
      base0, len0 := writeBuffer.readp, writeBuffer.ReadableSize();
      base1, len1 := 0, |content|;
    }

    /** Replaces what the write buffer held by the response's header block. */
    method HeadWriteBuff(head: bytes)
      requires Valid()
      modifies this`base0, this`len0, writeBuffer, writeBuffer.buffer
      ensures Valid() && writeBuffer.View().content == head
      ensures writeBuffer.buffer == old(writeBuffer.buffer) || fresh(writeBuffer.buffer)
    {
      base0, len0 := 0, 0;
      writeBuffer.ReleaseAllBuff();
      writeBuffer.Append(head);
    }

    function WriteableSize(): int
      reads this
    {
      Gather.Narrowed(len0 + len1)
    }

    /** writev got past the header: the file's segment starts later. */
    method AdvanceFile(len: nat)
      requires Valid() && len0 < len <= len0 + len1
      modifies this`base1, this`len1, this`len0, writeBuffer, writeBuffer.buffer
      ensures Valid() && writeBuffer.buffer == old(writeBuffer.buffer)
      ensures len0 + len1 < old(len0 + len1)
      ensures var io := old(IoView([]));
              IoView([]) == io.(seg0 := [], seg1 := io.seg1[len - |io.seg0|..],
                                buffered := if io.seg0 == [] then io.buffered else [])
    {
      base1 := base1 + (len - len0);
      len1 := len1 - (len - len0);
      if len0 > 0 {
        len0 := 0;
        writeBuffer.ReleaseAllBuff();
      }
    }

    /** writev stayed inside the header: its segment and the write buffer start later. */
    method AdvanceHeader(len: nat)
      requires Valid() && 0 < len <= len0 && len <= writeBuffer.ReadableSize()
      modifies this`base0, this`len0, writeBuffer
      ensures Valid() && writeBuffer.buffer == old(writeBuffer.buffer)
      ensures len0 + len1 < old(len0 + len1)
      ensures var io := old(IoView([]));
              IoView([]) == io.(seg0 := io.seg0[len..], buffered := io.buffered[len..])
    {
      base0, len0 := base0 + len, len0 - len;
      writeBuffer.UpdateReadp(len);
    }

    /** What Write does with writev's result. */
    method TakeResult(len: int) returns (left: Option<Gather.Ending>)
      requires Valid() && -1 <= len <= len0 + len1
      modifies this`base0, this`len0, this`base1, this`len1, writeBuffer, writeBuffer.buffer
      ensures Valid() && writeBuffer.buffer == old(writeBuffer.buffer) && Unread() == old(Unread())
      ensures left.None? ==> len0 + len1 < old(len0 + len1)
      ensures var p := Gather.AfterWritev(old(IoView([])), len);
              && left == (if p.Left? then Some(p.ending) else None)
              && IoView([]) == p.io.(sent := [])
    {
      hide IoView;
      if len == 0 {
        return Some(Gather.SentNothing);
      }
      if WriteableSize() == 0 {
        return Some(Gather.Finished);
      }
      if len > len0 {
        AdvanceFile(len);
      } else {
        if len < 0 || len > writeBuffer.ReadableSize() {
          return Some(Gather.AssertTripped);
        }
        AdvanceHeader(len);
      }
      left := if WriteableSize() == 0 then Some(Gather.Finished) else None;
    }

    /** Writes until Writeable_Size() is 0 or writev returns 0. `results` is what writev returned and
        `wire` what it sent, chosen by the kernel. */
    method Write() returns (len: int, ok: bool, tripped: bool, ghost results: seq<int>, ghost wire: bytes)
      requires Valid()
      modifies this`base0, this`len0, this`base1, this`len1, writeBuffer, writeBuffer.buffer
      ensures Valid() && writeBuffer.buffer == old(writeBuffer.buffer) && Unread() == old(Unread())
      ensures Gather.Legal(old(IoView([])), results)
      ensures Gather.Run(old(IoView([])), results) ==
              Gather.Left(IoView(wire), if tripped then Gather.AssertTripped
                                        else if ok then Gather.Finished else Gather.SentNothing)
      ensures results != [] && len == results[|results| - 1]
    {
      ghost var start := IoView([]);
      results, wire := [], [];
      while true
        invariant Valid() && writeBuffer.buffer == old(writeBuffer.buffer) && Unread() == old(Unread())
        invariant Gather.Legal(start, results) && Gather.Run(start, results) == Gather.Looping(IoView(wire))
        decreases len0 + len1
      {
        var n: int :| -1 <= n <= len0 + len1;
        len := n;
        Gather.RunSnoc(start, results, len);
        ghost var p := Gather.AfterWritev(IoView(wire), len);
        Gather.SentIsLog(IoView([]), wire, len);
        var left := TakeResult(len);
        results, wire := results + [len], p.io.sent;
        if left.Some? {
          ok := left.value != Gather.SentNothing;
          tripped := left.value == Gather.AssertTripped;
          return;
        }
      }
    }
  }

  /** The branch of _FunRead that closes the connection from a worker is dead: Read never returns 0
      with a false status. */
  method ReadNeverAsksForClose(c: HttpConnector, chunks: seq<Recv>, failed: bool) returns (close: bool)
    requires c.Valid() && Arrives(c.readBuffer.View(), chunks)
    modifies c.readBuffer, c.readBuffer.buffer
    ensures !close
  {
    var ret, status := c.Read(chunks, failed);
    close := ret == 0 && !status;
  }
}
