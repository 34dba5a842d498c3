/** The resumable two-segment gather write of HttpConnector::Write: what each writev result makes of
    the segments, and the laws of every schedule of results. */
module Gather {
  import opened Bytes

  /** The unsent rest of the header and of the file, the readable octets of the write buffer, and
      everything given to the kernel so far. */
  datatype Io = Io(seg0: bytes, seg1: bytes, buffered: bytes, sent: bytes) {
    function Remaining(): bytes {
      seg0 + seg1
    }
  }

  datatype Ending =
    | Finished       // Writeable_Size() was zero
    | SentNothing    // writev returned 0
    | AssertTripped  // the assert of Update_Readp failed

  datatype Progress = Looping(io: Io) | Left(io: Io, ending: Ending)

  const TWO_TO_32: nat := 0x1_0000_0000

  /** The conversion of a size_t to int that Writeable_Size makes. */
  function Narrowed(n: nat): int {
    var low := n % TWO_TO_32;
    if low < 0x8000_0000 then low else low - TWO_TO_32
  }

  /** It is the 32-bit number congruent to its argument. */
  lemma NarrowedIsInt(n: nat)
    ensures -0x8000_0000 <= Narrowed(n) < 0x8000_0000 && (n - Narrowed(n)) % TWO_TO_32 == 0
  {
  }

  lemma NarrowedToZero(n: nat)
    requires n < TWO_TO_32
    ensures Narrowed(n) == 0 <==> n == 0
  {
  }

  function WriteableSize(io: Io): int {
    Narrowed(|io.seg0| + |io.seg1|)
  }

  /** One turn of the loop of Write, after writev returned `len`. */
  function AfterWritev(io: Io, len: int): Progress
    requires -1 <= len <= |io.Remaining()|
  {
    var out := if len > 0 then io.(sent := io.sent + io.Remaining()[..len]) else io;
    if len == 0 then Left(io, SentNothing)
    else if WriteableSize(io) == 0 then Left(out, Finished)
    else if len > |io.seg0| then
      Turned(out.(seg0 := [], seg1 := io.seg1[len - |io.seg0|..],
                  buffered := if io.seg0 == [] then io.buffered else []))
    else if len < 0 || len > |io.buffered| then Left(out, AssertTripped)
    else Turned(out.(seg0 := io.seg0[len..], buffered := io.buffered[len..]))
  }

  /** What was sent before has no influence. */
  lemma SentIsLog(io: Io, sent: bytes, len: int)
    requires -1 <= len <= |io.Remaining()|
    ensures var p, p' := AfterWritev(io, len), AfterWritev(io.(sent := sent), len);
            && p'.io.(sent := []) == p.io.(sent := [])
            && p'.Left? == p.Left? && (p.Left? ==> p'.ending == p.ending)
  {
  }

  function Turned(io: Io): Progress {
    if WriteableSize(io) == 0 then Left(io, Finished) else Looping(io)
  }

  /** writev may return any of these, in this order, as long as the loop runs. */
  ghost predicate Legal(io: Io, results: seq<int>)
    decreases |results|
  {
    results != [] ==>
      && -1 <= results[0] <= |io.Remaining()|
      && var p := AfterWritev(io, results[0]);
         if p.Left? then |results| == 1 else Legal(p.io, results[1..])
  }

  ghost function Run(io: Io, results: seq<int>): Progress
    requires Legal(io, results)
    decreases |results|
  {
    if results == [] then Looping(io)
    else
      var p := AfterWritev(io, results[0]);
      if p.Left? then p else Run(p.io, results[1..])
  }

  /** One more result at the end of a run that is still looping. */
  lemma {:induction false} RunSnoc(io: Io, results: seq<int>, len: int)
    requires Legal(io, results) && Run(io, results).Looping?
    requires -1 <= len <= |Run(io, results).io.Remaining()|
    ensures Legal(io, results + [len])
    ensures Run(io, results + [len]) == AfterWritev(Run(io, results).io, len)
    decreases |results|
  {
    if results == [] {
      assert ([] + [len])[1..] == [];
    } else {
      RunSnoc(AfterWritev(io, results[0]).io, results[1..], len);
      assert (results + [len])[1..] == results[1..] + [len];
    }
  }

  // ----- Conservation -----

  ghost predicate InStep(io: Io) {
    io.buffered == io.seg0
  }

  ghost predicate Conserves(before: Io, after: Io) {
    after.sent + after.Remaining() == before.sent + before.Remaining()
  }

  lemma AfterWritevConserves(io: Io, len: int)
    requires InStep(io) && |io.Remaining()| < TWO_TO_32
    requires -1 <= len <= |io.Remaining()|
    ensures var p := AfterWritev(io, len);
            && InStep(p.io) && Conserves(io, p.io) && |p.io.Remaining()| <= |io.Remaining()|
            && (p.Looping? ==> |p.io.Remaining()| < |io.Remaining()| && p.io.Remaining() != [])
            && (p.Left? && p.ending == Finished ==> p.io.Remaining() == [])
  {
    var p := AfterWritev(io, len);
    if len > 0 {
      if io.Remaining() != [] {
        LeftIsRest(io, len);
        SentAssociates(io.sent, io.Remaining()[..len], io.Remaining()[len..]);
      }
      assert io.Remaining() == io.Remaining()[..len] + io.Remaining()[len..];
    }
  }

  /** What is left after a positive result is what there was without its beginning. */
  lemma LeftIsRest(io: Io, len: nat)
    requires InStep(io) && 0 < len <= |io.Remaining()| < TWO_TO_32
    ensures var p := AfterWritev(io, len);
            && InStep(p.io) && p.io.Remaining() == io.Remaining()[len..]
            && p.io.sent == io.sent + io.Remaining()[..len]
            && (p.Left? ==> p.ending == Finished && len == |io.Remaining()|)
            && (p.Looping? ==> len < |io.Remaining()|)
  {
    var p := AfterWritev(io, len);
    if len <= |io.seg0| {
      assert io.Remaining()[len..] == io.seg0[len..] + io.seg1;
    } else {
      assert io.Remaining()[len..] == io.seg1[len - |io.seg0|..];
      assert [] + p.io.seg1 == p.io.seg1;
    }
  }

  lemma SentAssociates(sent: bytes, now: bytes, rest: bytes)
    ensures sent + now + rest == sent + (now + rest)
  {
  }

  /** Whatever writev returns, what was sent followed by what is left is what there was to send, and
      the write buffer holds the unsent header. Finishing means that everything was sent. */
  lemma {:induction false} StreamConserved(io: Io, results: seq<int>)
    requires InStep(io) && |io.Remaining()| < TWO_TO_32 && Legal(io, results)
    ensures var p := Run(io, results);
            && InStep(p.io) && Conserves(io, p.io) && |p.io.Remaining()| <= |io.Remaining()|
            && (p.Left? && p.ending == Finished ==> p.io.sent == io.sent + io.Remaining())
    decreases |results|
  {
    if results != [] {
      AfterWritevConserves(io, results[0]);
      var p := AfterWritev(io, results[0]);
      if p.Looping? {
        StreamConserved(p.io, results[1..]);
      }
    }
  }

  /** The octets remaining bound the number of turns. */
  lemma {:induction false} TurnsBounded(io: Io, results: seq<int>)
    requires InStep(io) && |io.Remaining()| < TWO_TO_32 && Legal(io, results)
    ensures Run(io, results).Looping? ==> |results| + |Run(io, results).io.Remaining()| <= |io.Remaining()|
    ensures |results| <= |io.Remaining()| + 1
    decreases |results|
  {
    if results != [] {
      AfterWritevConserves(io, results[0]);
      var p := AfterWritev(io, results[0]);
      if p.Looping? {
        TurnsBounded(p.io, results[1..]);
      }
    }
  }

  /** How Write is left is told by the last result alone: finished after a positive one, with
      nothing sent after 0, and in the failed assert after -1. */
  lemma {:induction false} EndingTold(io: Io, results: seq<int>)
    requires InStep(io) && 0 < |io.Remaining()| < TWO_TO_32
    requires Legal(io, results) && Run(io, results).Left?
    ensures results != []
    ensures var last := results[|results| - 1];
            Run(io, results).ending ==
              if last > 0 then Finished else if last == 0 then SentNothing else AssertTripped
    ensures Run(io, results).io.Remaining() == [] <==> Run(io, results).ending == Finished
    decreases |results|
  {
    AfterWritevConserves(io, results[0]);
    var p := AfterWritev(io, results[0]);
    if p.Looping? {
      EndingTold(p.io, results[1..]);
    }
  }

  // ----- Resumption over several calls -----

  ghost predicate LegalCalls(io: Io, calls: seq<seq<int>>)
    decreases |calls|
  {
    calls != [] ==> Legal(io, calls[0]) && LegalCalls(Run(io, calls[0]).io, calls[1..])
  }

  ghost function AfterCalls(io: Io, calls: seq<seq<int>>): Io
    requires LegalCalls(io, calls)
    decreases |calls|
  {
    if calls == [] then io else AfterCalls(Run(io, calls[0]).io, calls[1..])
  }

  /** Conservation over any number of calls, each of which takes up where the one before left off. */
  lemma {:induction false} ResumedStreamConserved(io: Io, calls: seq<seq<int>>)
    requires InStep(io) && |io.Remaining()| < TWO_TO_32 && LegalCalls(io, calls)
    ensures InStep(AfterCalls(io, calls)) && Conserves(io, AfterCalls(io, calls))
    decreases |calls|
  {
    if calls != [] {
      StreamConserved(io, calls[0]);
      ResumedStreamConserved(Run(io, calls[0]).io, calls[1..]);
    }
  }

  // ----- Where the code does not do what its caller expects -----

  /** The caller takes Writeable_Size() == 0 for completion. It is right to do so if every schedule
      that ends so has sent everything. */
  ghost predicate CompletionIsTruthful(io: Io) {
    forall results :: Legal(io, results) && Run(io, results).Left? && !Run(io, results).ending.AssertTripped?
      && WriteableSize(Run(io, results).io) == 0
      ==> Run(io, results).io.sent == io.sent + io.Remaining()
  }

  /** The narrowing of Writeable_Size does no harm exactly when header and file together are shorter
      than 2^32 octets. */
  lemma CompletionTruthfulIff(io: Io)
    requires InStep(io)
    ensures CompletionIsTruthful(io) <==> |io.Remaining()| < TWO_TO_32
  {
    if |io.Remaining()| < TWO_TO_32 {
      forall results | Legal(io, results) && Run(io, results).Left?
        && WriteableSize(Run(io, results).io) == 0
        ensures Run(io, results).io.sent == io.sent + io.Remaining()
      {
        StreamConserved(io, results);
        var after := Run(io, results).io;
        assert after.Remaining() == [];
      }
    } else {
      PrematureCompletion(io);
    }
  }

  /** A schedule that stops with 2^32 octets unsent. */
  lemma PrematureCompletion(io: Io)
    requires InStep(io) && |io.Remaining()| >= TWO_TO_32
    ensures !CompletionIsTruthful(io)
  {
    var n := |io.Remaining()| - TWO_TO_32;
    var results := if n == 0 then [1] else [n];
    var p := AfterWritev(io, results[0]);
    if n > 0 && WriteableSize(io) != 0 {
      assert |p.io.seg0| + |p.io.seg1| == TWO_TO_32;
    }
    assert p.Left? && p.ending == Finished;
    assert Legal(io, results) && Run(io, results) == p;
    assert |p.io.sent| == |io.sent| + results[0];
    assert p.io.sent != io.sent + io.Remaining();
    assert WriteableSize(p.io) == 0;
  }

  /** The caller expects writev's -1 to come back with the segments untouched. It does exactly when
      Writeable_Size() is 0 already; otherwise the -1 reaches Release_Buff and trips its assert. */
  lemma FailedWritevIff(io: Io)
    ensures AfterWritev(io, -1) == Left(io, Finished) <==> WriteableSize(io) == 0
    ensures AfterWritev(io, -1) == Left(io, AssertTripped) <==> WriteableSize(io) != 0
  {
  }

  lemma FailedWritevTrips()
    ensures AfterWritev(Io([1], [], [1], []), -1) == Left(Io([1], [], [1], []), AssertTripped)
  {
  }
}
