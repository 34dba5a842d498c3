/** The compacting, growing byte queue of src/buffer.cpp: first its value and what each operation
    makes of it, then the laws of runs of operations, then the class itself. */
module ByteBuffer {
  import opened Bytes

  /** A buffer's capacity, its read index and the octets between its read and write index. */
  datatype Buf = Buf(size: nat, readp: nat, content: bytes) {
    ghost predicate Valid() {
      readp + |content| <= size
    }

    function Writeable(): nat
      requires Valid()
    {
      size - readp - |content|
    }
  }

  /** _Dilatation: a left shift when that frees `len` octets, else a larger array. */
  function Dilated(b: Buf, len: nat): (r: Buf)
    requires b.Valid()
    ensures r.Valid() && r.Writeable() >= len && r.content == b.content
  {
    if b.Writeable() + b.readp >= len then b.(readp := 0)
    else b.(size := b.readp + |b.content| + len)
  }

  /** _Length_Guard: room for `len` more octets. */
  function MadeRoom(b: Buf, len: nat): (r: Buf)
    requires b.Valid()
    ensures r.Valid() && r.Writeable() >= len && r.content == b.content
  {
    if b.Writeable() >= len then b else Dilated(b, len)
  }

  function Added(b: Buf, s: bytes): (r: Buf)
    requires b.Valid()
    ensures r.Valid() && r.content == b.content + s && r.size >= b.size
  {
    var room := MadeRoom(b, |s|);
    room.(content := room.content + s)
  }

  function Consumed(b: Buf, n: nat): (r: Buf)
    requires b.Valid() && n <= |b.content|
    ensures r.Valid() && b.content == b.content[..n] + r.content
  {
    b.(readp := b.readp + n, content := b.content[n..])
  }

  function Cleared(b: Buf): Buf {
    Buf(b.size, 0, [])
  }

  /** The length of each of the two spill arrays of Read_FD. */
  const SPILL: nat := 65535

  /** One readv that transferred `data`. `stack1` and `stack2` are what the memory at the two spill
      arrays held before: Read_FD may read up to 2 * SPILL octets from either, the array and
      whatever lies behind it. */
  datatype Recv = Recv(data: bytes, stack1: bytes, stack2: bytes) {
    ghost predicate Possible(b: Buf)
      requires b.Valid()
    {
      |data| <= b.Writeable() + 2 * SPILL && |stack1| == |stack2| == 2 * SPILL
    }

    /** The octets that reached the first and the second spill array when `w` fitted the buffer. */
    function Part1(w: nat): bytes
      requires w <= |data|
    {
      if |data| <= w + SPILL then data[w..] else data[w..w + SPILL]
    }

    function Part2(w: nat): bytes
      requires w <= |data|
    {
      if |data| <= w + SPILL then [] else data[w + SPILL..]
    }
  }

  /** Memory that held `stack` after `part` was written to its start. */
  function Overlaid(stack: bytes, part: bytes): bytes
    requires |part| <= |stack|
  {
    part + stack[|part|..]
  }

  /** Read_FD: what does not fit is appended from both spill arrays, each time the whole overflow. */
  function Received(b: Buf, r: Recv): (b': Buf)
    requires b.Valid() && r.Possible(b)
    ensures b'.Valid() && b'.size >= b.size
  {
    var w := b.Writeable();
    if |r.data| <= w then b.(content := b.content + r.data)
    else
      var over := |r.data| - w;
      var full := b.(content := b.content + r.data[..w]);
      Added(Added(full, Overlaid(r.stack1, r.Part1(w))[..over]), Overlaid(r.stack2, r.Part2(w))[..over])
  }

  lemma ReceivedNothing(b: Buf, r: Recv)
    requires b.Valid() && r.Possible(b) && r.data == []
    ensures Received(b, r) == b
  {
    assert b.content + [] == b.content;
  }

  lemma ReceivedLength(b: Buf, r: Recv)
    requires b.Valid() && r.Possible(b)
    ensures |Received(b, r).content| == |b.content| + |r.data|
         + (if |r.data| <= b.Writeable() then 0 else |r.data| - b.Writeable())
  {
  }

  /** Read_FD appends exactly the octets received if and only if they fit the writeable space,
      whatever the spill arrays held. */
  lemma ReceivedIntact(b: Buf, r: Recv)
    requires b.Valid() && r.Possible(b)
    ensures Received(b, r).content == b.content + r.data <==> |r.data| <= b.Writeable()
  {
    ReceivedLength(b, r);
  }

  /** One octet too many: the octet and one octet of old stack memory follow it. */
  lemma ReceivedCorrupted(junk: bytes)
    requires |junk| == 2 * SPILL
    ensures Received(Buf(1, 0, []), Recv([7, 8], junk, junk)).content == [7, 8, junk[0]]
  {
    var r := Recv([7, 8], junk, junk);
    assert r.data[..1] == [7] && r.Part1(1) == [8] && r.Part2(1) == [];
    assert Overlaid(junk, [8])[..1] == [8] && Overlaid(junk, [])[..1] == [junk[0]];
  }

  /** All that one receive appends beyond the writeable space, octet by octet. An overflow that fits the
      first array comes through whole, and as many octets as it has follow from the old second array. A
      longer one is cut after the first array by what lies behind it, and the rest comes after that. */
  lemma ReceivedExactly(b: Buf, r: Recv)
    requires b.Valid() && r.Possible(b) && |r.data| > b.Writeable()
    ensures var over, cut := |r.data| - b.Writeable(), b.Writeable() + SPILL;
            Received(b, r).content == b.content +
              if over <= SPILL then r.data + r.stack2[..over]
              else r.data[..cut] + r.stack1[SPILL..over] + r.data[cut..] + r.stack2[over - SPILL..over]
  {
    hide Added;
    var w := b.Writeable();
    var over, cut := |r.data| - w, w + SPILL;
    var first, second := Overlaid(r.stack1, r.Part1(w))[..over], Overlaid(r.stack2, r.Part2(w))[..over];
    AddedTwice(b.(content := b.content + r.data[..w]), first, second);
    if over <= SPILL {
      assert first == r.data[w..] && second == r.stack2[..over];
      Reassociate(b.content, r.data[..w], first, second);
      assert r.data[..w] + r.data[w..] == r.data;
    } else {
      assert first == r.data[w..cut] + r.stack1[SPILL..over];
      assert second == r.data[cut..] + r.stack2[over - SPILL..over];
      Reassociate(b.content, r.data[..w], first, second);
      assert r.data[..w] + r.data[w..cut] == r.data[..cut];
    }
  }

  lemma AddedTwice(b: Buf, s: bytes, t: bytes)
    requires b.Valid()
    ensures Added(Added(b, s), t).content == b.content + s + t
  {
  }

  lemma Reassociate(a: bytes, b: bytes, c: bytes, d: bytes)
    ensures a + b + c + d == a + (b + c + d)
  {
  }

  lemma ReceivedRoom(b: Buf, r: Recv)
    requires b.Valid() && r.Possible(b) && |r.data| <= b.Writeable()
    ensures Received(b, r).Writeable() == b.Writeable() - |r.data|
  {
  }

  /** As long as the overflow fits the first array, all that was received comes first. */
  lemma ReceivedFirst(b: Buf, r: Recv)
    requires b.Valid() && r.Possible(b)
    ensures |r.data| <= b.Writeable() + SPILL ==> b.content + r.data <= Received(b, r).content
  {
    if |r.data| > b.Writeable() {
      ReceivedExactly(b, r);
    }
  }

  /** Releasing everything makes the whole capacity writeable again. */
  lemma ClearedHasRoom(b: Buf)
    ensures Cleared(b).Valid() && Cleared(b).content == [] && Cleared(b).Writeable() == b.size
  {
  }

  // ----- Runs -----

  datatype Op = Add(s: bytes) | Release(n: nat) | ReleaseAll | Read(r: Recv)

  ghost predicate Enabled(b: Buf, op: Op)
    requires b.Valid()
  {
    match op
    case Release(n) => n <= |b.content|
    case Read(r) => r.Possible(b)
    case _ => true
  }

  ghost function Step(b: Buf, op: Op): (r: Buf)
    requires b.Valid() && Enabled(b, op)
    ensures r.Valid()
  {
    match op
    case Add(s) => Added(b, s)
    case Release(n) => Consumed(b, n)
    case ReleaseAll => Cleared(b)
    case Read(r) => Received(b, r)
  }

  ghost predicate Runnable(b: Buf, ops: seq<Op>)
    requires b.Valid()
    decreases |ops|
  {
    ops == [] || (Enabled(b, ops[0]) && Runnable(Step(b, ops[0]), ops[1..]))
  }

  ghost function Run(b: Buf, ops: seq<Op>): (r: Buf)
    requires b.Valid() && Runnable(b, ops)
    ensures r.Valid()
    decreases |ops|
  {
    if ops == [] then b else Run(Step(b, ops[0]), ops[1..])
  }

  /** The plain byte queue: no capacity, no indices. */
  function QueueStep(q: bytes, op: Op): bytes {
    match op
    case Add(s) => q + s
    case Release(n) => if n <= |q| then q[n..] else []
    case ReleaseAll => []
    case Read(r) => q + r.data
  }

  function QueueRun(q: bytes, ops: seq<Op>): bytes
    decreases |ops|
  {
    if ops == [] then q else QueueRun(QueueStep(q, ops[0]), ops[1..])
  }

  /** The buffer holds what the queue holds before the run and after each of its operations. */
  ghost predicate HoldsQueue(b: Buf, q: bytes, ops: seq<Op>)
    requires b.Valid() && Runnable(b, ops)
    decreases |ops|
  {
    b.content == q && (ops == [] || HoldsQueue(Step(b, ops[0]), QueueStep(q, ops[0]), ops[1..]))
  }

  /** Every readv of the run fits the space there is when it happens. */
  ghost predicate ReadsFit(b: Buf, ops: seq<Op>)
    requires b.Valid() && Runnable(b, ops)
    decreases |ops|
  {
    ops == [] ||
    ((ops[0].Read? ==> |ops[0].r.data| <= b.Writeable()) && ReadsFit(Step(b, ops[0]), ops[1..]))
  }

  /** Over any run at all, the buffer behaves as a plain queue if and only if every readv of the run
      fits the space there is when it happens: shifts, resizes and resets stay invisible. */
  lemma {:induction false} RefinesQueue(b: Buf, ops: seq<Op>)
    requires b.Valid() && Runnable(b, ops)
    ensures HoldsQueue(b, b.content, ops) <==> ReadsFit(b, ops)
    ensures ReadsFit(b, ops) ==> Run(b, ops).content == QueueRun(b.content, ops)
    decreases |ops|
  {
    if ops != [] {
      StepIsQueueStepIff(b, ops[0]);
      RefinesQueue(Step(b, ops[0]), ops[1..]);
      if Step(b, ops[0]).content != QueueStep(b.content, ops[0]) {
        assert !HoldsQueue(Step(b, ops[0]), QueueStep(b.content, ops[0]), ops[1..]);
      }
    }
  }

  lemma StepIsQueueStepIff(b: Buf, op: Op)
    requires b.Valid() && Enabled(b, op)
    ensures Step(b, op).content == QueueStep(b.content, op) <==> (op.Read? ==> |op.r.data| <= b.Writeable())
  {
    if op.Read? {
      ReceivedIntact(b, op.r);
    }
  }

  function Max(x: nat, y: nat): nat {
    if x >= y then x else y
  }

  /** The largest readable size met during a run. */
  ghost function Peak(b: Buf, ops: seq<Op>): nat
    requires b.Valid() && Runnable(b, ops)
    decreases |ops|
  {
    if ops == [] then |b.content| else Max(|b.content|, Peak(Step(b, ops[0]), ops[1..]))
  }

  /** A buffer grows only when its octets and the new ones do not fit even compacted, and then by no more
      than the new ones need; octets that fit the writeable space move nothing. */
  lemma GrowthIsNeeded(b: Buf, s: bytes)
    requires b.Valid()
    ensures Added(b, s).size != b.size ==> |b.content + s| > b.size
    ensures b.size <= Added(b, s).size <= Max(b.size, 2 * |b.content + s|)
    ensures Added(b, s).size != b.size ==> Added(b, s).Writeable() == 0
    ensures |s| <= b.Writeable() ==> Added(b, s).readp == b.readp
  {
  }

  lemma StepGrowth(b: Buf, op: Op)
    requires b.Valid() && Enabled(b, op)
    ensures b.size <= Step(b, op).size <= Max(b.size, 2 * |Step(b, op).content|)
  {
    if op.Read? && |op.r.data| > b.Writeable() {
      var w := b.Writeable();
      var over := |op.r.data| - w;
      var full := b.(content := b.content + op.r.data[..w]);
      GrowthIsNeeded(full, Overlaid(op.r.stack1, op.r.Part1(w))[..over]);
      GrowthIsNeeded(Added(full, Overlaid(op.r.stack1, op.r.Part1(w))[..over]),
                     Overlaid(op.r.stack2, op.r.Part2(w))[..over]);
    }
  }

  /** The memory a run leaves allocated is at most twice the most it ever had to hold. */
  lemma {:induction false} MemoryBound(b: Buf, ops: seq<Op>)
    requires b.Valid() && Runnable(b, ops)
    ensures b.size <= Run(b, ops).size <= Max(b.size, 2 * Peak(b, ops))
    decreases |ops|
  {
    if ops != [] {
      StepGrowth(b, ops[0]);
      MemoryBound(Step(b, ops[0]), ops[1..]);
      PeakAtLeast(Step(b, ops[0]), ops[1..]);
    }
  }

  lemma PeakAtLeast(b: Buf, ops: seq<Op>)
    requires b.Valid() && Runnable(b, ops)
    ensures |b.content| <= Peak(b, ops)
  {
  }

  // ----- The class -----

  class Buffer {
    var buffer: array<byte>
    var readp: nat
    var writep: nat

    ghost predicate Valid()
      reads this
    {
      readp <= writep <= buffer.Length
    }

    ghost function View(): (b: Buf)
      requires Valid()
      reads this, buffer
      ensures b.Valid() && b.Writeable() == buffer.Length - writep
    {
      Buf(buffer.Length, readp, buffer[readp..writep])
    }

    constructor (size: nat)
      ensures Valid() && fresh(buffer)
      ensures View() == Buf(size, 0, [])
    {
      buffer := new byte[size](_ => 0);
      readp, writep := 0, 0;
    }

    function ReadableSize(): (n: nat)
      requires Valid()
      reads this, buffer
      ensures n == |View().content|
    {
      writep - readp
    }

    function WriteableSize(): nat
      requires Valid()
      reads this
    {
      buffer.Length - writep
    }

    /** Advances the read index; the precondition is the assert of the original. */
    method UpdateReadp(len: nat)
      requires Valid() && len <= ReadableSize()
      modifies this`readp
      ensures Valid() && View() == Consumed(old(View()), len)
    {
      readp := readp + len;
    }

    method ReleaseAllBuff()
      requires Valid()
      modifies this, buffer
      ensures Valid() && View() == Cleared(old(View())) && buffer == old(buffer)
      ensures forall k :: 0 <= k < buffer.Length ==> buffer[k] == 0
    {
      forall k | 0 <= k < buffer.Length {
        buffer[k] := 0;
      }
      readp, writep := 0, 0;
    }

    /** The overlapping left shift of the readable octets, lowest index first. */
    method ShiftLeft()
      requires Valid()
      modifies this, buffer
      ensures Valid() && buffer == old(buffer)
      ensures View() == old(View()).(readp := 0)
    {
      var n := writep - readp;
      var i := 0;
      while i < n
        invariant i <= n
        invariant readp == old(readp) && writep == old(writep) && buffer == old(buffer)
        invariant forall k :: 0 <= k < i ==> buffer[k] == old(buffer[readp + k])
        invariant forall k :: i <= k < buffer.Length ==> buffer[k] == old(buffer[k])
      {
        buffer[i] := buffer[readp + i];
        i := i + 1;
      }
      readp, writep := 0, n;
      assert buffer[0..n] == old(buffer[readp..writep]);
    }

    /** Reallocation to `size` octets; new ones are zero. */
    method Resize(size: nat)
      requires Valid() && buffer.Length <= size
      modifies this`buffer
      ensures Valid() && fresh(buffer)
      ensures View() == old(View()).(size := size)
    {
      var larger := new byte[size](_ => 0);
      var i := 0;
      while i < buffer.Length
        invariant i <= buffer.Length && buffer == old(buffer)
        invariant forall k :: 0 <= k < i ==> larger[k] == buffer[k]
      {
        larger[i] := buffer[i];
        i := i + 1;
      }
      assert larger[readp..writep] == buffer[readp..writep];
      buffer := larger;
    }

    method Dilatation(len: nat)
      requires Valid()
      modifies this, buffer
      ensures Valid() && (buffer == old(buffer) || fresh(buffer))
      ensures View() == Dilated(old(View()), len)
    {
      if WriteableSize() + readp >= len {
        ShiftLeft();
      } else {
        Resize(writep + len);
      }
    }

    method LengthGuard(len: nat)
      requires Valid()
      modifies this, buffer
      ensures Valid() && (buffer == old(buffer) || fresh(buffer))
      ensures View() == MadeRoom(old(View()), len)
      ensures WriteableSize() >= len
    {
      if WriteableSize() < len {
        Dilatation(len);
      }
    }

    /** Appends `s`. Like every access to the first octet, it needs a buffer that has one by then. */
    method Append(s: bytes)
      requires Valid() && buffer.Length + |s| > 0
      modifies this, buffer
      ensures Valid() && (buffer == old(buffer) || fresh(buffer))
      ensures View() == Added(old(View()), s)
    {
      LengthGuard(|s|);
      Fill(s);
    }

    /** The octets of `s` to the write index on, which does not move. */
    method CopyIn(s: bytes)
      requires Valid() && |s| <= WriteableSize()
      modifies buffer
      ensures buffer[..writep] == old(buffer[..writep])
      ensures buffer[writep..writep + |s|] == s
    {
      var i := 0;
      while i < |s|
        invariant i <= |s|
        invariant buffer[..writep] == old(buffer[..writep])
        invariant forall k :: 0 <= k < i ==> buffer[writep + k] == s[k]
      {
        buffer[writep + i] := s[i];
        i := i + 1;
      }
    }

    /** One readv into the writeable space and the two spill arrays: `got` is what it transferred,
        or None when it failed. */
    method ReadFd(got: Option<Recv>) returns (len: int, status: bool)
      requires Valid() && buffer.Length > 0
      requires got.Some? ==> got.value.Possible(View())
      modifies this, buffer
      ensures Valid() && (buffer == old(buffer) || fresh(buffer))
      ensures View() == if got.None? then old(View()) else Received(old(View()), got.value)
      ensures len == if got.None? then -1 else |got.value.data|
      ensures status == (len >= 0)
    {
      if got.None? {
        return -1, false;
      }
      var r := got.value;
      len, status := |r.data|, true;
      if len <= WriteableSize() {
        Fill(r.data);
      } else {
        Overflow(r);
      }
    }

    /** Octets that arrived in the writeable space itself. */
    method Fill(s: bytes)
      requires Valid() && |s| <= WriteableSize()
      modifies this`writep, buffer
      ensures Valid() && View() == old(View()).(content := old(View()).content + s)
      ensures writep == old(writep) + |s|
    {
      CopyIn(s);
      writep := writep + |s|;
      assert buffer[readp..writep] == old(buffer[readp..writep]) + s;
    }

    /** More octets arrived than the writeable space holds. */
    method Overflow(r: Recv)
      requires Valid() && buffer.Length > 0 && r.Possible(View()) && |r.data| > WriteableSize()
      modifies this, buffer
      ensures Valid() && (buffer == old(buffer) || fresh(buffer))
      ensures View() == Received(old(View()), r)
    {
      hide MadeRoom, Added;
      var writeable := WriteableSize();
      var over := |r.data| - writeable;
      Fill(r.data[..writeable]);
      Append(Overlaid(r.stack1, r.Part1(writeable))[..over]);
      Append(Overlaid(r.stack2, r.Part2(writeable))[..over]);
    }
  }
}
