/** The connection pool of src/sql_pool.cpp, its use by HttpResponse::_Login, and a step system over all
    interleavings of callers. MySQL handles are named by numbers; none is null, because Init throws
    before it lists one. */
module SqlPool {
  import opened Bytes
  import opened Counting

  datatype Conn = Conn(id: int, handle: nat)

  // ----- The value of the pool -----

  datatype PoolState = PoolState(maxConn: int, freeConn: int, connList: seq<Conn>, usedId: set<int>) {
    /** GetConn past its wait. */
    function Got(): PoolState
      requires connList != []
    {
      this.(freeConn := freeConn - 1, connList := connList[1..], usedId := usedId + {connList[0].id})
    }

    /** ReleaseConn of an id in use. */
    function Released(id: int, handle: nat): PoolState {
      this.(freeConn := freeConn + 1, connList := connList + [Conn(id, handle)], usedId := usedId - {id})
    }
  }

  ghost predicate DistinctIds(l: seq<Conn>) {
    forall i, j :: 0 <= i < j < |l| ==> l[i].id != l[j].id
  }

  ghost predicate Listed(l: seq<Conn>, id: int) {
    exists i :: 0 <= i < |l| && l[i].id == id
  }

  /** Each of the ids 0 to max - 1 is either listed, once, or in use; no other id is either. */
  ghost predicate Partition(s: PoolState) {
    && DistinctIds(s.connList) && s.freeConn == |s.connList|
    && (forall id :: Listed(s.connList, id) ==> id !in s.usedId)
    && (forall id :: Listed(s.connList, id) || id in s.usedId <==> 0 <= id < s.maxConn)
  }

  /** Every listed id still has the handle it was opened with. */
  ghost predicate HandlesKept(s: PoolState, handles: seq<nat>) {
    forall i :: 0 <= i < |s.connList| ==>
      0 <= s.connList[i].id < |handles| && s.connList[i].handle == handles[s.connList[i].id]
  }

  lemma GotKeepsPartition(s: PoolState)
    requires Partition(s) && s.connList != []
    ensures Partition(s.Got()) && s.connList[0].id !in s.usedId
  {
    var s' := s.Got();
    assert s.connList[0].id !in s.usedId by {
      assert Listed(s.connList, s.connList[0].id);
    }
    forall id ensures Listed(s.connList, id) <==> Listed(s'.connList, id) || id == s.connList[0].id {
      if Listed(s.connList, id) {
        var i :| 0 <= i < |s.connList| && s.connList[i].id == id;
        assert i > 0 ==> s'.connList[i - 1].id == id;
      }
      if Listed(s'.connList, id) {
        var i :| 0 <= i < |s'.connList| && s'.connList[i].id == id;
        assert s.connList[i + 1].id == id;
      }
    }
    assert !Listed(s'.connList, s.connList[0].id);
  }

  lemma ReleasedKeepsPartition(s: PoolState, id: int, handle: nat)
    requires Partition(s) && id in s.usedId
    ensures Partition(s.Released(id, handle))
  {
    var s' := s.Released(id, handle);
    var n := |s.connList|;
    forall k ensures Listed(s'.connList, k) <==> Listed(s.connList, k) || k == id {
      if Listed(s.connList, k) {
        var i :| 0 <= i < n && s.connList[i].id == k;
        assert s'.connList[i].id == k;
      }
      assert s'.connList[n].id == id;
      if Listed(s'.connList, k) {
        var i :| 0 <= i < n + 1 && s'.connList[i].id == k;
        assert i < n ==> s.connList[i].id == k;
      }
    }
    forall i, j | 0 <= i < j < n + 1 ensures s'.connList[i].id != s'.connList[j].id {
      assert Listed(s.connList, s.connList[i].id);
    }
  }

  /** Releasing an id in use keeps the partition whatever handle comes with it, and keeps the handles
      exactly when it is the handle of that id. */
  lemma ReleaseKeepsHandlesIff(s: PoolState, id: int, handle: nat, handles: seq<nat>)
    requires Partition(s) && HandlesKept(s, handles) && id in s.usedId && |handles| == s.maxConn
    ensures Partition(s.Released(id, handle))
    ensures HandlesKept(s.Released(id, handle), handles) <==> handle == handles[id]
  {
    ReleasedKeepsPartition(s, id, handle);
    assert 0 <= id < s.maxConn;
    var l := s.Released(id, handle).connList;
    assert l[|l| - 1] == Conn(id, handle);
    assert forall i :: 0 <= i < |s.connList| ==> l[i] == s.connList[i];
  }

  // ----- The class -----

  class SQLPool {
    var maxConn: int
    var freeConn: int
    var connList: seq<Conn>
    var usedId: set<int>

    ghost function View(): PoolState
      reads this
    {
      PoolState(maxConn, freeConn, connList, usedId)
    }

    constructor ()
      ensures connList == [] && usedId == {}
    {
      maxConn, freeConn, connList, usedId := 0, 0, [], {};
    }

    /** Opens `maxSize` connections; `handles` is what mysql_init returns, one after the other. The
        pool is in order exactly when `maxSize` is not negative. */
    method Init(maxSize: int, handles: seq<nat>)
      requires |handles| == (if maxSize >= 0 then maxSize else 0) && connList == [] && usedId == {}
      modifies this
      ensures Partition(View()) <==> maxSize >= 0
      ensures HandlesKept(View(), handles) && |connList| == |handles|
      ensures maxConn == freeConn == maxSize && usedId == {}
    {
      maxConn, freeConn := maxSize, maxSize;
      for i := 0 to |handles|
        invariant |connList| == i && usedId == {} && maxConn == freeConn == maxSize
        invariant forall k :: 0 <= k < i ==> connList[k] == Conn(k, handles[k])
      {
        connList := connList + [Conn(i, handles[i])];
      }
      forall id ensures Listed(connList, id) <==> 0 <= id < maxSize {
        assert 0 <= id < maxSize ==> connList[id].id == id;
      }
    }

    /** GetConn from a lock to its return, or to its next wait (None). */
    method GetSection() returns (r: Option<Conn>)
      requires Partition(View())
      modifies this
      ensures Partition(View()) && r.Some? == (old(freeConn) != 0)
      ensures r.Some? ==> r.value == old(connList)[0] && View() == old(View()).Got()
      ensures r.None? ==> View() == old(View())
    {
      if freeConn == 0 {
        return None;
      }
      GotKeepsPartition(View());
      var item := connList[0];
      usedId := usedId + {item.id};
      connList := connList[1..];
      freeConn := freeConn - 1;
      r := Some(item);
    }

    /** ReleaseConn; false when the id is not in use, which ends the process. */
    method ReleaseConn(id: int, handle: nat) returns (known: bool)
      requires Partition(View())
      modifies this
      ensures Partition(View()) && known == (id in old(usedId))
      ensures View() == if known then old(View()).Released(id, handle) else old(View())
    {
      known := id in usedId;
      if known {
        ReleasedKeepsPartition(View(), id, handle);
        connList := connList + [Conn(id, handle)];
        freeConn := freeConn + 1;
        usedId := usedId - {id};
      }
    }

    /** _Login, from its start or from a wakeup inside GetConn to its end, or to its next wait
        (None): it waits exactly when no connection is free. */
    method Login(calls: MysqlCalls) returns (r: Option<bool>)
      requires Partition(View())
      modifies this
      ensures Partition(View()) && usedId == old(usedId) && freeConn == old(freeConn)
      ensures r.None? <==> old(freeConn) == 0
      ensures r.None? ==> View() == old(View())
      ensures r.Some? ==> connList == old(connList)[1..] + [old(connList)[0]]
      ensures r.Some? ==> r.value == (calls.AllSucceed() && calls.rows != 0 && calls.passwordFits)
    {
      var got := GetSection();
      if got.None? {
        return None;
      }
      var conn := got.value;
      var result: bool;
      if !calls.init {
        result := false;
      } else if !calls.prepare {
        result := false;
      } else if !calls.bindParam {
        result := false;
      } else if !calls.execute {
        result := false;
      } else if !calls.metadata {
        result := false;
      } else if !calls.store {
        result := false;
      } else if calls.rows == 0 {
        result := false;
      } else {
        result := calls.passwordFits;
      }
      GiveBack(conn);
      r := Some(result);
    }

    /** The ReleaseConn that ends every path of _Login. */
    method GiveBack(conn: Conn)
      requires Partition(View()) && conn.id in usedId
      modifies this
      ensures Partition(View()) && View() == old(View()).Released(conn.id, conn.handle)
    {
      var known := ReleaseConn(conn.id, conn.handle);
    }
  }

  /** Whether each MySQL call of _Login succeeds, how many rows there are, and the outcome of the
      comparison with the first one. */
  datatype MysqlCalls = MysqlCalls(init: bool, prepare: bool, bindParam: bool, execute: bool, metadata: bool,
                                   store: bool, rows: nat, passwordFits: bool) {
    predicate AllSucceed() {
      init && prepare && bindParam && execute && metadata && store
    }
  }

  // ----- The step system -----

  datatype Caller = Away | Asleep | Woken | Holding(conn: Conn)

  datatype State = State(pool: PoolState, callers: seq<Caller>)

  datatype Step =
    | Get(c: nat)                    // GetConn, first time or back from its wait
    | Release(c: nat, notified: nat) // ReleaseConn of the pair the caller got
    | Wake(c: nat)                   // spuriously

  const IsAsleep: Caller -> bool := (c: Caller) => c.Asleep?
  const IsWoken: Caller -> bool := (c: Caller) => c.Woken?

  ghost predicate SomebodyWaits(s: State) {
    Count(s.callers, IsAsleep) > 0
  }

  ghost predicate Enabled(s: State, step: Step) {
    match step
    case Get(c) => c < |s.callers| && (s.callers[c].Away? || s.callers[c].Woken?)
    case Release(c, n) =>
      c < |s.callers| && s.callers[c].Holding?
      && (SomebodyWaits(s) ==> n < |s.callers| && s.callers[n].Asleep?)
    case Wake(c) => c < |s.callers| && s.callers[c].Asleep?
  }

  ghost function Apply(s: State, step: Step): State
    requires Enabled(s, step)
  {
    match step
    case Get(c) =>
      if s.pool.freeConn == 0 || s.pool.connList == [] then s.(callers := s.callers[c := Asleep])
      else State(s.pool.Got(), s.callers[c := Holding(s.pool.connList[0])])
    case Release(c, n) =>
      var conn := s.callers[c].conn;
      var freed := s.callers[c := Away];
      State(s.pool.Released(conn.id, conn.handle), if SomebodyWaits(s) then freed[n := Woken] else freed)
    case Wake(c) => s.(callers := s.callers[c := Woken])
  }

  /** The ids in use are exactly those held, each by one caller and with its own handle. */
  ghost predicate HoldersOk(s: State, handles: seq<nat>) {
    && (forall c :: 0 <= c < |s.callers| && s.callers[c].Holding? ==>
          s.callers[c].conn.id in s.pool.usedId && 0 <= s.callers[c].conn.id < |handles|
          && s.callers[c].conn.handle == handles[s.callers[c].conn.id])
    && (forall b, c :: 0 <= b < c < |s.callers| && s.callers[b].Holding? && s.callers[c].Holding? ==>
          s.callers[b].conn.id != s.callers[c].conn.id)
    && (forall id :: id in s.pool.usedId ==> HeldBySomebody(s, id))
  }

  ghost predicate HeldBySomebody(s: State, id: int) {
    exists c :: 0 <= c < |s.callers| && s.callers[c].Holding? && s.callers[c].conn.id == id
  }

  /** While a caller waits, every free connection has a woken caller coming for it. */
  ghost predicate WakeupsAccounted(s: State) {
    SomebodyWaits(s) ==> s.pool.freeConn <= Count(s.callers, IsWoken)
  }

  ghost predicate Inv(s: State, handles: seq<nat>) {
    && |handles| == s.pool.maxConn
    && Partition(s.pool) && HandlesKept(s.pool, handles) && HoldersOk(s, handles) && WakeupsAccounted(s)
  }

  lemma CallerCounts(cs: seq<Caller>, i: nat, x: Caller)
    requires i < |cs|
    ensures Count(cs[i := x], IsAsleep) + (if cs[i].Asleep? then 1 else 0)
         == Count(cs, IsAsleep) + (if x.Asleep? then 1 else 0)
    ensures Count(cs[i := x], IsWoken) + (if cs[i].Woken? then 1 else 0)
         == Count(cs, IsWoken) + (if x.Woken? then 1 else 0)
  {
    CountUpdate(cs, i, x, IsAsleep);
    CountUpdate(cs, i, x, IsWoken);
  }

  /** A caller that holds nothing before and after changes nothing for the holders. */
  lemma HoldersSame(s: State, c: nat, x: Caller, handles: seq<nat>)
    requires HoldersOk(s, handles) && c < |s.callers| && !s.callers[c].Holding? && !x.Holding?
    ensures HoldersOk(s.(callers := s.callers[c := x]), handles)
  {
    var s' := s.(callers := s.callers[c := x]);
    forall id | id in s.pool.usedId ensures HeldBySomebody(s', id) {
      assert HeldBySomebody(s, id);
      var b :| 0 <= b < |s.callers| && s.callers[b].Holding? && s.callers[b].conn.id == id;
      assert s'.callers[b] == s.callers[b];
    }
  }

  lemma GetKeepsHolders(s: State, c: nat, handles: seq<nat>)
    requires Partition(s.pool) && HandlesKept(s.pool, handles) && HoldersOk(s, handles)
    requires c < |s.callers| && !s.callers[c].Holding? && s.pool.connList != []
    ensures HoldersOk(State(s.pool.Got(), s.callers[c := Holding(s.pool.connList[0])]), handles)
  {
    GotKeepsPartition(s.pool);
    var s' := State(s.pool.Got(), s.callers[c := Holding(s.pool.connList[0])]);
    forall id | id in s'.pool.usedId ensures HeldBySomebody(s', id) {
      if id == s.pool.connList[0].id {
        assert s'.callers[c].conn.id == id;
      } else {
        assert HeldBySomebody(s, id);
        var b :| 0 <= b < |s.callers| && s.callers[b].Holding? && s.callers[b].conn.id == id;
        assert s'.callers[b] == s.callers[b];
      }
    }
  }

  lemma ReleaseKeepsHolders(s: State, c: nat, handles: seq<nat>)
    requires HoldersOk(s, handles) && c < |s.callers| && s.callers[c].Holding?
    ensures var conn := s.callers[c].conn;
            HoldersOk(State(s.pool.Released(conn.id, conn.handle), s.callers[c := Away]), handles)
  {
    var conn := s.callers[c].conn;
    var s' := State(s.pool.Released(conn.id, conn.handle), s.callers[c := Away]);
    forall id | id in s'.pool.usedId ensures HeldBySomebody(s', id) {
      assert HeldBySomebody(s, id);
      var b :| 0 <= b < |s.callers| && s.callers[b].Holding? && s.callers[b].conn.id == id;
      assert s'.callers[b] == s.callers[b];
    }
  }

  lemma GetKeepsInv(s: State, c: nat, handles: seq<nat>)
    requires Inv(s, handles) && Enabled(s, Get(c))
    ensures Inv(Apply(s, Get(c)), handles)
  {
    if s.pool.freeConn == 0 {
      CallerCounts(s.callers, c, Asleep);
      HoldersSame(s, c, Asleep, handles);
    } else {
      CallerCounts(s.callers, c, Holding(s.pool.connList[0]));
      GotKeepsPartition(s.pool);
      GetKeepsHolders(s, c, handles);
      assert forall i :: 0 <= i < |s.pool.connList| - 1 ==> s.pool.Got().connList[i] == s.pool.connList[i + 1];
    }
  }

  lemma ReleaseKeepsInv(s: State, c: nat, n: nat, handles: seq<nat>)
    requires Inv(s, handles) && Enabled(s, Release(c, n))
    ensures Inv(Apply(s, Release(c, n)), handles)
  {
    var conn := s.callers[c].conn;
    var freed := State(s.pool.Released(conn.id, conn.handle), s.callers[c := Away]);
    ReleaseKeepsHandlesIff(s.pool, conn.id, conn.handle, handles);
    ReleaseKeepsHolders(s, c, handles);
    CallerCounts(s.callers, c, Away);
    if SomebodyWaits(s) {
      CallerCounts(freed.callers, n, Woken);
      HoldersSame(freed, n, Woken, handles);
    }
  }

  /** A caller that wakes tries again, and nothing else happens. */
  lemma WakingOnlyWakes(s: State, c: nat)
    requires c < |s.callers| && s.callers[c].Asleep?
    ensures Enabled(s, Wake(c)) && Apply(s, Wake(c)) == s.(callers := s.callers[c := Woken])
    ensures Enabled(Apply(s, Wake(c)), Get(c))
  {
  }

  lemma StepKeepsInv(s: State, step: Step, handles: seq<nat>)
    requires Inv(s, handles) && Enabled(s, step)
    ensures Inv(Apply(s, step), handles)
  {
    match step
    case Get(c) => GetKeepsInv(s, c, handles);
    case Release(c, n) => ReleaseKeepsInv(s, c, n, handles);
    case Wake(c) =>
      CallerCounts(s.callers, c, Woken);
      HoldersSame(s, c, Woken, handles);
  }

  ghost predicate Runnable(s: State, steps: seq<Step>)
    decreases |steps|
  {
    steps == [] || (Enabled(s, steps[0]) && Runnable(Apply(s, steps[0]), steps[1..]))
  }

  ghost function After(s: State, steps: seq<Step>): State
    requires Runnable(s, steps)
    decreases |steps|
  {
    if steps == [] then s else After(Apply(s, steps[0]), steps[1..])
  }

  /** Over every interleaving of callers that return what they got: the partition, the handles, the
      holders and the wakeups are all in order. */
  lemma {:induction false} RunKeepsInv(s: State, steps: seq<Step>, handles: seq<nat>)
    requires Inv(s, handles) && Runnable(s, steps)
    ensures Inv(After(s, steps), handles)
    decreases |steps|
  {
    if steps != [] {
      StepKeepsInv(s, steps[0], handles);
      RunKeepsInv(Apply(s, steps[0]), steps[1..], handles);
    }
  }

  /** Right after Init, with nobody holding or waiting, the invariant holds. */
  lemma InitialInv(s: State, handles: seq<nat>)
    requires Partition(s.pool) && HandlesKept(s.pool, handles) && |handles| == s.pool.maxConn && s.pool.usedId == {}
    requires forall c :: 0 <= c < |s.callers| ==> s.callers[c] == Away
    ensures Inv(s, handles)
  {
    NobodyAsleep(s.callers);
  }

  lemma {:induction false} NobodyAsleep(cs: seq<Caller>)
    requires forall c :: 0 <= c < |cs| ==> cs[c] == Away
    ensures Count(cs, IsAsleep) == 0
  {
    if cs != [] {
      NobodyAsleep(cs[1..]);
    }
  }

  /** On such runs ReleaseConn never meets an id it does not know, and no caller waits while a
      connection is free and nobody is on the way to it. */
  lemma CallersAreServed(start: State, steps: seq<Step>, handles: seq<nat>, c: nat)
    requires Inv(start, handles) && Runnable(start, steps)
    requires c < |After(start, steps).callers|
    ensures var s := After(start, steps);
            && (s.callers[c].Holding? ==> s.callers[c].conn.id in s.pool.usedId)
            && (s.callers[c].Asleep? && s.pool.freeConn > 0 ==> Count(s.callers, IsWoken) > 0)
  {
    RunKeepsInv(start, steps, handles);
    var s := After(start, steps);
    if s.callers[c].Asleep? {
      CountedIsThere(s.callers, c, IsAsleep);
    }
  }
}
