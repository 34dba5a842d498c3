/** The bounded blocking queue of log/blockqueue.hpp: the class with its critical sections, and a step
    system over all interleavings of callers. A call that blocks is cut where it waits. */
module BlockQueue {
  import opened Bytes
  import opened Counting

  /** Items are named by numbers. */
  type Item = nat

  // ----- The class -----

  /** What a pass of pop_front's loop ends with. */
  datatype Popped = Got(item: Item) | Refused | MustWait

  class BlockDeque {
    var capability: nat
    var isOpen: bool
    var dq: seq<Item>

    constructor (cap: nat)
      ensures capability == cap && isOpen && dq == []
    {
      capability, isOpen, dq := cap, true, [];
    }

    /** push_back from a lock to the next wait or to its return. */
    method PushSection(item: Item) returns (pushed: bool)
      modifies this`dq
      ensures pushed == (|old(dq)| < capability)
      ensures dq == if pushed then old(dq) + [item] else old(dq)
    {
      pushed := |dq| < capability;
      if pushed {
        dq := dq + [item];
      }
    }

    /** pop_front from a lock to the next wait or to its return; `woken` when it comes from a wait. */
    method PopSection(woken: bool) returns (r: Popped)
      modifies this`dq
      ensures r == PopResult(isOpen, old(dq), woken)
      ensures r.Refused? <==> woken && !isOpen
      ensures r.MustWait? <==> old(dq) == [] && (woken ==> isOpen)
      ensures if r.Got? then [r.item] + dq == old(dq) else dq == old(dq)
    {
      if woken && !isOpen {
        return Refused;
      }
      if dq == [] {
        return MustWait;
      }
      r := Got(dq[0]);
      dq := dq[1..];
    }

    method Clear()
      modifies this`dq
      ensures dq == []
    {
      dq := [];
    }

    /** The part of Close under the lock; the notifications come after it. */
    method CloseSection()
      modifies this`dq, this`isOpen
      ensures dq == [] && !isOpen
    {
      dq := [];
      isOpen := false;
    }
  }

  function PopResult(isOpen: bool, dq: seq<Item>, woken: bool): Popped {
    if woken && !isOpen then Refused else if dq == [] then MustWait else Got(dq[0])
  }

  // ----- The step system -----

  datatype Consumer = Away | Asleep | Woken

  datatype Producer = Idle | Blocked(item: Item) | Roused(item: Item)

  datatype Exit = Delivered(item: Item) | Dropped(item: Item)

  /** `pushed` and `exits` are the history of what went in and what came out, and how. */
  datatype State = State(capability: nat, isOpen: bool, dq: seq<Item>,
                         consumers: seq<Consumer>, producers: seq<Producer>,
                         consumerBroadcasts: nat, producerBroadcasts: nat,
                         pushed: seq<Item>, exits: seq<Exit>)

  datatype Step =
    | Push(p: nat, item: Item, notified: nat)  // push_back; `notified` is whom notify_one wakes
    | PushAgain(p: nat, notified: nat)         // a producer back from its wait
    | Pop(c: nat, notified: nat)               // pop_front
    | PopAgain(c: nat, notified: nat)          // a consumer back from its wait
    | WakeConsumer(c: nat)                     // spuriously
    | WakeProducer(p: nat)
    | Clear
    | Close
    | BroadcastConsumers                       // the notify_all calls of Close
    | BroadcastProducers

  const IsAsleep: Consumer -> bool := (c: Consumer) => c.Asleep?
  const IsWoken: Consumer -> bool := (c: Consumer) => c.Woken?
  const IsBlocked: Producer -> bool := (p: Producer) => p.Blocked?
  const IsRoused: Producer -> bool := (p: Producer) => p.Roused?

  ghost predicate ConsumerWaits(s: State) {
    Count(s.consumers, IsAsleep) > 0
  }

  ghost predicate ProducerWaits(s: State) {
    Count(s.producers, IsBlocked) > 0
  }

  ghost predicate ConsumerChoice(s: State, c: nat) {
    ConsumerWaits(s) ==> c < |s.consumers| && s.consumers[c].Asleep?
  }

  ghost predicate ProducerChoice(s: State, p: nat) {
    ProducerWaits(s) ==> p < |s.producers| && s.producers[p].Blocked?
  }

  ghost predicate Enabled(s: State, step: Step) {
    match step
    case Push(p, _, c) => p < |s.producers| && s.producers[p].Idle? && ConsumerChoice(s, c)
    case PushAgain(p, c) => p < |s.producers| && s.producers[p].Roused? && ConsumerChoice(s, c)
    case Pop(c, p) => c < |s.consumers| && s.consumers[c].Away? && ProducerChoice(s, p)
    case PopAgain(c, p) => c < |s.consumers| && s.consumers[c].Woken? && ProducerChoice(s, p)
    case WakeConsumer(c) => c < |s.consumers| && s.consumers[c].Asleep?
    case WakeProducer(p) => p < |s.producers| && s.producers[p].Blocked?
    case Clear => true
    case Close => true
    case BroadcastConsumers => s.consumerBroadcasts > 0
    case BroadcastProducers => s.producerBroadcasts > 0
  }

  /** A producer with `item` passes its loop test or waits. */
  ghost function Pushing(s: State, p: nat, item: Item, c: nat): State
    requires p < |s.producers| && ConsumerChoice(s, c)
  {
    if |s.dq| >= s.capability then s.(producers := s.producers[p := Blocked(item)])
    else
      s.(dq := s.dq + [item], pushed := s.pushed + [item], producers := s.producers[p := Idle],
         consumers := if ConsumerWaits(s) then s.consumers[c := Woken] else s.consumers)
  }

  ghost function Popping(s: State, c: nat, woken: bool, p: nat): State
    requires c < |s.consumers| && ProducerChoice(s, p)
  {
    match PopResult(s.isOpen, s.dq, woken)
    case Refused => s.(consumers := s.consumers[c := Away])
    case MustWait => s.(consumers := s.consumers[c := Asleep])
    case Got(item) =>
      s.(dq := s.dq[1..], exits := s.exits + [Delivered(item)], consumers := s.consumers[c := Away],
         producers := if ProducerWaits(s) then s.producers[p := Roused(s.producers[p].item)] else s.producers)
  }

  function DropAll(items: seq<Item>): (r: seq<Exit>)
    ensures |r| == |items|
  {
    if items == [] then [] else [Dropped(items[0])] + DropAll(items[1..])
  }

  function AllWoken(cs: seq<Consumer>): seq<Consumer> {
    if cs == [] then [] else [if cs[0].Asleep? then Woken else cs[0]] + AllWoken(cs[1..])
  }

  function AllRoused(ps: seq<Producer>): seq<Producer> {
    if ps == [] then [] else [if ps[0].Blocked? then Roused(ps[0].item) else ps[0]] + AllRoused(ps[1..])
  }

  ghost function Apply(s: State, step: Step): State
    requires Enabled(s, step)
  {
    match step
    case Push(p, item, c) => Pushing(s, p, item, c)
    case PushAgain(p, c) => Pushing(s, p, s.producers[p].item, c)
    case Pop(c, p) => Popping(s, c, false, p)
    case PopAgain(c, p) => Popping(s, c, true, p)
    case WakeConsumer(c) => s.(consumers := s.consumers[c := Woken])
    case WakeProducer(p) => s.(producers := s.producers[p := Roused(s.producers[p].item)])
    case Clear => s.(dq := [], exits := s.exits + DropAll(s.dq))
    case Close =>
      s.(dq := [], exits := s.exits + DropAll(s.dq), isOpen := false,
         consumerBroadcasts := s.consumerBroadcasts + 1, producerBroadcasts := s.producerBroadcasts + 1)
    case BroadcastConsumers =>
      s.(consumers := AllWoken(s.consumers), consumerBroadcasts := s.consumerBroadcasts - 1)
    case BroadcastProducers =>
      s.(producers := AllRoused(s.producers), producerBroadcasts := s.producerBroadcasts - 1)
  }

  ghost predicate Initial(s: State) {
    && s.isOpen && s.dq == [] && s.consumerBroadcasts == s.producerBroadcasts == 0
    && s.pushed == [] && s.exits == []
    && (forall i :: 0 <= i < |s.consumers| ==> s.consumers[i] == Away)
    && (forall i :: 0 <= i < |s.producers| ==> s.producers[i] == Idle)
  }

  ghost predicate Runnable(s: State, steps: seq<Step>)
    decreases |steps|
  {
    steps == [] || (Enabled(s, steps[0]) && Runnable(Apply(s, steps[0]), steps[1..]))
  }

  ghost function After(s: State, steps: seq<Step>): State
    requires Runnable(s, steps)
    decreases |steps|
  {
    if steps == [] then s else After(Apply(s, steps[0]), steps[1..])
  }

  // ----- Bounded and first in, first out, open or closed -----

  function Items(exits: seq<Exit>): (r: seq<Item>)
    ensures |r| == |exits|
  {
    if exits == [] then [] else [exits[0].item] + Items(exits[1..])
  }

  lemma {:induction false} ItemsAppend(a: seq<Exit>, b: seq<Exit>)
    ensures Items(a + b) == Items(a) + Items(b)
  {
    if a == [] {
      assert a + b == b;
    } else {
      ItemsAppend(a[1..], b);
      assert (a + b)[1..] == a[1..] + b;
    }
  }

  lemma {:induction false} ItemsOfDropped(items: seq<Item>)
    ensures Items(DropAll(items)) == items
  {
    if items != [] {
      ItemsOfDropped(items[1..]);
      assert DropAll(items)[1..] == DropAll(items[1..]);
    }
  }

  ghost predicate BoundedFifo(s: State) {
    |s.dq| <= s.capability && s.pushed == Items(s.exits) + s.dq
  }

  lemma PushKeepsFifo(s: State, p: nat, item: Item, c: nat)
    requires BoundedFifo(s) && p < |s.producers| && ConsumerChoice(s, c)
    ensures BoundedFifo(Pushing(s, p, item, c))
  {
    assert Items(s.exits) + s.dq + [item] == Items(s.exits) + (s.dq + [item]);
  }

  lemma PopKeepsFifo(s: State, c: nat, woken: bool, p: nat)
    requires BoundedFifo(s) && c < |s.consumers| && ProducerChoice(s, p)
    ensures BoundedFifo(Popping(s, c, woken, p))
  {
    if PopResult(s.isOpen, s.dq, woken).Got? {
      ItemsAppend(s.exits, [Delivered(s.dq[0])]);
      assert Items([Delivered(s.dq[0])]) == [s.dq[0]];
      assert s.dq == [s.dq[0]] + s.dq[1..];
      assert Items(s.exits) + [s.dq[0]] + s.dq[1..] == Items(s.exits) + s.dq;
    }
  }

  lemma DroppingKeepsFifo(s: State)
    requires BoundedFifo(s)
    ensures Items(s.exits + DropAll(s.dq)) == s.pushed == Items(s.exits + DropAll(s.dq)) + []
  {
    ItemsAppend(s.exits, DropAll(s.dq));
    ItemsOfDropped(s.dq);
  }

  lemma StepKeepsFifo(s: State, step: Step)
    requires BoundedFifo(s) && Enabled(s, step)
    ensures BoundedFifo(Apply(s, step))
  {
    match step
    case Push(p, item, c) => PushKeepsFifo(s, p, item, c);
    case PushAgain(p, c) => PushKeepsFifo(s, p, s.producers[p].item, c);
    case Pop(c, p) => PopKeepsFifo(s, c, false, p);
    case PopAgain(c, p) => PopKeepsFifo(s, c, true, p);
    case Clear => DroppingKeepsFifo(s);
    case Close => DroppingKeepsFifo(s);
    case _ =>
  }

  lemma {:induction false} RunKeepsFifo(s: State, steps: seq<Step>)
    requires BoundedFifo(s) && Runnable(s, steps)
    ensures BoundedFifo(After(s, steps))
    decreases |steps|
  {
    if steps != [] {
      StepKeepsFifo(s, steps[0]);
      RunKeepsFifo(Apply(s, steps[0]), steps[1..]);
    }
  }

  /** Over all interleavings from the start, open or closed, the queue never holds more than its
      capacity, and what was pushed is what came out, in that order, followed by what is queued. */
  lemma AlwaysBoundedFifo(start: State, steps: seq<Step>)
    requires Initial(start) && Runnable(start, steps)
    ensures var s := After(start, steps);
            |s.dq| <= s.capability && s.pushed == Items(s.exits) + s.dq
  {
    RunKeepsFifo(start, steps);
  }

  // ----- Wakeups while the queue is open -----

  /** While a consumer waits, every queued item has a woken consumer coming for it; while a producer
      waits, every free place has a woken producer coming for it. */
  ghost predicate Accounted(s: State) {
    && (ConsumerWaits(s) ==> |s.dq| <= Count(s.consumers, IsWoken))
    && (ProducerWaits(s) ==> s.capability <= |s.dq| + Count(s.producers, IsRoused))
  }

  lemma ConsumerCounts(cs: seq<Consumer>, i: nat, x: Consumer)
    requires i < |cs|
    ensures Count(cs[i := x], IsAsleep) + (if cs[i].Asleep? then 1 else 0)
         == Count(cs, IsAsleep) + (if x.Asleep? then 1 else 0)
    ensures Count(cs[i := x], IsWoken) + (if cs[i].Woken? then 1 else 0)
         == Count(cs, IsWoken) + (if x.Woken? then 1 else 0)
  {
    CountUpdate(cs, i, x, IsAsleep);
    CountUpdate(cs, i, x, IsWoken);
  }

  lemma ProducerCounts(ps: seq<Producer>, i: nat, x: Producer)
    requires i < |ps|
    ensures Count(ps[i := x], IsBlocked) + (if ps[i].Blocked? then 1 else 0)
         == Count(ps, IsBlocked) + (if x.Blocked? then 1 else 0)
    ensures Count(ps[i := x], IsRoused) + (if ps[i].Roused? then 1 else 0)
         == Count(ps, IsRoused) + (if x.Roused? then 1 else 0)
  {
    CountUpdate(ps, i, x, IsBlocked);
    CountUpdate(ps, i, x, IsRoused);
  }

  lemma PushKeepsAccount(s: State, p: nat, item: Item, c: nat)
    requires Accounted(s) && p < |s.producers| && !s.producers[p].Blocked? && ConsumerChoice(s, c)
    ensures Accounted(Pushing(s, p, item, c))
  {
    ProducerCounts(s.producers, p, Blocked(item));
    ProducerCounts(s.producers, p, Idle);
    if ConsumerWaits(s) {
      ConsumerCounts(s.consumers, c, Woken);
    }
  }

  lemma PopKeepsAccount(s: State, c: nat, woken: bool, p: nat)
    requires Accounted(s) && s.isOpen && c < |s.consumers| && ProducerChoice(s, p)
    requires if woken then s.consumers[c].Woken? else s.consumers[c].Away?
    ensures Accounted(Popping(s, c, woken, p))
  {
    ConsumerCounts(s.consumers, c, Asleep);
    ConsumerCounts(s.consumers, c, Away);
    if ProducerWaits(s) {
      ProducerCounts(s.producers, p, Roused(s.producers[p].item));
    }
  }

  /** Every step but clear and Close keeps the account. */
  lemma StepKeepsAccount(s: State, step: Step)
    requires Accounted(s) && s.isOpen && Enabled(s, step) && !step.Clear? && !step.Close?
    requires !step.BroadcastConsumers? && !step.BroadcastProducers?
    ensures Accounted(Apply(s, step)) && Apply(s, step).isOpen
  {
    match step
    case Push(p, item, c) => PushKeepsAccount(s, p, item, c);
    case PushAgain(p, c) => PushKeepsAccount(s, p, s.producers[p].item, c);
    case Pop(c, p) => PopKeepsAccount(s, c, false, p);
    case PopAgain(c, p) => PopKeepsAccount(s, c, true, p);
    case WakeConsumer(c) => ConsumerCounts(s.consumers, c, Woken);
    case WakeProducer(p) => ProducerCounts(s.producers, p, Roused(s.producers[p].item));
  }

  ghost predicate Ordinary(step: Step) {
    !step.Clear? && !step.Close? && !step.BroadcastConsumers? && !step.BroadcastProducers?
  }

  lemma {:induction false} AlwaysAccounted(s: State, steps: seq<Step>)
    requires Accounted(s) && s.isOpen && Runnable(s, steps)
    requires forall i :: 0 <= i < |steps| ==> Ordinary(steps[i])
    ensures Accounted(After(s, steps)) && After(s, steps).isOpen
    decreases |steps|
  {
    if steps != [] {
      StepKeepsAccount(s, steps[0]);
      AlwaysAccounted(Apply(s, steps[0]), steps[1..]);
    }
  }

  lemma {:induction false} NobodyThere(cs: seq<Consumer>, ps: seq<Producer>)
    requires forall i :: 0 <= i < |cs| ==> cs[i] == Away
    requires forall i :: 0 <= i < |ps| ==> ps[i] == Idle
    ensures Count(cs, IsAsleep) == 0 && Count(ps, IsBlocked) == 0
    decreases |cs| + |ps|
  {
    if cs != [] {
      NobodyThere(cs[1..], ps);
    } else if ps != [] {
      NobodyThere(cs, ps[1..]);
    }
  }

  /** On every open run from the start, while somebody waits there is nothing for him that is not
      already promised to a woken caller. */
  lemma OpenQueueLosesNoWakeup(start: State, steps: seq<Step>)
    requires Initial(start) && Runnable(start, steps)
    requires forall i :: 0 <= i < |steps| ==> Ordinary(steps[i])
    ensures Accounted(After(start, steps))
  {
    NobodyThere(start.consumers, start.producers);
    AlwaysAccounted(start, steps);
  }

  // ----- clear and Close -----

  /** clear notifies no producer. It keeps the account exactly when no producer waits or as many are
      woken already as the queue has places. */
  lemma ClearKeepsAccountIff(s: State)
    requires Accounted(s)
    ensures Accounted(Apply(s, Clear)) <==>
              !ProducerWaits(s) || s.capability <= Count(s.producers, IsRoused)
  {
  }

  /** One producer, one place: the second push waits, and after clear it still waits, with the place
      free and nobody woken. */
  lemma ClearStrandsProducer()
    ensures
      var start := State(1, true, [], [], [Idle, Idle], 0, 0, [], []);
      var steps := [Push(0, 7, 0), Push(1, 8, 0), Clear];
      && Initial(start) && Runnable(start, steps)
      && var s := After(start, steps);
         s.dq == [] && s.producers == [Idle, Blocked(8)] && !Accounted(s)
  {
    var start := State(1, true, [], [], [Idle, Idle], 0, 0, [], []);
    var full := Apply(start, Push(0, 7, 0));
    assert full.dq == [7] && full.producers == [Idle, Idle];
    var blocked := Apply(full, Push(1, 8, 0));
    assert blocked.producers == [Idle, Blocked(8)];
    CountedIsThere(blocked.producers, 1, IsBlocked);
    assert Count([Idle, Blocked(8)], IsRoused) == 0 by {
      assert Count([Blocked(8)], IsRoused) == 0;
    }
    RunOfThree(start, Push(0, 7, 0), Push(1, 8, 0), Clear);
  }

  lemma RunOfThree(s: State, a: Step, b: Step, c: Step)
    requires Enabled(s, a) && Enabled(Apply(s, a), b) && Enabled(Apply(Apply(s, a), b), c)
    ensures Runnable(s, [a, b, c]) && After(s, [a, b, c]) == Apply(Apply(Apply(s, a), b), c)
  {
    var s1, s2 := Apply(s, a), Apply(Apply(s, a), b);
    assert [a, b, c][1..] == [b, c] && [b, c][1..] == [c] && [c][1..] == [];
    assert Runnable(s2, [c]) && After(s2, [c]) == Apply(s2, c);
    assert Runnable(s1, [b, c]) && After(s1, [b, c]) == After(s2, [c]);
  }

  /** A call of pop_front returns without waiting exactly when there is something queued, whether the
      queue is open or closed: only callers woken from a wait notice that it is closed. */
  lemma FreshPopWaitsIff(s: State, c: nat, p: nat)
    requires Enabled(s, Pop(c, p))
    ensures Apply(s, Pop(c, p)).consumers[c].Asleep? <==> s.dq == []
  {
  }

  /** What a call of push_back does, open or closed: its loop test does not look at the status. */
  lemma PushIgnoresStatus(s: State, p: nat, item: Item, c: nat)
    requires Enabled(s, Push(p, item, c))
    ensures var s' := Apply(s, Push(p, item, c));
            && s'.isOpen == s.isOpen && s'.exits == s.exits
            && if |s.dq| < s.capability
               then s'.dq == s.dq + [item] && s'.pushed == s.pushed + [item] && s'.producers[p].Idle?
               else s'.dq == s.dq && s'.pushed == s.pushed && s'.producers[p] == Blocked(item)
  {
  }

  /** How items come out: a pop delivers the oldest one unless it waits or is refused, clear and Close
      drop all there are, and nothing else lets any out. */
  lemma ExitsAre(s: State, step: Step)
    requires Enabled(s, step)
    ensures var s' := Apply(s, step);
            && (step.Clear? || step.Close? ==>
                  s'.dq == [] && |s'.exits| == |s.exits| + |s.dq| && s'.exits[..|s.exits|] == s.exits
                  && forall i :: 0 <= i < |s.dq| ==> s'.exits[|s.exits| + i] == Dropped(s.dq[i]))
            && (step.Pop? && s.dq != [] ==>
                  s'.exits == s.exits + [Delivered(s.dq[0])] && s'.consumers[step.c].Away?)
            && (step.PopAgain? && s.dq != [] && s.isOpen ==>
                  s'.exits == s.exits + [Delivered(s.dq[0])] && s'.consumers[step.c].Away?)
            && (!step.Clear? && !step.Close? && !step.Pop? && !step.PopAgain? ==> s'.exits == s.exits)
            && (s'.isOpen <==> s.isOpen && !step.Close?)
  {
    DropAllDrops(s.dq);
  }

  lemma {:induction false} DropAllDrops(items: seq<Item>)
    ensures forall i :: 0 <= i < |items| ==> DropAll(items)[i] == Dropped(items[i])
  {
    if items != [] {
      DropAllDrops(items[1..]);
      forall i | 0 <= i < |items| ensures DropAll(items)[i] == Dropped(items[i]) {
        if i > 0 {
          assert DropAll(items)[i] == DropAll(items[1..])[i - 1];
        }
      }
    }
  }

  /** A caller that wakes tries again, and nothing else happens. */
  lemma WakingOnlyWakes(s: State, i: nat)
    ensures i < |s.consumers| && s.consumers[i].Asleep? ==>
              Enabled(s, WakeConsumer(i)) && Apply(s, WakeConsumer(i)) == s.(consumers := s.consumers[i := Woken])
    ensures i < |s.producers| && s.producers[i].Blocked? ==>
              Enabled(s, WakeProducer(i)) && Apply(s, WakeProducer(i)).producers[i] == Roused(s.producers[i].item)
  {
  }

  // ----- A producer that waits keeps its item -----

  ghost predicate HoldsItem(s: State, p: nat, item: Item) {
    p < |s.producers| && (s.producers[p] == Blocked(item) || s.producers[p] == Roused(item))
  }

  lemma {:induction false} AllRousedAt(ps: seq<Producer>)
    ensures |AllRoused(ps)| == |ps|
    ensures forall i :: 0 <= i < |ps| ==> AllRoused(ps)[i] == if ps[i].Blocked? then Roused(ps[i].item) else ps[i]
  {
    if ps != [] {
      AllRousedAt(ps[1..]);
      forall i | 0 <= i < |ps| ensures AllRoused(ps)[i] == if ps[i].Blocked? then Roused(ps[i].item) else ps[i] {
        if i > 0 {
          assert AllRoused(ps)[i] == AllRoused(ps[1..])[i - 1];
        }
      }
    }
  }

  /** The item a call of push_back came with is the one that it puts in, however long it waited: it
      gives it up only to the back of the queue. */
  lemma HeldItemStep(s: State, step: Step, p: nat, item: Item)
    requires HoldsItem(s, p, item) && Enabled(s, step)
    ensures var s' := Apply(s, step);
            && s.pushed <= s'.pushed && p < |s'.producers|
            && (HoldsItem(s', p, item)
                || (s'.producers[p].Idle? && s'.dq == s.dq + [item] && s'.pushed == s.pushed + [item]))
            && (step.PushAgain? && step.p == p && |s.dq| < s.capability ==> s'.pushed == s.pushed + [item])
  {
    AllRousedAt(s.producers);
  }

  lemma PushedGrows(s: State, step: Step)
    requires Enabled(s, step)
    ensures s.pushed <= Apply(s, step).pushed
  {
  }

  lemma {:induction false} PushedGrowsRun(s: State, steps: seq<Step>)
    requires Runnable(s, steps)
    ensures s.pushed <= After(s, steps).pushed
    decreases |steps|
  {
    hide Enabled, Apply;
    if steps != [] {
      PushedGrows(s, steps[0]);
      PushedGrowsRun(Apply(s, steps[0]), steps[1..]);
    }
  }

  /** Along any run a waiting producer still has its item, or it was pushed in the meantime. */
  lemma {:induction false} HeldItemComesThrough(s: State, steps: seq<Step>, p: nat, item: Item)
    requires HoldsItem(s, p, item) && Runnable(s, steps)
    ensures var s' := After(s, steps);
            s.pushed <= s'.pushed && (HoldsItem(s', p, item) || item in s'.pushed[|s.pushed|..])
    decreases |steps|
  {
    hide Enabled, Apply, HoldsItem;
    PushedGrowsRun(s, steps);
    if steps != [] {
      var s1, s' := Apply(s, steps[0]), After(s, steps);
      HeldItemStep(s, steps[0], p, item);
      PushedGrowsRun(s1, steps[1..]);
      if HoldsItem(s1, p, item) {
        HeldItemComesThrough(s1, steps[1..], p, item);
        if item in s'.pushed[|s1.pushed|..] {
          var i :| |s1.pushed| <= i < |s'.pushed| && s'.pushed[i] == item;
          assert s'.pushed[|s.pushed|..][i - |s.pushed|] == item;
        }
      } else {
        assert s'.pushed[|s.pushed|] == s1.pushed[|s.pushed|] == item;
        assert s'.pushed[|s.pushed|..][0] == item;
      }
    }
  }

  // ----- Close ends every wait -----

  /** Caller `c` waits, or is back from its wait, on a closed queue whose broadcast reaches it. */
  ghost predicate Leaving(s: State, c: nat) {
    && !s.isOpen && c < |s.consumers|
    && (s.consumers[c].Woken? || (s.consumers[c].Asleep? && s.consumerBroadcasts > 0))
  }

  ghost predicate ReturnOf(step: Step, c: nat) {
    step.PopAgain? && step.c == c
  }

  lemma {:induction false} AllWokenAt(cs: seq<Consumer>)
    ensures |AllWoken(cs)| == |cs|
    ensures forall i :: 0 <= i < |cs| ==> AllWoken(cs)[i] == if cs[i].Asleep? then Woken else cs[i]
  {
    if cs != [] {
      AllWokenAt(cs[1..]);
      forall i | 0 <= i < |cs| ensures AllWoken(cs)[i] == if cs[i].Asleep? then Woken else cs[i] {
        if i > 0 {
          assert AllWoken(cs)[i] == AllWoken(cs[1..])[i - 1];
        }
      }
    }
  }

  /** It goes on leaving until it comes back from its wait; then it is gone, with nothing. */
  lemma LeavingStep(s: State, step: Step, c: nat)
    requires Leaving(s, c) && Enabled(s, step)
    ensures var s' := Apply(s, step);
            if ReturnOf(step, c) then s'.consumers[c].Away? && s'.dq == s.dq && s'.exits == s.exits
            else Leaving(s', c) && (step.BroadcastConsumers? ==> s'.consumers[c].Woken?)
  {
    AllWokenAt(s.consumers);
  }

  lemma {:induction false} LeavingRun(s: State, steps: seq<Step>, c: nat)
    requires Leaving(s, c) && Runnable(s, steps)
    requires forall i :: 0 <= i < |steps| ==> !ReturnOf(steps[i], c)
    ensures Leaving(After(s, steps), c)
    decreases |steps|
  {
    hide Leaving, Enabled, Apply;
    if steps != [] {
      LeavingStep(s, steps[0], c);
      LeavingRun(Apply(s, steps[0]), steps[1..], c);
    }
  }

  /** Close ends every wait: whoever waits when it is called, or is back from a wait, and whatever is
      pushed in between, once the broadcast is out the caller can go on, and its next step makes it
      leave with nothing. */
  lemma CloseEndsEveryWait(s: State, steps: seq<Step>, c: nat, p: nat)
    requires c < |s.consumers| && !s.consumers[c].Away?
    requires Runnable(Apply(s, Close), steps)
    requires forall i :: 0 <= i < |steps| ==> !ReturnOf(steps[i], c)
    ensures var s' := After(Apply(s, Close), steps);
            && (s'.consumerBroadcasts == 0 ==> c < |s'.consumers| && s'.consumers[c].Woken?)
            && (Enabled(s', PopAgain(c, p)) ==>
                  var gone := Apply(s', PopAgain(c, p));
                  gone.consumers[c].Away? && gone.exits == s'.exits && gone.dq == s'.dq)
  {
    LeavingRun(Apply(s, Close), steps, c);
    var s' := After(Apply(s, Close), steps);
    if Enabled(s', PopAgain(c, p)) {
      LeavingStep(s', PopAgain(c, p), c);
    }
  }

  /** On a closed queue, as many returns as there are woken callers leave nobody on the way, and
      deliver nothing. */
  lemma {:induction false} ReturnsEmptyTheRoom(s: State, steps: seq<Step>)
    requires !s.isOpen && Runnable(s, steps) && forall i :: 0 <= i < |steps| ==> steps[i].PopAgain?
    ensures var s' := After(s, steps);
            && Count(s'.consumers, IsWoken) + |steps| == Count(s.consumers, IsWoken)
            && Count(s'.consumers, IsAsleep) == Count(s.consumers, IsAsleep)
            && s'.exits == s.exits && s'.dq == s.dq
    decreases |steps|
  {
    if steps != [] {
      ConsumerCounts(s.consumers, steps[0].c, Away);
      hide Count;
      ReturnsEmptyTheRoom(Apply(s, steps[0]), steps[1..]);
    }
  }

  /** The producers' broadcast leaves no producer waiting. */
  lemma BroadcastRousesAll(s: State)
    requires s.producerBroadcasts > 0
    ensures Count(Apply(s, BroadcastProducers).producers, IsBlocked) == 0
  {
    AllRousedAwake(s.producers);
  }

  /** Nobody pushes, closes the queue again, or wakes `c` spuriously. */
  ghost predicate LeavesQueueEmpty(steps: seq<Step>, c: nat) {
    forall i :: 0 <= i < |steps| ==>
      !steps[i].Push? && !steps[i].PushAgain? && steps[i] != WakeConsumer(c) && !steps[i].Close?
  }

  /** A consumer that starts to wait on a closed queue after the broadcast sleeps on until something
      is pushed, it wakes spuriously, or the queue is closed once more. */
  lemma {:induction false} ClosedQueueLeavesAsleep(s: State, steps: seq<Step>, c: nat)
    requires !s.isOpen && s.consumerBroadcasts == 0 && c < |s.consumers| && s.consumers[c].Asleep?
    requires Runnable(s, steps)
    requires LeavesQueueEmpty(steps, c)
    ensures c < |After(s, steps).consumers| && After(s, steps).consumers[c].Asleep?
    decreases |steps|
  {
    if steps != [] {
      ClosedQueueLeavesAsleep(Apply(s, steps[0]), steps[1..], c);
    }
  }

  /** One consumer, which calls pop_front only after the queue was closed and the broadcast went out. */
  const ONE_AWAY: State := State(1, true, [], [Away], [], 0, 0, [], [])
  const CLOSED: State := State(1, false, [], [Away], [], 1, 1, [], [])
  const TOLD: State := State(1, false, [], [Away], [], 0, 1, [], [])
  const LATE: State := State(1, false, [], [Asleep], [], 0, 1, [], [])

  lemma OneAwayCloses()
    ensures Enabled(ONE_AWAY, Close) && Apply(ONE_AWAY, Close) == CLOSED
  {
    assert DropAll([]) == [];
  }

  lemma ClosedIsTold()
    ensures Enabled(CLOSED, BroadcastConsumers) && Apply(CLOSED, BroadcastConsumers) == TOLD
  {
    assert AllWoken([]) == [];
    assert AllWoken([Away]) == [Away] by {
      assert [Away][1..] == [];
    }
  }

  lemma ToldPops()
    ensures Enabled(TOLD, Pop(0, 0)) && Apply(TOLD, Pop(0, 0)) == LATE
  {
    assert Count<Producer>([], IsBlocked) == 0;
    assert [Away][0 := Asleep] == [Asleep];
  }

  lemma CloseThenPop()
    ensures var steps := [Close, BroadcastConsumers, Pop(0, 0)];
            Runnable(ONE_AWAY, steps) && After(ONE_AWAY, steps) == LATE
  {
    hide Enabled, Apply, Runnable, After;
    OneAwayCloses();
    ClosedIsTold();
    ToldPops();
    RunOfThree(ONE_AWAY, Close, BroadcastConsumers, Pop(0, 0));
  }

  /** That consumer falls asleep, and sleeps on along every run that leaves the queue empty. */
  lemma LatePopFallsAsleep()
    ensures Initial(ONE_AWAY)
    ensures var steps := [Close, BroadcastConsumers, Pop(0, 0)];
            Runnable(ONE_AWAY, steps) && After(ONE_AWAY, steps) == LATE && LATE.consumers[0].Asleep?
    ensures forall more :: Runnable(LATE, more) && LeavesQueueEmpty(more, 0) ==>
              |After(LATE, more).consumers| > 0 && After(LATE, more).consumers[0].Asleep?
  {
    hide Runnable, After;
    CloseThenPop();
    forall more | Runnable(LATE, more) && LeavesQueueEmpty(more, 0)
      ensures |After(LATE, more).consumers| > 0 && After(LATE, more).consumers[0].Asleep?
    {
      ClosedQueueLeavesAsleep(LATE, more, 0);
    }
  }

  /** The broadcasts of Close leave nobody waiting. */
  lemma BroadcastsWakeAll(s: State)
    ensures Count(AllWoken(s.consumers), IsAsleep) == 0
    ensures Count(AllRoused(s.producers), IsBlocked) == 0
  {
    AllWokenAwake(s.consumers);
    AllRousedAwake(s.producers);
  }

  lemma {:induction false} AllWokenAwake(cs: seq<Consumer>)
    ensures Count(AllWoken(cs), IsAsleep) == 0
  {
    if cs != [] {
      AllWokenAwake(cs[1..]);
      assert AllWoken(cs)[1..] == AllWoken(cs[1..]);
    }
  }

  lemma {:induction false} AllRousedAwake(ps: seq<Producer>)
    ensures Count(AllRoused(ps), IsBlocked) == 0
  {
    if ps != [] {
      AllRousedAwake(ps[1..]);
      assert AllRoused(ps)[1..] == AllRoused(ps[1..]);
    }
  }
}
