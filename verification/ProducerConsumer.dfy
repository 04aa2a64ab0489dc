/** The bounded-buffer program of hw2/producer_consumer.c.

    `Ring` holds the shared variables and runs the mutex-held sections of the two
    thread bodies. `State` and `Next` interleave those sections: one step is one
    section, from taking the mutex to giving it up by waiting or unlocking. */
module ProducerConsumer {
  import opened CondThreads
  import opened Rings

  /** The command line: at least one thread of each kind and a positive capacity. */
  datatype Config = Config(producers: nat, consumers: nat, items: int, capacity: nat) {
    ghost predicate Valid() {
      producers >= 1 && consumers >= 1 && capacity >= 1
    }
    function Target(): nat {
      if items > 0 then items else 0
    }
  }

  /** What a section decides: wait on the condition variable, terminate, or move one item. */
  datatype Action = Sleep | Leave | Move

  function ProducerAction(c: Config, len: nat, produced: nat): Action {
    if len == c.capacity && produced < c.items then Sleep
    else if produced >= c.items then Leave
    else Move
  }

  function ConsumerAction(c: Config, len: nat, consumed: nat): Action {
    if len == 0 && consumed < c.items then Sleep
    else if consumed >= c.items then Leave
    else Move
  }

  class Ring {
    const cfg: Config
    const queue: array<int>
    var head: nat
    var tail: nat
    var len: nat
    var produced: nat
    var consumed: nat

    ghost predicate Valid()
      reads this, queue
    {
      && cfg.Valid() && queue.Length == cfg.capacity
      && head < queue.Length && tail < queue.Length && len <= queue.Length
      && tail == Wrap(head, len, queue.Length)
      && produced == consumed + len
    }

    /** The buffered items, oldest first. */
    ghost function Items(): seq<int>
      requires Valid()
      reads this, queue
    {
      Slots(queue[..], head, len)
    }

    constructor (c: Config)
      requires c.Valid()
      ensures Valid() && cfg == c && fresh(queue)
      ensures Items() == [] && produced == 0 && consumed == 0
    {
      cfg := c;
      queue := new int[c.capacity];
      head, tail, len, produced, consumed := 0, 0, 0, 0, 0;
    }

    method ProducerSection(id: int) returns (act: Action)
      requires Valid()
      modifies this, queue
      ensures Valid() && consumed == old(consumed)
      ensures act == ProducerAction(cfg, old(|Items()|), old(produced))
      ensures act.Move? ==> Items() == old(Items()) + [id] && produced == old(produced) + 1
      ensures !act.Move? ==> Items() == old(Items()) && produced == old(produced)
    {
      if len == cfg.capacity && produced < cfg.items {
        return Sleep;
      }
      if produced >= cfg.items {
        return Leave;
      }
      Append(queue[..], head, len, id);
      StepIndex(tail, cfg.capacity);
      WrapStep(head, len, cfg.capacity);
      queue[tail] := id;
      tail := (tail + 1) % cfg.capacity;
      len := len + 1;
      produced := produced + 1;
      act := Move;
    }

    method ConsumerSection() returns (act: Action, item: int)
      requires Valid()
      modifies this
      ensures Valid() && produced == old(produced)
      ensures act == ConsumerAction(cfg, old(|Items()|), old(consumed))
      ensures act.Move? ==> old(Items()) == [item] + Items() && consumed == old(consumed) + 1
      ensures !act.Move? ==> Items() == old(Items()) && consumed == old(consumed)
    {
      item := 0;
      if len == 0 && consumed < cfg.items {
        act := Sleep;
        return;
      }
      if consumed >= cfg.items {
        act := Leave;
        return;
      }
      Pop(queue[..], head, len);
      StepIndex(head, cfg.capacity);
      WrapStep(head, len - 1, cfg.capacity);
      item := queue[head];
      head := (head + 1) % cfg.capacity;
      len := len - 1;
      consumed := consumed + 1;
      act := Move;
    }
  }

  /** One phase per thread, the shared counters and buffer, and what has been put and taken so far. */
  datatype State = State(prod: seq<Phase>, cons: seq<Phase>, queue: seq<int>,
                         produced: nat, consumed: nat, put: seq<int>, took: seq<int>)

  /** Which thread runs its section next, or a spurious return from a condition wait. */
  datatype Event = Produce(i: nat) | Consume(i: nat) | Spurious

  ghost predicate Init(c: Config, s: State) {
    && |s.prod| == c.producers && (forall i :: 0 <= i < |s.prod| ==> s.prod[i].Ready?)
    && |s.cons| == c.consumers && (forall i :: 0 <= i < |s.cons| ==> s.cons[i].Ready?)
    && s.queue == [] && s.produced == 0 && s.consumed == 0 && s.put == [] && s.took == []
  }

  ghost predicate ProduceStep(c: Config, s: State, i: nat, t: State) {
    && i < |s.prod| && Awake(s.prod[i])
    && match ProducerAction(c, |s.queue|, s.produced)
       case Sleep => t == s.(prod := s.prod[i := Waiting])
       case Leave => BroadcastFrom(s.prod[i := Done], t.prod) && t == s.(prod := t.prod)
       case Move =>
         && SignalFrom(s.cons, t.cons)
         && t == s.(prod := s.prod[i := Ready], cons := t.cons, queue := s.queue + [i],
                    produced := s.produced + 1, put := s.put + [i])
  }

  ghost predicate ConsumeStep(c: Config, s: State, i: nat, t: State) {
    && i < |s.cons| && Awake(s.cons[i])
    && match ConsumerAction(c, |s.queue|, s.consumed)
       case Sleep => t == s.(cons := s.cons[i := Waiting])
       case Leave => BroadcastFrom(s.cons[i := Done], t.cons) && t == s.(cons := t.cons)
       case Move =>
         && s.queue != [] && SignalFrom(s.prod, t.prod)
         && t == s.(cons := s.cons[i := Ready], prod := t.prod, queue := s.queue[1..],
                    consumed := s.consumed + 1, took := s.took + [s.queue[0]])
  }

  ghost predicate Next(c: Config, s: State, e: Event, t: State) {
    match e
    case Produce(i) => ProduceStep(c, s, i, t)
    case Consume(i) => ConsumeStep(c, s, i, t)
    case Spurious => Woken(s.prod, t.prod) && Woken(s.cons, t.cons) && t == s.(prod := t.prod, cons := t.cons)
  }

  /** A run: the states it goes through and the events between them. */
  ghost predicate Run(c: Config, ss: seq<State>, es: seq<Event>) {
    && |ss| == |es| + 1 && Init(c, ss[0])
    && forall k :: 0 <= k < |es| ==> Next(c, ss[k], es[k], ss[k + 1])
  }

  ghost predicate AllDone(s: State) {
    && (forall i :: 0 <= i < |s.prod| ==> s.prod[i].Done?)
    && (forall i :: 0 <= i < |s.cons| ==> s.cons[i].Done?)
  }

  /** The counters and the first-in first-out order of the items. */
  ghost predicate Accounting(c: Config, s: State) {
    && |s.prod| == c.producers && |s.cons| == c.consumers
    && s.produced == s.consumed + |s.queue| && |s.queue| <= c.capacity && s.produced <= c.Target()
    && s.put == s.took + s.queue && |s.took| == s.consumed
  }

  /** No wakeup is lost: every item has a signalled consumer when one still waits, every free slot a
      signalled producer, and the last threads to finish are woken by one that has yet to finish. */
  ghost predicate Wakeups(c: Config, s: State) {
    && (Waiting in s.cons ==> Count(s.cons, Signalled) >= |s.queue|)
    && (Waiting in s.prod ==> Count(s.prod, Signalled) >= c.capacity - |s.queue|)
    && (Waiting in s.cons && s.consumed >= c.items ==> AwakeCount(s.cons) > 0)
    && (Waiting in s.prod && s.produced >= c.items ==> AwakeCount(s.prod) > 0)
    && (Done in s.cons ==> s.consumed >= c.items)
    && (Done in s.prod ==> s.produced >= c.items)
  }

  ghost predicate Inv(c: Config, s: State) {
    Accounting(c, s) && Wakeups(c, s)
  }

  /** Work left: items still to be put and taken, and threads still to finish. */
  ghost function Work(c: Config, s: State): nat
    requires Accounting(c, s)
  {
    2 * c.Target() - s.produced - s.consumed + Live(s.prod) + Live(s.cons)
  }

  /** Work left first, then the threads that can still go to sleep. */
  ghost function Measure(c: Config, s: State): nat
    requires Accounting(c, s)
  {
    Work(c, s) * (c.producers + c.consumers + 1) + AwakeCount(s.prod) + AwakeCount(s.cons)
  }

  // ---------------------------------------------------------------- what every step keeps

  lemma InitInv(c: Config, s: State)
    requires c.Valid() && Init(c, s)
    ensures Inv(c, s)
  {
    assert Waiting !in s.prod && Waiting !in s.cons && Done !in s.prod && Done !in s.cons;
  }

  lemma ProduceKeepsInv(c: Config, s: State, i: nat, t: State)
    requires c.Valid() && Inv(c, s) && ProduceStep(c, s, i, t)
    ensures Inv(c, t)
  {
    match ProducerAction(c, |s.queue|, s.produced)
    case Sleep =>
      Recount(s.prod, i, Waiting);
    case Leave =>
      Recount(s.prod, i, Done);
      WokenCounts(s.prod[i := Done], t.prod);
    case Move =>
      Recount(s.prod, i, Ready);
      CountPositive(t.prod, Ready);
      assert t.prod[i] in t.prod;
      assert t.put == t.took + t.queue;
      SignalCounts(s.cons, t.cons);
      WokenCounts(s.cons, t.cons);
      assert Done in t.cons ==> Done in s.cons;
  }

  lemma ConsumeKeepsInv(c: Config, s: State, i: nat, t: State)
    requires c.Valid() && Inv(c, s) && ConsumeStep(c, s, i, t)
    ensures Inv(c, t)
  {
    match ConsumerAction(c, |s.queue|, s.consumed)
    case Sleep =>
      Recount(s.cons, i, Waiting);
    case Leave =>
      Recount(s.cons, i, Done);
      WokenCounts(s.cons[i := Done], t.cons);
    case Move =>
      Recount(s.cons, i, Ready);
      CountPositive(t.cons, Ready);
      assert t.cons[i] in t.cons;
      assert t.put == t.took + t.queue;
      SignalCounts(s.prod, t.prod);
      WokenCounts(s.prod, t.prod);
      assert Done in t.prod ==> Done in s.prod;
  }

  lemma NextKeepsInv(c: Config, s: State, e: Event, t: State)
    requires c.Valid() && Inv(c, s) && Next(c, s, e, t)
    ensures Inv(c, t)
  {
    match e
    case Produce(i) => ProduceKeepsInv(c, s, i, t);
    case Consume(i) => ConsumeKeepsInv(c, s, i, t);
    case Spurious =>
      WokenCounts(s.prod, t.prod);
      WokenCounts(s.cons, t.cons);
      assert Done in t.prod ==> Done in s.prod;
      assert Done in t.cons ==> Done in s.cons;
  }

  /** Safety over whole runs, spurious wakeups included. */
  lemma {:induction false} RunKeepsInv(c: Config, ss: seq<State>, es: seq<Event>, k: nat)
    requires c.Valid() && Run(c, ss, es) && k < |ss|
    ensures Inv(c, ss[k])
  {
    if k == 0 {
      InitInv(c, ss[0]);
    } else {
      RunKeepsInv(c, ss, es, k - 1);
      NextKeepsInv(c, ss[k - 1], es[k - 1], ss[k]);
    }
  }

  /** The event puts an item: there is a free slot and there are items left to produce. */
  predicate Puts(c: Config, s: State, e: Event) {
    e.Produce? && |s.queue| < c.capacity && s.produced < c.items
  }

  /** The event takes an item. */
  predicate Takes(c: Config, s: State, e: Event) {
    e.Consume? && |s.queue| > 0 && s.consumed < c.items
  }

  /** The producers of the events before `k` that put an item, in order. */
  ghost function PutBy(c: Config, ss: seq<State>, es: seq<Event>, k: nat): seq<int>
    requires |ss| == |es| + 1 && k <= |es|
  {
    if k == 0 then [] else PutBy(c, ss, es, k - 1) + if Puts(c, ss[k - 1], es[k - 1]) then [es[k - 1].i] else []
  }

  ghost function TakeCount(c: Config, ss: seq<State>, es: seq<Event>, k: nat): nat
    requires |ss| == |es| + 1 && k <= |es|
  {
    if k == 0 then 0 else TakeCount(c, ss, es, k - 1) + if Takes(c, ss[k - 1], es[k - 1]) then 1 else 0
  }

  /** Every item is the number of the producer that put it, and what has been taken is what was put, in that order: at
      any time as many items as there were events that take one. */
  lemma {:induction false} ItemsInOrder(c: Config, ss: seq<State>, es: seq<Event>, k: nat)
    requires c.Valid() && Run(c, ss, es) && k <= |es|
    ensures ss[k].put == PutBy(c, ss, es, k) && |ss[k].took| == TakeCount(c, ss, es, k)
    ensures TakeCount(c, ss, es, k) <= |PutBy(c, ss, es, k)|
    ensures ss[k].took == PutBy(c, ss, es, k)[..TakeCount(c, ss, es, k)]
  {
    hide Wakeups, Next, Puts, Takes;
    RunKeepsInv(c, ss, es, k);
    if k > 0 {
      ItemsInOrder(c, ss, es, k - 1);
      RunKeepsInv(c, ss, es, k - 1);
      StepItems(c, ss[k - 1], es[k - 1], ss[k]);
    }
  }

  lemma StepItems(c: Config, s: State, e: Event, t: State)
    requires Accounting(c, s) && Next(c, s, e, t)
    ensures t.put == s.put + if Puts(c, s, e) then [e.i] else []
    ensures |t.took| == |s.took| + if Takes(c, s, e) then 1 else 0
  {
    hide BroadcastFrom, SignalFrom, Woken;
  }

  // ---------------------------------------------------------------- no deadlock

  /** Any thread that is awake has a step to take. */
  lemma AwakeCanStep(c: Config, s: State, e: Event) returns (t: State)
    requires c.Valid() && Inv(c, s)
    requires e.Produce? ==> e.i < |s.prod| && Awake(s.prod[e.i])
    requires e.Consume? ==> e.i < |s.cons| && Awake(s.cons[e.i])
    requires !e.Spurious?
    ensures Next(c, s, e, t)
  {
    match e
    case Produce(i) =>
      t := match ProducerAction(c, |s.queue|, s.produced)
        case Sleep => s.(prod := s.prod[i := Waiting])
        case Leave => s.(prod := WakeAll(s.prod[i := Done]))
        case Move => s.(prod := s.prod[i := Ready], cons := WakeAll(s.cons), queue := s.queue + [i],
                        produced := s.produced + 1, put := s.put + [i]);
    case Consume(i) =>
      t := match ConsumerAction(c, |s.queue|, s.consumed)
        case Sleep => s.(cons := s.cons[i := Waiting])
        case Leave => s.(cons := WakeAll(s.cons[i := Done]))
        case Move => s.(cons := s.cons[i := Ready], prod := WakeAll(s.prod), queue := s.queue[1..],
                        consumed := s.consumed + 1, took := s.took + [s.queue[0]]);
  }

  /** In every reachable state where some thread has not finished, some thread is awake. */
  lemma SomeoneAwake(c: Config, s: State) returns (e: Event)
    requires c.Valid() && Inv(c, s) && !AllDone(s)
    ensures e.Produce? ==> e.i < |s.prod| && Awake(s.prod[e.i])
    ensures e.Consume? ==> e.i < |s.cons| && Awake(s.cons[e.i])
    ensures !e.Spurious?
  {
    if i :| 0 <= i < |s.prod| && Awake(s.prod[i]) {
      e := Produce(i);
    } else if i :| 0 <= i < |s.cons| && Awake(s.cons[i]) {
      e := Consume(i);
    } else {
      CountPositive(s.prod, Ready);
      CountPositive(s.prod, Signalled);
      CountPositive(s.cons, Ready);
      CountPositive(s.cons, Signalled);
      assert false;
    }
  }

  lemma NoDeadlock(c: Config, ss: seq<State>, es: seq<Event>) returns (e: Event, t: State)
    requires c.Valid() && Run(c, ss, es) && !AllDone(ss[|es|])
    ensures !e.Spurious? && Next(c, ss[|es|], e, t)
  {
    RunKeepsInv(c, ss, es, |es|);
    e := SomeoneAwake(c, ss[|es|]);
    t := AwakeCanStep(c, ss[|es|], e);
  }

  // ---------------------------------------------------------------- every run ends

  /** A producer's section moves an item, finishes, or puts itself to sleep. */
  lemma ProduceShrinks(c: Config, s: State, i: nat, t: State)
    requires c.Valid() && Inv(c, s) && Inv(c, t) && ProduceStep(c, s, i, t)
    ensures Work(c, t) < Work(c, s)
            || (Work(c, t) == Work(c, s)
                && AwakeCount(t.prod) + AwakeCount(t.cons) < AwakeCount(s.prod) + AwakeCount(s.cons))
  {
    match ProducerAction(c, |s.queue|, s.produced)
    case Sleep =>
      Recount(s.prod, i, Waiting);
    case Leave =>
      Recount(s.prod, i, Done);
      WokenCounts(s.prod[i := Done], t.prod);
    case Move =>
      Recount(s.prod, i, Ready);
      WokenCounts(s.cons, t.cons);
  }

  lemma ConsumeShrinks(c: Config, s: State, i: nat, t: State)
    requires c.Valid() && Inv(c, s) && Inv(c, t) && ConsumeStep(c, s, i, t)
    ensures Work(c, t) < Work(c, s)
            || (Work(c, t) == Work(c, s)
                && AwakeCount(t.prod) + AwakeCount(t.cons) < AwakeCount(s.prod) + AwakeCount(s.cons))
  {
    match ConsumerAction(c, |s.queue|, s.consumed)
    case Sleep =>
      Recount(s.cons, i, Waiting);
    case Leave =>
      Recount(s.cons, i, Done);
      WokenCounts(s.cons[i := Done], t.cons);
    case Move =>
      Recount(s.cons, i, Ready);
      WokenCounts(s.prod, t.prod);
  }

  lemma StepShrinks(c: Config, s: State, e: Event, t: State)
    requires c.Valid() && Inv(c, s) && Next(c, s, e, t) && !e.Spurious?
    ensures Inv(c, t) && Measure(c, t) < Measure(c, s)
  {
    NextKeepsInv(c, s, e, t);
    match e {
      case Produce(i) => ProduceShrinks(c, s, i, t);
      case Consume(i) => ConsumeShrinks(c, s, i, t);
    }
    CountTotal(t.prod);
    CountTotal(t.cons);
    Lexicographic(Work(c, t), AwakeCount(t.prod) + AwakeCount(t.cons),
                  Work(c, s), AwakeCount(s.prod) + AwakeCount(s.cons), c.producers + c.consumers + 1);
  }

  /** Without spurious wakeups a run has at most `Measure` steps of its first state left in it. */
  lemma {:induction false} RunIsBounded(c: Config, ss: seq<State>, es: seq<Event>, k: nat)
    requires c.Valid() && Run(c, ss, es) && Spurious !in es && k < |ss|
    ensures Inv(c, ss[0]) && Inv(c, ss[k]) && k + Measure(c, ss[k]) <= Measure(c, ss[0])
  {
    RunKeepsInv(c, ss, es, 0);
    if k > 0 {
      RunIsBounded(c, ss, es, k - 1);
      StepShrinks(c, ss[k - 1], es[k - 1], ss[k]);
    }
  }

  /** A state all threads have left moved every item once, in order, and left none behind. */
  lemma AllDoneMeansDelivered(c: Config, s: State)
    requires c.Valid() && Inv(c, s) && AllDone(s)
    ensures s.queue == [] && s.took == s.put && |s.took| == c.Target()
  {
    assert s.prod[0] in s.prod && s.cons[0] in s.cons;
  }

  /** The longest a run without spurious wakeups can be. */
  function StepBound(c: Config): nat {
    (2 * c.Target() + c.producers + c.consumers) * (c.producers + c.consumers + 1) + c.producers + c.consumers
  }

  lemma InitialMeasure(c: Config, s: State)
    requires c.Valid() && Init(c, s) && Inv(c, s)
    ensures Measure(c, s) <= StepBound(c)
  {
    CountTotal(s.prod);
    CountTotal(s.cons);
    Scale(Work(c, s), 2 * c.Target() + c.producers + c.consumers, c.producers + c.consumers + 1);
  }

  /** Every run ends: it cannot be longer than a bound fixed by the command line, and one that no
      thread can extend has finished every thread and delivered all items in order. */
  lemma RunsFinish(c: Config, ss: seq<State>, es: seq<Event>)
    requires c.Valid() && Run(c, ss, es) && Spurious !in es
    ensures |es| <= StepBound(c)
    ensures (forall e, t :: Next(c, ss[|es|], e, t) ==> e.Spurious?) ==>
              && AllDone(ss[|es|]) && ss[|es|].queue == []
              && ss[|es|].took == ss[|es|].put && |ss[|es|].took| == c.Target()
  {
    RunIsBounded(c, ss, es, |es|);
    InitialMeasure(c, ss[0]);
    if forall e, t :: Next(c, ss[|es|], e, t) ==> e.Spurious? {
      if !AllDone(ss[|es|]) {
        var e, t := NoDeadlock(c, ss, es);
      }
      AllDoneMeansDelivered(c, ss[|es|]);
    }
  }
}
