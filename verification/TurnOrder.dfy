/** The turn-ordered packet program of hw2/data_to_kernel.c.

    Producer threads have the ids 1..producers and each puts its id in a packet once, in id
    order. Consumer threads drain the packets. One step is one mutex-held section. */
module TurnOrder {
  import opened CondThreads
  import opened Rings

  datatype Config = Config(packets: nat, producers: nat, consumers: nat) {
    ghost predicate Valid() {
      packets >= 1 && producers >= 1 && consumers >= 1
    }
  }

  datatype Action = Sleep | Leave | Move

  function ProducerAction(c: Config, buffered: nat, turn: nat, id: nat): Action {
    if buffered == c.packets || turn != id then Sleep else Move
  }

  function ConsumerAction(c: Config, buffered: nat, turn: nat): Action {
    if buffered != 0 then Move
    else if turn == c.producers + 1 then Leave
    else Sleep
  }

  class Packets {
    const cfg: Config
    const data: array<int>
    var head: nat
    var tail: nat
    var avail: nat
    var turn: nat

    ghost predicate Valid()
      reads this, data
    {
      && cfg.Valid() && data.Length == cfg.packets
      && head < data.Length && avail <= data.Length
      && tail == Wrap(head, data.Length - avail, data.Length)
    }

    ghost function Buffered(): seq<int>
      requires Valid()
      reads this, data
    {
      Slots(data[..], head, data.Length - avail)
    }

    constructor (c: Config)
      requires c.Valid()
      ensures Valid() && cfg == c && fresh(data)
      ensures Buffered() == [] && turn == 1
    {
      cfg := c;
      data := new int[c.packets];
      head, tail, avail, turn := 0, 0, c.packets, 1;
    }

    method ProducerSection(id: nat) returns (act: Action)
      requires Valid()
      modifies this, data
      ensures Valid() && act == ProducerAction(cfg, old(|Buffered()|), old(turn), id)
      ensures act.Move? ==> Buffered() == old(Buffered()) + [id] && turn == old(turn) + 1
      ensures !act.Move? ==> Buffered() == old(Buffered()) && turn == old(turn)
    {
      if avail == 0 || turn != id {
        return Sleep;
      }
      Append(data[..], head, data.Length - avail, id);
      StepIndex(tail, cfg.packets);
      WrapStep(head, data.Length - avail, cfg.packets);
      data[tail] := id;
      tail := (tail + 1) % cfg.packets;
      avail := avail - 1;
      turn := turn + 1;
      act := Move;
    }

    method ConsumerSection() returns (act: Action, served: int)
      requires Valid()
      modifies this
      ensures Valid() && turn == old(turn) && act == ConsumerAction(cfg, old(|Buffered()|), turn)
      ensures act.Move? ==> old(Buffered()) == [served] + Buffered()
      ensures !act.Move? ==> Buffered() == old(Buffered())
    {
      served := 0;
      if avail == cfg.packets {
        if turn == cfg.producers + 1 {
          act := Leave;
          return;
        }
        act := Sleep;
        return;
      }
      Pop(data[..], head, data.Length - avail);
      StepIndex(head, cfg.packets);
      WrapStep(head, data.Length - avail - 1, cfg.packets);
      served := data[head];
      head := (head + 1) % cfg.packets;
      avail := avail + 1;
      act := Move;
    }
  }

  /** Producer `id` is thread `id - 1` of `prod`; `served` lists the ids handed to consumers. */
  datatype State = State(prod: seq<Phase>, cons: seq<Phase>, buffer: seq<int>, turn: nat, served: seq<int>)

  datatype Event = Produce(i: nat) | Consume(i: nat) | Spurious

  ghost predicate Init(c: Config, s: State) {
    && |s.prod| == c.producers && (forall i :: 0 <= i < |s.prod| ==> s.prod[i].Ready?)
    && |s.cons| == c.consumers && (forall i :: 0 <= i < |s.cons| ==> s.cons[i].Ready?)
    && s.buffer == [] && s.turn == 1 && s.served == []
  }

  ghost predicate ProduceStep(c: Config, s: State, i: nat, t: State) {
    && i < |s.prod| && Awake(s.prod[i])
    && match ProducerAction(c, |s.buffer|, s.turn, i + 1)
       case Move =>
         && BroadcastFrom(s.cons, t.cons)
         && t == s.(prod := s.prod[i := Done], cons := t.cons, buffer := s.buffer + [i + 1], turn := s.turn + 1)
       case _ => t == s.(prod := s.prod[i := Waiting])
  }

  ghost predicate ConsumeStep(c: Config, s: State, i: nat, t: State) {
    && i < |s.cons| && Awake(s.cons[i])
    && match ConsumerAction(c, |s.buffer|, s.turn)
       case Sleep => t == s.(cons := s.cons[i := Waiting])
       case Leave => t == s.(cons := s.cons[i := Done])
       case Move =>
         && s.buffer != [] && BroadcastFrom(s.prod, t.prod)
         && t == s.(cons := s.cons[i := Ready], prod := t.prod, buffer := s.buffer[1..],
                    served := s.served + [s.buffer[0]])
  }

  ghost predicate Next(c: Config, s: State, e: Event, t: State) {
    match e
    case Produce(i) => ProduceStep(c, s, i, t)
    case Consume(i) => ConsumeStep(c, s, i, t)
    case Spurious => Woken(s.prod, t.prod) && Woken(s.cons, t.cons) && t == s.(prod := t.prod, cons := t.cons)
  }

  ghost predicate Run(c: Config, ss: seq<State>, es: seq<Event>) {
    && |ss| == |es| + 1 && Init(c, ss[0])
    && forall k :: 0 <= k < |es| ==> Next(c, ss[k], es[k], ss[k + 1])
  }

  ghost predicate AllDone(s: State) {
    && (forall i :: 0 <= i < |s.prod| ==> s.prod[i].Done?)
    && (forall i :: 0 <= i < |s.cons| ==> s.cons[i].Done?)
  }

  /** The ids 1..n in order. */
  function UpTo(n: nat): (r: seq<int>)
    ensures |r| == n && forall k :: 0 <= k < n ==> r[k] == k + 1
  {
    seq(n, k => k + 1)
  }

  /** Ids are served strictly in turn, and a consumer returns only after every producer was served. */
  ghost predicate Ordered(c: Config, s: State) {
    && |s.prod| == c.producers && |s.cons| == c.consumers
    && 1 <= s.turn <= c.producers + 1 && |s.buffer| <= c.packets
    && s.served + s.buffer == UpTo(s.turn - 1)
    && (forall i :: 0 <= i < |s.prod| ==> (s.prod[i].Done? <==> i + 1 < s.turn))
    && (Done in s.cons ==> s.served == UpTo(c.producers))
  }

  /** A packet with data leaves no consumer waiting, free packets leave the next producer awake, and
      the last producer has woken everyone. */
  ghost predicate Wakeups(c: Config, s: State)
    requires Ordered(c, s)
  {
    && (s.buffer != [] ==> Waiting !in s.cons)
    && (s.buffer == [] && s.turn <= c.producers ==> !s.prod[s.turn - 1].Waiting?)
    && (s.turn == c.producers + 1 ==> Waiting !in s.cons)
  }

  ghost predicate Inv(c: Config, s: State) {
    Ordered(c, s) && Wakeups(c, s)
  }

  lemma ProduceKeepsInv(c: Config, s: State, i: nat, t: State)
    requires c.Valid() && Inv(c, s) && ProduceStep(c, s, i, t)
    ensures Inv(c, t)
  {
    if ProducerAction(c, |s.buffer|, s.turn, i + 1).Move? {
      assert t.served + t.buffer == (s.served + s.buffer) + [i + 1] == UpTo(t.turn - 1);
      assert Done in t.cons ==> Done in s.cons;
    }
  }

  lemma ConsumeKeepsInv(c: Config, s: State, i: nat, t: State)
    requires c.Valid() && Inv(c, s) && ConsumeStep(c, s, i, t)
    ensures Inv(c, t)
  {
    match ConsumerAction(c, |s.buffer|, s.turn)
    case Sleep =>
    case Leave => assert s.served + s.buffer == s.served;
    case Move => assert t.served + t.buffer == s.served + s.buffer;
  }

  lemma NextKeepsInv(c: Config, s: State, e: Event, t: State)
    requires c.Valid() && Inv(c, s) && Next(c, s, e, t)
    ensures Inv(c, t)
  {
    match e
    case Produce(i) => ProduceKeepsInv(c, s, i, t);
    case Consume(i) => ConsumeKeepsInv(c, s, i, t);
    case Spurious => assert Done in t.cons ==> Done in s.cons;
  }

  /** Order and wakeups over whole runs, spurious wakeups included. */
  lemma {:induction false} RunKeepsInv(c: Config, ss: seq<State>, es: seq<Event>, k: nat)
    requires c.Valid() && Run(c, ss, es) && k < |ss|
    ensures Inv(c, ss[k])
  {
    if k == 0 {
      assert Waiting !in ss[0].cons && Done !in ss[0].cons;
    } else {
      RunKeepsInv(c, ss, es, k - 1);
      NextKeepsInv(c, ss[k - 1], es[k - 1], ss[k]);
    }
  }

  /** Some thread is awake in every reachable state that is not finished: a consumer when a packet holds
      data or all producers are through, otherwise the producer whose turn it is. */
  lemma SomeoneCanStep(c: Config, s: State) returns (e: Event, t: State)
    requires c.Valid() && Inv(c, s) && !AllDone(s)
    ensures !e.Spurious? && Next(c, s, e, t)
  {
    if s.buffer != [] {
      assert s.cons[0] in s.cons;
      assert |s.served| + |s.buffer| == |s.served + s.buffer| <= c.producers;
      assert Done !in s.cons;
      e := Consume(0);
      t := s.(cons := s.cons[0 := Ready], prod := WakeAll(s.prod), buffer := s.buffer[1..],
              served := s.served + [s.buffer[0]]);
    } else if s.turn <= c.producers {
      var i := s.turn - 1;
      e := Produce(i);
      t := s.(prod := s.prod[i := Done], cons := WakeAll(s.cons), buffer := s.buffer + [i + 1], turn := s.turn + 1);
    } else {
      var i :| 0 <= i < |s.cons| && !s.cons[i].Done?;
      assert s.cons[i] in s.cons;
      e, t := Consume(i), s.(cons := s.cons[i := Done]);
    }
  }

  /** Packets still to be put and taken, and consumers still to return. */
  ghost function Work(c: Config, s: State): nat
    requires Ordered(c, s)
  {
    (c.producers + 1 - s.turn) + (c.producers - |s.served|) + Live(s.cons)
  }

  ghost function Measure(c: Config, s: State): nat
    requires Ordered(c, s)
  {
    Work(c, s) * (c.producers + c.consumers + 1) + AwakeCount(s.prod) + AwakeCount(s.cons)
  }

  lemma ProduceShrinks(c: Config, s: State, i: nat, t: State)
    requires c.Valid() && Inv(c, s) && Inv(c, t) && ProduceStep(c, s, i, t)
    ensures Work(c, t) < Work(c, s)
            || (Work(c, t) == Work(c, s)
                && AwakeCount(t.prod) + AwakeCount(t.cons) < AwakeCount(s.prod) + AwakeCount(s.cons))
  {
    if ProducerAction(c, |s.buffer|, s.turn, i + 1).Move? {
      WokenCounts(s.cons, t.cons);
    } else {
      Recount(s.prod, i, Waiting);
    }
  }

  lemma ConsumeShrinks(c: Config, s: State, i: nat, t: State)
    requires c.Valid() && Inv(c, s) && Inv(c, t) && ConsumeStep(c, s, i, t)
    ensures Work(c, t) < Work(c, s)
            || (Work(c, t) == Work(c, s)
                && AwakeCount(t.prod) + AwakeCount(t.cons) < AwakeCount(s.prod) + AwakeCount(s.cons))
  {
    match ConsumerAction(c, |s.buffer|, s.turn)
    case Sleep => Recount(s.cons, i, Waiting);
    case Leave => Recount(s.cons, i, Done);
    case Move => Recount(s.cons, i, Ready);
  }

  lemma StepShrinks(c: Config, s: State, e: Event, t: State)
    requires c.Valid() && Inv(c, s) && Next(c, s, e, t) && !e.Spurious?
    ensures Inv(c, t) && Measure(c, t) < Measure(c, s)
  {
    NextKeepsInv(c, s, e, t);
    match e {
      case Produce(i) => ProduceShrinks(c, s, i, t);
      case Consume(i) => ConsumeShrinks(c, s, i, t);
    }
    CountTotal(t.prod);
    CountTotal(t.cons);
    Lexicographic(Work(c, t), AwakeCount(t.prod) + AwakeCount(t.cons),
                  Work(c, s), AwakeCount(s.prod) + AwakeCount(s.cons), c.producers + c.consumers + 1);
  }

  lemma {:induction false} RunIsBounded(c: Config, ss: seq<State>, es: seq<Event>, k: nat)
    requires c.Valid() && Run(c, ss, es) && Spurious !in es && k < |ss|
    ensures Inv(c, ss[0]) && Inv(c, ss[k]) && k + Measure(c, ss[k]) <= Measure(c, ss[0])
  {
    RunKeepsInv(c, ss, es, 0);
    if k > 0 {
      RunIsBounded(c, ss, es, k - 1);
      StepShrinks(c, ss[k - 1], es[k - 1], ss[k]);
    }
  }

  function StepBound(c: Config): nat {
    (2 * c.producers + c.consumers) * (c.producers + c.consumers + 1) + c.producers + c.consumers
  }

  lemma InitialMeasure(c: Config, s: State)
    requires c.Valid() && Init(c, s) && Inv(c, s)
    ensures Measure(c, s) <= StepBound(c)
  {
    CountTotal(s.prod);
    CountTotal(s.cons);
    Scale(Work(c, s), 2 * c.producers + c.consumers, c.producers + c.consumers + 1);
  }

  /** Every run without spurious wakeups ends, and one that cannot be extended has served 1..producers. */
  lemma RunsFinish(c: Config, ss: seq<State>, es: seq<Event>)
    requires c.Valid() && Run(c, ss, es) && Spurious !in es
    ensures |es| <= StepBound(c)
    ensures (forall e, t :: Next(c, ss[|es|], e, t) ==> e.Spurious?) ==>
              AllDone(ss[|es|]) && ss[|es|].served == UpTo(c.producers) && ss[|es|].buffer == []
  {
    RunIsBounded(c, ss, es, |es|);
    InitialMeasure(c, ss[0]);
    if forall e, t :: Next(c, ss[|es|], e, t) ==> e.Spurious? {
      var s := ss[|es|];
      if !AllDone(s) {
        var e, t := SomeoneCanStep(c, s);
      }
      assert s.cons[0] in s.cons;
      assert |s.served + s.buffer| <= c.producers;
    }
  }
}
