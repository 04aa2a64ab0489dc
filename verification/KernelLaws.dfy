/** What each event does to the kernel machine, read off the event: who is woken, who sleeps where, who runs next, and
    what becomes of semaphores, continuations and zombies. From these follow laws over whole runs. */
module KernelLaws {
  import opened Kernel
  import opened KernelRuns

  // ---------------------------------------------------------------- sleep queues

  predicate At(addr: map<Tid, Addr>, t: Tid, a: Addr) {
    t in addr && addr[t] == a
  }

  /** The threads of a list that sleep on `a`, in order. */
  function Those(addr: map<Tid, Addr>, list: seq<Tid>, a: Addr): seq<Tid> {
    if list == [] then [] else (if At(addr, list[0], a) then [list[0]] else []) + Those(addr, list[1..], a)
  }

  /** The other ones. */
  function Others(addr: map<Tid, Addr>, list: seq<Tid>, a: Addr): seq<Tid> {
    if list == [] then [] else (if At(addr, list[0], a) then [] else [list[0]]) + Others(addr, list[1..], a)
  }

  /** All but the first one that sleeps on `a`. */
  function AllButFirst(addr: map<Tid, Addr>, list: seq<Tid>, a: Addr): seq<Tid> {
    if list == [] then [] else if At(addr, list[0], a) then list[1..] else [list[0]] + AllButFirst(addr, list[1..], a)
  }

  function UpTo1(list: seq<Tid>): seq<Tid> {
    if list == [] then [] else [list[0]]
  }

  /** Those asleep on `a`, the longest sleeper first. */
  function QueueOn(k: State, a: Addr): seq<Tid> {
    Those(k.sleepaddr, k.sleepers, a)
  }

  lemma WokenOne(k: State, i: nat, a: Addr)
    requires i < |k.sleepers| && On(k, k.sleepers[i], a)
    ensures var m, rest := WakeAt(k, i), k.sleepers[i..];
            && |m.sleepers| == |k.sleepers| - 1 && m.sleepers[..i] == k.sleepers[..i] && m.sleepaddr == k.sleepaddr
            && Others(k.sleepaddr, rest, a) == Others(k.sleepaddr, m.sleepers[i..], a)
            && k.runq + Those(k.sleepaddr, rest, a) == m.runq + Those(k.sleepaddr, m.sleepers[i..], a)
  {
    assert WakeAt(k, i).sleepers[i..] == k.sleepers[i..][1..];
  }

  lemma SkippedOne(k: State, i: nat, a: Addr)
    requires i < |k.sleepers| && !On(k, k.sleepers[i], a)
    ensures var rest, next := k.sleepers[i..], k.sleepers[i + 1..];
            && k.sleepers[..i] + Others(k.sleepaddr, rest, a) == k.sleepers[..i + 1] + Others(k.sleepaddr, next, a)
            && Those(k.sleepaddr, rest, a) == Those(k.sleepaddr, next, a)
  {
    assert k.sleepers[i..][1..] == k.sleepers[i + 1..];
    assert k.sleepers[..i + 1] == k.sleepers[..i] + [k.sleepers[i]];
  }

  lemma NoneLeft(k: State, a: Addr)
    ensures var n := |k.sleepers|;
            && k.sleepers[..n] + Others(k.sleepaddr, k.sleepers[n..], a) == k.sleepers
            && k.runq + Those(k.sleepaddr, k.sleepers[n..], a) == k.runq
  {
  }

  /** thread_wakeup, as a whole: those on the address go to the run queue in order, the others stay in order. */
  lemma {:induction false} WakeFromIs(k: State, i: nat, a: Addr)
    requires i <= |k.sleepers|
    ensures WakeFrom(k, i, a).sleepers == k.sleepers[..i] + Others(k.sleepaddr, k.sleepers[i..], a)
    ensures WakeFrom(k, i, a).runq == k.runq + Those(k.sleepaddr, k.sleepers[i..], a)
    decreases |k.sleepers| - i
  {
    hide Those, Others, At, On, WakeAt;
    if i == |k.sleepers| {
      NoneLeft(k, a);
    } else if On(k, k.sleepers[i], a) {
      WokenOne(k, i, a);
      WakeFromIs(WakeAt(k, i), i, a);
    } else {
      SkippedOne(k, i, a);
      WakeFromIs(k, i + 1, a);
    }
  }

  lemma WakeupIs(k: State, a: Addr)
    ensures Wakeup(k, a).sleepers == Others(k.sleepaddr, k.sleepers, a)
    ensures Wakeup(k, a).runq == k.runq + QueueOn(k, a)
    ensures Wakeup(k, a) == k.(sleepers := Wakeup(k, a).sleepers, runq := Wakeup(k, a).runq,
                               ringSize := Wakeup(k, a).ringSize)
  {
    WakeFromIs(k, 0, a);
    assert k.sleepers[0..] == k.sleepers;
  }

  /** thread_wakeup_one: the first one on the address goes to the run queue, everybody else stays in order. */
  lemma {:induction false} WakeOneIs(k: State, i: nat, a: Addr)
    requires i <= |k.sleepers|
    ensures WakeOneFrom(k, i, a).sleepers == k.sleepers[..i] + AllButFirst(k.sleepaddr, k.sleepers[i..], a)
    ensures WakeOneFrom(k, i, a).runq == k.runq + UpTo1(Those(k.sleepaddr, k.sleepers[i..], a))
    decreases |k.sleepers| - i
  {
    if i < |k.sleepers| {
      var rest := k.sleepers[i..];
      assert rest[1..] == k.sleepers[i + 1..];
      if !On(k, k.sleepers[i], a) {
        WakeOneIs(k, i + 1, a);
        assert k.sleepers[..i + 1] == k.sleepers[..i] + [rest[0]];
      }
    }
  }

  // ---------------------------------------------------------------- what an event says

  /** The address all of whose sleepers the event wakes. */
  function Wakes(e: Event): Option<Addr> {
    match e
    case Interrupt(s) => Some(SemAt(s))
    case Do(V(s)) => Some(SemAt(s))
    case Do(Release(l)) => Some(LockAt(l))
    case Do(Wait(_, l)) => Some(LockAt(l))
    case Do(Broadcast(c, _)) => Some(CvAt(c))
    case _ => None
  }

  /** Whom the event wakes, in the order they are made runnable. */
  function Woken(k: State, e: Event): seq<Tid> {
    if Wakes(e).Some? then QueueOn(k, Wakes(e).value)
    else if e.Do? && e.op.Signal? then UpTo1(QueueOn(k, CvAt(e.op.c)))
    else []
  }

  /** Who of the sleepers the event leaves asleep. */
  function StillAsleep(k: State, e: Event): seq<Tid> {
    if Wakes(e).Some? then Others(k.sleepaddr, k.sleepers, Wakes(e).value)
    else if e.Do? && e.op.Signal? then AllButFirst(k.sleepaddr, k.sleepers, CvAt(e.op.c))
    else k.sleepers
  }

  /** What the current thread tries to get: a semaphore, or a lock. */
  function Tries(k: State, e: Event): Option<Addr> {
    match e
    case Do(P(s)) => Some(SemAt(s))
    case Do(Acquire(l)) => Some(LockAt(l))
    case Resume =>
      if k.cur.Some? && k.cur.value in k.cont then
        match k.cont[k.cur.value]
        case InP(s) => Some(SemAt(s))
        case InAcquire(l) => Some(LockAt(l))
        case InWait(_, l) => Some(LockAt(l))
        case _ => None
      else None
    case _ => None
  }

  /** Whether it can have it. */
  predicate Available(k: State, a: Addr) {
    match a
    case SemAt(s) => s < |k.sems| && k.sems[s].count > 0
    case LockAt(l) => l < |k.locks| && !k.locks[l].locked
    case CvAt(_) => false
  }

  /** The address on which the event puts the current thread to sleep, if it does. */
  function SleepsOn(k: State, e: Event): Option<Addr> {
    if e.Do? && e.op.Wait? then Some(CvAt(e.op.c))
    else if Tries(k, e).Some? && !Available(k, Tries(k, e).value) then Tries(k, e)
    else None
  }

  /** Who is appended to the run queue after those who were woken. */
  function Appended(k: State, e: Event): seq<Tid> {
    match e
    case Do(Yield) => Cur(k)
    case Do(Fork(t)) => [t]
    case _ => []
  }

  /** The run queue when the scheduler is called, if it is. */
  function Queued(k: State, e: Event): seq<Tid> {
    k.runq + Woken(k, e) + Appended(k, e)
  }

  predicate Calls(k: State, e: Event) {
    SleepsOn(k, e).Some? || e == Do(Yield) || e == Do(Exit) || e == IdleEnds
  }

  // ---------------------------------------------------------------- the lists

  /** The lists after an event: who sleeps, who is in the run queue, and who runs. */
  ghost predicate ListsAre(k: State, e: Event, r: State) {
    && r.sleepers == StillAsleep(k, e) + (if SleepsOn(k, e).Some? then Cur(k) else [])
    && (if !Calls(k, e) then r.cur == k.cur && r.runq == Queued(k, e)
        else if Queued(k, e) == [] then r.cur == None && r.runq == []
        else r.cur == Some(Queued(k, e)[0]) && r.runq == Queued(k, e)[1..])
    && r.sleepaddr == (if SleepsOn(k, e).Some? && k.cur.Some? then k.sleepaddr[k.cur.value := SleepsOn(k, e).value]
                       else k.sleepaddr) - (if Calls(k, e) && r.cur.Some? then {r.cur.value} else {})
  }

  lemma SleepLists(k: State, m: State, e: Event, a: Addr, c: Cont)
    requires m.cur.Some? && m.cur == k.cur && m.runq == Queued(k, e) && m.sleepers == StillAsleep(k, e)
    requires m.sleepaddr == k.sleepaddr
    requires SleepsOn(k, e) == Some(a)
    ensures ListsAre(k, e, Sleep(m, a, c))
  {
    hide Queued, StillAsleep, SleepsOn;
  }

  lemma TryLists(k: State, e: Event)
    requires Enabled(k, e) && Tries(k, e).Some?
    ensures ListsAre(k, e, Apply(k, e))
  {
    hide Sleep, Those, Others;
    assert Woken(k, e) == [] && Appended(k, e) == [] && Queued(k, e) == k.runq && StillAsleep(k, e) == k.sleepers;
    if SleepsOn(k, e).Some? {
      match Tries(k, e).value
      case SemAt(s) => SleepLists(k, k, e, SemAt(s), InP(s));
      case LockAt(l) => SleepLists(k, k, e, LockAt(l), InAcquire(l));
    }
  }

  lemma VLists(k: State, s: nat, e: Event)
    requires s < |k.sems| && (e == Do(V(s)) || e == Interrupt(s))
    ensures ListsAre(k, e, DoV(k, s))
  {
    hide Those, Others;
    var sem := k.sems[s];
    WakeupIs(k.(sems := k.sems[s := sem.(count := sem.count + 1, vs := sem.vs + 1)]), SemAt(s));
  }

  lemma ReleaseLists(k: State, l: nat)
    requires l < |k.locks|
    ensures var r := DoRelease(k, l);
            && r.sleepers == Others(k.sleepaddr, k.sleepers, LockAt(l)) && r.runq == k.runq + QueueOn(k, LockAt(l))
            && r.cur == k.cur && r.cont == k.cont && r.sleepaddr == k.sleepaddr
  {
    hide Those, Others;
    WakeupIs(k.(locks := k.locks[l := Lock(false, None)]), LockAt(l));
  }

  /** Who is asleep, who is runnable and who runs after any event, in which order. */
  lemma ListsAfter(k: State, e: Event)
    requires Enabled(k, e)
    ensures ListsAre(k, e, Apply(k, e))
  {
    hide Those, Others, AllButFirst, DoV, DoRelease, Sleep, WakeOneFrom, Wakeup, ListsAre;
    if Tries(k, e).Some? {
      TryLists(k, e);
    } else {
      match e
      case Interrupt(s) => VLists(k, s, e);
      case IdleEnds => IdleLists(k);
      case Do(op) => OpLists(k, op);
    }
  }

  lemma IdleLists(k: State)
    requires Enabled(k, IdleEnds)
    ensures ListsAre(k, IdleEnds, Dispatch(k))
  {
    assert Queued(k, IdleEnds) == k.runq;
  }

  lemma WaitLists(k: State, c: nat, l: nat)
    requires k.cur.Some? && l < |k.locks|
    ensures ListsAre(k, Do(Wait(c, l)), Sleep(DoRelease(k, l), CvAt(c), InWait(c, l)))
  {
    hide Those, Others, DoRelease, Sleep, ListsAre;
    ReleaseLists(k, l);
    assert Queued(k, Do(Wait(c, l))) == k.runq + QueueOn(k, LockAt(l));
    SleepLists(k, DoRelease(k, l), Do(Wait(c, l)), CvAt(c), InWait(c, l));
  }

  lemma SignalLists(k: State, c: nat, l: nat)
    ensures ListsAre(k, Do(Signal(c, l)), WakeOneFrom(k, 0, CvAt(c)))
  {
    hide Those, Others, AllButFirst, WakeOneFrom;
    WakeOneIs(k, 0, CvAt(c));
    assert k.sleepers[0..] == k.sleepers;
  }

  lemma LeaveLists(k: State)
    requires k.cur.Some?
    ensures ListsAre(k, Do(Yield), DoYield(k)) && ListsAre(k, Do(Exit), DoExit(k))
  {
    assert Queued(k, Do(Yield)) == k.runq + [k.cur.value];
    assert Queued(k, Do(Exit)) == k.runq;
  }

  lemma OpLists(k: State, op: Op)
    requires Enabled(k, Do(op)) && Tries(k, Do(op)).None?
    ensures ListsAre(k, Do(op), DoOp(k, op))
  {
    hide Those, Others, AllButFirst, DoV, DoRelease, Sleep, WakeOneFrom, Wakeup, DoYield, DoExit;
    match op
    case V(s) => VLists(k, s, Do(op));
    case Release(l) => ReleaseLists(k, l);
    case Wait(c, l) => WaitLists(k, c, l);
    case Signal(c, l) => SignalLists(k, c, l);
    case Broadcast(c, _) => WakeupIs(k, CvAt(c));
    case Yield => LeaveLists(k);
    case Exit => LeaveLists(k);
    case Fork(_) =>
    case ForkFails(_) =>
  }

  // ---------------------------------------------------------------- the queue of each address

  lemma {:induction false} ThoseSame(addr: map<Tid, Addr>, addr': map<Tid, Addr>, list: seq<Tid>, a: Addr)
    requires forall t :: t in list ==> (At(addr, t, a) <==> At(addr', t, a))
    ensures Those(addr, list, a) == Those(addr', list, a)
  {
    if list != [] {
      ThoseSame(addr, addr', list[1..], a);
    }
  }

  lemma {:induction false} ThoseConcat(addr: map<Tid, Addr>, x: seq<Tid>, y: seq<Tid>, a: Addr)
    ensures Those(addr, x + y, a) == Those(addr, x, a) + Those(addr, y, a)
  {
    hide Those, At;
    if x == [] {
      assert x + y == y;
      ThoseNone(addr, a);
    } else {
      ThoseConcat(addr, x[1..], y, a);
      assert (x + y)[1..] == x[1..] + y;
      ThoseHead(addr, x, a);
      ThoseHead(addr, x + y, a);
    }
  }

  lemma ThoseNone(addr: map<Tid, Addr>, a: Addr)
    ensures Those(addr, [], a) == []
  {
  }

  lemma ThoseHead(addr: map<Tid, Addr>, list: seq<Tid>, a: Addr)
    requires list != []
    ensures Those(addr, list, a) == (if At(addr, list[0], a) then [list[0]] else []) + Those(addr, list[1..], a)
  {
  }

  lemma {:induction false} ThoseOfOthers(addr: map<Tid, Addr>, list: seq<Tid>, b: Addr, a: Addr)
    ensures Those(addr, Others(addr, list, b), a) == if a == b then [] else Those(addr, list, a)
  {
    if list != [] {
      ThoseOfOthers(addr, list[1..], b, a);
      ThoseConcat(addr, if At(addr, list[0], b) then [] else [list[0]], Others(addr, list[1..], b), a);
    }
  }

  lemma {:induction false} ThoseOfAllButFirst(addr: map<Tid, Addr>, list: seq<Tid>, b: Addr, a: Addr)
    ensures Those(addr, AllButFirst(addr, list, b), a) ==
            if a == b && Those(addr, list, a) != [] then Those(addr, list, a)[1..] else Those(addr, list, a)
  {
    if list != [] && !At(addr, list[0], b) {
      ThoseOfAllButFirst(addr, list[1..], b, a);
      ThoseConcat(addr, [list[0]], AllButFirst(addr, list[1..], b), a);
    }
  }

  /** The queue of every address after any event: a wakeup empties it, a signal takes its first, and the thread that
      goes to sleep there is its last. */
  ghost predicate QueueIs(k: State, e: Event, a: Addr, r: State) {
    QueueOn(r, a) ==
    (if Wakes(e) == Some(a) then []
     else if e.Do? && e.op.Signal? && a == CvAt(e.op.c) && QueueOn(k, a) != [] then QueueOn(k, a)[1..]
     else QueueOn(k, a))
    + (if SleepsOn(k, e) == Some(a) then Cur(k) else [])
  }

  lemma StillQueued(k: State, e: Event, a: Addr)
    ensures Those(k.sleepaddr, StillAsleep(k, e), a) ==
            if Wakes(e) == Some(a) then []
            else if e.Do? && e.op.Signal? && a == CvAt(e.op.c) && QueueOn(k, a) != [] then QueueOn(k, a)[1..]
            else QueueOn(k, a)
  {
    if Wakes(e).Some? {
      ThoseOfOthers(k.sleepaddr, k.sleepers, Wakes(e).value, a);
    } else if e.Do? && e.op.Signal? {
      ThoseOfAllButFirst(k.sleepaddr, k.sleepers, CvAt(e.op.c), a);
    }
  }

  lemma {:induction false} OthersIn(addr: map<Tid, Addr>, list: seq<Tid>, a: Addr)
    ensures forall t :: t in Others(addr, list, a) ==> t in list
    ensures forall t :: t in AllButFirst(addr, list, a) ==> t in list
  {
    if list != [] {
      OthersIn(addr, list[1..], a);
    }
  }

  lemma QueueAfter(k: State, e: Event, a: Addr)
    requires Inv(k) && Enabled(k, e)
    ensures QueueIs(k, e, a, Apply(k, e))
  {
    hide Those, Others, AllButFirst, Apply, Calls, SleepsOn, Wakes, Conserved, Room, NoLostWakeups, Objects, Enabled;
    var r := Apply(k, e);
    ListsAfter(k, e);
    StepKeeps(k, e);
    NotAsleep(k);
    NotAsleep(r);
    var left, added := StillAsleep(k, e), if SleepsOn(k, e).Some? then Cur(k) else [];
    StayIn(k, e);
    ThoseConcat(r.sleepaddr, left, added, a);
    ThoseSame(k.sleepaddr, r.sleepaddr, left, a);
    StillQueued(k, e, a);
    NewQueued(k, e, a, r);
  }

  lemma StayIn(k: State, e: Event)
    ensures forall t :: t in StillAsleep(k, e) ==> t in k.sleepers
  {
    if Wakes(e).Some? {
      OthersIn(k.sleepaddr, k.sleepers, Wakes(e).value);
    } else if e.Do? && e.op.Signal? {
      OthersIn(k.sleepaddr, k.sleepers, CvAt(e.op.c));
    }
  }

  lemma NewQueued(k: State, e: Event, a: Addr, r: State)
    requires ListsAre(k, e, r) && (r.cur.Some? ==> r.cur.value !in r.sleepers)
    ensures Those(r.sleepaddr, if SleepsOn(k, e).Some? then Cur(k) else [], a) ==
            if SleepsOn(k, e) == Some(a) then Cur(k) else []
  {
    hide Queued, StillAsleep, SleepsOn;
    if SleepsOn(k, e).Some? && k.cur.Some? {
      assert k.cur.value in r.sleepers;
    }
  }

  lemma NotAsleep(k: State)
    requires Conserved(k)
    ensures k.cur.Some? ==> k.cur.value !in k.sleepers
  {
    Places(k);
    assert k.cur.Some? ==> k.cur.value in Cur(k);
  }

  // ---------------------------------------------------------------- signals reach waiters in order

  /** The signals on a condition variable between two states of a run. */
  ghost function Signals(es: seq<Event>, i: nat, j: nat, c: nat): nat
    requires i <= j <= |es|
    decreases j
  {
    if i == j then 0
    else Signals(es, i, j - 1, c) + if es[j - 1].Do? && es[j - 1].op.Signal? && es[j - 1].op.c == c then 1 else 0
  }

  ghost predicate NoBroadcast(es: seq<Event>, i: nat, j: nat, c: nat) {
    forall m :: i <= m < j && m < |es| ==> Wakes(es[m]) != Some(CvAt(c))
  }

  /** The waiter at position `p` of a condition variable moves up by one with each signal. */
  lemma {:induction false} MovesUpTo(ks: seq<State>, es: seq<Event>, i: nat, j: nat, c: nat, p: nat)
    requires Run(ks, es) && i <= j <= |es| && NoBroadcast(es, i, j, c)
    requires p < |QueueOn(ks[i], CvAt(c))| && Signals(es, i, j, c) <= p
    ensures var q := p - Signals(es, i, j, c);
            q < |QueueOn(ks[j], CvAt(c))| && QueueOn(ks[j], CvAt(c))[q] == QueueOn(ks[i], CvAt(c))[p]
  {
    hide QueueOn, Apply, Enabled, Wakes, SleepsOn, Conserved, Room, NoLostWakeups, Objects;
    if i < j {
      MovesUpTo(ks, es, i, j - 1, c, p);
      RunKeeps(ks, es, j - 1);
      QueueAfter(ks[j - 1], es[j - 1], CvAt(c));
    }
  }

  /** Signals wake waiters in the order they came: the one at position `p` is woken by exactly signal number `p + 1`,
      and is then the last in the run queue. */
  lemma SignalOrder(ks: seq<State>, es: seq<Event>, i: nat, j: nat, c: nat, l: nat, p: nat)
    requires Run(ks, es) && i <= j < |es| && NoBroadcast(es, i, j, c) && es[j] == Do(Signal(c, l))
    requires p < |QueueOn(ks[i], CvAt(c))| && Signals(es, i, j, c) == p
    ensures ks[j + 1].runq == ks[j].runq + [QueueOn(ks[i], CvAt(c))[p]]
    ensures ks[j + 1].cur == ks[j].cur && ks[j + 1].sleepers == AllButFirst(ks[j].sleepaddr, ks[j].sleepers, CvAt(c))
  {
    hide Those, AllButFirst, Apply, Enabled;
    MovesUpTo(ks, es, i, j, c, p);
    ListsAfter(ks[j], es[j]);
  }

  /** A thread in cv_wait is asleep on the variable, behind those who were there, until as many signals have come as
      they were and one more; without a broadcast that one wakes it. */
  lemma WaitIsSignalled(ks: seq<State>, es: seq<Event>, i: nat, j: nat, c: nat, l: nat, l': nat)
    requires Run(ks, es) && i < j < |es| && es[i] == Do(Wait(c, l)) && NoBroadcast(es, i + 1, j, c)
    requires Signals(es, i + 1, j, c) <= |QueueOn(ks[i], CvAt(c))|
    ensures var t, q := ks[i].cur.value, |QueueOn(ks[i], CvAt(c))| - Signals(es, i + 1, j, c);
            && q < |QueueOn(ks[j], CvAt(c))| && QueueOn(ks[j], CvAt(c))[q] == t
            && (q == 0 && es[j] == Do(Signal(c, l')) ==> ks[j + 1].runq == ks[j].runq + [t])
  {
    hide QueueOn, Apply, Enabled, AllButFirst, Conserved, Room, NoLostWakeups, Objects, NoBroadcast;
    assert ks[i].cur.Some? by {
      WaiterRuns(ks[i], c, l);
    }
    RunKeeps(ks, es, i);
    QueueAfter(ks[i], es[i], CvAt(c));
    var p := |QueueOn(ks[i], CvAt(c))|;
    MovesUpTo(ks, es, i + 1, j, c, p);
    if p == Signals(es, i + 1, j, c) && es[j] == Do(Signal(c, l')) {
      SignalOrder(ks, es, i + 1, j, c, l', p);
    }
  }

  lemma WaiterRuns(k: State, c: nat, l: nat)
    requires Enabled(k, Do(Wait(c, l)))
    ensures k.cur.Some?
  {
  }

  // ---------------------------------------------------------------- semaphores

  /** The semaphore that the event takes from. */
  function Takes(k: State, e: Event): Option<nat> {
    if Tries(k, e).Some? && Tries(k, e).value.SemAt? && Available(k, Tries(k, e).value) then Some(Tries(k, e).value.s)
    else None
  }

  /** The semaphore that the event adds to. */
  function Gives(e: Event): Option<nat> {
    match e
    case Interrupt(s) => Some(s)
    case Do(V(s)) => Some(s)
    case _ => None
  }

  function SemsNext(k: State, e: Event): seq<Sem> {
    var g, t := Gives(e), Takes(k, e);
    if g.Some? && g.value < |k.sems| then
      var x := k.sems[g.value];
      k.sems[g.value := Sem(x.initial, x.count + 1, x.vs + 1, x.ps)]
    else if t.Some? then
      var x := k.sems[t.value];
      k.sems[t.value := Sem(x.initial, x.count - 1, x.vs, x.ps + 1)]
    else k.sems
  }

  lemma OpSems(k: State, op: Op)
    requires Enabled(k, Do(op)) && Tries(k, Do(op)).None?
    ensures DoOp(k, op).sems == SemsNext(k, Do(op))
  {
    hide Those, Others, AllButFirst, WakeOneFrom, WakeFrom;
  }

  lemma TrySems(k: State, e: Event)
    requires Enabled(k, e) && Tries(k, e).Some?
    ensures Apply(k, e).sems == SemsNext(k, e)
  {
  }

  /** A V adds one, a P that completes takes one, and nothing else touches a semaphore. */
  lemma SemsAfter(k: State, e: Event)
    requires Enabled(k, e)
    ensures Apply(k, e).sems == SemsNext(k, e)
  {
    hide SemsNext, DoOp, DoV, Dispatch;
    if Tries(k, e).Some? {
      TrySems(k, e);
    } else {
      match e
      case Interrupt(s) => InterruptSems(k, s);
      case IdleEnds => IdleSems(k);
      case Do(op) => OpSems(k, op);
    }
  }

  lemma InterruptSems(k: State, s: nat)
    requires s < |k.sems|
    ensures DoV(k, s).sems == SemsNext(k, Interrupt(s))
  {
    hide WakeFrom;
  }

  lemma IdleSems(k: State)
    ensures Dispatch(k).sems == SemsNext(k, IdleEnds)
  {
  }

  ghost function Given(es: seq<Event>, s: nat, j: nat): nat
    requires j <= |es|
  {
    if j == 0 then 0 else Given(es, s, j - 1) + if Gives(es[j - 1]) == Some(s) then 1 else 0
  }

  ghost function Taken(ks: seq<State>, es: seq<Event>, s: nat, j: nat): nat
    requires |ks| == |es| + 1 && j <= |es|
  {
    if j == 0 then 0 else Taken(ks, es, s, j - 1) + if Takes(ks[j - 1], es[j - 1]) == Some(s) then 1 else 0
  }

  /** Over every run the count of a semaphore is what it was at first, plus the V events, minus the P events that
      completed; so never more P calls complete than there were units. */
  lemma {:induction false} SemCounts(ks: seq<State>, es: seq<Event>, s: nat, j: nat)
    requires Run(ks, es) && j <= |es| && s < |ks[0].sems|
    ensures s < |ks[j].sems| && ks[j].sems[s].count == ks[0].sems[s].count + Given(es, s, j) - Taken(ks, es, s, j)
    ensures Taken(ks, es, s, j) <= ks[0].sems[s].count + Given(es, s, j)
  {
    hide Apply, Enabled;
    if j > 0 {
      SemCounts(ks, es, s, j - 1);
      SemsAfter(ks[j - 1], es[j - 1]);
    }
  }

  // ---------------------------------------------------------------- where threads continue

  /** Where every thread continues after an event, before the scheduler starts a fresh one. */
  function Continues(k: State, e: Event): map<Tid, Cont>
    requires Enabled(k, e)
  {
    match e
    case Do(Exit) => k.cont - {k.cur.value}
    case Do(Fork(t)) => k.cont[t := Fresh]
    case Do(Wait(c, l)) => k.cont[k.cur.value := InWait(c, l)]
    case _ =>
      if Tries(k, e).None? then k.cont
      else
        k.cont[k.cur.value :=
          match Tries(k, e).value
          case SemAt(s) => if Available(k, SemAt(s)) then Free else InP(s)
          case LockAt(l) => if Available(k, LockAt(l)) then Free else InAcquire(l)
          case CvAt(_) => Free]
  }

  /** The thread the scheduler picks, if it is called and finds one. */
  function Picked(k: State, e: Event): Option<Tid> {
    if Calls(k, e) && Queued(k, e) != [] then Some(Queued(k, e)[0]) else None
  }

  predicate IsFresh(cont: map<Tid, Cont>, t: Tid) {
    t in cont && cont[t].Fresh?
  }

  function Started(cont: map<Tid, Cont>, t: Option<Tid>): map<Tid, Cont> {
    if t.Some? && IsFresh(cont, t.value) then cont[t.value := Free] else cont
  }

  lemma DispatchStarts(m: State)
    ensures Dispatch(m).cont == Started(m.cont, if m.runq == [] then None else Some(m.runq[0]))
  {
  }

  lemma OpContinues(k: State, op: Op)
    requires Enabled(k, Do(op)) && Tries(k, Do(op)).None?
    ensures DoOp(k, op).cont == Started(Continues(k, Do(op)), Picked(k, Do(op)))
  {
    hide Those, Others, AllButFirst, DoV, DoRelease, WakeOneFrom, Wakeup, Dispatch;
    match op
    case V(s) => VContinues(k, s);
    case Release(l) => ReleaseLists(k, l);
    case Wait(c, l) =>
      ReleaseLists(k, l);
      assert Queued(k, Do(Wait(c, l))) == k.runq + QueueOn(k, LockAt(l));
      DispatchStarts(LieDown(DoRelease(k, l), CvAt(c), InWait(c, l)));
    case Signal(c, l) =>
    case Broadcast(c, _) => WakeupIs(k, CvAt(c));
    case Yield =>
      assert Queued(k, Do(Yield)) == k.runq + [k.cur.value];
      DispatchStarts(StandBy(k));
    case Exit =>
      assert Queued(k, Do(Exit)) == k.runq;
      DispatchStarts(Bury(k));
    case Fork(_) =>
    case ForkFails(_) =>
  }

  lemma VContinues(k: State, s: nat)
    requires s < |k.sems|
    ensures DoV(k, s).cont == k.cont
  {
  }

  lemma TryContinues(k: State, e: Event)
    requires Enabled(k, e) && Tries(k, e).Some?
    ensures Apply(k, e).cont == Started(Continues(k, e), Picked(k, e))
  {
    hide Dispatch, Those, Others;
    assert Queued(k, e) == k.runq;
    match Tries(k, e).value
    case SemAt(s) => DispatchStarts(LieDown(k, SemAt(s), InP(s)));
    case LockAt(l) => DispatchStarts(LieDown(k, LockAt(l), InAcquire(l)));
  }

  /** Where every thread continues after any event. */
  lemma ContAfter(k: State, e: Event)
    requires Enabled(k, e)
    ensures Apply(k, e).cont == Started(Continues(k, e), Picked(k, e))
  {
    hide DoV, Those, Others, Dispatch;
    if Tries(k, e).Some? {
      TryContinues(k, e);
    } else {
      match e
      case Interrupt(s) => VContinues(k, s);
      case IdleEnds =>
        assert Queued(k, IdleEnds) == k.runq;
        DispatchStarts(k);
      case Do(op) => OpContinues(k, op);
    }
  }

  /** The thread is on its way to lock `l`. */
  ghost predicate WillHold(k: State, t: Tid, l: nat) {
    t in k.cont && ((k.cont[t].InWait? && k.cont[t].l == l) || k.cont[t] == InAcquire(l))
  }

  ghost predicate HasLock(k: State, t: Tid, l: nat) {
    t in k.cont && k.cont[t] == Free && k.cur == Some(t) && l < |k.locks| && k.locks[l] == Lock(true, Some(t))
  }

  lemma WillHoldStep(k: State, e: Event, t: Tid, l: nat)
    requires Inv(k) && Enabled(k, e) && WillHold(k, t, l)
    ensures WillHold(Apply(k, e), t, l) || HasLock(Apply(k, e), t, l)
  {
    hide Apply, Those, Others, Conserved, Room, NoLostWakeups, Objects;
    ContAfter(k, e);
    if k.cur == Some(t) && e == Resume {
      ListsAfter(k, e);
      LocksAfter(k, e);
    }
  }

  /** cv_wait returns with the lock: from the wait on the thread is on its way to that lock, and when it is back in its
      own code it runs and holds it. */
  lemma {:induction false} WaitReturns(ks: seq<State>, es: seq<Event>, i: nat, j: nat, c: nat, l: nat)
    requires Run(ks, es) && i < j <= |es| && es[i] == Do(Wait(c, l))
    requires forall m :: i < m < j ==> !HasLock(ks[m], ks[i].cur.value, l)
    ensures WillHold(ks[j], ks[i].cur.value, l) || HasLock(ks[j], ks[i].cur.value, l)
  {
    hide Apply, Enabled, HasLock, WillHold, Conserved, Room, NoLostWakeups, Objects;
    assert ks[i].cur.Some? by {
      WaiterRuns(ks[i], c, l);
    }
    var t := ks[i].cur.value;
    if i + 1 == j {
      RunKeeps(ks, es, i);
      WaiterWill(ks[i], c, l);
    } else {
      WaitReturns(ks, es, i, j - 1, c, l);
      RunKeeps(ks, es, j - 1);
      WillHoldStep(ks[j - 1], es[j - 1], t, l);
    }
  }

  lemma WaiterWill(k: State, c: nat, l: nat)
    requires Inv(k) && Enabled(k, Do(Wait(c, l)))
    ensures WillHold(Apply(k, Do(Wait(c, l))), k.cur.value, l)
  {
    hide Apply, Those, Others, Conserved, Room, NoLostWakeups, Objects;
    ContAfter(k, Do(Wait(c, l)));
  }

  // ---------------------------------------------------------------- zombies

  /** The zombies when `z` wait in `max` slots and the scheduler picks `p`: one that ran before disposes of them all,
      and of an array of more than 16 slots. */
  ghost predicate Disposed(k: State, p: Option<Tid>, z: seq<Tid>, max: nat, r: State) {
    if p.Some? && !IsFresh(k.cont, p.value) then r.zombies == [] && r.zombiesMax == if max > 16 then 0 else max
    else r.zombies == z && r.zombiesMax == max
  }

  lemma DispatchDisposes(k: State, m: State)
    requires m.runq == [] || (IsFresh(m.cont, m.runq[0]) <==> IsFresh(k.cont, m.runq[0]))
    ensures Disposed(k, if m.runq == [] then None else Some(m.runq[0]), m.zombies, m.zombiesMax, Dispatch(m))
  {
  }

  lemma SleepDisposes(k: State, m: State, a: Addr, c: Cont)
    requires m.cur.Some? && m.cont == k.cont && m.cur == k.cur && !c.Fresh?
    requires m.zombies == k.zombies && m.zombiesMax == k.zombiesMax && !IsFresh(k.cont, k.cur.value)
    ensures var p := if m.runq == [] then None else Some(m.runq[0]);
            Disposed(k, p, k.zombies, k.zombiesMax, Sleep(m, a, c))
  {
    hide Dispatch;
    DispatchDisposes(k, LieDown(m, a, c));
  }

  lemma TryDisposes(k: State, e: Event)
    requires Enabled(k, e) && Tries(k, e).Some?
    ensures Disposed(k, Picked(k, e), k.zombies, k.zombiesMax, Apply(k, e))
  {
    hide Sleep, Those, Others;
    assert Queued(k, e) == k.runq;
    if SleepsOn(k, e).Some? {
      match Tries(k, e).value
      case SemAt(s) => SleepDisposes(k, k, SemAt(s), InP(s));
      case LockAt(l) => SleepDisposes(k, k, LockAt(l), InAcquire(l));
    }
  }

  lemma ExitDisposes(k: State)
    requires Inv(k) && Enabled(k, Do(Exit))
    ensures Disposed(k, Picked(k, Do(Exit)), k.zombies + [k.cur.value],
                     if |k.zombies| == k.zombiesMax then 2 * (k.zombiesMax + 1) else k.zombiesMax, DoExit(k))
  {
    hide Dispatch, NoLostWakeups, Objects;
    assert Queued(k, Do(Exit)) == k.runq;
    if k.runq != [] {
      Places(k);
      assert k.runq[0] in k.runq && k.cur.value in Cur(k);
    }
    DispatchDisposes(k, Bury(k));
  }

  lemma OpDisposes(k: State, op: Op)
    requires Enabled(k, Do(op)) && Tries(k, Do(op)).None? && !Forks(Do(op)) && !op.Exit?
    ensures Disposed(k, Picked(k, Do(op)), k.zombies, k.zombiesMax, DoOp(k, op))
  {
    hide Those, Others, AllButFirst, DoV, DoRelease, WakeOneFrom, Wakeup, Dispatch, Sleep;
    match op
    case V(s) => VZombies(k, s);
    case Release(l) => ReleaseZombies(k, l);
    case Wait(c, l) =>
      ReleaseZombies(k, l);
      ReleaseLists(k, l);
      assert Queued(k, Do(Wait(c, l))) == k.runq + QueueOn(k, LockAt(l));
      SleepDisposes(k, DoRelease(k, l), CvAt(c), InWait(c, l));
    case Signal(c, _) =>
    case Broadcast(c, _) => WakeupIs(k, CvAt(c));
    case Yield =>
      assert Queued(k, Do(Yield)) == k.runq + [k.cur.value];
      DispatchDisposes(k, StandBy(k));
  }

  /** The zombies after any event outside thread_fork: an exit adds one, and makes room for it, and then they are all
      disposed of exactly when the thread that is picked ran before. */
  lemma ZombiesExact(k: State, e: Event)
    requires Inv(k) && Enabled(k, e) && !Forks(e)
    ensures e != Do(Exit) ==> Disposed(k, Picked(k, e), k.zombies, k.zombiesMax, Apply(k, e))
    ensures e == Do(Exit) ==>
              Disposed(k, Picked(k, e), k.zombies + [k.cur.value],
                       if |k.zombies| == k.zombiesMax then 2 * (k.zombiesMax + 1) else k.zombiesMax, Apply(k, e))
  {
    hide Those, Others, DoV, Dispatch, Conserved, Room, NoLostWakeups, Objects;
    if Tries(k, e).Some? {
      TryDisposes(k, e);
    } else {
      match e
      case Interrupt(s) => VZombies(k, s);
      case IdleEnds =>
        assert Queued(k, IdleEnds) == k.runq;
        DispatchDisposes(k, k);
      case Do(op) =>
        if op == Exit {
          ExitDisposes(k);
        } else {
          OpDisposes(k, op);
        }
    }
  }
}
