/** Threads, scheduler and synchronization of the kernel, as a machine whose steps are the
    sections run with interrupts off: os161/kern/thread/thread.c, scheduler.c and synch.c.

    A context switch ends a step. A thread that was switched out inside P, lock_acquire or
    cv_wait resumes there, which `Cont` records. */
module Kernel {
  import PtrArray
  import Queue

  type Tid = nat

  datatype Option<T> = None | Some(value: T)

  /** The sleep addresses in use: those of semaphores, locks and condition variables. */
  datatype Addr = SemAt(s: nat) | LockAt(l: nat) | CvAt(c: nat)

  /** Where a thread continues when it next runs. `Fresh` threads have not run yet. */
  datatype Cont = Fresh | Free | InP(s: nat) | InAcquire(l: nat) | InWait(c: nat, l: nat)

  /** `vs` and `ps` count the V calls and the completed P calls so far. */
  datatype Sem = Sem(initial: nat, count: nat, vs: nat, ps: nat)

  datatype Lock = Lock(locked: bool, owner: Option<Tid>)

  datatype State = State(
    cur: Option<Tid>,              // curthread, absent while the scheduler idles
    runq: seq<Tid>,                // run queue, head first
    ringSize: nat,                 // slots in the run queue's ring
    sleepers: seq<Tid>,
    sleepersMax: nat,              // slots in the sleepers array
    sleepaddr: map<Tid, Addr>,     // t_sleepaddr, absent when NULL
    zombies: seq<Tid>,
    zombiesMax: nat,               // slots in the zombies array
    cont: map<Tid, Cont>,          // one entry per live thread
    numthreads: nat,
    forked: bool,                  // whether thread_fork has succeeded yet
    sems: seq<Sem>,
    locks: seq<Lock>)

  datatype Op =
    | P(s: nat) | V(s: nat)
    | Acquire(l: nat) | Release(l: nat)
    | Wait(c: nat, l: nat) | Signal(c: nat, l: nat) | Broadcast(c: nat, l: nat)
    | Yield | Exit | Fork(t: Tid) | ForkFails(grown: nat)   // how many preallocations came before the one that failed

  /** The current thread starts an operation or resumes one, an interrupt handler calls V, or the idle
      loop finds a runnable thread. */
  datatype Event = Do(op: Op) | Resume | Interrupt(s: nat) | IdleEnds

  predicate On(k: State, t: Tid, a: Addr) {
    t in k.sleepaddr && k.sleepaddr[t] == a
  }

  function Cur(k: State): seq<Tid> {
    if k.cur.Some? then [k.cur.value] else []
  }

  // ---------------------------------------------------------------- the thread lists

  function MakeRunnable(k: State, t: Tid): State {
    k.(runq := k.runq + [t], ringSize := if |k.runq| + 1 == k.ringSize then 2 * k.ringSize else k.ringSize)
  }

  /** Move the sleeper at index `i` to the run queue. */
  function WakeAt(k: State, i: nat): State
    requires i < |k.sleepers|
  {
    MakeRunnable(k.(sleepers := k.sleepers[..i] + k.sleepers[i + 1..]), k.sleepers[i])
  }

  /** thread_wakeup from index `i` on: after a removal the same index is looked at again. */
  function WakeFrom(k: State, i: nat, a: Addr): (r: State)
    requires i <= |k.sleepers|
    ensures r == k.(sleepers := r.sleepers, runq := r.runq, ringSize := r.ringSize)
    decreases |k.sleepers| - i
  {
    if i == |k.sleepers| then k
    else if On(k, k.sleepers[i], a) then WakeFrom(WakeAt(k, i), i, a)
    else WakeFrom(k, i + 1, a)
  }

  function Wakeup(k: State, a: Addr): State {
    WakeFrom(k, 0, a)
  }

  /** thread_wakeup_one from index `i` on. */
  function WakeOneFrom(k: State, i: nat, a: Addr): (r: State)
    requires i <= |k.sleepers|
    ensures r == k.(sleepers := r.sleepers, runq := r.runq, ringSize := r.ringSize)
    decreases |k.sleepers| - i
  {
    if i == |k.sleepers| then k
    else if On(k, k.sleepers[i], a) then WakeAt(k, i)
    else WakeOneFrom(k, i + 1, a)
  }

  /** Disposing of the zombies sets the size of their array to 0, which releases more than 16 slots. */
  function Exorcised(max: nat): nat {
    if max > 16 then 0 else max
  }

  /** The scheduler takes the head of the run queue, or idles. A thread that ran before disposes of the
      zombies on its way out of mi_switch; a fresh one does not come that way. */
  function Dispatch(k: State): State {
    if k.runq == [] then k.(cur := None)
    else
      var next := k.runq[0];
      var isNew := next in k.cont && k.cont[next].Fresh?;
      k.(cur := Some(next), runq := k.runq[1..], sleepaddr := k.sleepaddr - {next},
         zombies := if isNew then k.zombies else [],
         zombiesMax := if isNew then k.zombiesMax else Exorcised(k.zombiesMax),
         cont := if isNew then k.cont[next := Free] else k.cont)
  }

  /** The current thread joins the sleepers. */
  function LieDown(k: State, a: Addr, c: Cont): State
    requires k.cur.Some?
  {
    var t := k.cur.value;
    k.(cur := None, sleepers := k.sleepers + [t], sleepaddr := k.sleepaddr[t := a], cont := k.cont[t := c],
       sleepersMax := PtrArray.Grown(k.sleepersMax, |k.sleepers| + 1))
  }

  /** thread_sleep: the current thread joins the sleepers and the scheduler picks another. */
  function Sleep(k: State, a: Addr, c: Cont): State
    requires k.cur.Some?
  {
    Dispatch(LieDown(k, a, c))
  }

  // ---------------------------------------------------------------- the operations

  /** One pass of the loop in P. */
  function TryP(k: State, s: nat): State
    requires k.cur.Some? && s < |k.sems|
  {
    var sem := k.sems[s];
    if sem.count == 0 then Sleep(k, SemAt(s), InP(s))
    else k.(sems := k.sems[s := sem.(count := sem.count - 1, ps := sem.ps + 1)], cont := k.cont[k.cur.value := Free])
  }

  function DoV(k: State, s: nat): State
    requires s < |k.sems|
  {
    var sem := k.sems[s];
    Wakeup(k.(sems := k.sems[s := sem.(count := sem.count + 1, vs := sem.vs + 1)]), SemAt(s))
  }

  /** One pass of the loop in lock_acquire. */
  function TryAcquire(k: State, l: nat): State
    requires k.cur.Some? && l < |k.locks|
  {
    if k.locks[l].locked then Sleep(k, LockAt(l), InAcquire(l))
    else k.(locks := k.locks[l := Lock(true, k.cur)], cont := k.cont[k.cur.value := Free])
  }

  function DoRelease(k: State, l: nat): State
    requires l < |k.locks|
  {
    Wakeup(k.(locks := k.locks[l := Lock(false, None)]), LockAt(l))
  }

  /** lock_do_i_hold, and the assertion at the head of lock_release and the cv calls. */
  predicate Holds(k: State, l: nat) {
    l < |k.locks| && k.cur.Some? && k.locks[l].locked && k.locks[l].owner == k.cur
  }

  /** mi_switch up to the scheduler call, for a thread that stays runnable. */
  function StandBy(k: State): State
    requires k.cur.Some?
  {
    MakeRunnable(k.(cur := None), k.cur.value)
  }

  function DoYield(k: State): State
    requires k.cur.Some?
  {
    Dispatch(StandBy(k))
  }

  /** thread_exit before its switch: the thread is a zombie and no longer counted. */
  function Bury(k: State): State
    requires k.cur.Some?
  {
    k.(cur := None, zombies := k.zombies + [k.cur.value], zombiesMax := PtrArray.Grown(k.zombiesMax, |k.zombies| + 1),
       cont := k.cont - {k.cur.value},
       numthreads := if k.numthreads > 0 then k.numthreads - 1 else 0)
  }

  function DoExit(k: State): State
    requires k.cur.Some?
  {
    Dispatch(Bury(k))
  }

  /** The preallocation in thread_fork: room for one more thread. */
  function Reserve(k: State): State {
    k.(sleepersMax := PtrArray.Grown(k.sleepersMax, k.numthreads + 1),
       zombiesMax := PtrArray.Grown(k.zombiesMax, k.numthreads + 1),
       ringSize := if k.ringSize > 0 then Queue.Doubled(k.ringSize, k.numthreads + 1) else 0)
  }

  /** What a failing preallocation leaves, after `grown` of its three steps. */
  function Unreserved(k: State, grown: nat): State {
    k.(sleepersMax := if grown > 0 then PtrArray.Grown(k.sleepersMax, k.numthreads + 1) else k.sleepersMax,
       zombiesMax := if grown > 1 then PtrArray.Grown(k.zombiesMax, k.numthreads + 1) else k.zombiesMax)
  }

  function Enroll(k: State, t: Tid): State {
    MakeRunnable(k, t).(cont := k.cont[t := Fresh], numthreads := k.numthreads + 1, forked := true)
  }

  function DoFork(k: State, t: Tid): State {
    Enroll(Reserve(k), t)
  }

  /** Which events can happen: the current thread is in its own code for an operation and inside one for a
      resumption, and the assertions of the operation hold. */
  predicate Enabled(k: State, e: Event) {
    match e
    case Interrupt(s) => s < |k.sems|
    case IdleEnds => k.cur.None? && k.runq != []
    case Resume =>
      && k.cur.Some? && k.cur.value in k.cont
      && (match k.cont[k.cur.value]
          case InP(s) => s < |k.sems|
          case InAcquire(l) => l < |k.locks|
          case InWait(_, l) => l < |k.locks|
          case _ => false)
    case Do(op) =>
      && k.cur.Some? && k.cur.value in k.cont && k.cont[k.cur.value].Free?
      && (match op
          case P(s) => s < |k.sems|
          case V(s) => s < |k.sems|
          case Acquire(l) => l < |k.locks|
          case Release(l) => Holds(k, l)
          case Wait(_, l) => Holds(k, l)
          case Signal(_, l) => Holds(k, l)
          case Broadcast(_, l) => Holds(k, l)
          case Fork(t) => t !in k.cont && t !in k.zombies
          case _ => true)
  }

  function DoOp(k: State, op: Op): State
    requires Enabled(k, Do(op))
  {
    match op
    case P(s) => TryP(k, s)
    case V(s) => DoV(k, s)
    case Acquire(l) => TryAcquire(k, l)
    case Release(l) => DoRelease(k, l)
    case Wait(c, l) => Sleep(DoRelease(k, l), CvAt(c), InWait(c, l))
    case Signal(c, _) => WakeOneFrom(k, 0, CvAt(c))
    case Broadcast(c, _) => Wakeup(k, CvAt(c))
    case Yield => DoYield(k)
    case Exit => DoExit(k)
    case Fork(t) => DoFork(k, t)
    case ForkFails(grown) => Unreserved(k, grown)
  }

  function Apply(k: State, e: Event): State
    requires Enabled(k, e)
  {
    match e
    case Do(op) => DoOp(k, op)
    case Interrupt(s) => DoV(k, s)
    case IdleEnds => Dispatch(k)
    case Resume =>
      match k.cont[k.cur.value]
      case InP(s) => TryP(k, s)
      case InAcquire(l) => TryAcquire(k, l)
      case InWait(_, l) => TryAcquire(k, l)
      case _ => k
  }

  // ---------------------------------------------------------------- what every step keeps

  /** Every live thread is in exactly one of curthread, the run queue and the sleepers, zombies are in
      none, and numthreads counts the live ones. */
  ghost predicate Conserved(k: State) {
    && multiset(Cur(k)) + (multiset(k.runq) + multiset(k.sleepers)) == multiset(k.cont.Keys)
    && |k.cont.Keys| == k.numthreads
    && (forall z :: z in k.zombies ==> z !in k.cont)
  }

  /** The ring has a slot per thread, and so has the sleepers array once a thread was forked. The zombies fit their
      array. */
  ghost predicate Room(k: State) {
    && 1 <= k.ringSize && k.numthreads <= k.ringSize
    && (k.forked ==> k.numthreads <= k.sleepersMax)
    && (!k.forked ==> k.numthreads <= 1) && |k.zombies| <= k.zombiesMax
  }

  /** The address a thread that continues at `c` was put to sleep on. */
  function SleptOn(c: Cont): Option<Addr> {
    match c
    case InP(s) => Some(SemAt(s))
    case InAcquire(l) => Some(LockAt(l))
    case InWait(cv, _) => Some(CvAt(cv))
    case _ => None
  }

  /** There is a reason to sleep on `a`: the semaphore is at 0, the lock is held. */
  ghost predicate Blocked(k: State, a: Addr) {
    match a
    case SemAt(s) => s < |k.sems| && k.sems[s].count == 0
    case LockAt(l) => l < |k.locks| && k.locks[l].locked
    case CvAt(_) => true
  }

  ghost predicate SleepsFor(k: State, t: Tid)
    requires t in k.cont
  {
    t in k.sleepaddr && SleptOn(k.cont[t]) == Some(k.sleepaddr[t]) && Blocked(k, k.sleepaddr[t])
  }

  /** A thread that sleeps has a reason to: nobody sleeps on a semaphore that is up or a lock that is free. */
  ghost predicate NoLostWakeups(k: State) {
    forall t :: t in k.sleepers ==> t in k.cont && SleepsFor(k, t)
  }

  /** The objects a continuation names exist. */
  ghost predicate InRange(k: State, c: Cont) {
    && (c.InP? ==> c.s < |k.sems|)
    && (c.InAcquire? || c.InWait? ==> c.l < |k.locks|)
  }

  /** Semaphore counts balance, and a lock has an owner exactly while it is held. */
  ghost predicate Objects(k: State) {
    && (forall s :: 0 <= s < |k.sems| ==> k.sems[s].count + k.sems[s].ps == k.sems[s].initial + k.sems[s].vs)
    && (forall l :: 0 <= l < |k.locks| ==> (k.locks[l].locked <==> k.locks[l].owner.Some?))
    && (forall t :: t in k.cont ==> InRange(k, k.cont[t]))
  }

  ghost predicate Inv(k: State) {
    Conserved(k) && Room(k) && NoLostWakeups(k) && Objects(k)
  }

  /** What conservation says of one thread: it is live, and it is in no second list. */
  lemma Places(k: State)
    requires Conserved(k)
    ensures forall t :: t in k.sleepers ==> t in k.cont && t !in k.runq && t !in Cur(k)
    ensures forall t :: t in k.runq ==> t in k.cont && t !in Cur(k)
    ensures forall t :: t in Cur(k) ==> t in k.cont
    ensures |Cur(k)| + |k.runq| + |k.sleepers| == k.numthreads
  {
    var all := multiset(Cur(k)) + (multiset(k.runq) + multiset(k.sleepers));
    forall t
      ensures multiset(Cur(k))[t] + multiset(k.runq)[t] + multiset(k.sleepers)[t] == (if t in k.cont then 1 else 0)
    {
      assert all[t] == multiset(k.cont.Keys)[t];
    }
    forall t | t in k.sleepers
      ensures t in k.cont && t !in k.runq && t !in Cur(k)
    {
      assert multiset(k.sleepers)[t] > 0;
    }
    forall t | t in k.runq
      ensures t in k.cont && t !in Cur(k)
    {
      assert multiset(k.runq)[t] > 0;
    }
    forall t | t in Cur(k)
      ensures t in k.cont
    {
      assert multiset(Cur(k))[t] > 0;
    }
    assert |all| == |multiset(k.cont.Keys)|;
  }

  /** After thread_bootstrap and scheduler_bootstrap: one running thread and a ring of 32 slots. */
  ghost predicate Init(k: State) {
    && k.cur.Some? && k.runq == [] && k.ringSize == 32 && k.sleepers == [] && k.sleepersMax == 0
    && k.sleepaddr == map[] && k.zombies == [] && k.zombiesMax == 0 && k.cont == map[k.cur.value := Free]
    && k.numthreads == 1 && !k.forked
    && (forall s :: 0 <= s < |k.sems| ==> k.sems[s] == Sem(k.sems[s].initial, k.sems[s].initial, 0, 0))
    && (forall l :: 0 <= l < |k.locks| ==> k.locks[l] == Lock(false, None))
  }

  lemma InitInv(k: State)
    requires Init(k)
    ensures Inv(k)
  {
    assert k.cont.Keys == {k.cur.value};
  }

  /** Everything but the two lists and the ring is as before, and only sleepers on `a` have moved. */
  ghost predicate Moved(k: State, r: State, a: Addr) {
    && r == k.(sleepers := r.sleepers, runq := r.runq, ringSize := r.ringSize)
    && multiset(r.runq) + multiset(r.sleepers) == multiset(k.runq) + multiset(k.sleepers)
    && |k.runq| <= |r.runq| && k.runq == r.runq[..|k.runq|]
    && (forall t :: t in r.sleepers ==> t in k.sleepers)
    && (forall t :: t in k.sleepers ==> t in r.sleepers || On(k, t, a))
    && (k.ringSize <= r.ringSize)
  }

  lemma WakeAtMoves(k: State, i: nat, a: Addr)
    requires i < |k.sleepers| && On(k, k.sleepers[i], a)
    ensures Moved(k, WakeAt(k, i), a)
  {
    var sl := k.sleepers[..i] + k.sleepers[i + 1..];
    assert k.sleepers == k.sleepers[..i] + [k.sleepers[i]] + k.sleepers[i + 1..];
    assert multiset(sl) + multiset{k.sleepers[i]} == multiset(k.sleepers);
    forall t | t in k.sleepers
      ensures t in sl || On(k, t, a)
    {
      assert t in multiset(k.sleepers);
    }
  }

  lemma MovedAgain(k: State, m: State, r: State, a: Addr)
    requires Moved(k, m, a) && Moved(m, r, a)
    ensures Moved(k, r, a)
  {
    assert r.runq[..|k.runq|] == r.runq[..|m.runq|][..|k.runq|];
  }

  /** thread_wakeup moves sleepers on the address and nobody else. */
  lemma {:induction false} WakeFromMoves(k: State, i: nat, a: Addr)
    requires i <= |k.sleepers|
    ensures Moved(k, WakeFrom(k, i, a), a)
    decreases |k.sleepers| - i
  {
    if i < |k.sleepers| {
      if On(k, k.sleepers[i], a) {
        WakeAtMoves(k, i, a);
        WakeFromMoves(WakeAt(k, i), i, a);
        MovedAgain(k, WakeAt(k, i), WakeFrom(k, i, a), a);
      } else {
        WakeFromMoves(k, i + 1, a);
      }
    }
  }

  /** thread_wakeup leaves nobody asleep on the address. */
  lemma {:induction false} WakeFromWakesAll(k: State, i: nat, a: Addr)
    requires i <= |k.sleepers|
    ensures i <= |WakeFrom(k, i, a).sleepers| && WakeFrom(k, i, a).sleepers[..i] == k.sleepers[..i]
    ensures forall j :: i <= j < |WakeFrom(k, i, a).sleepers| ==> !On(k, WakeFrom(k, i, a).sleepers[j], a)
    decreases |k.sleepers| - i
  {
    if i < |k.sleepers| {
      if On(k, k.sleepers[i], a) {
        WakeFromWakesAll(WakeAt(k, i), i, a);
        assert WakeAt(k, i).sleepers[..i] == k.sleepers[..i];
      } else {
        WakeFromWakesAll(k, i + 1, a);
        var r := WakeFrom(k, i + 1, a).sleepers;
        assert r[i] == r[..i + 1][i];
        assert r[..i] == r[..i + 1][..i] == k.sleepers[..i + 1][..i];
      }
    }
  }

  /** Sleepers are accounted for, apart from those on `a` who are about to be woken. */
  ghost predicate LostOnlyOn(k: State, a: Addr) {
    forall t :: t in k.sleepers ==> t in k.cont && (SleepsFor(k, t) || On(k, t, a))
  }

  lemma WakeupKeeps(k: State, a: Addr)
    requires Conserved(k) && Room(k) && LostOnlyOn(k, a) && Objects(k)
    ensures Inv(Wakeup(k, a)) && Moved(k, Wakeup(k, a), a)
    ensures forall t :: t in Wakeup(k, a).sleepers ==> !On(k, t, a)
  {
    var r := Wakeup(k, a);
    WakeFromMoves(k, 0, a);
    WakeFromWakesAll(k, 0, a);
    assert Cur(r) == Cur(k);
  }

  lemma {:induction false} WakeOneMoves(k: State, i: nat, a: Addr)
    requires i <= |k.sleepers|
    ensures Moved(k, WakeOneFrom(k, i, a), a)
    decreases |k.sleepers| - i
  {
    if i < |k.sleepers| {
      if On(k, k.sleepers[i], a) {
        WakeAtMoves(k, i, a);
      } else {
        WakeOneMoves(k, i + 1, a);
      }
    }
  }

  lemma DispatchConserves(k: State)
    requires k.cur.None? && Conserved(k)
    ensures Conserved(Dispatch(k)) && Dispatch(k).cont.Keys == k.cont.Keys
    ensures k.runq != [] ==> k.runq[0] !in k.sleepers
  {
    var r := Dispatch(k);
    if k.runq != [] {
      Places(k);
      assert k.runq == [k.runq[0]] + k.runq[1..];
      assert multiset(k.runq) == multiset([k.runq[0]]) + multiset(k.runq[1..]);
      assert r.cont.Keys == k.cont.Keys;
    }
  }

  lemma DispatchSleepers(k: State)
    requires k.cur.None? && Conserved(k) && NoLostWakeups(k)
    ensures NoLostWakeups(Dispatch(k))
  {
    DispatchConserves(k);
    var r := Dispatch(k);
    forall t | t in r.sleepers
      ensures t in r.cont && SleepsFor(r, t)
    {
      assert SleepsFor(k, t);
    }
  }

  lemma DispatchObjects(k: State)
    requires Room(k) && Objects(k)
    ensures Room(Dispatch(k)) && Objects(Dispatch(k))
  {
  }

  lemma DispatchKeeps(k: State)
    requires k.cur.None? && Inv(k)
    ensures Inv(Dispatch(k))
  {
    hide Conserved, Room, NoLostWakeups, Objects, Dispatch;
    DispatchConserves(k);
    DispatchSleepers(k);
    DispatchObjects(k);
  }

  /** thread_sleep up to the scheduler call: the current thread is among the sleepers. */
  lemma LieDownKeeps(k: State, a: Addr, c: Cont)
    requires Inv(k) && k.cur.Some? && SleptOn(c) == Some(a) && Blocked(k, a) && InRange(k, c)
    ensures Inv(LieDown(k, a, c))
    ensures k.forked ==> LieDown(k, a, c).sleepersMax == k.sleepersMax
  {
    Places(k);
    assert k.cur.value in Cur(k);
    assert LieDown(k, a, c).cont.Keys == k.cont.Keys;
  }

  /** The current thread can go to sleep on a semaphore at 0, a held lock or a condition variable. */
  lemma SleepKeeps(k: State, a: Addr, c: Cont)
    requires Inv(k) && k.cur.Some? && SleptOn(c) == Some(a) && Blocked(k, a) && InRange(k, c)
    ensures Inv(Sleep(k, a, c)) && Sleep(k, a, c).ringSize == k.ringSize
    ensures k.forked ==> Sleep(k, a, c).sleepersMax == k.sleepersMax
  {
    LieDownKeeps(k, a, c);
    DispatchKeeps(LieDown(k, a, c));
  }

  lemma TryPKeeps(k: State, s: nat)
    requires Inv(k) && k.cur.Some? && s < |k.sems|
    ensures Inv(TryP(k, s))
  {
    if k.sems[s].count == 0 {
      SleepKeeps(k, SemAt(s), InP(s));
    } else {
      CurrentRunsOn(k, TryP(k, s));
    }
  }

  lemma TryAcquireKeeps(k: State, l: nat)
    requires Inv(k) && k.cur.Some? && l < |k.locks|
    ensures Inv(TryAcquire(k, l))
  {
    if k.locks[l].locked {
      SleepKeeps(k, LockAt(l), InAcquire(l));
    } else {
      CurrentRunsOn(k, TryAcquire(k, l));
    }
  }

  /** The current thread finishes an operation without a switch: it is not among the sleepers. */
  lemma CurrentRunsOn(k: State, r: State)
    requires Conserved(k) && k.cur.Some? && r.cur == k.cur && r.runq == k.runq && r.sleepers == k.sleepers
    requires r.cont == k.cont[k.cur.value := Free] && r.numthreads == k.numthreads
    requires r.zombies == k.zombies && r.zombiesMax == k.zombiesMax
    ensures Conserved(r)
    ensures forall t :: t in r.sleepers ==> t != k.cur.value
  {
    Places(k);
    assert k.cur.value in Cur(k);
    assert r.cont.Keys == k.cont.Keys;
  }

  lemma DoVKeeps(k: State, s: nat)
    requires Inv(k) && s < |k.sems|
    ensures Inv(DoV(k, s))
  {
    var sem := k.sems[s];
    var m := k.(sems := k.sems[s := sem.(count := sem.count + 1, vs := sem.vs + 1)]);
    assert Cur(m) == Cur(k);
    WakeupKeeps(m, SemAt(s));
  }

  lemma DoReleaseKeeps(k: State, l: nat)
    requires Inv(k) && Holds(k, l)
    ensures Inv(DoRelease(k, l)) && DoRelease(k, l).cur == k.cur
  {
    var m := k.(locks := k.locks[l := Lock(false, None)]);
    assert Cur(m) == Cur(k);
    WakeupKeeps(m, LockAt(l));
  }

  lemma YieldKeeps(k: State)
    requires Inv(k) && k.cur.Some?
    ensures Inv(DoYield(k))
  {
    Places(k);
    var m := StandBy(k);
    assert multiset(m.runq) == multiset(k.runq) + multiset(Cur(k));
    DispatchKeeps(m);
  }

  lemma ExitKeeps(k: State)
    requires Inv(k) && k.cur.Some?
    ensures Inv(DoExit(k))
  {
    var t := k.cur.value;
    Places(k);
    assert t in Cur(k);
    var m := Bury(k);
    assert m.cont.Keys == k.cont.Keys - {t};
    assert multiset(k.cont.Keys) == multiset(m.cont.Keys) + multiset(Cur(k));
    var others := multiset(k.runq) + multiset(k.sleepers);
    assert others == multiset(Cur(k)) + others - multiset(Cur(k)) == multiset(m.cont.Keys);
    DispatchKeeps(m);
  }

  /** thread_fork: its own make_runnable never finds the ring full. */
  lemma ForkKeeps(k: State, t: Tid)
    requires Inv(k) && k.cur.Some? && t !in k.cont && t !in k.zombies
    ensures Inv(DoFork(k, t)) && DoFork(k, t).ringSize == Queue.Doubled(k.ringSize, k.numthreads + 1)
  {
    Places(k);
    var r := DoFork(k, t);
    assert r.cont.Keys == k.cont.Keys + {t};
    assert multiset(r.runq) == multiset(k.runq) + multiset{t};
    assert multiset(r.cont.Keys) == multiset(k.cont.Keys) + multiset{t};
    assert Cur(r) == Cur(k);
  }

  lemma SignalKeeps(k: State, c: nat, l: nat)
    requires Inv(k) && Enabled(k, Do(Signal(c, l)))
    ensures Inv(DoOp(k, Signal(c, l)))
  {
    WakeOneMoves(k, 0, CvAt(c));
    assert Cur(DoOp(k, Signal(c, l))) == Cur(k);
  }

  lemma BroadcastKeeps(k: State, c: nat, l: nat)
    requires Inv(k) && Enabled(k, Do(Broadcast(c, l)))
    ensures Inv(DoOp(k, Broadcast(c, l)))
  {
    WakeupKeeps(k, CvAt(c));
  }

  lemma ForkFailsKeeps(k: State, grown: nat)
    requires Inv(k) && Enabled(k, Do(ForkFails(grown)))
    ensures Inv(DoOp(k, ForkFails(grown)))
  {
    assert Cur(DoOp(k, ForkFails(grown))) == Cur(k);
  }

  lemma OpKeeps(k: State, op: Op)
    requires Inv(k) && Enabled(k, Do(op))
    ensures Inv(DoOp(k, op))
  {
    hide Conserved, Room, NoLostWakeups, Objects;
    match op
    case P(s) => TryPKeeps(k, s);
    case V(s) => DoVKeeps(k, s);
    case Acquire(l) => TryAcquireKeeps(k, l);
    case Release(l) => DoReleaseKeeps(k, l);
    case Wait(c, l) =>
      DoReleaseKeeps(k, l);
      SleepKeeps(DoRelease(k, l), CvAt(c), InWait(c, l));
    case Signal(c, l) => SignalKeeps(k, c, l);
    case Broadcast(c, l) => BroadcastKeeps(k, c, l);
    case Yield => YieldKeeps(k);
    case Exit => ExitKeeps(k);
    case Fork(t) => ForkKeeps(k, t);
    case ForkFails(grown) => ForkFailsKeeps(k, grown);
  }

  /** Every step keeps the invariant. */
  lemma StepKeeps(k: State, e: Event)
    requires Inv(k) && Enabled(k, e)
    ensures Inv(Apply(k, e))
  {
    match e
    case Do(op) => OpKeeps(k, op);
    case Interrupt(s) => DoVKeeps(k, s);
    case IdleEnds => DispatchKeeps(k);
    case Resume =>
      match k.cont[k.cur.value]
      case InP(s) => TryPKeeps(k, s);
      case InAcquire(l) => TryAcquireKeeps(k, l);
      case InWait(_, l) => TryAcquireKeeps(k, l);
      case _ =>
  }

  ghost predicate Run(ks: seq<State>, es: seq<Event>) {
    && |ks| == |es| + 1 && Init(ks[0])
    && forall i :: 0 <= i < |es| ==> Enabled(ks[i], es[i]) && ks[i + 1] == Apply(ks[i], es[i])
  }

  /** Conservation, room and no lost wakeups in every state of every run. */
  lemma {:induction false} RunKeeps(ks: seq<State>, es: seq<Event>, i: nat)
    requires Run(ks, es) && i < |ks|
    ensures Inv(ks[i])
  {
    if i == 0 {
      InitInv(ks[0]);
    } else {
      RunKeeps(ks, es, i - 1);
      StepKeeps(ks[i - 1], es[i - 1]);
    }
  }
}
