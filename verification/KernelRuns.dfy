/** What the invariant of the kernel machine gives over whole runs: which list additions can
    allocate, who holds a lock, when a sleeper wakes, and in what order threads run. */
module KernelRuns {
  import opened Kernel
  import PtrArray

  // ---------------------------------------------------------------- preallocation

  lemma WakeAtConserves(k: State, i: nat, a: Addr)
    requires Conserved(k) && Room(k) && i < |k.sleepers| && On(k, k.sleepers[i], a)
    ensures Conserved(WakeAt(k, i)) && Room(WakeAt(k, i))
  {
    WakeAtMoves(k, i, a);
    assert Cur(WakeAt(k, i)) == Cur(k);
  }

  lemma Headcount(k: State)
    requires Conserved(k)
    ensures |Cur(k)| + |k.runq| + |k.sleepers| == k.numthreads
  {
    Places(k);
  }

  /** A wakeup grows the ring exactly when it makes all threads runnable and there are as many as slots. */
  lemma {:induction false} WakeGrowth(k: State, i: nat, a: Addr)
    requires Conserved(k) && Room(k) && i <= |k.sleepers|
    ensures |k.runq| <= |WakeFrom(k, i, a).runq| <= k.numthreads
    ensures WakeFrom(k, i, a).ringSize ==
            if |k.runq| < k.ringSize == k.numthreads == |WakeFrom(k, i, a).runq| then 2 * k.ringSize else k.ringSize
    decreases |k.sleepers| - i
  {
    hide Conserved, Cur;
    Headcount(k);
    if i < |k.sleepers| {
      if On(k, k.sleepers[i], a) {
        WakeAtConserves(k, i, a);
        WakeGrowth(WakeAt(k, i), i, a);
      } else {
        WakeGrowth(k, i + 1, a);
      }
    }
  }

  ghost predicate Forks(e: Event) {
    e.Do? && (e.op.Fork? || e.op.ForkFails?)
  }

  /** The comments say list additions cannot fail after the preallocation in thread_fork. For the run
      queue this is so except in these steps: a yield with nobody asleep, or an interrupt that wakes every
      thread of an idle system, while the ring has exactly one slot per thread. */
  ghost predicate FillsRing(k: State, e: Event) {
    && k.ringSize == k.numthreads
    && (|| (e == Do(Yield) && k.sleepers == [])
        || (e.Interrupt? && k.cur.None? && k.sleepers != [] && forall t :: t in k.sleepers ==> On(k, t, SemAt(e.s))))
  }

  lemma InterruptGrowth(k: State, s: nat)
    requires Inv(k) && s < |k.sems|
    ensures DoV(k, s).ringSize != k.ringSize <==> FillsRing(k, Interrupt(s))
  {
    var sem := k.sems[s];
    var m := k.(sems := k.sems[s := sem.(count := sem.count + 1, vs := sem.vs + 1)]);
    assert Cur(m) == Cur(k);
    WakeGrowth(m, 0, SemAt(s));
    WakeFromMoves(m, 0, SemAt(s));
    WakeFromWakesAll(m, 0, SemAt(s));
    var r := WakeFrom(m, 0, SemAt(s));
    Places(k);
    assert |multiset(r.runq) + multiset(r.sleepers)| == |multiset(k.runq) + multiset(k.sleepers)|;
    if r.sleepers == [] {
      forall t | t in k.sleepers
        ensures On(k, t, SemAt(s))
      {
        assert t in r.sleepers || On(m, t, SemAt(s));
      }
    } else {
      assert r.sleepers[0] in k.sleepers && !On(k, r.sleepers[0], SemAt(s));
    }
  }

  /** Waking from a running thread never grows the ring: that thread is not in it. */
  lemma WakeupFromRunning(k: State, a: Addr)
    requires Conserved(k) && Room(k) && k.cur.Some?
    ensures Wakeup(k, a).ringSize == k.ringSize
  {
    WakeGrowth(k, 0, a);
    WakeFromMoves(k, 0, a);
    var r := Wakeup(k, a);
    Places(k);
    assert |multiset(r.runq) + multiset(r.sleepers)| == |multiset(k.runq) + multiset(k.sleepers)|;
  }

  lemma {:induction false} WakeOneGrowth(k: State, i: nat, a: Addr)
    requires Conserved(k) && Room(k) && k.cur.Some? && i <= |k.sleepers|
    ensures WakeOneFrom(k, i, a).ringSize == k.ringSize
    decreases |k.sleepers| - i
  {
    Places(k);
    if i < |k.sleepers| && !On(k, k.sleepers[i], a) {
      WakeOneGrowth(k, i + 1, a);
    }
  }

  lemma TryPGrowth(k: State, s: nat)
    requires Inv(k) && k.cur.Some? && s < |k.sems|
    ensures TryP(k, s).ringSize == k.ringSize && (k.forked ==> TryP(k, s).sleepersMax == k.sleepersMax)
  {
    if k.sems[s].count == 0 {
      SleepKeeps(k, SemAt(s), InP(s));
    }
  }

  lemma TryAcquireGrowth(k: State, l: nat)
    requires Inv(k) && k.cur.Some? && l < |k.locks|
    ensures TryAcquire(k, l).ringSize == k.ringSize && (k.forked ==> TryAcquire(k, l).sleepersMax == k.sleepersMax)
  {
    if k.locks[l].locked {
      SleepKeeps(k, LockAt(l), InAcquire(l));
    }
  }

  lemma YieldGrowth(k: State)
    requires Inv(k) && k.cur.Some?
    ensures DoYield(k).ringSize != k.ringSize <==> k.ringSize == k.numthreads && k.sleepers == []
  {
    Places(k);
  }

  lemma OpGrowth(k: State, op: Op)
    requires Inv(k) && Enabled(k, Do(op)) && !Forks(Do(op))
    ensures DoOp(k, op).ringSize != k.ringSize <==> FillsRing(k, Do(op))
    ensures k.forked ==> DoOp(k, op).sleepersMax == k.sleepersMax
  {
    match op
    case P(s) => TryPGrowth(k, s);
    case V(s) => InterruptGrowth(k, s);
    case Acquire(l) => TryAcquireGrowth(k, l);
    case Release(l) => ReleaseGrowth(k, l);
    case Wait(c, l) =>
      ReleaseGrowth(k, l);
      DoReleaseKeeps(k, l);
      SleepKeeps(DoRelease(k, l), CvAt(c), InWait(c, l));
    case Signal(c, _) => WakeOneGrowth(k, 0, CvAt(c));
    case Broadcast(c, _) => WakeupFromRunning(k, CvAt(c));
    case Yield => YieldGrowth(k);
    case Exit =>
  }

  /** Exactly which steps make a list addition allocate. */
  lemma PreallocationIsExact(k: State, e: Event)
    requires Inv(k) && Enabled(k, e) && !Forks(e)
    ensures Apply(k, e).ringSize != k.ringSize <==> FillsRing(k, e)
    ensures k.forked ==> Apply(k, e).sleepersMax == k.sleepersMax
  {
    match e
    case Do(op) => OpGrowth(k, op);
    case Interrupt(s) => InterruptGrowth(k, s);
    case IdleEnds =>
    case Resume =>
      match k.cont[k.cur.value]
      case InP(s) => TryPGrowth(k, s);
      case InAcquire(l) => TryAcquireGrowth(k, l);
      case InWait(_, l) => TryAcquireGrowth(k, l);
      case _ =>
  }

  /** A run that forks `n` threads. */
  lemma {:induction false} Crowd(n: nat) returns (ks: seq<State>, es: seq<Event>)
    requires n <= 31
    ensures Run(ks, es) && |es| == n
    ensures var k := ks[n];
            && k.cur == Some(0) && 0 in k.cont && k.cont[0] == Free && (forall t :: t in k.cont ==> t <= n)
            && |k.runq| == n && k.ringSize == 32 && k.numthreads == n + 1 && k.sleepers == [] && k.zombies == []
  {
    if n == 0 {
      ks, es := [State(Some(0), [], 32, [], 0, map[], [], 0, map[0 := Free], 1, false, [], [])], [];
    } else {
      ks, es := Crowd(n - 1);
      var e := Do(Fork(n));
      ks, es := ks + [Apply(ks[n - 1], e)], es + [e];
    }
  }

  /** The run queue can grow outside thread_fork: with 32 threads, a yield of the one that forked the others. */
  lemma RunQueueGrows() returns (ks: seq<State>, es: seq<Event>)
    ensures Run(ks, es) && |es| == 32 && es[31] == Do(Yield) && ks[31].ringSize == 32 && ks[32].ringSize == 64
  {
    ks, es := Crowd(31);
    RunKeeps(ks, es, 31);
    var e := Do(Yield);
    PreallocationIsExact(ks[31], e);
    ks, es := ks + [Apply(ks[31], e)], es + [e];
  }

  // ---------------------------------------------------------------- zombies

  /** The zombies are those of `m`, or the scheduler picked a thread that ran before and disposed of them. */
  ghost predicate ZombiesOf(m: State, r: State) {
    && r.numthreads == m.numthreads
    && (|| (r.zombies == m.zombies && r.zombiesMax == m.zombiesMax)
        || (r.cur.Some? && r.zombies == [] && r.zombiesMax == Exorcised(m.zombiesMax)))
  }

  lemma OpZombies(k: State, op: Op)
    requires Enabled(k, Do(op)) && !Forks(Do(op))
    ensures ZombiesOf(if op == Exit then Bury(k) else k, DoOp(k, op))
  {
    match op
    case V(s) => VZombies(k, s);
    case Release(l) => ReleaseZombies(k, l);
    case Wait(c, l) => ReleaseZombies(k, l);
    case Signal(c, _) => WakeOneMoves(k, 0, CvAt(c));
    case Broadcast(c, _) => WakeFromMoves(k, 0, CvAt(c));
    case _ =>
  }

  lemma VZombies(k: State, s: nat)
    requires s < |k.sems|
    ensures var r := DoV(k, s);
            r.numthreads == k.numthreads && r.zombies == k.zombies && r.zombiesMax == k.zombiesMax
  {
    var sem := k.sems[s];
    WakeFromMoves(k.(sems := k.sems[s := sem.(count := sem.count + 1, vs := sem.vs + 1)]), 0, SemAt(s));
  }

  lemma ReleaseZombies(k: State, l: nat)
    requires l < |k.locks|
    ensures var r := DoRelease(k, l);
            r.cur == k.cur && r.numthreads == k.numthreads && r.zombies == k.zombies && r.zombiesMax == k.zombiesMax
  {
    WakeFromMoves(k.(locks := k.locks[l := Lock(false, None)]), 0, LockAt(l));
  }

  /** An exit adds one zombie, and a switch to a thread that ran before disposes of all of them. */
  lemma ZombiesAfter(k: State, e: Event)
    requires Enabled(k, e) && !Forks(e)
    ensures ZombiesOf(if e == Do(Exit) then Bury(k) else k, Apply(k, e))
  {
    hide DoV, DoOp;
    match e
    case Do(op) => OpZombies(k, op);
    case Interrupt(s) => VZombies(k, s);
    case _ =>
  }

  /** Outside thread_fork only an exit adds a zombie, and its addition allocates exactly when their array is full. */
  lemma ExitAllocates(k: State, e: Event)
    requires Inv(k) && Enabled(k, e) && !Forks(e)
    ensures e == Do(Exit) ==> (Bury(k).zombiesMax != k.zombiesMax <==> |k.zombies| == k.zombiesMax)
    ensures Apply(k, e).zombiesMax > k.zombiesMax ==> e == Do(Exit) && |k.zombies| == k.zombiesMax
  {
    ZombiesAfter(k, e);
  }

  /** Every live thread could exit now without an allocation. */
  ghost predicate Spare(k: State) {
    |k.zombies| + k.numthreads <= k.zombiesMax
  }

  /** The preallocation in thread_fork counts the threads but not the zombies still waiting. */
  lemma ForkSpares(k: State, t: Tid)
    requires Inv(k) && Enabled(k, Do(Fork(t)))
    ensures Spare(DoFork(k, t)) <==> |k.zombies| + k.numthreads + 1 <= PtrArray.Grown(k.zombiesMax, k.numthreads + 1)
    ensures k.zombies == [] ==> Spare(DoFork(k, t))
  {
  }

  /** Room for every exit lasts until disposing of the zombies releases their array. */
  lemma SpareStep(k: State, e: Event)
    requires Inv(k) && Enabled(k, e) && !Forks(e) && Spare(k)
    ensures Spare(Apply(k, e)) <==> Apply(k, e).zombiesMax == k.zombiesMax
  {
    Places(k);
    ZombiesAfter(k, e);
    StepKeeps(k, e);
    Places(Apply(k, e));
  }

  /** Over a run: from a state with room for every exit on, as long as there is no fork and the array is not
      released, no exit allocates. */
  lemma {:induction false} ZombiesFit(ks: seq<State>, es: seq<Event>, i: nat, j: nat)
    requires Run(ks, es) && i <= j <= |es| && Spare(ks[i])
    requires forall m :: i <= m < j ==> !Forks(es[m]) && ks[m + 1].zombiesMax == ks[m].zombiesMax
    ensures Spare(ks[j])
    ensures j < |es| && es[j] == Do(Exit) ==> |ks[j].zombies| < ks[j].zombiesMax == Bury(ks[j]).zombiesMax
  {
    hide Conserved, Room, NoLostWakeups, Objects, Apply;
    RunKeeps(ks, es, j);
    if j < |es| && es[j] == Do(Exit) {
      SomeoneRuns(ks[j]);
    }
    if i < j {
      ZombiesFit(ks, es, i, j - 1);
      RunKeeps(ks, es, j - 1);
      SpareStep(ks[j - 1], es[j - 1]);
    }
  }

  lemma SomeoneRuns(k: State)
    requires Inv(k) && Enabled(k, Do(Exit))
    ensures k.numthreads > 0
  {
    Places(k);
    assert k.cur.value in Cur(k);
  }

  /** `t` is the only thread, in its own code. */
  ghost predicate Alone(k: State, t: Tid) {
    k.cur == Some(t) && k.runq == [] && k.ringSize == 32 && k.cont == map[t := Free] && k.numthreads == 1
  }

  /** A thread that forks another and exits leaves that one alone, with one more zombie. */
  lemma Relay(k: State, t: Tid, u: Tid) returns (m: State, r: State)
    requires Alone(k, t) && u != t && u !in k.zombies
    ensures Enabled(k, Do(Fork(u))) && m == Apply(k, Do(Fork(u)))
    ensures Enabled(m, Do(Exit)) && r == Apply(m, Do(Exit))
    ensures Alone(r, u) && r.zombies == k.zombies + [t]
    ensures r.zombiesMax == PtrArray.Grown(PtrArray.Grown(k.zombiesMax, 2), |k.zombies| + 1)
  {
    m := Apply(k, Do(Fork(u)));
    assert m.runq == [u] && m.cont == map[t := Free, u := Fresh];
    r := Apply(m, Do(Exit));
  }

  /** An exit can allocate although room was preallocated in every fork: the zombies of threads that exit one after
      the other, each to a thread that never ran, stay in their array. */
  lemma ExitGrowsZombies() returns (ks: seq<State>, es: seq<Event>)
    ensures Run(ks, es) && es == [Do(Fork(1)), Do(Exit), Do(Fork(2)), Do(Exit), Do(Exit)]
    ensures ks[4].zombies == [0, 1] && ks[4].zombiesMax == 2 && Bury(ks[4]).zombiesMax == 6
  {
    hide Apply;
    var k := State(Some(0), [], 32, [], 0, map[], [], 0, map[0 := Free], 1, false, [], []);
    var k1, k2 := Relay(k, 0, 1);
    var k3, k4 := Relay(k2, 1, 2);
    es := [Do(Fork(1)), Do(Exit), Do(Fork(2)), Do(Exit), Do(Exit)];
    ks := [k, k1, k2, k3, k4, Apply(k4, es[4])];
  }

  lemma ReleaseGrowth(k: State, l: nat)
    requires Inv(k) && Holds(k, l)
    ensures DoRelease(k, l).ringSize == k.ringSize
  {
    var m := k.(locks := k.locks[l := Lock(false, None)]);
    assert Cur(m) == Cur(k);
    WakeupFromRunning(m, LockAt(l));
  }

  // ---------------------------------------------------------------- locks

  ghost predicate GivesUp(k: State, e: Event, t: Tid, l: nat) {
    k.cur == Some(t) && e.Do? && (e.op == Release(l) || (e.op.Wait? && e.op.l == l))
  }

  /** The lock whose acquisition loop the current thread is at, if any. */
  function Wanted(k: State, e: Event): Option<nat> {
    if e.Do? && e.op.Acquire? then Some(e.op.l)
    else if e.Resume? && k.cur.Some? && k.cur.value in k.cont then
      match k.cont[k.cur.value]
      case InAcquire(l) => Some(l)
      case InWait(_, l) => Some(l)
      case _ => None
    else None
  }

  lemma LocksAfter(k: State, e: Event)
    requires Enabled(k, e)
    ensures Apply(k, e).locks ==
            var w := Wanted(k, e);
            if w.Some? then if k.locks[w.value].locked then k.locks else k.locks[w.value := Lock(true, k.cur)]
            else if e.Do? && (e.op.Release? || e.op.Wait?) then k.locks[e.op.l := Lock(false, None)]
            else k.locks
    ensures Wanted(k, e).Some? && !k.locks[Wanted(k, e).value].locked ==> Apply(k, e).cur == k.cur
  {
  }

  /** Mutual exclusion: the owner of a lock stays its owner until it releases or waits itself, and
      a lock that changes hands goes to the thread that was running. */
  lemma OwnerKeepsLock(k: State, e: Event, t: Tid, l: nat)
    requires Inv(k) && Enabled(k, e) && l < |k.locks|
    ensures l < |Apply(k, e).locks|
    ensures k.locks[l].owner == Some(t) && !GivesUp(k, e, t, l) ==> Apply(k, e).locks[l].owner == Some(t)
    ensures k.locks[l].owner == Some(t) && GivesUp(k, e, t, l) ==> !Apply(k, e).locks[l].locked
    ensures k.locks[l].owner == None && Apply(k, e).locks[l].owner == Some(t) ==>
              k.cur == Some(t) == Apply(k, e).cur
  {
    LocksAfter(k, e);
  }

  // ---------------------------------------------------------------- sleeping and waking

  /** The events after which nobody is left asleep on `a`. */
  ghost predicate WakesAll(e: Event, a: Addr) {
    match a
    case SemAt(s) => e == Interrupt(s) || e == Do(V(s))
    case LockAt(l) => e == Do(Release(l)) || (e.Do? && e.op.Wait? && e.op.l == l)
    case CvAt(c) => e.Do? && e.op.Broadcast? && e.op.c == c
  }

  ghost predicate WakesOne(e: Event, a: Addr) {
    a.CvAt? && e.Do? && e.op.Signal? && e.op.c == a.c
  }

  ghost predicate AsleepOn(k: State, t: Tid, a: Addr) {
    t in k.sleepers && On(k, t, a)
  }

  lemma WakeupStep(k: State, b: Addr, t: Tid, a: Addr)
    requires Conserved(k) && AsleepOn(k, t, a)
    ensures AsleepOn(Wakeup(k, b), t, a) <==> a != b
    ensures a == b ==> t in Wakeup(k, b).runq
  {
    WakeFromMoves(k, 0, b);
    WakeFromWakesAll(k, 0, b);
    var r := Wakeup(k, b);
    if t !in r.sleepers {
      assert t in multiset(k.runq) + multiset(k.sleepers);
      assert t in multiset(r.runq) + multiset(r.sleepers);
    }
  }

  /** Another thread sleeping, yielding or exiting does not wake this one. */
  lemma DispatchStep(k: State, t: Tid, a: Addr)
    requires k.cur.None? && Conserved(k) && AsleepOn(k, t, a)
    ensures AsleepOn(Dispatch(k), t, a)
  {
    Places(k);
  }

  lemma SleepStep(k: State, b: Addr, c: Cont, t: Tid, a: Addr)
    requires Conserved(k) && k.cur.Some? && AsleepOn(k, t, a)
    ensures AsleepOn(Sleep(k, b, c), t, a)
  {
    Places(k);
    assert k.cur.value in Cur(k);
    assert t != k.cur.value;
    if k.runq != [] {
      assert k.runq[0] in k.runq;
    }
  }

  lemma VStep(k: State, s: nat, t: Tid, a: Addr)
    requires Inv(k) && s < |k.sems| && AsleepOn(k, t, a)
    ensures AsleepOn(DoV(k, s), t, a) <==> a != SemAt(s)
  {
    var sem := k.sems[s];
    var m := k.(sems := k.sems[s := sem.(count := sem.count + 1, vs := sem.vs + 1)]);
    assert Cur(m) == Cur(k);
    WakeupStep(m, SemAt(s), t, a);
  }

  lemma ReleaseStep(k: State, l: nat, t: Tid, a: Addr)
    requires Inv(k) && Holds(k, l) && AsleepOn(k, t, a)
    ensures AsleepOn(DoRelease(k, l), t, a) <==> a != LockAt(l)
  {
    var m := k.(locks := k.locks[l := Lock(false, None)]);
    assert Cur(m) == Cur(k);
    WakeupStep(m, LockAt(l), t, a);
  }

  lemma WaitStep(k: State, c: nat, l: nat, t: Tid, a: Addr)
    requires Inv(k) && Holds(k, l) && AsleepOn(k, t, a)
    ensures var r := Sleep(DoRelease(k, l), CvAt(c), InWait(c, l));
            if a == LockAt(l) then t !in r.sleepers else AsleepOn(r, t, a)
  {
    var m := DoRelease(k, l);
    ReleaseStep(k, l, t, a);
    DoReleaseKeeps(k, l);
    Places(k);
    assert k.cur.value in Cur(k);
    if a != LockAt(l) {
      SleepStep(m, CvAt(c), InWait(c, l), t, a);
    }
  }

  lemma YieldExitStep(k: State, t: Tid, a: Addr)
    requires Inv(k) && k.cur.Some? && AsleepOn(k, t, a)
    ensures AsleepOn(DoYield(k), t, a) && AsleepOn(DoExit(k), t, a)
  {
    Places(k);
    assert k.cur.value in Cur(k);
    if k.runq != [] {
      assert k.runq[0] in k.runq;
    }
  }

  /** thread_wakeup_one wakes the first sleeper on the address from `i` on, if there is one. */
  lemma {:induction false} WakesFirst(k: State, i: nat, a: Addr) returns (j: nat)
    requires i <= |k.sleepers|
    ensures i <= j <= |k.sleepers| && forall m :: i <= m < j ==> !On(k, k.sleepers[m], a)
    ensures j < |k.sleepers| ==> On(k, k.sleepers[j], a) && WakeOneFrom(k, i, a) == WakeAt(k, j)
    ensures j == |k.sleepers| ==> WakeOneFrom(k, i, a) == k
    decreases |k.sleepers| - i
  {
    j := i;
    if i < |k.sleepers| && !On(k, k.sleepers[i], a) {
      j := WakesFirst(k, i + 1, a);
    }
  }

  /** cv_signal, with its lists: if somebody is asleep on the variable, the one that has been in the list longest leaves
      it and is the last in the run queue, and everybody else stays in order; otherwise nothing changes. */
  lemma SignalWakesFirst(k: State, c: nat, l: nat) returns (j: nat)
    requires Enabled(k, Do(Signal(c, l)))
    ensures j <= |k.sleepers| && forall m :: 0 <= m < j ==> !On(k, k.sleepers[m], CvAt(c))
    ensures var r := Apply(k, Do(Signal(c, l)));
            if j == |k.sleepers| then r == k
            else
              && On(k, k.sleepers[j], CvAt(c)) && r.runq == k.runq + [k.sleepers[j]]
              && r == k.(sleepers := k.sleepers[..j] + k.sleepers[j + 1..], runq := r.runq, ringSize := r.ringSize)
  {
    j := WakesFirst(k, 0, CvAt(c));
  }

  lemma SignalStep(k: State, c: nat, t: Tid, a: Addr)
    requires Inv(k) && AsleepOn(k, t, a) && a != CvAt(c)
    ensures AsleepOn(WakeOneFrom(k, 0, CvAt(c)), t, a)
  {
    WakeOneMoves(k, 0, CvAt(c));
  }

  lemma OpSleeper(k: State, op: Op, t: Tid, a: Addr)
    requires Inv(k) && Enabled(k, Do(op)) && AsleepOn(k, t, a)
    ensures WakesAll(Do(op), a) ==> t !in DoOp(k, op).sleepers
    ensures !WakesAll(Do(op), a) && !WakesOne(Do(op), a) ==> AsleepOn(DoOp(k, op), t, a)
  {
    match op
    case P(s) => if k.sems[s].count == 0 { SleepStep(k, SemAt(s), InP(s), t, a); }
    case V(s) => VStep(k, s, t, a);
    case Acquire(l) => if k.locks[l].locked { SleepStep(k, LockAt(l), InAcquire(l), t, a); }
    case Release(l) => ReleaseStep(k, l, t, a);
    case Wait(c, l) => WaitStep(k, c, l, t, a);
    case Signal(c, _) => if a != CvAt(c) { SignalStep(k, c, t, a); }
    case Broadcast(c, _) => WakeupStep(k, CvAt(c), t, a);
    case Yield => YieldExitStep(k, t, a);
    case Exit => YieldExitStep(k, t, a);
    case Fork(_) =>
    case ForkFails(_) =>
  }

  /** One step: a sleeper wakes when its address is woken, and not otherwise. */
  lemma StepSleeper(k: State, e: Event, t: Tid, a: Addr)
    requires Inv(k) && Enabled(k, e) && AsleepOn(k, t, a)
    ensures WakesAll(e, a) ==> t !in Apply(k, e).sleepers
    ensures !WakesAll(e, a) && !WakesOne(e, a) ==> AsleepOn(Apply(k, e), t, a)
  {
    match e
    case Do(op) => OpSleeper(k, op, t, a);
    case Interrupt(s) => VStep(k, s, t, a);
    case IdleEnds => DispatchStep(k, t, a);
    case Resume =>
      match k.cont[k.cur.value] {
        case InP(s) => if k.sems[s].count == 0 { SleepStep(k, SemAt(s), InP(s), t, a); }
        case InAcquire(l) => if k.locks[l].locked { SleepStep(k, LockAt(l), InAcquire(l), t, a); }
        case InWait(_, l) => if k.locks[l].locked { SleepStep(k, LockAt(l), InAcquire(l), t, a); }
        case _ =>
      }
  }

  ghost predicate Quiet(es: seq<Event>, i: nat, j: nat, a: Addr) {
    forall m :: i <= m < j && m < |es| ==> !WakesAll(es[m], a) && !WakesOne(es[m], a)
  }

  /** Over a run: a sleeper stays asleep on its address as long as nothing wakes that address. */
  lemma {:induction false} SleepsUntilWoken(ks: seq<State>, es: seq<Event>, i: nat, j: nat, t: Tid, a: Addr)
    requires Run(ks, es) && i <= j <= |es| && AsleepOn(ks[i], t, a) && Quiet(es, i, j, a)
    ensures AsleepOn(ks[j], t, a)
  {
    if i < j {
      SleepsUntilWoken(ks, es, i, j - 1, t, a);
      RunKeeps(ks, es, j - 1);
      StepSleeper(ks[j - 1], es[j - 1], t, a);
    }
  }

  /** cv_wait misses no wakeup. When the lock it gave up first becomes free the caller is already asleep on
      the condition variable, it stays there while nobody signals, and the next broadcast wakes it. */
  lemma CvWaitMissesNothing(ks: seq<State>, es: seq<Event>, i: nat, j: nat, c: nat, l: nat)
    requires Run(ks, es) && i < j < |es| && es[i] == Do(Wait(c, l)) && Quiet(es, i + 1, j, CvAt(c))
    ensures AsleepOn(ks[i + 1], ks[i].cur.value, CvAt(c)) && !ks[i + 1].locks[l].locked
    ensures AsleepOn(ks[j], ks[i].cur.value, CvAt(c))
    ensures WakesAll(es[j], CvAt(c)) ==> ks[i].cur.value !in ks[j + 1].sleepers
  {
    var t := ks[i].cur.value;
    RunKeeps(ks, es, i);
    assert AsleepOn(ks[i + 1], t, CvAt(c)) by {
      WaiterSleeps(ks[i], c, l);
    }
    LocksAfter(ks[i], es[i]);
    SleepsUntilWoken(ks, es, i + 1, j, t, CvAt(c));
    RunKeeps(ks, es, j);
    StepSleeper(ks[j], es[j], t, CvAt(c));
  }

  lemma WaiterSleeps(k: State, c: nat, l: nat)
    requires Inv(k) && Holds(k, l)
    ensures AsleepOn(Sleep(DoRelease(k, l), CvAt(c), InWait(c, l)), k.cur.value, CvAt(c))
  {
    DoReleaseKeeps(k, l);
    var m := DoRelease(k, l);
    Places(m);
    assert m.cur.value in Cur(m);
    if m.runq != [] {
      assert m.runq[0] in m.runq;
    }
  }

  // ---------------------------------------------------------------- scheduling order

  /** A scheduler call took the head of the run queue. */
  ghost predicate Took(k: State, r: State) {
    k.runq != [] && r.cur == Some(k.runq[0])
  }

  /** The events that call the scheduler: yielding, exiting, waiting, and sleeping on a semaphore at 0 or a held
      lock. */
  ghost predicate Switches(k: State, e: Event)
    requires Enabled(k, e)
  {
    match e
    case Interrupt(_) => false
    case IdleEnds => true
    case Resume =>
      (match k.cont[k.cur.value]
       case InP(s) => k.sems[s].count == 0
       case InAcquire(l) => k.locks[l].locked
       case InWait(_, l) => k.locks[l].locked)
    case Do(op) =>
      (match op
       case P(s) => k.sems[s].count == 0
       case Acquire(l) => k.locks[l].locked
       case _ => op.Yield? || op.Exit? || op.Wait?)
  }

  ghost predicate InOrder(k: State, r: State) {
    if Took(k, r) then k.runq[1..] <= r.runq else k.runq <= r.runq
  }

  /** Steps without a switch only add to the queue, and the current thread is not in it. */
  lemma NoSwitchInOrder(k: State, r: State)
    requires Conserved(k) && r.cur == k.cur && k.runq <= r.runq
    ensures InOrder(k, r)
  {
    Places(k);
    assert k.cur.Some? ==> k.cur.value in Cur(k);
    assert k.runq != [] ==> k.runq[0] in k.runq;
  }

  lemma DispatchInOrder(k: State, m: State)
    requires k.runq <= m.runq
    ensures InOrder(k, Dispatch(m))
  {
    if k.runq != [] {
      assert m.runq[0] == k.runq[0];
    }
  }

  lemma WakeupInOrder(k: State, a: Addr)
    ensures k.runq <= Wakeup(k, a).runq && Wakeup(k, a).cur == k.cur
  {
    WakeFromMoves(k, 0, a);
  }

  lemma VInOrder(k: State, s: nat)
    requires Inv(k) && s < |k.sems|
    ensures InOrder(k, DoV(k, s))
  {
    var sem := k.sems[s];
    WakeupInOrder(k.(sems := k.sems[s := sem.(count := sem.count + 1, vs := sem.vs + 1)]), SemAt(s));
    NoSwitchInOrder(k, DoV(k, s));
  }

  lemma ReleaseInOrder(k: State, l: nat)
    requires l < |k.locks|
    ensures k.runq <= DoRelease(k, l).runq && DoRelease(k, l).cur == k.cur
  {
    WakeupInOrder(k.(locks := k.locks[l := Lock(false, None)]), LockAt(l));
  }

  lemma SleepInOrder(k: State, m: State, a: Addr, c: Cont)
    requires m.cur.Some? && k.runq <= m.runq
    ensures InOrder(k, Sleep(m, a, c))
  {
    DispatchInOrder(k, LieDown(m, a, c));
  }

  lemma TryPInOrder(k: State, s: nat)
    requires Inv(k) && k.cur.Some? && s < |k.sems|
    ensures InOrder(k, TryP(k, s))
  {
    if k.sems[s].count == 0 {
      SleepInOrder(k, k, SemAt(s), InP(s));
    } else {
      NoSwitchInOrder(k, TryP(k, s));
    }
  }

  lemma TryAcquireInOrder(k: State, l: nat)
    requires Inv(k) && k.cur.Some? && l < |k.locks|
    ensures InOrder(k, TryAcquire(k, l))
  {
    if k.locks[l].locked {
      SleepInOrder(k, k, LockAt(l), InAcquire(l));
    } else {
      NoSwitchInOrder(k, TryAcquire(k, l));
    }
  }

  lemma OpInOrder(k: State, op: Op)
    requires Inv(k) && Enabled(k, Do(op))
    ensures InOrder(k, DoOp(k, op))
  {
    match op
    case P(s) => TryPInOrder(k, s);
    case V(s) => VInOrder(k, s);
    case Acquire(l) => TryAcquireInOrder(k, l);
    case Release(l) =>
      ReleaseInOrder(k, l);
      NoSwitchInOrder(k, DoRelease(k, l));
    case Wait(c, l) =>
      ReleaseInOrder(k, l);
      SleepInOrder(k, DoRelease(k, l), CvAt(c), InWait(c, l));
    case Signal(c, _) =>
      WakeOneMoves(k, 0, CvAt(c));
      NoSwitchInOrder(k, DoOp(k, op));
    case Broadcast(c, _) =>
      WakeupInOrder(k, CvAt(c));
      NoSwitchInOrder(k, DoOp(k, op));
    case Yield => DispatchInOrder(k, StandBy(k));
    case Exit => DispatchInOrder(k, Bury(k));
    case Fork(_) => NoSwitchInOrder(k, DoOp(k, op));
    case ForkFails(_) => NoSwitchInOrder(k, DoOp(k, op));
  }

  lemma StepInOrder(k: State, e: Event)
    requires Inv(k) && Enabled(k, e)
    ensures InOrder(k, Apply(k, e))
  {
    match e
    case Do(op) => OpInOrder(k, op);
    case Interrupt(s) => VInOrder(k, s);
    case IdleEnds => DispatchInOrder(k, k);
    case Resume =>
      match k.cont[k.cur.value]
      case InP(s) => TryPInOrder(k, s);
      case InAcquire(l) => TryAcquireInOrder(k, l);
      case InWait(_, l) => TryAcquireInOrder(k, l);
      case _ =>
  }

  /** Steps without a switch leave the current thread alone. */
  lemma NoSwitch(k: State, e: Event)
    requires Enabled(k, e) && !Switches(k, e)
    ensures Apply(k, e).cur == k.cur
  {
    match e
    case Do(op) =>
      match op {
        case V(s) => VCur(k, s);
        case Release(l) => ReleaseInOrder(k, l);
        case Signal(c, _) => WakeOneMoves(k, 0, CvAt(c));
        case Broadcast(c, _) => WakeupInOrder(k, CvAt(c));
        case _ =>
      }
    case Interrupt(s) => VCur(k, s);
    case _ =>
  }

  lemma VCur(k: State, s: nat)
    requires s < |k.sems|
    ensures DoV(k, s).cur == k.cur
  {
    var sem := k.sems[s];
    WakeupInOrder(k.(sems := k.sems[s := sem.(count := sem.count + 1, vs := sem.vs + 1)]), SemAt(s));
  }

  lemma DispatchTakes(k: State, m: State)
    requires k.runq != [] && k.runq <= m.runq
    ensures Took(k, Dispatch(m))
  {
    assert m.runq[0] == k.runq[0];
  }

  /** With somebody in the run queue, exactly these events run its head. */
  lemma SwitchTakes(k: State, e: Event)
    requires Inv(k) && Enabled(k, e) && k.runq != []
    ensures Took(k, Apply(k, e)) <==> Switches(k, e)
  {
    hide Conserved, Room, NoLostWakeups, Objects, Took, Dispatch;
    if !Switches(k, e) {
      NoSwitch(k, e);
      StillNotTaken(k, Apply(k, e));
    } else {
      match e
      case IdleEnds => DispatchTakes(k, k);
      case Resume =>
        match k.cont[k.cur.value] {
          case InP(s) => DispatchTakes(k, LieDown(k, SemAt(s), InP(s)));
          case InAcquire(l) => DispatchTakes(k, LieDown(k, LockAt(l), InAcquire(l)));
          case InWait(_, l) => DispatchTakes(k, LieDown(k, LockAt(l), InAcquire(l)));
        }
      case Do(op) => OpTakes(k, op);
    }
  }

  lemma OpTakes(k: State, op: Op)
    requires Enabled(k, Do(op)) && Switches(k, Do(op)) && k.runq != []
    ensures Took(k, DoOp(k, op))
  {
    hide Took, Dispatch, DoRelease;
    match op
    case P(s) => DispatchTakes(k, LieDown(k, SemAt(s), InP(s)));
    case Acquire(l) => DispatchTakes(k, LieDown(k, LockAt(l), InAcquire(l)));
    case Wait(c, l) =>
      ReleaseInOrder(k, l);
      DispatchTakes(k, LieDown(DoRelease(k, l), CvAt(c), InWait(c, l)));
    case Yield => DispatchTakes(k, StandBy(k));
    case Exit => DispatchTakes(k, Bury(k));
  }

  lemma StillNotTaken(k: State, r: State)
    requires Conserved(k) && r.cur == k.cur && k.runq != []
    ensures !Took(k, r)
  {
    Places(k);
    assert k.runq[0] in k.runq;
    assert k.cur.Some? ==> k.cur.value in Cur(k);
  }

  /** Scheduler calls between states `i` and `j` of a run. */
  ghost function Calls(ks: seq<State>, es: seq<Event>, i: nat, j: nat): nat
    requires Run(ks, es) && i <= j <= |es|
    decreases j
  {
    if i == j then 0 else Calls(ks, es, i, j - 1) + if Switches(ks[j - 1], es[j - 1]) then 1 else 0
  }

  lemma MovesUp(k: State, r: State, q: nat)
    requires InOrder(k, r) && q < |k.runq|
    ensures !Took(k, r) ==> q < |r.runq| && r.runq[q] == k.runq[q]
    ensures Took(k, r) && q > 0 ==> q - 1 < |r.runq| && r.runq[q - 1] == k.runq[q]
  {
    if Took(k, r) && q > 0 {
      assert k.runq[1..][q - 1] == k.runq[q];
    }
  }

  lemma {:induction false} Queued(ks: seq<State>, es: seq<Event>, i: nat, j: nat, p: nat)
    requires Run(ks, es) && i <= j <= |es| && p < |ks[i].runq| && Calls(ks, es, i, j) <= p
    ensures var q := p - Calls(ks, es, i, j);
            q < |ks[j].runq| && ks[j].runq[q] == ks[i].runq[p]
  {
    hide Enabled, Apply, Switches, Took, InOrder;
    if i < j {
      Queued(ks, es, i, j - 1, p);
      RunKeeps(ks, es, j - 1);
      SwitchTakes(ks[j - 1], es[j - 1]);
      StepInOrder(ks[j - 1], es[j - 1]);
      MovesUp(ks[j - 1], ks[j], p - Calls(ks, es, i, j - 1));
    }
  }

  /** Round robin: the thread at position `p` of the run queue moves up by one with each scheduler call,
      whatever else is enqueued, and call number `p + 1` runs it. */
  lemma RoundRobin(ks: seq<State>, es: seq<Event>, i: nat, j: nat, p: nat)
    requires Run(ks, es) && i <= j <= |es| && p < |ks[i].runq| && Calls(ks, es, i, j) <= p
    ensures var q := p - Calls(ks, es, i, j);
            q < |ks[j].runq| && ks[j].runq[q] == ks[i].runq[p]
    ensures j < |es| && Calls(ks, es, i, j) == p && Switches(ks[j], es[j]) ==> ks[j + 1].cur == Some(ks[i].runq[p])
  {
    hide Enabled, Apply, Switches, InOrder, Conserved, Room, NoLostWakeups, Objects;
    Queued(ks, es, i, j, p);
    if j < |es| {
      RunKeeps(ks, es, j);
      SwitchTakes(ks[j], es[j]);
    }
  }
}
