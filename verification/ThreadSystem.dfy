/** The thread system as it runs: the run queue is a growable ring, the sleepers and the zombies are growable arrays,
    and the interrupts-off sections of thread.c, scheduler.c and synch.c update them in place. Each
    section is proved to be the step of the same name in `Kernel`. A result of `false` stands for the
    panic that follows when an allocation fails where the source asserts that it cannot. */
module ThreadSystem {
  import opened Kernel
  import opened KernelRuns
  import PtrArray
  import Queue

  class Threads {
    var cur: Option<Tid>
    const runqueue: Queue.Ring<Tid>
    const sleepers: PtrArray.Vec<Tid>
    var sleepaddr: map<Tid, Addr>
    const zombies: PtrArray.Vec<Tid>
    var cont: map<Tid, Cont>
    var numthreads: nat
    var forked: bool
    var sems: seq<Sem>
    var locks: seq<Lock>

    ghost function Repr(): set<object?>
      reads this, runqueue, sleepers, zombies
    {
      {this, runqueue, runqueue.data, sleepers, sleepers.v, zombies, zombies.v}
    }

    ghost predicate Valid()
      reads this, runqueue, sleepers, zombies
    {
      && runqueue.Valid() && sleepers.Valid() && zombies.Valid() && sleepers != zombies
      && sleepers.v != runqueue.data && zombies.v != runqueue.data && (zombies.v != null ==> zombies.v != sleepers.v)
    }

    /** The buffers are those of before or new ones. */
    twostate predicate Kept()
      reads this, runqueue, sleepers, zombies
    {
      && (runqueue.data == old(runqueue.data) || fresh(runqueue.data))
      && (sleepers.v == old(sleepers.v) || (sleepers.v != null && fresh(sleepers.v)))
      && (zombies.v == old(zombies.v) || (zombies.v != null ==> fresh(zombies.v)))
    }

    /** The state of the machine this object is in. */
    ghost function Abs(): State
      requires Valid()
      reads this, runqueue, runqueue.data, sleepers, sleepers.v, zombies, zombies.v
    {
      State(cur, runqueue.Contents(), runqueue.size, sleepers.Contents(), sleepers.max, sleepaddr,
            zombies.Contents(), zombies.max, cont, numthreads, forked, sems, locks)
    }

    /** thread_bootstrap and scheduler_bootstrap. */
    constructor (me: Tid, counts: seq<nat>, nlocks: nat)
      ensures Valid() && fresh(Repr() - {null}) && Init(Abs()) && cur == Some(me)
    {
      var q := new Queue.Ring<Tid>(32);
      var s := new PtrArray.Vec<Tid>();
      var z := new PtrArray.Vec<Tid>();
      cur, runqueue, sleepers, sleepaddr, zombies := Some(me), q, s, map[], z;
      cont, numthreads, forked := map[me := Free], 1, false;
      sems := seq(|counts|, i requires 0 <= i < |counts| => Sem(counts[i], counts[i], 0, 0));
      locks := seq(nlocks, i => Lock(false, None));
    }

    method MakeRunnable(t: Tid) returns (ok: bool)
      requires Valid()
      modifies runqueue, runqueue.data
      ensures Valid() && Kept()
      ensures ok ==> Abs() == Kernel.MakeRunnable(old(Abs()), t)
      ensures ok || (Abs() == old(Abs()) && |Abs().runq| == Abs().ringSize - 1)
    {
      ok := runqueue.AddTail(t);
    }

    /** Take the sleeper at index `i` off its list and onto the run queue. */
    method WakeAt(i: nat) returns (ok: bool)
      requires Valid() && i < |Abs().sleepers|
      modifies runqueue, runqueue.data, sleepers, sleepers.v
      ensures Valid() && Kept() && sleepers.v == old(sleepers.v)
      ensures ok ==> Abs() == Kernel.WakeAt(old(Abs()), i) && |Abs().sleepers| == |old(Abs()).sleepers| - 1
      ensures !ok ==> Kernel.WakeAt(old(Abs()), i).ringSize > old(Abs()).ringSize
    {
      var t := sleepers.Get(i);
      sleepers.Remove(i);
      ok := MakeRunnable(t);
    }

    /** Whether the sleeper at index `i` sleeps on `a`. */
    method SleepsOn(i: nat, a: Addr) returns (r: bool)
      requires Valid() && i < |Abs().sleepers|
      ensures r <==> On(Abs(), Abs().sleepers[i], a)
    {
      var t := sleepers.Get(i);
      r := t in sleepaddr && sleepaddr[t] == a;
    }

    method NumSleepers() returns (n: nat)
      requires Valid()
      ensures n == |Abs().sleepers|
    {
      n := sleepers.num;
    }

    /** thread_wakeup: the loop removes while it iterates. It fails only where the step of the machine grows the
        ring. */
    method Wakeup(a: Addr) returns (ok: bool)
      requires Valid()
      modifies runqueue, runqueue.data, sleepers, sleepers.v
      ensures Valid() && Kept()
      ensures ok ==> Abs() == Kernel.Wakeup(old(Abs()), a)
      ensures !ok ==> Kernel.Wakeup(old(Abs()), a).ringSize > old(Abs()).ringSize
    {
      hide Abs, Valid, On, Kernel.WakeAt;
      var i := 0;
      var n := NumSleepers();
      while i < n
        invariant Valid() && Kept() && sleepers.v == old(sleepers.v)
        invariant i <= n == |Abs().sleepers| && old(Abs()).ringSize <= Abs().ringSize
        invariant WakeFrom(Abs(), i, a) == Kernel.Wakeup(old(Abs()), a)
        decreases n - i
      {
        var here := SleepsOn(i, a);
        if here {
          RingGrows(Abs(), i, a);
          ok := WakeAt(i);
          if !ok {
            return;
          }
          n := NumSleepers();
        } else {
          i := i + 1;
        }
      }
      ok := true;
    }

    /** thread_wakeup_one. */
    method WakeupOne(a: Addr) returns (ok: bool)
      requires Valid()
      modifies runqueue, runqueue.data, sleepers, sleepers.v
      ensures Valid() && Kept()
      ensures ok ==> Abs() == WakeOneFrom(old(Abs()), 0, a)
      ensures !ok ==> WakeOneFrom(old(Abs()), 0, a).ringSize > old(Abs()).ringSize
    {
      var i := 0;
      while i < sleepers.num
        invariant Valid() && Abs() == old(Abs()) && i <= |Abs().sleepers|
        invariant runqueue.data == old(runqueue.data) && sleepers.v == old(sleepers.v)
        invariant WakeOneFrom(Abs(), i, a) == WakeOneFrom(Abs(), 0, a)
      {
        var here := SleepsOn(i, a);
        if here {
          ok := WakeAt(i);
          return;
        }
        i := i + 1;
      }
      ok := true;
    }

    method HasSleepers(a: Addr) returns (r: bool)
      requires Valid()
      ensures r <==> exists t :: t in Abs().sleepers && On(Abs(), t, a)
    {
      var i := 0;
      while i < sleepers.num
        invariant i <= |Abs().sleepers|
        invariant forall j :: 0 <= j < i ==> !On(Abs(), Abs().sleepers[j], a)
      {
        var here := SleepsOn(i, a);
        if here {
          assert Abs().sleepers[i] in Abs().sleepers;
          return true;
        }
        i := i + 1;
      }
      return false;
    }

    /** The end of mi_switch: call the scheduler and continue in the thread it picks. An empty run queue
        leaves the processor idle. */
    method Dispatch()
      requires Valid()
      modifies this, runqueue, zombies
      ensures Valid() && Kept() && runqueue.data == old(runqueue.data) && sleepers.v == old(sleepers.v)
      ensures Abs() == Kernel.Dispatch(old(Abs()))
    {
      var none := runqueue.Empty();
      if none {
        cur := None;
        return;
      }
      var next := runqueue.RemHead();
      cur := Some(next);
      sleepaddr := sleepaddr - {next};
      if next in cont && cont[next].Fresh? {
        cont := cont[next := Free];
      } else {
        Exorcise();
      }
    }

    /** exorcise: shrinking the array cannot fail. */
    method Exorcise()
      requires Valid()
      modifies zombies
      ensures Valid() && Kept() && Abs() == old(Abs()).(zombies := [], zombiesMax := Exorcised(old(Abs()).zombiesMax))
    {
      var result := zombies.SetSize(0);
      assert result;
    }

    /** mi_switch up to the scheduler call, for a thread that goes to sleep. */
    method LieDown(a: Addr, c: Cont) returns (ok: bool)
      requires Valid() && cur.Some?
      modifies this, sleepers, sleepers.v
      ensures Valid() && Kept()
      ensures ok ==> Abs() == Kernel.LieDown(old(Abs()), a, c)
      ensures !ok ==> |old(Abs()).sleepers| == old(Abs()).sleepersMax
    {
      var t := cur.value;
      cur, sleepaddr, cont := None, sleepaddr[t := a], cont[t := c];
      ok := sleepers.Add(t);
    }

    /** thread_sleep, with the point `c` at which the thread will continue. */
    method Sleep(a: Addr, c: Cont) returns (ok: bool)
      requires Valid() && cur.Some?
      modifies this, runqueue, zombies, sleepers, sleepers.v
      ensures Valid() && Kept()
      ensures ok ==> Abs() == Kernel.Sleep(old(Abs()), a, c)
      ensures !ok ==> |old(Abs()).sleepers| == old(Abs()).sleepersMax
    {
      ok := LieDown(a, c);
      if ok {
        Dispatch();
      }
    }

    /** P, up to its first switch or its end. It fails only where going to sleep allocates, and not once a thread was
        forked. */
    method P(s: nat) returns (ok: bool)
      requires Valid() && cur.Some? && s < |sems|
      modifies Repr()
      ensures Valid() && Kept()
      ensures ok ==> Abs() == TryP(old(Abs()), s)
      ensures !ok ==> TryP(old(Abs()), s).sleepersMax > old(Abs()).sleepersMax
      ensures Inv(old(Abs())) && old(forked) ==> ok
    {
      hide Conserved, Room, NoLostWakeups, Objects, FillsRing;
      if Inv(Abs()) {
        TryPGrowth(Abs(), s);
      }
      if sems[s].count == 0 {
        ok := Sleep(SemAt(s), InP(s));
        return;
      }
      sems := sems[s := sems[s].(count := sems[s].count - 1, ps := sems[s].ps + 1)];
      cont := cont[cur.value := Free];
      ok := true;
    }

    /** V fails only where the step of the machine grows the ring; called by a thread it never does. */
    method V(s: nat) returns (ok: bool)
      requires Valid() && s < |sems|
      modifies Repr()
      ensures Valid() && Kept()
      ensures ok ==> Abs() == DoV(old(Abs()), s)
      ensures !ok ==> DoV(old(Abs()), s).ringSize > old(Abs()).ringSize
      ensures Inv(old(Abs())) && !ok ==> FillsRing(old(Abs()), Interrupt(s))
    {
      hide Conserved, Room, NoLostWakeups, Objects, FillsRing;
      if Inv(Abs()) {
        InterruptGrowth(Abs(), s);
      }
      sems := sems[s := sems[s].(count := sems[s].count + 1, vs := sems[s].vs + 1)];
      ok := Wakeup(SemAt(s));
    }

    /** lock_acquire, up to its first switch or its end. */
    method Acquire(l: nat) returns (ok: bool)
      requires Valid() && cur.Some? && l < |locks|
      modifies Repr()
      ensures Valid() && Kept()
      ensures ok ==> Abs() == TryAcquire(old(Abs()), l)
      ensures !ok ==> TryAcquire(old(Abs()), l).sleepersMax > old(Abs()).sleepersMax
      ensures Inv(old(Abs())) && old(forked) ==> ok
    {
      hide Conserved, Room, NoLostWakeups, Objects, FillsRing;
      if Inv(Abs()) {
        TryAcquireGrowth(Abs(), l);
      }
      if locks[l].locked {
        ok := Sleep(LockAt(l), InAcquire(l));
        return;
      }
      locks := locks[l := Lock(true, cur)];
      cont := cont[cur.value := Free];
      ok := true;
    }

    /** lock_release. In a state that can be reached it never fails. */
    method Release(l: nat) returns (ok: bool)
      requires Valid() && Holds(Abs(), l)
      modifies Repr()
      ensures Valid() && Kept()
      ensures ok ==> Abs() == DoRelease(old(Abs()), l)
      ensures !ok ==> DoRelease(old(Abs()), l).ringSize > old(Abs()).ringSize
      ensures Inv(old(Abs())) ==> ok
    {
      hide Conserved, Room, NoLostWakeups, Objects, FillsRing;
      if Inv(Abs()) {
        ReleaseGrowth(Abs(), l);
      }
      locks := locks[l := Lock(false, None)];
      ok := Wakeup(LockAt(l));
    }

    /** cv_wait, up to its switch: the lock is given up and the caller asleep before anyone else runs. */
    method CvWait(c: nat, l: nat) returns (ok: bool)
      requires Valid() && Holds(Abs(), l)
      modifies Repr()
      ensures Valid() && Kept()
      ensures ok ==> Abs() == Kernel.Sleep(DoRelease(old(Abs()), l), CvAt(c), InWait(c, l))
      ensures var k, m := old(Abs()), DoRelease(old(Abs()), l);
              !ok ==> m.ringSize > k.ringSize || Kernel.Sleep(m, CvAt(c), InWait(c, l)).sleepersMax > k.sleepersMax
      ensures Inv(old(Abs())) && old(forked) ==> ok
    {
      hide Conserved, Room, NoLostWakeups, Objects, FillsRing;
      if Inv(Abs()) {
        WaitGrowth(Abs(), c, l);
      }
      ReleasePlain(Abs(), l);
      ok := Release(l);
      if ok {
        ok := Sleep(CvAt(c), InWait(c, l));
      }
    }

    /** cv_signal. In a state that can be reached it never fails. */
    method CvSignal(c: nat, l: nat) returns (ok: bool)
      requires Valid() && Holds(Abs(), l)
      modifies runqueue, runqueue.data, sleepers, sleepers.v
      ensures Valid() && Kept()
      ensures ok ==> Abs() == WakeOneFrom(old(Abs()), 0, CvAt(c))
      ensures Inv(old(Abs())) ==> ok
    {
      hide Room, NoLostWakeups, Objects, Conserved;
      if Inv(Abs()) {
        WakeOneGrowth(Abs(), 0, CvAt(c));
      }
      ok := WakeupOne(CvAt(c));
    }

    /** cv_broadcast. In a state that can be reached it never fails. */
    method CvBroadcast(c: nat, l: nat) returns (ok: bool)
      requires Valid() && Holds(Abs(), l)
      modifies runqueue, runqueue.data, sleepers, sleepers.v
      ensures Valid() && Kept()
      ensures ok ==> Abs() == Kernel.Wakeup(old(Abs()), CvAt(c))
      ensures Inv(old(Abs())) ==> ok
    {
      hide Room, NoLostWakeups, Objects, Conserved;
      if Inv(Abs()) {
        WakeupFromRunning(Abs(), CvAt(c));
      }
      ok := Wakeup(CvAt(c));
    }

    /** mi_switch up to the scheduler call, for a thread that stays runnable. */
    method StandBy() returns (ok: bool)
      requires Valid() && cur.Some?
      modifies this`cur, runqueue, runqueue.data
      ensures Valid() && Kept()
      ensures ok ==> Abs() == Kernel.StandBy(old(Abs()))
      ensures !ok ==> Kernel.StandBy(old(Abs())).ringSize > old(Abs()).ringSize
    {
      var t := cur.value;
      cur := None;
      ok := MakeRunnable(t);
    }

    method Yield() returns (ok: bool)
      requires Valid() && cur.Some?
      modifies this, runqueue, runqueue.data, zombies
      ensures Valid() && Kept()
      ensures ok ==> Abs() == DoYield(old(Abs()))
      ensures !ok ==> DoYield(old(Abs())).ringSize > old(Abs()).ringSize
      ensures Inv(old(Abs())) && !ok ==> FillsRing(old(Abs()), Do(Kernel.Yield))
    {
      hide Conserved, Room, NoLostWakeups, Objects;
      if Inv(Abs()) {
        YieldGrowth(Abs());
      }
      ok := StandBy();
      if ok {
        Dispatch();
      }
    }

    /** thread_exit before its switch. The add to the zombies allocates, and can fail, only when their array is full. */
    method Bury() returns (ok: bool)
      requires Valid() && cur.Some? && numthreads > 0
      modifies this, zombies, zombies.v
      ensures Valid() && Kept()
      ensures ok ==> Abs() == Kernel.Bury(old(Abs()))
      ensures !ok ==> |old(Abs()).zombies| == old(Abs()).zombiesMax
    {
      var t := cur.value;
      numthreads := numthreads - 1;
      cur, cont := None, cont - {t};
      ok := zombies.Add(t);
    }

    method Exit() returns (ok: bool)
      requires Valid() && cur.Some? && numthreads > 0
      modifies this, runqueue, zombies, zombies.v
      ensures Valid() && Kept()
      ensures ok ==> Abs() == DoExit(old(Abs()))
      ensures !ok ==> |old(Abs()).zombies| == old(Abs()).zombiesMax
    {
      ok := Bury();
      if ok {
        Dispatch();
      }
    }

    method PreallocateSleepers(n: nat) returns (ok: bool)
      requires Valid()
      modifies sleepers
      ensures Valid() && Kept()
      ensures ok ==> Abs() == old(Abs()).(sleepersMax := PtrArray.Grown(old(Abs()).sleepersMax, n))
      ensures !ok ==> Abs() == old(Abs())
    {
      ok := sleepers.Preallocate(n);
    }

    method PreallocateZombies(n: nat) returns (ok: bool)
      requires Valid()
      modifies zombies
      ensures Valid() && Kept()
      ensures ok ==> Abs() == old(Abs()).(zombiesMax := PtrArray.Grown(old(Abs()).zombiesMax, n))
      ensures !ok ==> Abs() == old(Abs())
    {
      ok := zombies.Preallocate(n);
    }

    /** scheduler_preallocate. */
    method PreallocateRunqueue(n: nat) returns (ok: bool)
      requires Valid()
      modifies runqueue
      ensures Valid() && Kept()
      ensures old(Abs()).ringSize > 0
      ensures ok ==> Abs() == old(Abs()).(ringSize := Queue.Doubled(old(Abs()).ringSize, n))
      ensures !ok ==> Abs() == old(Abs())
    {
      ok := runqueue.Preallocate(n);
    }

    /** The preallocation in thread_fork: room for one more thread in the sleepers, the zombies and the run queue. What
        was done before a failure stays. */
    method Preallocate(n: nat) returns (ok: bool, ghost grown: nat)
      requires Valid() && n == Abs().numthreads + 1
      modifies runqueue, sleepers, zombies
      ensures Valid() && Kept()
      ensures ok ==> Abs() == Reserve(old(Abs()))
      ensures !ok ==> Abs() == Unreserved(old(Abs()), grown)
    {
      hide Abs, Valid, PtrArray.Grown, Queue.Doubled;
      grown := 0;
      ok := PreallocateSleepers(n);
      if ok {
        grown := 1;
        ok := PreallocateZombies(n);
        if ok {
          grown := 2;
          ok := PreallocateRunqueue(n);
        }
      }
    }

    /** The end of thread_fork: the new thread is runnable and counted. */
    method Enroll(t: Tid) returns (ok: bool)
      requires Valid()
      modifies this, runqueue, runqueue.data
      ensures Valid() && Kept()
      ensures ok ==> Abs() == Kernel.Enroll(old(Abs()), t)
      ensures ok || (Abs() == old(Abs()) && |Abs().runq| == Abs().ringSize - 1)
    {
      ok := MakeRunnable(t);
      if ok {
        cont, numthreads, forked := cont[t := Fresh], numthreads + 1, true;
      }
    }

    /** thread_fork with interrupts off: make room for one more thread in every list, then enqueue it, which then
        cannot fail. */
    method Fork(t: Tid) returns (ok: bool, ghost grown: nat)
      requires Valid() && Inv(Abs()) && cur.Some? && t !in cont && t !in Abs().zombies
      modifies this, runqueue, runqueue.data, sleepers, zombies
      ensures Valid() && Kept()
      ensures ok ==> Abs() == DoFork(old(Abs()), t)
      ensures !ok ==> Abs() == Unreserved(old(Abs()), grown)
    {
      ghost var k := Abs();
      ok, grown := Preallocate(numthreads + 1);
      if ok {
        RoomReserved(k);
        ok := Enroll(t);
      }
    }
  }

  /** A wakeup never shrinks the ring. */
  lemma RingGrows(k: State, i: nat, a: Addr)
    requires i < |k.sleepers|
    ensures k.ringSize <= Kernel.WakeAt(k, i).ringSize <= WakeFrom(Kernel.WakeAt(k, i), i, a).ringSize
  {
    WakeFromMoves(Kernel.WakeAt(k, i), i, a);
  }

  /** Releasing a lock leaves the capacity of the sleepers and the current thread as they are. */
  lemma ReleasePlain(k: State, l: nat)
    requires l < |k.locks|
    ensures var r := DoRelease(k, l);
            r.sleepersMax == k.sleepersMax && r.cur == k.cur && r.forked == k.forked
  {
    WakeFromMoves(k.(locks := k.locks[l := Lock(false, None)]), 0, LockAt(l));
  }

  lemma WaitGrowth(k: State, c: nat, l: nat)
    requires Inv(k) && Holds(k, l)
    ensures DoRelease(k, l).ringSize == k.ringSize && DoRelease(k, l).cur == k.cur
    ensures k.forked ==> Kernel.Sleep(DoRelease(k, l), CvAt(c), InWait(c, l)).sleepersMax == k.sleepersMax
  {
    ReleaseGrowth(k, l);
    ReleasePlain(k, l);
    DoReleaseKeeps(k, l);
    SleepKeeps(DoRelease(k, l), CvAt(c), InWait(c, l));
  }

  /** After the preallocation the ring is not full. */
  lemma RoomReserved(k: State)
    requires Inv(k) && k.cur.Some?
    ensures |Reserve(k).runq| < Reserve(k).ringSize - 1
  {
    Places(k);
  }
}
