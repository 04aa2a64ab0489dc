/** Threads of a monitor program, as IEEE Std 1003.1 condition variables see them.

    A thread is awake when it can still take the mutex: it is running its own code
    outside the mutex (`Ready`), or its wait has been signalled and it has to take
    the mutex again (`Signalled`). A `Waiting` thread needs a signal, a broadcast or
    a spurious wakeup first. */
module CondThreads {

  datatype Phase = Ready | Waiting | Signalled | Done

  predicate Awake(p: Phase) {
    p.Ready? || p.Signalled?
  }

  function Count(ps: seq<Phase>, p: Phase): nat {
    if ps == [] then 0 else (if ps[0] == p then 1 else 0) + Count(ps[1..], p)
  }

  function Live(ps: seq<Phase>): nat {
    Count(ps, Ready) + Count(ps, Signalled) + Count(ps, Waiting)
  }

  function AwakeCount(ps: seq<Phase>): nat {
    Count(ps, Ready) + Count(ps, Signalled)
  }

  /** `after` is `before` with some waiting threads woken. */
  ghost predicate Woken(before: seq<Phase>, after: seq<Phase>) {
    && |after| == |before|
    && forall i :: 0 <= i < |before| ==>
                     after[i] == before[i] || (before[i].Waiting? && after[i].Signalled?)
  }

  /** pthread_cond_signal unblocks at least one waiter, if there is one. */
  ghost predicate SignalFrom(before: seq<Phase>, after: seq<Phase>) {
    && Woken(before, after)
    && (Waiting in before ==> exists i :: 0 <= i < |before| && before[i].Waiting? && after[i].Signalled?)
  }

  /** pthread_cond_broadcast unblocks every waiter. */
  ghost predicate BroadcastFrom(before: seq<Phase>, after: seq<Phase>) {
    Woken(before, after) && Waiting !in after
  }

  function WakeAll(ps: seq<Phase>): (r: seq<Phase>)
    ensures BroadcastFrom(ps, r)
  {
    seq(|ps|, i requires 0 <= i < |ps| => if ps[i].Waiting? then Signalled else ps[i])
  }

  lemma {:induction false} CountUpdate(ps: seq<Phase>, i: nat, q: Phase, p: Phase)
    requires i < |ps|
    ensures Count(ps[i := q], p) + (if ps[i] == p then 1 else 0) == Count(ps, p) + (if q == p then 1 else 0)
  {
    if i == 0 {
      assert ps[i := q][1..] == ps[1..];
    } else {
      assert ps[i := q][1..] == ps[1..][i - 1 := q];
      CountUpdate(ps[1..], i - 1, q, p);
    }
  }

  /** How the counts change when thread `i` moves to phase `q`. */
  lemma Recount(ps: seq<Phase>, i: nat, q: Phase)
    requires i < |ps|
    ensures forall p :: Count(ps[i := q], p) + (if ps[i] == p then 1 else 0) == Count(ps, p) + (if q == p then 1 else 0)
    ensures forall p :: p in ps[i := q] ==> p == q || p in ps
  {
    forall p
      ensures Count(ps[i := q], p) + (if ps[i] == p then 1 else 0) == Count(ps, p) + (if q == p then 1 else 0)
    {
      CountUpdate(ps, i, q, p);
    }
  }

  lemma {:induction false} CountPositive(ps: seq<Phase>, p: Phase)
    ensures Count(ps, p) > 0 <==> p in ps
  {
    if ps != [] {
      CountPositive(ps[1..], p);
      assert ps == [ps[0]] + ps[1..];
    }
  }

  lemma {:induction false} CountTotal(ps: seq<Phase>)
    ensures Live(ps) + Count(ps, Done) == |ps|
  {
    if ps != [] {
      CountTotal(ps[1..]);
    }
  }

  /** Waking moves threads from waiting to signalled and nowhere else. */
  lemma {:induction false} WokenCounts(before: seq<Phase>, after: seq<Phase>)
    requires Woken(before, after)
    ensures Count(after, Ready) == Count(before, Ready)
    ensures Count(after, Done) == Count(before, Done)
    ensures Count(after, Signalled) >= Count(before, Signalled)
    ensures Count(after, Signalled) + Count(after, Waiting) == Count(before, Signalled) + Count(before, Waiting)
    ensures after != before ==> Count(after, Signalled) > Count(before, Signalled)
  {
    if before != [] {
      WokenCounts(before[1..], after[1..]);
      assert before == [before[0]] + before[1..];
      assert after == [after[0]] + after[1..];
    }
  }

  lemma SignalCounts(before: seq<Phase>, after: seq<Phase>)
    requires SignalFrom(before, after)
    ensures Waiting in before ==> Count(after, Signalled) >= Count(before, Signalled) + 1
    ensures Waiting in after ==> Waiting in before
  {
    WokenCounts(before, after);
  }

  /** Two-level measures, flattened to one number. */
  lemma Lexicographic(w: nat, a: nat, w': nat, a': nat, m: nat)
    requires a < m && (w < w' || (w == w' && a < a'))
    ensures w * m + a < w' * m + a'
  {
    if w < w' {
      Scale(w + 1, w', m);
    }
  }

  lemma Scale(a: nat, b: nat, m: nat)
    requires a <= b
    ensures a * m <= b * m
  {
  }
}
