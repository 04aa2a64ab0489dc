/** Circular buffers: what the slots from `head` on hold, and how it changes when a slot is
    written at the tail, the head is advanced, or the contents are copied elsewhere. */
module Rings {

  /** The slot `k` places after `head` in a ring of `n` slots. */
  function Wrap(head: nat, k: nat, n: nat): (r: nat)
    requires head < n && k <= n
    ensures r < n
  {
    if head + k < n then head + k else head + k - n
  }

  /** The `len` elements starting at `head`, oldest first. */
  function Slots<T>(data: seq<T>, head: nat, len: nat): (r: seq<T>)
    requires head < |data| && len <= |data|
    ensures |r| == len
    ensures forall k :: 0 <= k < len ==> r[k] == data[Wrap(head, k, |data|)]
  {
    seq(len, k requires 0 <= k < len => data[Wrap(head, k, |data|)])
  }

  /** The source advances an index with a remainder. */
  lemma StepIndex(i: nat, n: nat)
    requires i < n
    ensures (i + 1) % n == Wrap(i, 1, n)
  {
    if i + 1 == n {
      assert (i + 1) % n == 0;
    }
  }

  lemma WrapStep(head: nat, k: nat, n: nat)
    requires head < n && k < n
    ensures Wrap(Wrap(head, k, n), 1, n) == Wrap(head, k + 1, n)
    ensures Wrap(Wrap(head, 1, n), k, n) == Wrap(head, k + 1, n)
  {
  }

  lemma Append<T>(data: seq<T>, head: nat, len: nat, x: T)
    requires head < |data| && len < |data|
    ensures Slots(data[Wrap(head, len, |data|) := x], head, len + 1) == Slots(data, head, len) + [x]
  {
    var d := data[Wrap(head, len, |data|) := x];
    forall k | 0 <= k < len
      ensures d[Wrap(head, k, |data|)] == data[Wrap(head, k, |data|)]
    {
      assert Wrap(head, k, |data|) != Wrap(head, len, |data|);
    }
  }

  lemma Pop<T>(data: seq<T>, head: nat, len: nat)
    requires head < |data| && 0 < len <= |data|
    ensures Slots(data, head, len) == [data[head]] + Slots(data, Wrap(head, 1, |data|), len - 1)
  {
    forall k | 1 <= k < len
      ensures Slots(data, head, len)[k] == Slots(data, Wrap(head, 1, |data|), len - 1)[k - 1]
    {
      WrapStep(head, k - 1, |data|);
    }
  }
}
