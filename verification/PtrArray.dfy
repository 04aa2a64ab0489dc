/** The growable pointer array of os161/kern/lib/array.c. */
module PtrArray {

  /** Capacity after growing from `max` to hold `n` elements. */
  function Grown(max: nat, n: nat): (r: nat)
    ensures r >= n && r >= max && (n <= max ==> r == max)
    decreases n - max
  {
    if n > max then Grown((max + 1) * 2, n) else max
  }

  class Vec<T(0)> {
    var num: nat
    var max: nat
    var v: array?<T>

    ghost predicate Valid()
      reads this
    {
      && num <= max
      && (v == null ==> max == 0)
      && (v != null ==> v.Length == max)
    }

    ghost function Contents(): seq<T>
      requires Valid()
      reads this, v
    {
      if v == null then [] else v[..num]
    }

    constructor ()
      ensures Valid() && Contents() == [] && max == 0 && v == null
    {
      num, max, v := 0, 0, null;
    }

    method Get(index: nat) returns (x: T)
      requires Valid() && index < |Contents()|
      ensures x == Contents()[index]
    {
      x := v[index];
    }

    /** Always moves to a new buffer, so it can fail even when there was room. */
    method Preallocate(n: nat) returns (ok: bool)
      requires Valid()
      modifies this
      ensures Valid() && Contents() == old(Contents()) && num == old(num)
      ensures ok ==> max == Grown(old(max), n) && v != null && fresh(v)
      ensures !ok ==> max == old(max) && v == old(v)
    {
      var newmax := max;
      while n > newmax
        invariant newmax >= max && Grown(newmax, n) == Grown(max, n)
      {
        newmax := (newmax + 1) * 2;
      }
      if * {
        return false;
      }
      var newv := new T[newmax];
      max := newmax;
      var i := 0;
      while i < num
        invariant v == old(v) && num == old(num) && max == newmax
        invariant i <= num <= newv.Length && |old(Contents())| == num
        invariant newv[..i] == old(Contents())[..i]
      {
        newv[i] := v[i];
        i := i + 1;
      }
      v := newv;
      return true;
    }

    /** Setting the size to 0 releases a buffer of more than 16 slots. */
    method SetSize(n: nat) returns (ok: bool)
      requires Valid()
      modifies this
      ensures Valid()
      ensures ok ==> num == n && (old(num) <= n ==> old(Contents()) <= Contents())
      ensures ok && n <= old(num) ==> Contents() == old(Contents())[..n]
      ensures ok && n > old(max) ==> max == Grown(old(max), n) && v != null && fresh(v)
      ensures ok && n <= old(max) && !(n == 0 && old(max) > 16) ==> max == old(max) && v == old(v)
      ensures ok && n == 0 && old(max) > 16 ==> max == 0 && v == null
      ensures !ok ==> n > old(max) && num == old(num) && max == old(max) && v == old(v)
    {
      if n > max {
        ok := Preallocate(n);
        if !ok {
          return;
        }
      } else if n == 0 && max > 16 {
        v := null;
        max := 0;
      }
      num := n;
      return true;
    }

    /** Appends `x`. It allocates, and can fail, only when every slot is taken. */
    method Add(x: T) returns (ok: bool)
      requires Valid()
      modifies this, v
      ensures Valid()
      ensures ok ==> Contents() == old(Contents()) + [x] && max == Grown(old(max), old(num) + 1)
      ensures !ok ==> old(num) == old(max) && Contents() == old(Contents()) && max == old(max)
      ensures v != old(v) ==> v != null && fresh(v)
      ensures old(num) < old(max) ==> ok && v == old(v)
    {
      var ix := num;
      ok := SetSize(ix + 1);
      if ok {
        v[ix] := x;
      }
    }

    /** Removes one element; those after it move down by one. */
    method Remove(index: nat)
      requires Valid() && index < num
      modifies this`num, v
      ensures Valid() && num == old(num) - 1
      ensures Contents() == old(Contents())[..index] + old(Contents())[index + 1..]
    {
      forall j | index <= j < num - 1 {
        v[j] := v[j + 1];
      }
      num := num - 1;
    }
  }
}
