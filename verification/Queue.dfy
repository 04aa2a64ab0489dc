/** The growable ring of os161/kern/lib/queue.c. It holds at most `size - 1` elements. */
module Queue {
  import opened Rings

  /** Double `size` until it reaches `target`. */
  function Doubled(size: nat, target: nat): (r: nat)
    requires size > 0
    ensures r >= size && r >= target
    ensures target <= size ==> r == size
    ensures size < target <= 2 * size ==> r == 2 * size
    decreases target - size
  {
    if size < target then Doubled(2 * size, target) else size
  }

  /** Number of elements between the two indices of a ring of `size` slots. */
  function Distance(nextread: nat, nextwrite: nat, size: nat): (len: nat)
    requires nextread < size && nextwrite < size
    ensures len < size && Wrap(nextread, len, size) == nextwrite
  {
    if nextread <= nextwrite then nextwrite - nextread else nextwrite + size - nextread
  }

  /** Where the write index goes, and what it means when it would meet the read index. */
  lemma Advance(nextread: nat, nextwrite: nat, size: nat)
    requires nextread < size && nextwrite < size
    ensures (nextwrite + 1) % size == Wrap(nextwrite, 1, size)
    ensures (nextwrite + 1) % size == nextread <==> Distance(nextread, nextwrite, size) == size - 1
    ensures (nextwrite + 1) % size != nextread ==>
              Distance(nextread, (nextwrite + 1) % size, size) == Distance(nextread, nextwrite, size) + 1
  {
    StepIndex(nextwrite, size);
  }

  class Ring<T(0)> {
    var size: nat
    var nextwrite: nat
    var nextread: nat
    var data: array<T>

    ghost predicate Valid()
      reads this
    {
      0 < size == data.Length && nextwrite < size && nextread < size
    }

    ghost function Contents(): seq<T>
      requires Valid()
      reads this, data
    {
      Slots(data[..], nextread, Distance(nextread, nextwrite, size))
    }

    ghost predicate Full()
      requires Valid()
      reads this, data
    {
      |Contents()| == size - 1
    }

    constructor (n: nat)
      requires n > 0
      ensures Valid() && fresh(data) && Contents() == [] && size == n
    {
      size, nextwrite, nextread, data := n, 0, 0, new T[n];
    }

    /** Relocates the contents to a larger buffer, one `AddTail` per element. None of those calls can
        find the new buffer full, which is why the mutual recursion ends. */
    method Grow(target: nat) returns (ok: bool)
      requires Valid()
      modifies this
      ensures Valid() && Contents() == old(Contents())
      ensures ok ==> size == Doubled(old(size), target) && fresh(data)
      ensures !ok ==> size == old(size) && data == old(data)
      decreases 1
    {
      var olddata, onr, onw, osize := data, nextread, nextwrite, size;
      ghost var contents := Contents();
      var nsize := size;
      while nsize < target
        invariant nsize >= size && Doubled(nsize, target) == Doubled(size, target)
      {
        nsize := nsize * 2;
      }
      if * {
        return false;
      }
      var ndata := new T[nsize];
      size := nsize;
      data := ndata;
      nextread, nextwrite := 0, 0;
      var i := onr;
      ghost var copied := 0;
      while i != onw
        invariant copied <= |contents| && i == Wrap(onr, copied, osize)
        invariant Valid() && size == nsize && data == ndata && Contents() == contents[..copied]
        invariant olddata[..] == old(data[..])
        decreases |contents| - copied
      {
        StepIndex(i, osize);
        WrapStep(onr, copied, osize);
        assert contents[..copied + 1] == contents[..copied] + [olddata[i]];
        var r := AddTail(olddata[i]);
        i := (i + 1) % osize;
        copied := copied + 1;
      }
      return true;
    }

    method Preallocate(n: nat) returns (ok: bool)
      requires Valid()
      modifies this
      ensures Valid() && Contents() == old(Contents())
      ensures ok ==> size == Doubled(old(size), n) >= n && (data == old(data) || fresh(data))
      ensures !ok ==> n > old(size) == size && data == old(data)
    {
      ok := true;
      if n > size {
        ok := Grow(n);
      }
    }

    method Empty() returns (r: bool)
      requires Valid()
      ensures r <==> Contents() == []
    {
      r := nextwrite == nextread;
    }

    /** Appends `x`. It allocates, and can fail, only when the ring was full. */
    method AddTail(x: T) returns (ok: bool)
      requires Valid()
      modifies this, data
      ensures Valid()
      ensures ok ==> Contents() == old(Contents()) + [x]
      ensures !ok ==> Contents() == old(Contents()) && old(Full())
      ensures size == if ok && old(Full()) then 2 * old(size) else old(size)
      ensures ok && old(Full()) ==> fresh(data)
      ensures !(ok && old(Full())) ==> data == old(data)
      decreases if Full() then 2 else 0
    {
      Advance(nextread, nextwrite, size);
      var nextnext := (nextwrite + 1) % size;
      if nextnext == nextread {
        ok := Grow(size + 1);
        if !ok {
          return;
        }
        Advance(nextread, nextwrite, size);
        nextnext := (nextwrite + 1) % size;
      }
      Append(data[..], nextread, Distance(nextread, nextwrite, size), x);
      data[nextwrite] := x;
      nextwrite := nextnext;
      ok := true;
    }

    method RemHead() returns (x: T)
      requires Valid() && Contents() != []
      modifies this`nextread
      ensures Valid() && old(Contents()) == [x] + Contents()
    {
      Pop(data[..], nextread, Distance(nextread, nextwrite, size));
      StepIndex(nextread, size);
      x := data[nextread];
      nextread := (nextread + 1) % size;
    }
  }
}
