/** Transfers between a kernel buffer and the buffer a uio describes, os161/kern/userprog/uio.c,
    for a uio in kernel space. */
module Uio {
  import opened SfsFormat

  datatype Rw = READ | WRITE

  class Transfer {
    const rw: Rw
    var buf: seq<Byte>      // the buffer the iovec points into
    var base: nat           // iov_kbase, as an index
    var len: nat            // iov_len
    var offset: nat         // uio_offset
    var resid: nat          // uio_resid

    ghost predicate Valid()
      reads this
    {
      base + len <= |buf| && resid <= len
    }

    /** mk_kuio. */
    constructor (b: seq<Byte>, pos: nat, mode: Rw)
      ensures Valid() && rw == mode && buf == b && base == 0 && len == resid == |b| && offset == pos
    {
      rw, buf, base, len, offset, resid := mode, b, 0, |b|, pos, |b|;
    }

    /** uiomove of all of `ptr`: out of it on a read, into it on a write. */
    method Move(ptr: seq<Byte>) returns (out: seq<Byte>)
      requires Valid() && |ptr| <= resid
      modifies this
      ensures Valid() && |buf| == |old(buf)| && |out| == |ptr|
      ensures offset == old(offset) + |ptr| && resid == old(resid) - |ptr|
      ensures base == old(base) + |ptr| && len == old(len) - |ptr|
      ensures rw.READ? ==> out == ptr && buf == old(buf)[..old(base)] + ptr + old(buf)[old(base) + |ptr|..]
      ensures rw.WRITE? ==> buf == old(buf) && out == buf[old(base)..old(base) + |ptr|]
    {
      out := ptr;
      var n := |ptr|;
      ghost var moved := 0;
      while n > 0 && resid > 0
        invariant n == |ptr| - moved && moved in {0, |ptr|} && |out| == |ptr|
        invariant base + len <= |buf| == |old(buf)| && resid <= len
        invariant offset == old(offset) + moved && resid == old(resid) - moved
        invariant base == old(base) + moved && len == old(len) - moved
        invariant rw.READ? ==> out == ptr && buf == old(buf)[..old(base)] + ptr[..moved] + old(buf)[old(base) + moved..]
        invariant rw.WRITE? ==> buf == old(buf) && (moved > 0 ==> out == buf[old(base)..old(base) + |ptr|])
        decreases n
      {
        var size := if len > n then n else len;
        if rw.READ? {
          buf := buf[..base] + ptr[..size] + buf[base + size..];
        } else {
          out := buf[base..base + size];
        }
        base, len, resid, offset, n := base + size, len - size, resid - size, offset + size, n - size;
        moved := moved + size;
      }
    }

    /** uiomovezeros, sixteen bytes at a time. */
    method MoveZeros(count: nat)
      requires Valid() && count <= resid && rw.READ?
      modifies this
      ensures Valid() && |buf| == |old(buf)|
      ensures offset == old(offset) + count && resid == old(resid) - count
      ensures base == old(base) + count && len == old(len) - count
      ensures buf == old(buf)[..old(base)] + seq(count, _ => 0) + old(buf)[old(base) + count..]
    {
      var n := count;
      ghost var moved := 0;
      while n > 0
        invariant n + moved == count && Valid() && |buf| == |old(buf)|
        invariant offset == old(offset) + moved && resid == old(resid) - moved
        invariant base == old(base) + moved && len == old(len) - moved
        invariant buf == old(buf)[..old(base)] + seq(moved, _ => 0) + old(buf)[old(base) + moved..]
      {
        var amt := if n < 16 then n else 16;
        var out := Move(seq(amt, _ => 0));
        n := n - amt;
        moved := moved + amt;
      }
    }
  }
}
