/** File I/O of SFS, os161/kern/fs/sfs/sfs_vnode.c: a file is a map from byte positions to bytes, and
    reading and writing regions of any alignment is reading and writing that map. */
module SfsIo {
  import opened SfsFormat
  import opened SfsVolume
  import opened SfsBlocks
  import opened Sfs
  import opened Uio

  /** `v'` is `v` with `data` written at `off` of file `i`, and no other difference in any file. */
  ghost predicate Wrote(v: Vol, v': Vol, roles: Roles, roles': Roles, i: nat, off: nat, data: seq<Byte>) {
    && SameOthers(v, v', roles, i) && SameAttributes(InodeOf(v, i), InodeOf(v', i)) && Extends(roles, roles')
    && SameRefs(v, v') && |v'.disk| == |v.disk| && |v'.used| == |v.used|
    && forall k: nat :: ByteAt(v', i, k) == if off <= k < off + |data| then data[k - off] else ByteAt(v, i, k)
  }

  lemma WroteMore(v: Vol, w: Vol, u: Vol, roles: Roles, roles': Roles, roles'': Roles, i: nat, off: nat,
                  d: seq<Byte>, e: seq<Byte>)
    requires Wrote(v, w, roles, roles', i, off, d) && Wrote(w, u, roles', roles'', i, off + |d|, e)
    ensures Wrote(v, u, roles, roles'', i, off, d + e)
  {
    forall j | IsInode(roles, j) && j != i
      ensures SameFile(v, u, j)
    {
      assert IsInode(roles', j);
      assert SameFile(v, w, j) && SameFile(w, u, j);
    }
  }

  /** Mapping a block first makes no difference. */
  lemma KeptThenWrote(v: Vol, w: Vol, u: Vol, roles: Roles, roles': Roles, roles'': Roles, i: nat, off: nat,
                      d: seq<Byte>)
    requires Kept(v, w, roles, roles') && IsInode(roles, i) && Wrote(w, u, roles', roles'', i, off, d)
    ensures Wrote(v, u, roles, roles'', i, off, d)
  {
    forall j | IsInode(roles, j) && j != i
      ensures SameFile(v, u, j)
    {
      assert IsInode(roles', j);
      assert SameFile(v, w, j) && SameFile(w, u, j);
    }
    assert SameFile(v, w, i);
  }

  lemma KeptIsWrote(v: Vol, w: Vol, roles: Roles, roles': Roles, i: nat, off: nat)
    requires Kept(v, w, roles, roles') && IsInode(roles, i)
    ensures Wrote(v, w, roles, roles', i, off, [])
  {
    assert SameFile(v, w, i);
  }

  function Splice(blk: Block, skip: nat, data: seq<Byte>): (r: Block)
    requires skip + |data| <= BLOCKSIZE
    ensures forall k :: 0 <= k < BLOCKSIZE ==> r[k] == if skip <= k < skip + |data| then data[k - skip] else blk[k]
  {
    blk[..skip] + data + blk[skip + |data|..]
  }

  lemma SpliceAll(blk: Block, data: seq<Byte>)
    requires |data| == BLOCKSIZE
    ensures Splice(blk, 0, data) == data
  {
  }

  /** Overwriting part of a mapped block writes those bytes of the file. */
  lemma PokeKeeps(v: Vol, roles: Roles, i: nat, fb: nat, skip: nat, data: seq<Byte>)
    requires Owned(v, roles) && IsInode(roles, i) && fb < MAXBLOCKS && Ptr(v, i, fb) != 0
    requires skip + |data| <= BLOCKSIZE
    ensures Ptr(v, i, fb) < |v.disk|
    ensures var v' := v.(disk := v.disk[Ptr(v, i, fb) := Splice(v.disk[Ptr(v, i, fb)], skip, data)]);
            Owned(v', roles) && Wrote(v, v', roles, roles, i, fb * BLOCKSIZE + skip, data)
  {
    PtrRole(v, roles, -1, i, fb);
    var b := Ptr(v, i, fb);
    var blk := Splice(v.disk[b], skip, data);
    WriteBlock(v, roles, i, fb, blk);
    var v' := v.(disk := v.disk[b := blk]);
    forall k: nat
      ensures ByteAt(v', i, k) ==
              if fb * BLOCKSIZE + skip <= k < fb * BLOCKSIZE + skip + |data| then data[k - (fb * BLOCKSIZE + skip)]
              else ByteAt(v, i, k)
    {
      if k / BLOCKSIZE == fb {
        assert k % BLOCKSIZE == k - fb * BLOCKSIZE;
      }
    }
  }

  lemma PokeWhole(v: Vol, roles: Roles, i: nat, off: nat, data: Block)
    requires Owned(v, roles) && IsInode(roles, i) && off % BLOCKSIZE == 0 && off / BLOCKSIZE < MAXBLOCKS
    requires Ptr(v, i, off / BLOCKSIZE) != 0
    ensures Ptr(v, i, off / BLOCKSIZE) < |v.disk|
    ensures var v' := v.(disk := v.disk[Ptr(v, i, off / BLOCKSIZE) := data]);
            Owned(v', roles) && Wrote(v, v', roles, roles, i, off, data)
  {
    hide OwnedBut, Wrote, PtrIn, InodeOf, Splice;
    PokeKeeps(v, roles, i, off / BLOCKSIZE, 0, data);
    SpliceAll(v.disk[Ptr(v, i, off / BLOCKSIZE)], data);
  }

  /** The bytes of file `i` from `off` on. */
  ghost function Bytes(v: Vol, i: nat, off: nat, n: nat): (r: seq<Byte>)
    ensures |r| == n && forall k :: 0 <= k < n ==> r[k] == ByteAt(v, i, off + k)
  {
    seq<Byte>(n, k requires 0 <= k < n => ByteAt(v, i, off + k))
  }

  /** The bytes of one block, mapped or not. */
  lemma BlockBytes(v: Vol, i: nat, fb: nat, skip: nat, n: nat)
    requires skip + n <= BLOCKSIZE
    ensures BlockOf(v, i, fb)[skip..skip + n] == Bytes(v, i, fb * BLOCKSIZE + skip, n)
  {
    var piece := BlockOf(v, i, fb)[skip..skip + n];
    forall k | 0 <= k < n
      ensures piece[k] == ByteAt(v, i, fb * BLOCKSIZE + skip + k)
    {
      var at := fb * BLOCKSIZE + skip + k;
      assert at / BLOCKSIZE == fb && at % BLOCKSIZE == skip + k;
    }
  }

  // ---------------------------------------------------------------- reading and writing

  /** The buffer `after` is `before` with `data` at `base`. */
  ghost predicate Filled(before: seq<Byte>, after: seq<Byte>, base: nat, data: seq<Byte>) {
    base + |data| <= |before| && after == before[..base] + data + before[base + |data|..]
  }

  /** The end of sfs_partialio for a write: read the block, change part of it and write it back. */
  method Poke(fs: Fs, i: nat, uio: Transfer, ghost fb: nat, b: nat, skip: nat, len: nat)
    requires fs.Valid() && i in fs.vnodes && IsInode(fs.roles, i) && uio.Valid() && uio.rw.WRITE?
    requires fb < MAXBLOCKS && b != 0 && b == Ptr(fs.V(), i, fb)
    requires skip + len <= BLOCKSIZE && len <= uio.resid && uio.offset == fb * BLOCKSIZE + skip
    modifies fs`disk, uio
    ensures fs.Valid() && uio.Valid() && uio.buf == old(uio.buf)
    ensures uio.offset == old(uio.offset) + len && uio.resid == old(uio.resid) - len && uio.base == old(uio.base) + len
    ensures Wrote(old(fs.V()), fs.V(), fs.roles, fs.roles, i, old(uio.offset),
                  uio.buf[old(uio.base)..old(uio.base) + len])
  {
    hide Recorded, OwnedBut, Wrote, Splice, PtrIn, InodeOf;
    ghost var v := fs.V();
    PokeKeeps(v, fs.roles, i, fb, skip, uio.buf[uio.base..uio.base + len]);
    var iobuf := fs.disk[b];
    var piece := uio.Move(iobuf[skip..skip + len]);
    iobuf := Splice(iobuf, skip, piece);
    DataAway(v, fs.roles, i, fb, iobuf, fs.freemap.v[..], fs.mapdirty);
    fs.disk := fs.disk[b := iobuf];
  }

  /** sfs_partialio for a write. */
  method PartialWrite(fs: Fs, i: nat, uio: Transfer, skip: nat, len: nat) returns (r: Error)
    requires fs.Valid() && i in fs.vnodes && uio.Valid() && uio.rw.WRITE?
    requires skip + len <= BLOCKSIZE && len <= uio.resid && uio.offset % BLOCKSIZE == skip
    modifies fs, fs.freemap.v, uio
    ensures fs.Valid() && uio.Valid() && uio.buf == old(uio.buf) && r in {OK, ENOSPC, EINVAL} && i in fs.vnodes
    ensures r == OK ==>
              && uio.offset == old(uio.offset) + len && uio.resid == old(uio.resid) - len
              && uio.base == old(uio.base) + len
              && Wrote(old(fs.V()), fs.V(), old(fs.roles), fs.roles, i, old(uio.offset),
                       uio.buf[old(uio.base)..old(uio.base) + len])
    ensures r != OK ==>
              && uio.offset == old(uio.offset) && uio.resid == old(uio.resid) && uio.base == old(uio.base)
              && Wrote(old(fs.V()), fs.V(), old(fs.roles), fs.roles, i, old(uio.offset), [])
    ensures r == EINVAL <==> old(uio.offset) / BLOCKSIZE >= MAXBLOCKS
    ensures r == ENOSPC ==> forall c :: 0 <= c < |fs.V().used| ==> fs.V().used[c]
    ensures r == MapError(old(fs.V()), i, old(uio.offset) / BLOCKSIZE)
  {
    hide Recorded, OwnedBut, Kept, Wrote, Extends, Splice, PtrIn, InodeOf, CanMap;
    InMemory(fs.V(), fs.roles, -1, i);
    var fileblock := uio.offset / BLOCKSIZE;
    var b;
    r, b := fs.Bmap(i, fileblock, true);
    if r != OK {
      KeptIsWrote(old(fs.V()), fs.V(), old(fs.roles), fs.roles, i, uio.offset);
      KeptKeys(old(fs.V()), fs.V(), old(fs.roles), fs.roles, i);
      return;
    }
    ghost var v, roles := fs.V(), fs.roles;
    KeptKeys(old(fs.V()), v, old(fs.roles), roles, i);
    Poke(fs, i, uio, fileblock, b, skip, len);
    KeptThenWrote(old(fs.V()), v, fs.V(), old(fs.roles), roles, roles, i, old(uio.offset),
                  uio.buf[old(uio.base)..old(uio.base) + len]);
  }

  lemma DataAway(v: Vol, roles: Roles, i: nat, fb: nat, blk: Block, bytes: seq<Byte>, dirty: bool)
    requires Owned(v, roles) && IsInode(roles, i) && Ptr(v, i, fb) != 0 && Recorded(v.disk, bytes, dirty)
    ensures Ptr(v, i, fb) < |v.disk| && Recorded(v.disk[Ptr(v, i, fb) := blk], bytes, dirty)
  {
    PtrRole(v, roles, -1, i, fb);
    RecordAway(v, roles, Ptr(v, i, fb), blk, bytes, dirty);
  }

  lemma KeptKeys(v: Vol, w: Vol, roles: Roles, roles': Roles, i: nat)
    requires Kept(v, w, roles, roles') && i in v.mem && IsInode(roles, i)
    ensures i in w.mem && IsInode(roles', i)
  {
  }

  /** sfs_blockio for a write of one whole block. */
  method BlockWrite(fs: Fs, i: nat, uio: Transfer) returns (r: Error)
    requires fs.Valid() && i in fs.vnodes && uio.Valid() && uio.rw.WRITE?
    requires BLOCKSIZE <= uio.resid && uio.offset % BLOCKSIZE == 0
    modifies fs, fs.freemap.v, uio
    ensures fs.Valid() && uio.Valid() && uio.buf == old(uio.buf) && r in {OK, ENOSPC, EINVAL} && i in fs.vnodes
    ensures r == OK ==>
              && uio.offset == old(uio.offset) + BLOCKSIZE && uio.resid == old(uio.resid) - BLOCKSIZE
              && uio.base == old(uio.base) + BLOCKSIZE
              && Wrote(old(fs.V()), fs.V(), old(fs.roles), fs.roles, i, old(uio.offset),
                       uio.buf[old(uio.base)..old(uio.base) + BLOCKSIZE])
    ensures r != OK ==>
              && uio.offset == old(uio.offset) && uio.resid == old(uio.resid) && uio.base == old(uio.base)
              && Wrote(old(fs.V()), fs.V(), old(fs.roles), fs.roles, i, old(uio.offset), [])
    ensures r == EINVAL <==> old(uio.offset) / BLOCKSIZE >= MAXBLOCKS
    ensures r == ENOSPC ==> forall c :: 0 <= c < |fs.V().used| ==> fs.V().used[c]
    ensures r == MapError(old(fs.V()), i, old(uio.offset) / BLOCKSIZE)
  {
    hide Recorded, OwnedBut, Kept, Wrote, Extends, Splice, PtrIn, InodeOf, CanMap;
    InMemory(fs.V(), fs.roles, -1, i);
    var fileblock := uio.offset / BLOCKSIZE;
    var b;
    r, b := fs.Bmap(i, fileblock, true);
    if r != OK {
      KeptIsWrote(old(fs.V()), fs.V(), old(fs.roles), fs.roles, i, uio.offset);
      KeptKeys(old(fs.V()), fs.V(), old(fs.roles), fs.roles, i);
      return;
    }
    ghost var v, roles := fs.V(), fs.roles;
    KeptKeys(old(fs.V()), v, old(fs.roles), roles, i);
    PokeWhole(v, roles, i, uio.offset, uio.buf[uio.base..uio.base + BLOCKSIZE]);
    // The device moves the block with its own offset and a residue of one block; both are put back after.
    var piece := uio.Move(fs.disk[b]);
    DataAway(v, roles, i, fileblock, piece, fs.freemap.v[..], fs.mapdirty);
    fs.disk := fs.disk[b := piece];
    KeptThenWrote(old(fs.V()), v, fs.V(), old(fs.roles), roles, roles, i, old(uio.offset), piece);
  }

  /** The first `done` bytes of the buffer from `base` on have been written at `off`. */
  ghost predicate Progress(v: Vol, v': Vol, roles: Roles, roles': Roles, i: nat, off: nat,
                           buf: seq<Byte>, base: nat, done: nat)
  {
    base + done <= |buf| && Wrote(v, v', roles, roles', i, off, buf[base..base + done])
  }

  lemma ProgressStart(v: Vol, roles: Roles, i: nat, off: nat, buf: seq<Byte>, base: nat)
    requires base <= |buf|
    ensures Progress(v, v, roles, roles, i, off, buf, base, 0)
  {
    assert buf[base..base + 0] == [];
  }

  lemma ProgressMore(v: Vol, w: Vol, u: Vol, roles: Roles, roles': Roles, roles'': Roles, i: nat, off: nat,
                     buf: seq<Byte>, base: nat, done: nat, data: seq<Byte>)
    requires Progress(v, w, roles, roles', i, off, buf, base, done)
    requires base + done + |data| <= |buf| && data == buf[base + done..base + done + |data|]
    requires Wrote(w, u, roles', roles'', i, off + done, data)
    ensures Progress(v, u, roles, roles'', i, off, buf, base, done + |data|)
  {
    WroteMore(v, w, u, roles, roles', roles'', i, off, buf[base..base + done], data);
    assert buf[base..base + done] + data == buf[base..base + done + |data|];
  }

  /** Where a transfer of `n` bytes started. */
  datatype Start = Start(v: Vol, roles: Roles, off: nat, buf: seq<Byte>, base: nat, len: nat, n: nat)

  /** A write that started at `s` has got as far as the uio says. */
  ghost predicate Midway(s: Start, fs: Fs, i: nat, uio: Transfer)
    reads fs, fs.freemap, fs.freemap.v, uio
  {
    && fs.Valid() && i in fs.vnodes && uio.Valid() && uio.rw.WRITE? && uio.buf == s.buf && uio.resid <= s.n
    && uio.offset == s.off + (s.n - uio.resid) && uio.base == s.base + (s.n - uio.resid)
    && Progress(s.v, fs.V(), s.roles, fs.roles, i, s.off, s.buf, s.base, s.n - uio.resid)
    && (uio.resid < s.n ==> (uio.offset - 1) / BLOCKSIZE < MAXBLOCKS)
  }

  /** Why a write stopped early. */
  ghost predicate Stopped(r: Error, fs: Fs, uio: Transfer)
    reads fs, fs.freemap, fs.freemap.v, uio
  {
    || (r == EINVAL && uio.offset / BLOCKSIZE >= MAXBLOCKS)
    || (r == ENOSPC && forall c :: 0 <= c < |fs.V().used| ==> fs.V().used[c])
  }

  /** The region lies inside one file block and is not all of it. */
  ghost predicate OneBlock(off: nat, n: nat) {
    0 < n < BLOCKSIZE && off % BLOCKSIZE + n <= BLOCKSIZE
  }

  method StepPartial(ghost s: Start, fs: Fs, i: nat, uio: Transfer, skip: nat, len: nat) returns (r: Error)
    requires Midway(s, fs, i, uio) && skip + len <= BLOCKSIZE && len <= uio.resid && uio.offset % BLOCKSIZE == skip
    modifies fs, fs.freemap.v, uio
    ensures Midway(s, fs, i, uio) && (r != OK ==> Stopped(r, fs, uio) && uio.resid == old(uio.resid))
    ensures r == OK ==> uio.resid == old(uio.resid) - len && uio.offset == old(uio.offset) + len
    ensures uio.resid == old(uio.resid) ==> uio.offset == old(uio.offset)
    ensures r == MapError(old(fs.V()), i, old(uio.offset) / BLOCKSIZE)
  {
    hide Recorded, OwnedBut, Wrote, Progress, Fs.Valid, MapError;
    ghost var v, roles, done := fs.V(), fs.roles, s.n - uio.resid;
    r := PartialWrite(fs, i, uio, skip, len);
    ProgressMore(s.v, v, fs.V(), s.roles, roles, fs.roles, i, s.off, s.buf, s.base, done,
                 if r == OK then s.buf[s.base + done..s.base + done + len] else []);
  }

  method StepBlock(ghost s: Start, fs: Fs, i: nat, uio: Transfer) returns (r: Error)
    requires Midway(s, fs, i, uio) && BLOCKSIZE <= uio.resid && uio.offset % BLOCKSIZE == 0
    modifies fs, fs.freemap.v, uio
    ensures Midway(s, fs, i, uio) && (r != OK ==> Stopped(r, fs, uio) && uio.resid == old(uio.resid))
    ensures r == OK ==> uio.resid == old(uio.resid) - BLOCKSIZE && uio.offset == old(uio.offset) + BLOCKSIZE
    ensures uio.resid == old(uio.resid) ==> uio.offset == old(uio.offset)
  {
    hide Recorded, OwnedBut, Wrote, Progress, Fs.Valid, MapError;
    ghost var v, roles, done := fs.V(), fs.roles, s.n - uio.resid;
    r := BlockWrite(fs, i, uio);
    ProgressMore(s.v, v, fs.V(), s.roles, roles, fs.roles, i, s.off, s.buf, s.base, done,
                 if r == OK then s.buf[s.base + done..s.base + done + BLOCKSIZE] else []);
  }

  /** sfs_io for a write, without the change of the file size: a leading partial block, whole blocks and a
      trailing partial block. On an error the bytes before it have been written. */
  method WriteData(ghost s: Start, fs: Fs, i: nat, uio: Transfer) returns (r: Error)
    requires Midway(s, fs, i, uio)
    modifies fs, fs.freemap.v, uio
    ensures Midway(s, fs, i, uio)
    ensures if r == OK then uio.resid == 0 else Stopped(r, fs, uio)
    ensures r != OK ==> uio.resid == old(uio.resid) || (uio.offset % BLOCKSIZE == 0 && uio.resid > 0)
    ensures OneBlock(old(uio.offset), old(uio.resid)) ==> r == MapError(old(fs.V()), i, old(uio.offset) / BLOCKSIZE)
  {
    hide Midway, Stopped, MapError;
    r := OK;
    var blkoff := uio.offset % BLOCKSIZE;
    if blkoff != 0 {
      var len := BLOCKSIZE - blkoff;
      if len > uio.resid {
        len := uio.resid;
      }
      r := StepPartial(s, fs, i, uio, blkoff, len);
      if r != OK {
        return;
      }
    }
    if uio.resid == 0 {
      return;
    }
    var nblocks := uio.resid / BLOCKSIZE;
    var b := 0;
    ghost var w, n := fs.V(), uio.resid;
    while b < nblocks
      invariant 0 <= b <= nblocks && Midway(s, fs, i, uio) && r == OK
      invariant b == 0 ==> fs.V() == w && uio.resid == n && uio.offset == old(uio.offset) + (old(uio.resid) - n)
      invariant uio.offset % BLOCKSIZE == 0 && uio.resid / BLOCKSIZE == nblocks - b
    {
      r := StepBlock(s, fs, i, uio);
      if r != OK {
        return;
      }
      b := b + 1;
    }
    if uio.resid > 0 {
      r := StepPartial(s, fs, i, uio, 0, uio.resid);
    }
  }

  /** The file as it is after a write that moved `data`: those bytes at `off`, the size raised to reach the
      position the write got to, and everything else as before. */
  ghost predicate WroteFile(v: Vol, v': Vol, roles: Roles, roles': Roles, i: nat, off: nat, data: seq<Byte>) {
    && SameOthers(v, v', roles, i) && Extends(roles, roles') && SameRefs(v, v') && |v'.disk| == |v.disk|
    && InodeOf(v', i).kind == InodeOf(v, i).kind && InodeOf(v', i).links == InodeOf(v, i).links
    && InodeOf(v', i).size == (if InodeOf(v, i).size < off + |data| then off + |data| else InodeOf(v, i).size)
    && forall k: nat :: ByteAt(v', i, k) == if off <= k < off + |data| then data[k - off] else ByteAt(v, i, k)
  }

  lemma FinishWrite(v: Vol, w: Vol, u: Vol, roles: Roles, roles': Roles, i: nat, off: nat, data: seq<Byte>)
    requires Wrote(v, w, roles, roles', i, off, data) && Owned(w, roles') && i in w.mem && IsInode(roles, i)
    requires off + |data| < OFF_LIMIT
    requires u == if InodeOf(w, i).size < off + |data| then WithInode(w, i, w.mem[i].inode.(size := off + |data|)) else w
    ensures Owned(u, roles') && WroteFile(v, u, roles, roles', i, off, data)
  {
    hide Recorded, OwnedBut, PtrIn, ByteAt;
    InMemory(w, roles', -1, i);
    if InodeOf(w, i).size < off + |data| {
      SetAttributes(w, roles', i, w.mem[i].inode.(size := off + |data|));
    }
    forall j | IsInode(roles, j) && j != i
      ensures SameFile(v, u, j)
    {
      assert IsInode(roles', j);
      assert SameFile(v, w, j);
    }
  }

  /** sfs_write: the file afterwards is the file before with the transferred bytes in it, however the region lies
      across blocks and whether or not the whole of it could be written. */
  method Write(fs: Fs, i: nat, uio: Transfer) returns (r: Error)
    requires fs.Valid() && i in fs.vnodes && uio.Valid() && uio.rw.WRITE? && uio.offset < OFF_LIMIT && uio.resid < U32
    modifies fs, fs.freemap.v, uio
    ensures fs.Valid() && i in fs.vnodes && uio.Valid() && uio.buf == old(uio.buf)
    ensures uio.resid <= old(uio.resid) && uio.offset == old(uio.offset) + (old(uio.resid) - uio.resid)
    ensures WroteFile(old(fs.V()), fs.V(), old(fs.roles), fs.roles, i, old(uio.offset),
                      uio.buf[old(uio.base)..old(uio.base) + (old(uio.resid) - uio.resid)])
    ensures if r == OK then uio.resid == 0 else Stopped(r, fs, uio)
    ensures r != OK ==> uio.resid == old(uio.resid) || (uio.offset % BLOCKSIZE == 0 && uio.resid > 0)
    ensures OneBlock(old(uio.offset), old(uio.resid)) ==> r == MapError(old(fs.V()), i, old(uio.offset) / BLOCKSIZE)
    ensures uio.resid < old(uio.resid) ==> (uio.offset - 1) / BLOCKSIZE < MAXBLOCKS
  {
    hide Recorded, OwnedBut, Wrote, WroteFile, OneBlock, MapError;
    InMemory(fs.V(), fs.roles, -1, i);
    ghost var s := Start(fs.V(), fs.roles, uio.offset, uio.buf, uio.base, uio.len, uio.resid);
    ProgressStart(s.v, s.roles, i, s.off, s.buf, s.base);
    r := WriteData(s, fs, i, uio);
    ghost var w := fs.V();
    if uio.offset > fs.vnodes[i].inode.size {
      fs.vnodes := fs.vnodes[i := Vnode(fs.vnodes[i].inode.(size := uio.offset), true, fs.vnodes[i].refs)];
    }
    FinishWrite(s.v, w, fs.V(), s.roles, fs.roles, i, s.off, s.buf[s.base..s.base + (s.n - uio.resid)]);
  }

  // ---------------------------------------------------------------- reading

  lemma FilledMore(b0: seq<Byte>, b1: seq<Byte>, b2: seq<Byte>, base: nat, d: seq<Byte>, e: seq<Byte>)
    requires Filled(b0, b1, base, d) && Filled(b1, b2, base + |d|, e)
    ensures Filled(b0, b2, base, d + e)
  {
  }

  lemma BytesMore(v: Vol, i: nat, off: nat, n: nat, m: nat)
    ensures Bytes(v, i, off, n) + Bytes(v, i, off + n, m) == Bytes(v, i, off, n + m)
  {
  }

  /** A read that started with `s` has delivered the bytes of the file up to where the uio is now. */
  ghost predicate Delivered(s: Start, v: Vol, i: nat, uio: Transfer)
    reads uio
  {
    && uio.Valid() && uio.rw.READ? && uio.resid <= s.n && uio.len + (s.n - uio.resid) == s.len
    && uio.offset == s.off + (s.n - uio.resid) && uio.base == s.base + (s.n - uio.resid)
    && Filled(s.buf, uio.buf, s.base, Bytes(v, i, s.off, s.n - uio.resid))
    && (uio.resid < s.n ==> (uio.offset - 1) / BLOCKSIZE < MAXBLOCKS)
  }

  lemma DeliveredMore(s: Start, v: Vol, i: nat, buf: seq<Byte>, buf': seq<Byte>, done: nat, n: nat)
    requires Filled(s.buf, buf, s.base, Bytes(v, i, s.off, done))
    requires Filled(buf, buf', s.base + done, Bytes(v, i, s.off + done, n))
    ensures Filled(s.buf, buf', s.base, Bytes(v, i, s.off, done + n))
  {
    hide Filled, ByteAt;
    FilledMore(s.buf, buf, buf', s.base, Bytes(v, i, s.off, done), Bytes(v, i, s.off + done, n));
    BytesMore(v, i, s.off, done, n);
  }

  lemma PtrInside(v: Vol, roles: Roles, i: nat, fb: nat)
    requires Owned(v, roles) && i in v.mem
    ensures Ptr(v, i, fb) < |v.disk|
  {
    InMemory(v, roles, -1, i);
    if Ptr(v, i, fb) != 0 {
      PtrRole(v, roles, -1, i, fb);
    }
  }

  /** The contents of file block `fb`; a hole is a block of zeros. */
  ghost function BlockOf(v: Vol, i: nat, fb: nat): Block {
    if 0 < Ptr(v, i, fb) < |v.disk| then v.disk[Ptr(v, i, fb)] else ZeroBlock()
  }

  /** Look up a file block to read it: nothing changes. */
  method Fetch(fs: Fs, i: nat, fb: nat) returns (r: Error, b: nat)
    requires fs.Valid() && i in fs.vnodes
    modifies fs, fs.freemap.v
    ensures fs.Valid() && fs.V() == old(fs.V()) && fs.roles == old(fs.roles)
    ensures r == if fb < MAXBLOCKS then OK else EINVAL
    ensures r == OK ==> b < |fs.disk| && BlockOf(fs.V(), i, fb) == if b == 0 then ZeroBlock() else fs.disk[b]
  {
    hide Recorded, OwnedBut, Kept, PtrIn, InodeOf;
    r, b := fs.Bmap(i, fb, false);
    if r == OK {
      PtrInside(fs.V(), fs.roles, i, fb);
    }
  }

  /** sfs_partialio for a read. */
  method PartialRead(ghost s: Start, fs: Fs, i: nat, uio: Transfer, skip: nat, len: nat) returns (r: Error)
    requires fs.Valid() && i in fs.vnodes && Delivered(s, fs.V(), i, uio)
    requires skip + len <= BLOCKSIZE && len <= uio.resid && uio.offset % BLOCKSIZE == skip
    modifies fs, fs.freemap.v, uio
    ensures fs.Valid() && fs.V() == old(fs.V()) && fs.roles == old(fs.roles) && Delivered(s, fs.V(), i, uio)
    ensures r == OK ==> uio.resid == old(uio.resid) - len && uio.offset == old(uio.offset) + len
    ensures r != OK ==> r == EINVAL && uio.resid == old(uio.resid) && uio.offset / BLOCKSIZE >= MAXBLOCKS
  {
    hide Fs.Valid, Ptr, Filled, ByteAt, Bytes;
    var fileblock := uio.offset / BLOCKSIZE;
    var b;
    r, b := Fetch(fs, i, fileblock);
    if r != OK {
      return;
    }
    var iobuf := if b == 0 then ZeroBlock() else fs.disk[b];
    BlockBytes(fs.V(), i, fileblock, skip, len);
    ghost var buf, done := uio.buf, s.n - uio.resid;
    var out := uio.Move(iobuf[skip..skip + len]);
    FilledIs(buf, uio.buf, s.base + done, iobuf[skip..skip + len]);
    DeliveredMore(s, fs.V(), i, buf, uio.buf, done, len);
  }

  lemma FilledIs(before: seq<Byte>, after: seq<Byte>, base: nat, data: seq<Byte>)
    requires base + |data| <= |before| && after == before[..base] + data + before[base + |data|..]
    ensures Filled(before, after, base, data)
  {
  }

  /** sfs_blockio for a read of one whole block; a hole reads as zeros. */
  method BlockRead(ghost s: Start, fs: Fs, i: nat, uio: Transfer) returns (r: Error)
    requires fs.Valid() && i in fs.vnodes && Delivered(s, fs.V(), i, uio)
    requires BLOCKSIZE <= uio.resid && uio.offset % BLOCKSIZE == 0
    modifies fs, fs.freemap.v, uio
    ensures fs.Valid() && fs.V() == old(fs.V()) && fs.roles == old(fs.roles) && Delivered(s, fs.V(), i, uio)
    ensures r == OK ==> uio.resid == old(uio.resid) - BLOCKSIZE && uio.offset == old(uio.offset) + BLOCKSIZE
    ensures r != OK ==> r == EINVAL && uio.resid == old(uio.resid) && uio.offset / BLOCKSIZE >= MAXBLOCKS
  {
    hide Fs.Valid, Ptr, Filled, ByteAt, Bytes;
    var fileblock := uio.offset / BLOCKSIZE;
    var b;
    r, b := Fetch(fs, i, fileblock);
    if r != OK {
      return;
    }
    ghost var buf, done, blk := uio.buf, s.n - uio.resid, BlockOf(fs.V(), i, fileblock);
    BlockBytes(fs.V(), i, fileblock, 0, BLOCKSIZE);
    assert blk[0..BLOCKSIZE] == blk;
    if b == 0 {
      uio.MoveZeros(BLOCKSIZE);
    } else {
      var out := uio.Move(fs.disk[b]);
    }
    FilledIs(buf, uio.buf, s.base + done, blk);
    DeliveredMore(s, fs.V(), i, buf, uio.buf, done, BLOCKSIZE);
  }

  /** sfs_io for a read, once the request has been cut to the end of the file. */
  method ReadData(ghost s: Start, fs: Fs, i: nat, uio: Transfer) returns (r: Error)
    requires fs.Valid() && i in fs.vnodes && Delivered(s, fs.V(), i, uio)
    modifies fs, fs.freemap.v, uio
    ensures fs.Valid() && fs.V() == old(fs.V()) && fs.roles == old(fs.roles) && Delivered(s, fs.V(), i, uio)
    ensures if r == OK then uio.resid == 0 else r == EINVAL && uio.offset / BLOCKSIZE >= MAXBLOCKS
    ensures r != OK ==> uio.resid > 0 || old(uio.resid) == 0
  {
    hide Recorded, OwnedBut, Fs.Valid, Delivered;
    r := OK;
    var blkoff := uio.offset % BLOCKSIZE;
    if blkoff != 0 {
      var len := BLOCKSIZE - blkoff;
      if len > uio.resid {
        len := uio.resid;
      }
      r := PartialRead(s, fs, i, uio, blkoff, len);
      if r != OK {
        return;
      }
    }
    if uio.resid == 0 {
      return;
    }
    var nblocks := uio.resid / BLOCKSIZE;
    var b := 0;
    while b < nblocks
      invariant 0 <= b <= nblocks && r == OK && fs.Valid() && fs.V() == old(fs.V()) && fs.roles == old(fs.roles)
      invariant Delivered(s, fs.V(), i, uio) && uio.offset % BLOCKSIZE == 0 && uio.resid / BLOCKSIZE == nblocks - b
    {
      r := BlockRead(s, fs, i, uio);
      if r != OK {
        return;
      }
      b := b + 1;
    }
    if uio.resid > 0 {
      r := PartialRead(s, fs, i, uio, 0, uio.resid);
    }
  }

  /** How much a read of `n` bytes at `off` can deliver from a file of `size` bytes. */
  function Available(size: nat, off: nat, n: nat): nat {
    if off >= size then 0 else if off + n > size then size - off else n
  }

  /** A number as an off_t, which has 32 bits. */
  function OffT(x: nat): int {
    if x % U32 >= OFF_LIMIT then x % U32 - U32 else x % U32
  }

  /** The end of the request is where it seems, or it wraps around to a position before the end of the file. */
  lemma EndPosition(size: nat, off: nat, n: nat)
    requires off < size < OFF_LIMIT && n < U32
    ensures if off + n < OFF_LIMIT then OffT(off + n) == off + n else OffT(off + n) <= size
  {
  }

  /** What is left of a request once it has been checked against the end of the file. */
  function Granted(size: nat, off: nat, n: nat): nat {
    if off >= size || off + n < OFF_LIMIT then Available(size, off, n) else n
  }

  /** The request stops at the end of the file, whether the check sees that it goes past it or the last block a file
      can have comes first. */
  predicate StopsAtEnd(size: nat, off: nat, n: nat) {
    off >= size || off + n < OFF_LIMIT || size >= MAXBLOCKS * BLOCKSIZE
  }

  /** For instance, a request for half the address space from the start of a file of ten bytes is not cut. */
  lemma UncutRequest()
    ensures OffT(0 + OFF_LIMIT) < 0 && Granted(10, 0, OFF_LIMIT) == OFF_LIMIT && !StopsAtEnd(10, 0, OFF_LIMIT)
  {
  }

  /** sfs_read: the bytes of the file up to its end, holes as zeros, and the rest of the request left over. The end of
      the request is computed in 32 bits; when that wraps, the bytes of all blocks a file can have are delivered. */
  method Read(fs: Fs, i: nat, uio: Transfer) returns (r: Error)
    requires fs.Valid() && i in fs.vnodes && uio.Valid() && uio.rw.READ? && uio.offset < OFF_LIMIT && uio.resid < U32
    modifies fs, fs.freemap.v, uio
    ensures fs.Valid() && fs.V() == old(fs.V()) && fs.roles == old(fs.roles) && uio.Valid()
    ensures uio.resid <= old(uio.resid) && uio.offset == old(uio.offset) + (old(uio.resid) - uio.resid)
    ensures Filled(old(uio.buf), uio.buf, old(uio.base),
                   Bytes(fs.V(), i, old(uio.offset), old(uio.resid) - uio.resid))
    ensures var n := Granted(fs.vnodes[i].inode.size, old(uio.offset), old(uio.resid));
            old(uio.resid) - uio.resid <= n && (r == OK ==> old(uio.resid) - uio.resid == n)
    ensures old(uio.resid) - uio.resid <= Available(fs.vnodes[i].inode.size, old(uio.offset), old(uio.resid)) <==>
            StopsAtEnd(fs.vnodes[i].inode.size, old(uio.offset), old(uio.resid))
    ensures r != OK ==> r == EINVAL && uio.offset / BLOCKSIZE >= MAXBLOCKS
    ensures r != OK ==> uio.resid > 0 || old(uio.resid) == 0
    ensures uio.resid < old(uio.resid) ==> (uio.offset - 1) / BLOCKSIZE < MAXBLOCKS
  {
    hide Recorded, OwnedBut, PtrIn, InodeOf;
    InMemory(fs.V(), fs.roles, -1, i);
    var size := fs.vnodes[i].inode.size;
    var endpos := OffT(uio.offset + uio.resid);
    var extraresid := 0;
    ghost var n := Granted(size, uio.offset, uio.resid);
    ghost var s := Start(fs.V(), fs.roles, uio.offset, uio.buf, uio.base, uio.len, n);
    assert s.buf == s.buf[..s.base] + [] + s.buf[s.base..];
    assert Bytes(fs.V(), i, s.off, 0) == [];
    if uio.offset >= size {
      return OK;
    }
    EndPosition(size, uio.offset, uio.resid);
    if endpos > size {
      extraresid := endpos - size;
      uio.resid := uio.resid - extraresid;
    }
    r := ReadData(s, fs, i, uio);
    uio.resid := uio.resid + extraresid;
  }
}
