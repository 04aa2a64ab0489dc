/** sfs_truncate, os161/kern/fs/sfs/sfs_vnode.c. */
module SfsTruncate {
  import opened SfsFormat
  import opened SfsVolume
  import opened SfsBlocks
  import opened SfsTrim
  import opened Sfs
  import opened Bitmap

  /** What is marked in use after the blocks in `cut` were freed. */
  ghost predicate Freed(used: seq<bool>, used': seq<bool>, roles: Roles, i: nat, cut: Cut, ind: bool) {
    && |used'| == |used|
    && forall b :: 0 <= b < |used| ==> (used'[b] <==> used[b] && !(b in roles && Gone(roles[b], i, cut, ind)))
  }

  /** `ptrs[k]` is the block of file block `base + k` of file `i`, and nothing else has that role. */
  ghost predicate Table(ptrs: seq<nat>, base: nat, used: seq<bool>, roles: Roles, i: nat) {
    && (forall k :: 0 <= k < |ptrs| && ptrs[k] != 0 ==>
          Has(roles, ptrs[k], Data(i, base + k)) && ptrs[k] < |used| && used[ptrs[k]])
    && (forall b :: b in roles && roles[b].Data? && roles[b].ino == i && base <= roles[b].fb < base + |ptrs| ==>
          ptrs[roles[b].fb - base] == b != 0)
  }

  lemma FreedOne(used: seq<bool>, now: seq<bool>, ptrs: seq<nat>, base: nat, len: nat, roles: Roles, i: nat, k: nat)
    requires Table(ptrs, base, used, roles, i) && k < |ptrs|
    requires Freed(used, now, roles, i, Cut(base, base + k, len), false)
    ensures ptrs[k] != 0 ==> ptrs[k] < |now| && now[ptrs[k]]
    ensures base + k >= len && ptrs[k] != 0 ==>
              Freed(used, now[ptrs[k] := false], roles, i, Cut(base, base + k + 1, len), false)
    ensures base + k < len || ptrs[k] == 0 ==> Freed(used, now, roles, i, Cut(base, base + k + 1, len), false)
  {
  }

  /** Free the blocks of a pointer table that lie at or past `len` and clear their entries, as the two loops
      of sfs_truncate do. */
  method FreeTable(map_: BitArray, ptrs: seq<nat>, base: nat, len: nat, ghost roles: Roles, ghost i: nat)
    returns (r: seq<nat>, nonzero: bool, dirty: bool)
    requires map_.Valid() && Table(ptrs, base, map_.Set(), roles, i)
    requires forall k :: 0 <= k < |ptrs| ==> ptrs[k] < map_.nbits
    modifies map_.v
    ensures map_.Valid() && Freed(old(map_.Set()), map_.Set(), roles, i, Cut(base, base + |ptrs|, len), false)
    ensures |r| == |ptrs| && forall k :: 0 <= k < |ptrs| ==> r[k] == if base + k >= len then 0 else ptrs[k]
    ensures nonzero <==> exists k :: 0 <= k < |r| && r[k] != 0
    ensures !dirty ==> r == ptrs && map_.v[..] == old(map_.v[..])
  {
    hide Table;
    r, nonzero, dirty := ptrs, false, false;
    var j := 0;
    while j < |ptrs|
      invariant 0 <= j <= |ptrs| && map_.Valid() && |r| == |ptrs|
      invariant forall k :: 0 <= k < |ptrs| ==> r[k] == if k < j && base + k >= len then 0 else ptrs[k]
      invariant nonzero <==> exists k :: 0 <= k < j && r[k] != 0
      invariant !dirty ==> r == ptrs && map_.v[..] == old(map_.v[..])
      invariant Freed(old(map_.Set()), map_.Set(), roles, i, Cut(base, base + j, len), false)
    {
      FreedOne(old(map_.Set()), map_.Set(), ptrs, base, len, roles, i, j);
      if base + j >= len && r[j] != 0 {
        map_.Unmark(r[j]);
        r := r[j := 0];
        dirty := true;
      }
      if r[j] != 0 {
        nonzero := true;
      }
      j := j + 1;
    }
  }

  // ---------------------------------------------------------------- the two tables of a file

  lemma DirectTable(v: Vol, roles: Roles, i: nat)
    requires Owned(v, roles) && i in v.mem
    ensures Table(v.mem[i].inode.direct, 0, v.used, roles, i)
    ensures forall k :: 0 <= k < NDIRECT ==> v.mem[i].inode.direct[k] < |v.disk|
  {
    InMemory(v, roles, -1, i);
    TableOf(v, roles, i, v.mem[i].inode.direct, 0);
  }

  lemma IndirectTable(v: Vol, roles: Roles, i: nat)
    requires Owned(v, roles) && i in v.mem && v.mem[i].inode.indirect != 0
    ensures v.mem[i].inode.indirect < |v.disk| && v.used[v.mem[i].inode.indirect]
    ensures Table(Words(v.disk[v.mem[i].inode.indirect]), NDIRECT, v.used, roles, i)
    ensures forall k :: 0 <= k < DBPERIDB ==> Words(v.disk[v.mem[i].inode.indirect])[k] < |v.disk|
  {
    InMemory(v, roles, -1, i);
    TableOf(v, roles, i, Words(v.disk[v.mem[i].inode.indirect]), NDIRECT);
  }

  lemma TableOf(v: Vol, roles: Roles, i: nat, ptrs: seq<nat>, base: nat)
    requires Owned(v, roles) && IsInode(roles, i) && base + |ptrs| <= MAXBLOCKS
    requires forall k :: 0 <= k < |ptrs| ==> ptrs[k] == Ptr(v, i, base + k)
    ensures Table(ptrs, base, v.used, roles, i)
    ensures forall k :: 0 <= k < |ptrs| ==> ptrs[k] < |v.disk|
  {
    forall k | 0 <= k < |ptrs|
      ensures ptrs[k] < |v.disk|
      ensures ptrs[k] != 0 ==> Has(roles, ptrs[k], Data(i, base + k)) && ptrs[k] < |v.used| && v.used[ptrs[k]]
    {
      if ptrs[k] != 0 {
        PtrRole(v, roles, -1, i, base + k);
      }
    }
    forall b | b in roles && roles[b].Data? && roles[b].ino == i && base <= roles[b].fb < base + |ptrs|
      ensures ptrs[roles[b].fb - base] == b != 0
    {
      assert Placed(v, roles, b, roles[b]);
    }
  }

  lemma RecordFreed(disk: seq<Block>, bytes: seq<Byte>, bytes': seq<Byte>, dirty: bool, freed: bool)
    requires Recorded(disk, bytes, dirty) && (!freed ==> bytes' == bytes)
    ensures Recorded(disk, bytes', dirty || freed)
  {
  }

  lemma RecordFreedLater(disk: seq<Block>, bytes: seq<Byte>, dirty: bool)
    requires Recorded(disk, bytes, dirty)
    ensures forall bytes' :: Recorded(disk, bytes', true)
  {
  }

  // ---------------------------------------------------------------- truncation

  /** The first loop of sfs_truncate: direct blocks at or past `blocklen`. */
  method TrimDirect(fs: Fs, i: nat, blocklen: nat)
    requires fs.Valid() && i in fs.vnodes
    modifies fs, fs.freemap.v
    ensures fs.Valid() && fs.roles == Without(old(fs.roles), i, Cut(0, NDIRECT, blocklen), false)
    ensures Trimmed(old(fs.V()), fs.V(), old(fs.roles), i, Cut(0, NDIRECT, blocklen), false)
    ensures SameOthers(old(fs.V()), fs.V(), old(fs.roles), i) && i in fs.vnodes
    ensures forall k: nat :: ByteAt(fs.V(), i, k) ==
                             if Cut(0, NDIRECT, blocklen).Has(k / BLOCKSIZE) then 0 else old(ByteAt(fs.V(), i, k))
  {
    hide Recorded, OwnedBut, Trimmed, Table, ByteAt, SameOthers;
    ghost var v, roles := fs.V(), fs.roles;
    InMemory(v, roles, -1, i);
    DirectTable(v, roles, i);
    var n := fs.vnodes[i].inode;
    ghost var bytes, dirty := fs.freemap.v[..], fs.mapdirty;
    var direct, _, freed := FreeTable(fs.freemap, n.direct, 0, blocklen, roles, i);
    fs.mapdirty := fs.mapdirty || freed;
    RecordFreed(fs.disk, bytes, fs.freemap.v[..], dirty, freed);
    fs.vnodes := fs.vnodes[i := Vnode(n.(direct := direct), true, fs.vnodes[i].refs)];
    DirectTrimmed(v, fs.V(), roles, i, blocklen, direct);
    TrimKeeps(v, fs.V(), roles, i, Cut(0, NDIRECT, blocklen), false);
    fs.roles := Without(roles, i, Cut(0, NDIRECT, blocklen), false);
  }

  lemma DirectTrimmed(v: Vol, v': Vol, roles: Roles, i: nat, blocklen: nat, direct: seq<nat>)
    requires Owned(v, roles) && i in v.mem && |direct| == NDIRECT && |v.mem[i].inode.direct| == NDIRECT
    requires forall k :: 0 <= k < NDIRECT ==> direct[k] == if k >= blocklen then 0 else v.mem[i].inode.direct[k]
    requires v' == WithInode(v, i, v.mem[i].inode.(direct := direct)).(used := v'.used)
    requires Freed(v.used, v'.used, roles, i, Cut(0, NDIRECT, blocklen), false)
    ensures Trimmed(v, v', roles, i, Cut(0, NDIRECT, blocklen), false)
  {
    InMemory(v, roles, -1, i);
  }

  lemma FreedIndirect(v: Vol, roles: Roles, now: seq<bool>, i: nat, cut: Cut)
    requires Owned(v, roles) && i in v.mem && v.mem[i].inode.indirect != 0 && Freed(v.used, now, roles, i, cut, false)
    ensures v.mem[i].inode.indirect < |now| && now[v.mem[i].inode.indirect]
    ensures Freed(v.used, now[v.mem[i].inode.indirect := false], roles, i, cut, true)
  {
    InMemory(v, roles, -1, i);
    forall b | b in roles && roles[b] == Indirect(i)
      ensures b == v.mem[i].inode.indirect
    {
      assert Placed(v, roles, b, roles[b]);
    }
  }

  /** The indirect block after its entries past `blocklen` were cleared: rewritten, or freed when none is left. */
  lemma IndirectTrimmed(v: Vol, v': Vol, roles: Roles, i: nat, cut: Cut, ws: seq<nat>, ind: bool)
    requires Owned(v, roles) && i in v.mem && 0 < v.mem[i].inode.indirect < |v.disk| && |ws| == DBPERIDB
    requires cut.lo == NDIRECT && cut.hi == MAXBLOCKS
    requires forall k :: 0 <= k < DBPERIDB ==>
                           ws[k] == if cut.Has(NDIRECT + k) then 0 else Words(v.disk[v.mem[i].inode.indirect])[k]
    requires Freed(v.used, v'.used, roles, i, cut, ind) && Stored(v, v', i, ws, ind)
    requires ind ==> forall k :: 0 <= k < DBPERIDB ==> ws[k] == 0
    ensures Trimmed(v, v', roles, i, cut, ind)
    ensures ind ==> forall fb :: NDIRECT <= fb < MAXBLOCKS ==> Ptr(v', i, fb) == 0
  {
    InMemory(v, roles, -1, i);
    assert v'.mem == v.mem[i := v'.mem[i]];
    IndirectClean(v, v', roles, i);
    forall fb: nat
      ensures Ptr(v', i, fb) == if cut.Has(fb) then 0 else Ptr(v, i, fb)
    {
      if NDIRECT <= fb < MAXBLOCKS {
        assert ws[fb - NDIRECT] == if cut.Has(fb) then 0 else Ptr(v, i, fb);
      }
    }
  }

  lemma IndirectClean(v: Vol, v': Vol, roles: Roles, i: nat)
    requires Owned(v, roles) && i in v.mem && |v'.disk| == |v.disk|
    requires Has(roles, v.mem[i].inode.indirect, Indirect(i))
    requires forall b :: 0 <= b < |v.disk| && b != v.mem[i].inode.indirect ==> v'.disk[b] == v.disk[b]
    requires v'.mem == v.mem || (i in v'.mem && v'.mem == v.mem[i := v'.mem[i]] && v'.mem[i].dirty)
    ensures Clean(v')
  {
  }

  /** `v'` is `v` with the entries `ws` in the indirect block of file `i`, or with that block freed. */
  ghost predicate Stored(v: Vol, v': Vol, i: nat, ws: seq<nat>, ind: bool)
    requires i in v.mem
  {
    var id := v.mem[i].inode.indirect;
    && 0 < id < |v.disk| == |v'.disk| && |v'.used| == |v.used| && |ws| == DBPERIDB && i in v'.mem
    && (ind ==> v' == WithInode(v, i, v.mem[i].inode.(indirect := 0)).(used := v'.used))
    && (!ind ==> Words(v'.disk[id]) == ws && v'.mem == v.mem
                 && forall b :: 0 <= b < |v.disk| && b != id ==> v'.disk[b] == v.disk[b])
  }

  /** Free the indirect block if it is empty; write it back if it is not and has changed. */
  method StoreIndirect(fs: Fs, i: nat, idbuf: seq<nat>, hasnonzero: bool, iddirty: bool)
    requires i in fs.vnodes && 0 < fs.vnodes[i].inode.indirect < |fs.disk| <= fs.freemap.nbits && |idbuf| == DBPERIDB
    requires fs.freemap.Valid() && fs.freemap.Set()[fs.vnodes[i].inode.indirect]
    requires forall k :: 0 <= k < DBPERIDB ==> idbuf[k] < U32
    requires if iddirty then fs.mapdirty else idbuf == Words(fs.disk[fs.vnodes[i].inode.indirect])
    requires Recorded(fs.disk, fs.freemap.v[..], fs.mapdirty)
    modifies fs, fs.freemap.v
    ensures fs.freemap.Valid() && Recorded(fs.disk, fs.freemap.v[..], fs.mapdirty) && fs.roles == old(fs.roles)
    ensures Stored(old(fs.V()), fs.V(), i, idbuf, !hasnonzero)
    ensures fs.V().used == if hasnonzero then old(fs.V().used)
                           else old(fs.V().used)[old(fs.vnodes[i].inode.indirect) := false]
  {
    hide Recorded;
    var n := fs.vnodes[i].inode;
    if !hasnonzero {
      RecordFreedLater(fs.disk, fs.freemap.v[..], fs.mapdirty);
      fs.freemap.Unmark(n.indirect);
      fs.mapdirty := true;
      fs.vnodes := fs.vnodes[i := Vnode(n.(indirect := 0), true, fs.vnodes[i].refs)];
    } else if iddirty {
      WordsRoundTrip(idbuf);
      RecordDirty(fs.disk, n.indirect, FromWords(idbuf), fs.freemap.v[..], fs.freemap.v[..], fs.mapdirty);
      fs.disk := fs.disk[n.indirect := FromWords(idbuf)];
    }
  }

  /** Clear the entries of the indirect block past `blocklen`. */
  method TrimEntries(fs: Fs, i: nat, blocklen: nat) returns (ghost ws: seq<nat>, ghost ind: bool)
    requires fs.Valid() && i in fs.vnodes && fs.vnodes[i].inode.indirect != 0
    modifies fs, fs.freemap.v
    ensures fs.freemap.Valid() && Recorded(fs.disk, fs.freemap.v[..], fs.mapdirty) && fs.roles == old(fs.roles)
    ensures Stored(old(fs.V()), fs.V(), i, ws, ind) && |ws| == DBPERIDB
    ensures forall k :: 0 <= k < DBPERIDB ==>
                          ws[k] == if NDIRECT + k >= blocklen + 1 then 0
                                   else old(Words(fs.disk[fs.vnodes[i].inode.indirect])[k])
    ensures Freed(old(fs.V()).used, fs.V().used, fs.roles, i, Cut(NDIRECT, MAXBLOCKS, blocklen + 1), ind)
    ensures ind <==> forall k :: 0 <= k < DBPERIDB ==> ws[k] == 0
  {
    hide Recorded, OwnedBut, Table, Freed, FromWords, Stored, Words, WordAt, PtrIn, InodeOf;
    ghost var v, roles, cut := fs.V(), fs.roles, Cut(NDIRECT, MAXBLOCKS, blocklen + 1);
    InMemory(v, roles, -1, i);
    IndirectTable(v, roles, i);
    var idblock := fs.vnodes[i].inode.indirect;
    ghost var bytes, dirty := fs.freemap.v[..], fs.mapdirty;
    var idbuf, hasnonzero, iddirty := FreeTable(fs.freemap, Words(fs.disk[idblock]), NDIRECT, blocklen + 1, roles, i);
    fs.mapdirty := fs.mapdirty || iddirty;
    RecordFreed(fs.disk, bytes, fs.freemap.v[..], dirty, iddirty);
    FreedIndirect(v, roles, fs.freemap.Set(), i, cut);
    EntriesFit(v.disk[idblock], idbuf);
    ghost var now := fs.V();
    StoreIndirect(fs, i, idbuf, hasnonzero, iddirty);
    StoredFrom(v, now, fs.V(), i, idbuf, !hasnonzero);
    ws, ind := idbuf, !hasnonzero;
  }

  /** Only the marks differ between `v` and `w`. */
  lemma StoredFrom(v: Vol, w: Vol, u: Vol, i: nat, ws: seq<nat>, ind: bool)
    requires i in v.mem && w == v.(used := w.used) && |w.used| == |v.used| && Stored(w, u, i, ws, ind)
    ensures Stored(v, u, i, ws, ind)
  {
  }

  /** The second part of sfs_truncate: entries of the indirect block past `blocklen`. `ind` tells whether the
      indirect block itself was freed. */
  method TrimIndirect(fs: Fs, i: nat, blocklen: nat) returns (ghost ind: bool)
    requires fs.Valid() && i in fs.vnodes
    modifies fs, fs.freemap.v
    ensures fs.Valid() && fs.roles == Without(old(fs.roles), i, Cut(NDIRECT, MAXBLOCKS, blocklen + 1), ind)
    ensures Trimmed(old(fs.V()), fs.V(), old(fs.roles), i, Cut(NDIRECT, MAXBLOCKS, blocklen + 1), ind)
    ensures SameOthers(old(fs.V()), fs.V(), old(fs.roles), i)
    ensures forall k: nat :: ByteAt(fs.V(), i, k) ==
                             if Cut(NDIRECT, MAXBLOCKS, blocklen + 1).Has(k / BLOCKSIZE) then 0
                             else old(ByteAt(fs.V(), i, k))
    ensures i in fs.vnodes && (fs.vnodes[i].inode.indirect != 0 && blocklen < MAXBLOCKS - 1 ==>
              exists fb :: NDIRECT <= fb <= blocklen && Ptr(fs.V(), i, fb) != 0)
  {
    hide Recorded, OwnedBut, Trimmed, Freed, PtrIn, Stored, ByteAt, SameOthers;
    ghost var v, roles, cut := fs.V(), fs.roles, Cut(NDIRECT, MAXBLOCKS, blocklen + 1);
    InMemory(v, roles, -1, i);
    ind := false;
    if blocklen < MAXBLOCKS - 1 && fs.vnodes[i].inode.indirect != 0 {
      ghost var ws;
      ws, ind := TrimEntries(fs, i, blocklen);
      IndirectTrimmed(v, fs.V(), roles, i, cut, ws, ind);
      LeftOver(v, fs.V(), i, blocklen, ws, ind);
    } else {
      NothingToTrim(v, roles, i, blocklen);
    }
    TrimKeeps(v, fs.V(), roles, i, cut, ind);
    fs.roles := Without(roles, i, cut, ind);
  }

  lemma EntriesFit(blk: Block, ws: seq<nat>)
    requires |ws| == DBPERIDB && forall k :: 0 <= k < DBPERIDB ==> ws[k] == 0 || ws[k] == Words(blk)[k]
    ensures forall k :: 0 <= k < DBPERIDB ==> ws[k] < U32
  {
  }

  lemma LeftOver(v: Vol, v': Vol, i: nat, blocklen: nat, ws: seq<nat>, ind: bool)
    requires i in v.mem && Stored(v, v', i, ws, ind)
    requires !ind ==> exists k :: 0 <= k < DBPERIDB && ws[k] != 0
    requires forall k :: 0 <= k < DBPERIDB && NDIRECT + k > blocklen ==> ws[k] == 0
    ensures i in v'.mem
    ensures v'.mem[i].inode.indirect != 0 ==> exists fb :: NDIRECT <= fb <= blocklen && Ptr(v', i, fb) != 0
  {
    if !ind {
      var k :| 0 <= k < DBPERIDB && ws[k] != 0;
      assert Ptr(v', i, NDIRECT + k) == ws[k];
    }
  }

  lemma NothingToTrim(v: Vol, roles: Roles, i: nat, blocklen: nat)
    requires Owned(v, roles) && i in v.mem && (blocklen >= MAXBLOCKS - 1 || v.mem[i].inode.indirect == 0)
    ensures Trimmed(v, v, roles, i, Cut(NDIRECT, MAXBLOCKS, blocklen + 1), false)
  {
    InMemory(v, roles, -1, i);
    forall b | b in roles
      ensures !Gone(roles[b], i, Cut(NDIRECT, MAXBLOCKS, blocklen + 1), false)
    {
      assert Placed(v, roles, b, roles[b]);
    }
    assert v.mem == v.mem[i := v.mem[i]];
  }

  /** The file blocks a truncation to `blocklen` blocks unmaps. Of the blocks mapped through the indirect block,
      the one with exactly that index stays. */
  predicate Unmapped(blocklen: nat, fb: nat) {
    if fb < NDIRECT then fb >= blocklen else fb > blocklen
  }

  /** File `i` truncated to `len` bytes: the blocks past the end are gone and free, the bytes of the blocks that
      stay are as they were (those past `len` included), and no other file has changed. */
  ghost predicate Truncated(v: Vol, v': Vol, roles: Roles, roles': Roles, i: nat, len: nat) {
    var blocklen := (len + BLOCKSIZE - 1) / BLOCKSIZE;
    && SameOthers(v, v', roles, i) && |v'.disk| == |v.disk|
    && i in v.mem && i in v'.mem && v'.mem == v.mem[i := v'.mem[i]] && v'.mem[i].refs == v.mem[i].refs
    && InodeOf(v', i).size == len && InodeOf(v', i).kind == InodeOf(v, i).kind
    && InodeOf(v', i).links == InodeOf(v, i).links
    && (forall fb :: Ptr(v', i, fb) == if Unmapped(blocklen, fb) then 0 else Ptr(v, i, fb))
    && (forall k: nat :: ByteAt(v', i, k) == if Unmapped(blocklen, k / BLOCKSIZE) then 0 else ByteAt(v, i, k))
    && (forall b :: b in roles' ==> Has(roles, b, roles'[b]))
    && (forall b :: b in roles && !Mine(roles[b], i) ==> b in roles')
    && (len == 0 ==> InodeOf(v', i).indirect == 0 && forall b :: b in roles' ==> !Mine(roles'[b], i))
  }

  lemma TwoTrims(v: Vol, w: Vol, u: Vol, roles: Roles, i: nat, blocklen: nat, ind: bool)
    requires Trimmed(v, w, roles, i, Cut(0, NDIRECT, blocklen), false)
    requires Trimmed(w, u, Without(roles, i, Cut(0, NDIRECT, blocklen), false), i,
                     Cut(NDIRECT, MAXBLOCKS, blocklen + 1), ind)
    ensures forall fb :: Ptr(u, i, fb) == if Unmapped(blocklen, fb) then 0 else Ptr(v, i, fb)
    ensures i in u.mem && u.mem == v.mem[i := u.mem[i]] && u.mem[i].refs == v.mem[i].refs && |u.disk| == |v.disk|
    ensures SameAttributes(v.mem[i].inode, u.mem[i].inode)
  {
    forall fb: nat
      ensures Ptr(u, i, fb) == if Unmapped(blocklen, fb) then 0 else Ptr(v, i, fb)
    {
      if fb >= MAXBLOCKS {
        PtrPastEnd(v, i, fb);
      }
    }
  }

  lemma TwoTrimsBytes(v: Vol, w: Vol, u: Vol, i: nat, blocklen: nat)
    requires forall k: nat :: ByteAt(w, i, k) == if Cut(0, NDIRECT, blocklen).Has(k / BLOCKSIZE) then 0 else ByteAt(v, i, k)
    requires forall k: nat :: ByteAt(u, i, k) ==
                              if Cut(NDIRECT, MAXBLOCKS, blocklen + 1).Has(k / BLOCKSIZE) then 0 else ByteAt(w, i, k)
    ensures forall k: nat :: ByteAt(u, i, k) == if Unmapped(blocklen, k / BLOCKSIZE) then 0 else ByteAt(v, i, k)
  {
    forall k: nat
      ensures ByteAt(u, i, k) == if Unmapped(blocklen, k / BLOCKSIZE) then 0 else ByteAt(v, i, k)
    {
      if k / BLOCKSIZE >= MAXBLOCKS {
        PtrPastEnd(v, i, k / BLOCKSIZE);
      }
    }
  }

  lemma TwoTrimsRoles(roles: Roles, i: nat, blocklen: nat, ind: bool)
    ensures var r1 := Without(roles, i, Cut(0, NDIRECT, blocklen), false);
            var r2 := Without(r1, i, Cut(NDIRECT, MAXBLOCKS, blocklen + 1), ind);
            && (forall b :: b in r2 ==> Has(roles, b, r2[b]))
            && (forall b :: b in roles && !Mine(roles[b], i) ==> b in r2)
            && (forall b :: b in roles && roles[b].InodeBlock? ==> b in r1)
  {
  }

  lemma OthersAgain(v: Vol, w: Vol, u: Vol, roles: Roles, roles': Roles, i: nat)
    requires SameOthers(v, w, roles, i) && SameOthers(w, u, roles', i)
    requires forall b :: b in roles && roles[b].InodeBlock? ==> Has(roles', b, roles[b])
    ensures SameOthers(v, u, roles, i)
  {
    forall j | IsInode(roles, j) && j != i
      ensures SameFile(v, u, j)
    {
      assert IsInode(roles', j);
      assert SameFile(v, w, j) && SameFile(w, u, j);
    }
  }

  /** With no pointer left in its inode, no block belongs to a file. */
  lemma NothingMine(v: Vol, roles: Roles, i: nat)
    requires Owned(v, roles) && IsInode(roles, i) && InodeOf(v, i).indirect == 0
    requires forall fb :: 0 <= fb < MAXBLOCKS ==> Ptr(v, i, fb) == 0
    ensures forall b :: b in roles ==> !Mine(roles[b], i)
  {
    forall b | b in roles
      ensures !Mine(roles[b], i)
    {
      assert Placed(v, roles, b, roles[b]);
    }
  }

  lemma FinishTruncate(v: Vol, w: Vol, u: Vol, z: Vol, roles: Roles, i: nat, len: nat, blocklen: nat, ind: bool,
                       roles1: Roles, roles2: Roles)
    requires blocklen == (len + BLOCKSIZE - 1) / BLOCKSIZE && len < OFF_LIMIT
    requires i in v.mem && IsInode(roles, i) && Owned(u, roles2)
    requires roles1 == Without(roles, i, Cut(0, NDIRECT, blocklen), false)
    requires roles2 == Without(roles1, i, Cut(NDIRECT, MAXBLOCKS, blocklen + 1), ind)
    requires Trimmed(v, w, roles, i, Cut(0, NDIRECT, blocklen), false)
    requires Trimmed(w, u, roles1, i, Cut(NDIRECT, MAXBLOCKS, blocklen + 1), ind)
    requires SameOthers(v, w, roles, i) && SameOthers(w, u, roles1, i)
    requires forall k: nat :: ByteAt(w, i, k) == if Cut(0, NDIRECT, blocklen).Has(k / BLOCKSIZE) then 0 else ByteAt(v, i, k)
    requires forall k: nat :: ByteAt(u, i, k) ==
                              if Cut(NDIRECT, MAXBLOCKS, blocklen + 1).Has(k / BLOCKSIZE) then 0 else ByteAt(w, i, k)
    requires blocklen == 0 ==> InodeOf(u, i).indirect == 0
    requires i in u.mem && z == WithInode(u, i, u.mem[i].inode.(size := len))
    ensures Owned(z, roles2) && Truncated(v, z, roles, roles2, i, len)
  {
    hide Recorded, OwnedBut, Trimmed, SameOthers, PtrIn, ByteAt;
    TwoTrims(v, w, u, roles, i, blocklen, ind);
    TwoTrimsBytes(v, w, u, i, blocklen);
    TwoTrimsRoles(roles, i, blocklen, ind);
    OthersAgain(v, w, u, roles, roles1, i);
    InMemory(u, roles2, -1, i);
    SetAttributes(u, roles2, i, u.mem[i].inode.(size := len));
    OthersAgain(v, u, z, roles, roles2, i);
    if len == 0 {
      NothingMine(z, roles2, i);
    }
  }

  /** sfs_truncate. */
  method Truncate(fs: Fs, i: nat, len: nat)
    requires fs.Valid() && i in fs.vnodes && len < OFF_LIMIT
    modifies fs, fs.freemap.v
    ensures fs.Valid() && Truncated(old(fs.V()), fs.V(), old(fs.roles), fs.roles, i, len)
  {
    hide Recorded, OwnedBut, Trimmed, Truncated, ByteAt, SameOthers, Without;
    ghost var v, roles := fs.V(), fs.roles;
    InMemory(v, roles, -1, i);
    var blocklen := (len + BLOCKSIZE - 1) / BLOCKSIZE;
    TrimDirect(fs, i, blocklen);
    ghost var w, roles1 := fs.V(), fs.roles;
    ghost var ind := TrimIndirect(fs, i, blocklen);
    ghost var u := fs.V();
    fs.vnodes := fs.vnodes[i := Vnode(fs.vnodes[i].inode.(size := len), true, fs.vnodes[i].refs)];
    FinishTruncate(v, w, u, fs.V(), roles, i, len, blocklen, ind, roles1, fs.roles);
  }

  /** No block past the new end is left mapped, unless the first of them was mapped through the indirect block. */
  lemma NoBlockLeft(v: Vol, v': Vol, roles: Roles, roles': Roles, i: nat, len: nat)
    requires Truncated(v, v', roles, roles', i, len)
    ensures var blocklen := (len + BLOCKSIZE - 1) / BLOCKSIZE;
            (forall fb :: fb >= blocklen ==> Ptr(v', i, fb) == 0) <==> blocklen < NDIRECT || Ptr(v, i, blocklen) == 0
  {
    hide PtrIn, InodeOf, ByteAt;
    var blocklen := (len + BLOCKSIZE - 1) / BLOCKSIZE;
    if blocklen >= NDIRECT {
      assert Ptr(v', i, blocklen) == Ptr(v, i, blocklen);
    }
  }

  /** Truncating does not clear the rest of the last block, so a file extended again later shows what was there.
      The bytes past the new end read as zeros exactly when they did so already wherever a block stays mapped. */
  lemma TailIsClear(v: Vol, v': Vol, roles: Roles, roles': Roles, i: nat, len: nat)
    requires Truncated(v, v', roles, roles', i, len)
    ensures var blocklen := (len + BLOCKSIZE - 1) / BLOCKSIZE;
            (forall k: nat :: k >= len ==> ByteAt(v', i, k) == 0)
            <==> (forall k: nat :: k >= len && !Unmapped(blocklen, k / BLOCKSIZE) ==> ByteAt(v, i, k) == 0)
  {
    var blocklen := (len + BLOCKSIZE - 1) / BLOCKSIZE;
    if forall k: nat :: k >= len ==> ByteAt(v', i, k) == 0 {
      forall k: nat | k >= len && !Unmapped(blocklen, k / BLOCKSIZE)
        ensures ByteAt(v, i, k) == 0
      {
        assert ByteAt(v', i, k) == 0;
      }
    }
  }
}
