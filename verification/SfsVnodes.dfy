/** Inodes in memory, os161/kern/fs/sfs/sfs_vnode.c: loading, creating, writing back and reclaiming them. */
module SfsVnodes {
  import opened SfsFormat
  import opened SfsVolume
  import opened SfsBlocks
  import opened Sfs
  import opened SfsTruncate

  // ---------------------------------------------------------------- single changes

  /** Ownership only depends on the inodes, their pointers and the marks. */
  lemma Reowned(v: Vol, v': Vol, roles: Roles)
    requires Owned(v, roles) && Shaped(v', roles) && v'.used == v.used && |v'.disk| == |v.disk| && Clean(v')
    requires forall j :: IsInode(roles, j) ==>
                           InodeOf(v', j) == InodeOf(v, j) && forall fb :: Ptr(v', j, fb) == Ptr(v, j, fb)
    requires forall b :: b in roles && roles[b].Data? ==> b < |v.disk| && v'.disk[b] == v.disk[b]
    ensures Owned(v', roles) && SameFiles(v, v', roles)
  {
    forall j | IsInode(roles, j)
      ensures Fits(InodeOf(v', j)) && Points(v', roles, j)
      ensures SameFile(v, v', j)
    {
      assert Points(v, roles, j);
      forall fb | 0 < Ptr(v, j, fb) < |v.disk|
        ensures v'.disk[Ptr(v, j, fb)] == v.disk[Ptr(v, j, fb)]
      {
        PtrRole(v, roles, -1, j, fb);
      }
      SameBytes(v, v', j);
    }
    forall b | b in roles
      ensures Placed(v', roles, b, roles[b])
    {
      assert Placed(v, roles, b, roles[b]);
    }
  }

  function Synced(v: Vol, i: nat): Vol
    requires i in v.mem && i < |v.disk| && |v.mem[i].inode.direct| == NDIRECT
  {
    Vol(v.disk[i := EncodeInode(v.mem[i].inode)], v.used, v.mem[i := Vnode(v.mem[i].inode, false, v.mem[i].refs)])
  }

  /** Writing an inode back changes no file and makes the copy on disk current. */
  lemma SyncKeeps(v: Vol, roles: Roles, i: nat)
    requires Owned(v, roles) && i in v.mem
    ensures i < |v.disk| && |v.mem[i].inode.direct| == NDIRECT
    ensures Owned(Synced(v, i), roles) && SameFiles(v, Synced(v, i), roles)
    ensures DecodeInode(Synced(v, i).disk[i]) == v.mem[i].inode
  {
    InMemory(v, roles, -1, i);
    InodeRoundTrip(v.mem[i].inode);
    var v' := Synced(v, i);
    forall j | IsInode(roles, j)
      ensures InodeOf(v', j) == InodeOf(v, j) && forall fb :: Ptr(v', j, fb) == Ptr(v, j, fb)
    {
      assert Points(v, roles, j);
      assert InodeOf(v, j).indirect != i || i == 0;
    }
    Reowned(v, v', roles);
  }

  /** A clean inode can be dropped from memory. */
  lemma EvictKeeps(v: Vol, roles: Roles, i: nat)
    requires Owned(v, roles) && i in v.mem && !v.mem[i].dirty
    ensures Owned(v.(mem := v.mem - {i}), roles) && SameFiles(v, v.(mem := v.mem - {i}), roles)
    ensures InodeOf(v.(mem := v.mem - {i}), i) == InodeOf(v, i)
  {
    Reowned(v, v.(mem := v.mem - {i}), roles);
  }

  /** An inode can be read into memory. */
  lemma LoadKeeps(v: Vol, roles: Roles, i: nat, refs: nat)
    requires Owned(v, roles) && IsInode(roles, i) && i !in v.mem
    ensures i < |v.disk|
    ensures var v' := v.(mem := v.mem[i := Vnode(DecodeInode(v.disk[i]), false, refs)]);
            Owned(v', roles) && SameFiles(v, v', roles) && InodeOf(v', i) == InodeOf(v, i)
  {
    Reowned(v, v.(mem := v.mem[i := Vnode(DecodeInode(v.disk[i]), false, refs)]), roles);
  }

  /** Reference counts concern nothing on disk. */
  lemma RefsKeep(v: Vol, roles: Roles, i: nat, refs: nat)
    requires Owned(v, roles) && i in v.mem
    ensures var v' := v.(mem := v.mem[i := v.mem[i].(refs := refs)]);
            Owned(v', roles) && SameFiles(v, v', roles) && InodeOf(v', i) == InodeOf(v, i)
  {
    Reowned(v, v.(mem := v.mem[i := v.mem[i].(refs := refs)]), roles);
  }

  // ---------------------------------------------------------------- creating and freeing an inode

  function Created(v: Vol, x: nat, kind: nat): Vol
    requires x < |v.disk| && x < |v.used|
  {
    var w := Allocated(v, x);
    w.(mem := w.mem[x := Vnode(DecodeInode(ZeroBlock()).(kind := kind), true, 1)])
  }

  lemma CreatedInodes(v: Vol, roles: Roles, x: nat, kind: nat)
    requires Owned(v, roles) && x < |v.disk| && !v.used[x] && x !in v.mem
    ensures forall j :: IsInode(roles, j) ==>
                          j != x && InodeOf(Created(v, x, kind), j) == InodeOf(v, j)
                          && forall fb :: Ptr(Created(v, x, kind), j, fb) == Ptr(v, j, fb)
    ensures forall fb :: Ptr(Created(v, x, kind), x, fb) == 0
    ensures InodeOf(Created(v, x, kind), x) == DecodeInode(ZeroBlock()).(kind := kind)
  {
    AllocInodes(v, roles, x);
    ZeroBlockReads();
  }

  lemma CreatedPoints(v: Vol, roles: Roles, x: nat, kind: nat, v': Vol, roles': Roles)
    requires Owned(v, roles) && x < |v.disk| && !v.used[x] && x !in v.mem && kind < U16 && x !in roles
    requires v' == Created(v, x, kind) && roles' == roles[x := InodeBlock]
    ensures forall j :: IsInode(roles', j) ==> Fits(InodeOf(v', j)) && Points(v', roles', j)
    ensures forall b :: b in roles' ==> Placed(v', roles', b, roles'[b])
  {
    CreatedInodes(v, roles, x, kind);
    ZeroBlockReads();
    forall j | IsInode(roles', j)
      ensures Fits(InodeOf(v', j)) && Points(v', roles', j)
    {
      if j != x {
        assert Points(v, roles, j);
      }
    }
    forall b | b in roles'
      ensures Placed(v', roles', b, roles'[b])
    {
      if b != x {
        assert Placed(v, roles, b, roles[b]);
      }
    }
  }

  lemma CreatedOwned(v: Vol, roles: Roles, x: nat, kind: nat)
    requires Owned(v, roles) && x < |v.disk| && !v.used[x] && kind < U16
    ensures x !in v.mem && x !in roles && Owned(Created(v, x, kind), roles[x := InodeBlock])
  {
    hide Points, Placed, Fits, InodeOf;
    AllocKeeps(v, roles, x);
    CreatedPoints(v, roles, x, kind, Created(v, x, kind), roles[x := InodeBlock]);
    MapStays(|v.disk|, roles, roles[x := InodeBlock]);
  }

  lemma CreateKeeps(v: Vol, roles: Roles, x: nat, kind: nat)
    requires Owned(v, roles) && x < |v.disk| && !v.used[x] && kind < U16
    ensures x !in v.mem && x !in roles && Owned(Created(v, x, kind), roles[x := InodeBlock])
    ensures SameFiles(v, Created(v, x, kind), roles)
    ensures InodeOf(Created(v, x, kind), x) == DecodeInode(ZeroBlock()).(kind := kind)
    ensures forall k: nat :: ByteAt(Created(v, x, kind), x, k) == 0
  {
    var v' := Created(v, x, kind);
    hide Recorded, OwnedBut, PtrIn;
    CreatedOwned(v, roles, x, kind);
    AllocKeeps(v, roles, x);
    CreatedInodes(v, roles, x, kind);
    forall j | IsInode(roles, j)
      ensures SameFile(v, v', j)
    {
      assert SameFile(v, Allocated(v, x), j);
      AllocInodes(v, roles, x);
      SameBytes(Allocated(v, x), v', j);
    }
  }

  function Erased(v: Vol, i: nat): Vol
    requires i < |v.used|
  {
    v.(used := v.used[i := false], mem := v.mem - {i})
  }

  lemma ErasedOthers(v: Vol, roles: Roles, i: nat)
    requires Owned(v, roles) && IsInode(roles, i) && i < |v.used| && forall b :: b in roles ==> !Mine(roles[b], i)
    ensures forall j :: IsInode(roles, j) && j != i ==>
                          Points(Erased(v, i), roles - {i}, j) && SameFile(v, Erased(v, i), j)
    ensures forall j :: IsInode(roles, j) && j != i ==> InodeOf(Erased(v, i), j) == InodeOf(v, j)
    ensures forall b :: b in roles && b != i ==> Placed(Erased(v, i), roles - {i}, b, roles[b])
  {
    var v', roles' := Erased(v, i), roles - {i};
    forall j | IsInode(roles, j) && j != i
      ensures Points(v', roles', j) && SameFile(v, v', j)
    {
      assert Points(v, roles, j);
      SameBytes(v, v', j);
    }
    forall b | b in roles && b != i
      ensures Placed(v', roles', b, roles'[b])
    {
      assert Placed(v, roles, b, roles[b]);
    }
  }

  /** An inode whose file has no blocks left can be freed. */
  lemma EraseKeeps(v: Vol, roles: Roles, i: nat)
    requires Owned(v, roles) && i in v.mem && i != ROOT_LOCATION && forall b :: b in roles ==> !Mine(roles[b], i)
    ensures i < |v.disk| <= |v.used| && v.used[i]
    ensures Owned(Erased(v, i), roles - {i}) && SameOthers(v, Erased(v, i), roles, i)
  {
    hide InodeOf, Points, Placed, PtrIn, SameFile, Fits;
    InMemory(v, roles, -1, i);
    ErasedOthers(v, roles, i);
    MapStays(|v.disk|, roles, roles - {i});
  }

  // ---------------------------------------------------------------- the operations

  /** sfs_sync_inode. */
  method SyncInode(fs: Fs, i: nat)
    requires fs.Valid() && i in fs.vnodes
    modifies fs`disk, fs`vnodes
    ensures fs.Valid() && SameFiles(old(fs.V()), fs.V(), fs.roles)
    ensures fs.vnodes == old(fs.vnodes)[i := old(fs.vnodes)[i].(dirty := false)] && |fs.disk| == |old(fs.disk)|
    ensures forall b :: 0 <= b < |fs.disk| && b != i ==> fs.disk[b] == old(fs.disk)[b]
  {
    hide Recorded, OwnedBut, SameOthers;
    ghost var v := fs.V();
    SyncKeeps(v, fs.roles, i);
    if fs.vnodes[i].dirty {
      InodeAway(v, fs.roles, i, EncodeInode(fs.vnodes[i].inode), fs.freemap.v[..], fs.mapdirty);
      fs.disk := fs.disk[i := EncodeInode(fs.vnodes[i].inode)];
      fs.vnodes := fs.vnodes[i := fs.vnodes[i].(dirty := false)];
      assert fs.V() == Synced(v, i);
    } else {
      SameFilesRefl(v, fs.roles);
      assert fs.vnodes == fs.vnodes[i := fs.vnodes[i].(dirty := false)];
    }
  }

  lemma InodeAway(v: Vol, roles: Roles, i: nat, blk: Block, bytes: seq<Byte>, dirty: bool)
    requires Owned(v, roles) && i in v.mem && Recorded(v.disk, bytes, dirty)
    ensures i < |v.disk| && Recorded(v.disk[i := blk], bytes, dirty)
  {
    RecordAway(v, roles, i, blk, bytes, dirty);
  }

  lemma SameFilesRefl(v: Vol, roles: Roles)
    ensures SameFiles(v, v, roles)
  {
  }

  lemma InodeMarked(v: Vol, roles: Roles, i: nat)
    requires Owned(v, roles) && IsInode(roles, i)
    ensures i < |v.disk| <= |v.used| && v.used[i]
  {
  }

  /** The search of sfs_loadvnode: no inode it meets is in a block marked free. */
  method IsLoaded(fs: Fs, ino: nat) returns (found: bool)
    requires fs.Valid()
    ensures found <==> ino in fs.vnodes
  {
    hide Recorded, OwnedBut;
    var todo := fs.vnodes.Keys;
    while todo != {}
      invariant todo <= fs.vnodes.Keys && (ino in fs.vnodes ==> ino in todo)
      decreases todo
    {
      var i :| i in todo;
      InMemory(fs.V(), fs.roles, -1, i);
      InodeMarked(fs.V(), fs.roles, i);
      var used := fs.Bused(i);
      assert used;
      if i == ino {
        return true;
      }
      todo := todo - {i};
    }
    return false;
  }

  /** sfs_loadvnode of an allocated inode: the one in memory, or a copy of the one on disk. Its panics about
      unallocated blocks are never reached. */
  method LoadVnode(fs: Fs, ino: nat)
    requires fs.Valid() && IsInode(fs.roles, ino)
    modifies fs`vnodes
    ensures fs.Valid() && SameFiles(old(fs.V()), fs.V(), fs.roles) && ino in fs.vnodes
    ensures fs.vnodes == old(fs.vnodes)[ino := fs.vnodes[ino]]
    ensures fs.vnodes[ino].inode == InodeOf(old(fs.V()), ino)
    ensures ino in old(fs.vnodes) ==> fs.vnodes[ino] == old(fs.vnodes)[ino].(refs := old(fs.vnodes)[ino].refs + 1)
    ensures ino !in old(fs.vnodes) ==> fs.vnodes[ino].refs == 1 && !fs.vnodes[ino].dirty
    ensures ino < |fs.V().used| && fs.V().used[ino]
  {
    hide Recorded, OwnedBut, SameOthers;
    ghost var v := fs.V();
    InodeMarked(v, fs.roles, ino);
    var loaded := IsLoaded(fs, ino);
    if loaded {
      RefsKeep(v, fs.roles, ino, fs.vnodes[ino].refs + 1);
      fs.vnodes := fs.vnodes[ino := fs.vnodes[ino].(refs := fs.vnodes[ino].refs + 1)];
    } else {
      LoadKeeps(v, fs.roles, ino, 1);
      var used := fs.Bused(ino);
      assert used;
      fs.vnodes := fs.vnodes[ino := Vnode(DecodeInode(fs.disk[ino]), false, 1)];
    }
  }

  /** sfs_makeobj: a new inode of type `kind`, without links and without blocks. */
  method MakeObj(fs: Fs, kind: nat) returns (r: Error, ino: nat)
    requires fs.Valid() && kind < U16
    modifies fs, fs.freemap.v
    ensures fs.Valid() && r in {OK, ENOSPC}
    ensures r == OK ==>
              && ino !in old(fs.roles) && ino !in old(fs.vnodes) && ino < |old(fs.disk)| && !old(fs.V()).used[ino]
              && fs.V() == Created(old(fs.V()), ino, kind)
              && fs.roles == old(fs.roles)[ino := InodeBlock]
              && SameFiles(old(fs.V()), fs.V(), old(fs.roles))
              && forall k: nat :: ByteAt(fs.V(), ino, k) == 0
    ensures r == ENOSPC ==>
              fs.V() == old(fs.V()) && fs.roles == old(fs.roles) && forall c :: 0 <= c < |fs.V().used| ==> fs.V().used[c]
    ensures r == OK <==> FreeBlocks(old(fs.V()).used) > 0
    ensures r == OK ==> FreeBlocks(fs.V().used) == FreeBlocks(old(fs.V()).used) - 1
  {
    hide Recorded, OwnedBut, SameOthers, ByteAt, FreeBlocks;
    ghost var v := fs.V();
    r, ino := fs.Balloc();
    if r == OK {
      CreateKeeps(v, fs.roles, ino, kind);
      fs.vnodes := fs.vnodes[ino := Vnode(DecodeInode(fs.disk[ino]).(kind := kind), true, 1)];
      fs.roles := fs.roles[ino := InodeBlock];
      assert fs.V() == Created(v, ino, kind);
    }
  }

  /** File `i` is gone: its inode and exactly its blocks have been given back, and no other file has changed. */
  ghost predicate Deleted(v: Vol, v': Vol, roles: Roles, roles': Roles, i: nat) {
    && (forall b :: b in roles' <==> b in roles && b != i && !Mine(roles[b], i))
    && (forall b :: b in roles' ==> roles'[b] == roles[b])
    && SameOthers(v, v', roles, i) && v'.mem == v.mem - {i} && |v'.disk| == |v.disk|
  }

  lemma DeletedFrom(v: Vol, w: Vol, u: Vol, z: Vol, roles: Roles, roles': Roles, i: nat)
    requires Truncated(v, w, roles, roles', i, 0) && SameFiles(w, u, roles') && SameOthers(u, z, roles', i)
    requires z.mem == v.mem - {i} && |z.disk| == |v.disk| && IsInode(roles, i)
    ensures Deleted(v, z, roles, roles' - {i}, i)
  {
    forall j | IsInode(roles, j) && j != i
      ensures SameFile(v, z, j)
    {
      assert IsInode(roles', j);
      assert SameFile(v, w, j) && SameFile(w, u, j) && SameFile(u, z, j);
    }
  }

  /** sfs_reclaim of a file without links, its last reference just dropped. */
  method Discard(fs: Fs, i: nat)
    requires fs.Valid() && i in fs.vnodes && i != ROOT_LOCATION
    modifies fs, fs.freemap.v
    ensures fs.Valid() && Deleted(old(fs.V()), fs.V(), old(fs.roles), fs.roles, i)
  {
    hide Recorded, OwnedBut, SameOthers, Deleted;
    ghost var v, roles := fs.V(), fs.roles;
    InMemory(v, roles, -1, i);
    Truncate(fs, i, 0);
    ghost var w := fs.V();
    SyncInode(fs, i);
    ghost var u := fs.V();
    EraseKeeps(u, fs.roles, i);
    RecordFreedLater(fs.disk, fs.freemap.v[..], fs.mapdirty);
    fs.freemap.Unmark(i);
    fs.mapdirty := true;
    fs.vnodes := fs.vnodes - {i};
    DeletedFrom(v, w, u, fs.V(), roles, fs.roles, i);
    fs.roles := fs.roles - {i};
    assert fs.V() == Erased(u, i);
  }

  /** One reference to inode `i` less: it leaves memory with the last one, and the disk too if it has no links. */
  ghost predicate Dropped(v: Vol, v': Vol, roles: Roles, roles': Roles, i: nat)
    requires i in v.mem && v.mem[i].refs >= 1
  {
    if v.mem[i].refs > 1 then
      v'.mem == v.mem[i := v.mem[i].(refs := v.mem[i].refs - 1)] && roles' == roles && SameFiles(v, v', roles)
    else if v.mem[i].inode.links > 0 then
      v'.mem == v.mem - {i} && roles' == roles && SameFiles(v, v', roles)
    else
      Deleted(v, v', roles, roles', i)
  }

  /** VOP_DECREF: the last reference makes sfs_reclaim drop the inode from memory, and erase the file if it has no
      links left. */
  method Decref(fs: Fs, i: nat)
    requires fs.Valid() && i in fs.vnodes && fs.vnodes[i].refs >= 1
    requires i == ROOT_LOCATION ==> fs.vnodes[i].inode.links > 0
    modifies fs, fs.freemap.v
    ensures fs.Valid() && Dropped(old(fs.V()), fs.V(), old(fs.roles), fs.roles, i)
  {
    hide Recorded, OwnedBut, SameOthers, Deleted;
    ghost var v, roles := fs.V(), fs.roles;
    if fs.vnodes[i].refs > 1 {
      RefsKeep(v, roles, i, fs.vnodes[i].refs - 1);
      fs.vnodes := fs.vnodes[i := fs.vnodes[i].(refs := fs.vnodes[i].refs - 1)];
    } else if fs.vnodes[i].inode.links == 0 {
      Discard(fs, i);
    } else {
      SyncInode(fs, i);
      ghost var w := fs.V();
      EvictKeeps(w, roles, i);
      fs.vnodes := fs.vnodes - {i};
      FilesAgain(v, w, fs.V(), roles);
    }
  }

  lemma FilesAgain(v: Vol, w: Vol, u: Vol, roles: Roles)
    requires SameFiles(v, w, roles) && SameFiles(w, u, roles)
    ensures SameFiles(v, u, roles)
  {
    forall j | IsInode(roles, j)
      ensures SameFile(v, u, j)
    {
      assert SameFile(v, w, j) && SameFile(w, u, j);
    }
  }
}
