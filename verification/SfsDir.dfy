/** The directory operations of SFS, os161/kern/fs/sfs/sfs_vnode.c. There is one directory, the root. */
module SfsDir {
  import opened SfsFormat
  import opened SfsVolume
  import opened SfsBlocks
  import opened Sfs
  import opened SfsIo
  import opened SfsNames
  import opened SfsTruncate
  import opened SfsVnodes
  import opened SfsRoom
  import opened Uio

  /** The volume is well formed, its names and link counts agree, and the root directory is loaded. */
  ghost predicate Sound(fs: Fs)
    reads fs, fs.freemap.v
  {
    fs.Valid() && Linked(fs.V(), fs.roles) && ROOT_LOCATION in fs.vnodes
  }

  // ---------------------------------------------------------------- slots

  /** sfs_readdir. It never comes up short. */
  method ReadDir(fs: Fs, slot: nat) returns (r: Error, e: Entry)
    requires fs.Valid() && ROOT_LOCATION in fs.vnodes && RootOk(fs.vnodes[ROOT_LOCATION].inode) && slot < |Dir(fs.V())|
    modifies fs, fs.freemap.v
    ensures fs.Valid() && fs.V() == old(fs.V()) && fs.roles == old(fs.roles)
    ensures r == OK && e == Dir(fs.V())[slot]
  {
    hide Recorded, OwnedBut, ByteAt, DecodeEntry;
    InMemory(fs.V(), fs.roles, -1, ROOT_LOCATION);
    var uio := new Transfer(seq(DIRSIZE, _ => 0), DIRSIZE * slot, READ);
    r := Read(fs, ROOT_LOCATION, uio);
    assert r == OK && uio.resid == 0;
    assert uio.buf == Bytes(fs.V(), ROOT_LOCATION, DIRSIZE * slot, DIRSIZE);
    e := DecodeEntry(uio.buf);
  }

  lemma WroteNothing(v: Vol, v': Vol, roles: Roles, roles': Roles, off: nat)
    requires WroteFile(v, v', roles, roles', ROOT_LOCATION, off, []) && off <= InodeOf(v, ROOT_LOCATION).size
    ensures SameFiles(v, v', roles)
  {
    hide ByteAt, InodeOf;
    assert SameFile(v, v', ROOT_LOCATION);
    forall j | IsInode(roles, j)
      ensures SameFile(v, v', j)
    {
      if j != ROOT_LOCATION {
        assert SameFile(v, v', j);
      }
    }
  }

  /** A write that stops early stops between blocks, so never inside a slot. */
  lemma NoPartialSlot(slot: nat, done: nat)
    requires done < DIRSIZE && (DIRSIZE * slot + done) % BLOCKSIZE == 0
    ensures done == 0
  {
    var q, t := slot / 8, slot % 8;
    assert DIRSIZE * slot + done == BLOCKSIZE * q + (DIRSIZE * t + done);
  }

  /** sfs_writedir, to a slot of the directory or the one just past its end: all of the entry or nothing. */
  method WriteDir(fs: Fs, e: Entry, slot: nat) returns (r: Error)
    requires fs.Valid() && ROOT_LOCATION in fs.vnodes && RootOk(fs.vnodes[ROOT_LOCATION].inode) && slot <= |Dir(fs.V())|
    requires IsName(e.name) && |e.name| < NAMELEN && e.ino < U32 && (e.ino == NOINO ==> e.name == [])
    modifies fs, fs.freemap.v
    ensures fs.Valid() && ROOT_LOCATION in fs.vnodes && r in {OK, ENOSPC, EINVAL}
    ensures SameOthers(old(fs.V()), fs.V(), old(fs.roles), ROOT_LOCATION) && SameRefs(old(fs.V()), fs.V())
    ensures SameInodes(old(fs.roles), fs.roles)
    ensures InodeOf(fs.V(), ROOT_LOCATION).links == InodeOf(old(fs.V()), ROOT_LOCATION).links
    ensures RootOk(InodeOf(fs.V(), ROOT_LOCATION))
    ensures Dir(fs.V()) == if r == OK then Put(old(Dir(fs.V())), slot, e) else old(Dir(fs.V()))
    ensures r != OK ==> SameFiles(old(fs.V()), fs.V(), old(fs.roles))
    ensures slot < |old(Dir(fs.V()))| && old(Dir(fs.V()))[slot].ino != NOINO ==> r == OK
    ensures r == MapError(old(fs.V()), ROOT_LOCATION, SlotBlock(slot))
    ensures r == ENOSPC ==> forall c :: 0 <= c < |fs.V().used| ==> fs.V().used[c]
  {
    hide Recorded, OwnedBut, ByteAt, EncodeEntry, DecodeEntry, FreeBlocks;
    ghost var v, roles := fs.V(), fs.roles;
    InMemory(v, roles, -1, ROOT_LOCATION);
    if slot < |Dir(v)| && Dir(v)[slot].ino != NOINO {
      SlotMapped(v, slot);
    }
    SlotInBlock(slot);
    var data := EncodeEntry(e);
    var uio := new Transfer(data, DIRSIZE * slot, WRITE);
    r := Write(fs, ROOT_LOCATION, uio);
    InMemory(fs.V(), fs.roles, -1, ROOT_LOCATION);
    ghost var done := DIRSIZE - uio.resid;
    if r == OK {
      assert data[0..DIRSIZE] == data;
      SlotWritten(v, fs.V(), roles, fs.roles, slot, e);
    } else {
      if done > 0 {
        NoPartialSlot(slot, done);
      }
      assert data[0..0] == [];
      WroteNothing(v, fs.V(), roles, fs.roles, DIRSIZE * slot);
      assert SameFile(v, fs.V(), ROOT_LOCATION);
      SameDir(v, fs.V());
    }
  }

  // ---------------------------------------------------------------- names

  /** sfs_dir_nentries. */
  method Entries(fs: Fs) returns (n: nat)
    requires fs.Valid() && ROOT_LOCATION in fs.vnodes
    ensures n == |Dir(fs.V())|
  {
    hide OwnedBut;
    InMemory(fs.V(), fs.roles, -1, ROOT_LOCATION);
    n := fs.vnodes[ROOT_LOCATION].inode.size / DIRSIZE;
  }

  /** sfs_dir_findname: the slot and inode of the name, and the last free slot. The name is met at most once. */
  method FindName(fs: Fs, name: Name) returns (r: Error, ino: nat, slot: nat, empty: int)
    requires Sound(fs)
    modifies fs, fs.freemap.v
    ensures Sound(fs) && fs.V() == old(fs.V()) && fs.roles == old(fs.roles) && r in {OK, ENOENT}
    ensures r == OK ==> Named(Dir(fs.V()), slot, name) && ino == Dir(fs.V())[slot].ino == Find(Dir(fs.V()), name)
    ensures r == ENOENT ==> Find(Dir(fs.V()), name) == NOINO && forall s: nat :: !Named(Dir(fs.V()), s, name)
    ensures -1 <= empty < |Dir(fs.V())| && (empty >= 0 ==> Dir(fs.V())[empty].ino == NOINO)
    ensures forall s :: empty < s < |Dir(fs.V())| ==> Dir(fs.V())[s].ino != NOINO
  {
    hide Recorded, OwnedBut, Slot, Targets, Counted, Kinds, Held;
    InMemory(fs.V(), fs.roles, -1, ROOT_LOCATION);
    ghost var dir := Dir(fs.V());
    r, ino, slot, empty := ENOENT, 0, 0, -1;
    var nentries := Entries(fs);
    var i := 0;
    while i < nentries
      invariant 0 <= i <= nentries == |dir| && Sound(fs) && fs.V() == old(fs.V()) && fs.roles == old(fs.roles)
      invariant r in {OK, ENOENT} && (r == OK ==> slot < i && Named(dir, slot, name) && ino == dir[slot].ino)
      invariant r == ENOENT ==> forall s: nat :: s < i ==> !Named(dir, s, name)
      invariant -1 <= empty < i && (empty >= 0 ==> dir[empty].ino == NOINO)
      invariant forall s :: empty < s < i ==> dir[s].ino != NOINO
    {
      var result, e := ReadDir(fs, i);
      if e.ino == NOINO {
        empty := i;
      } else if e.name == name {
        assert r == ENOENT;
        r, slot, ino := OK, i, e.ino;
      }
      i := i + 1;
    }
    if r == OK {
      FindAt(dir, name, slot);
    } else {
      FindNone(dir, name);
    }
  }

  /** sfs_dir_link: a new name for an inode, in the last empty slot or else at the end; its link count is still to
      be raised. */
  method DirLink(fs: Fs, name: Name, ino: nat) returns (r: Error, slot: nat)
    requires Sound(fs) && IsName(name) && IsInode(fs.roles, ino)
    modifies fs, fs.freemap.v
    ensures fs.Valid() && fs.vnodes.Keys == old(fs.vnodes.Keys)
    ensures Adjusted(old(fs.V()), fs.V(), old(fs.roles), fs.roles, ino, 0, 0)
    ensures r in {OK, EEXIST, ENAMETOOLONG, ENOSPC, EINVAL}
    ensures r == EEXIST <==> old(Find(Dir(fs.V()), name)) != NOINO
    ensures r == ENAMETOOLONG <==> old(Find(Dir(fs.V()), name)) == NOINO && |name| >= NAMELEN
    ensures r == LinkError(old(fs.V()), name)
    ensures r == ENOSPC ==> forall c :: 0 <= c < |fs.V().used| ==> fs.V().used[c]
    ensures r != OK ==> Linked(fs.V(), fs.roles) && Dir(fs.V()) == old(Dir(fs.V()))
    ensures r == OK ==>
              && LinkedBut(fs.V(), fs.roles, ino, 1) && slot <= |old(Dir(fs.V()))|
              && (slot < |old(Dir(fs.V()))| ==> old(Dir(fs.V()))[slot].ino == NOINO)
              && (forall s :: (slot < s || slot == |old(Dir(fs.V()))|) && 0 <= s < |old(Dir(fs.V()))| ==>
                                old(Dir(fs.V()))[s].ino != NOINO)
              && Dir(fs.V()) == Put(old(Dir(fs.V())), slot, Entry(ino, name))
              && Bound(old(Dir(fs.V())), Dir(fs.V()), name, ino)
  {
    hide Recorded, OwnedBut, Slot, Targets, Counted, Kinds, Held, Find, MapError;
    ghost var v, roles := fs.V(), fs.roles;
    var ino', slot', empty;
    InoFits(v, roles, ino);
    r, ino', slot', empty := FindName(fs, name);
    Unadjusted(v, roles, ino);
    if r == OK {
      return EEXIST, 0;
    }
    if |name| + 1 > NAMELEN {
      return ENAMETOOLONG, 0;
    }
    LastEmptyIs(Dir(v), empty);
    if empty < 0 {
      empty := Entries(fs);
    }
    slot := empty;
    InMemory(fs.V(), fs.roles, -1, ROOT_LOCATION);
    r := WriteDir(fs, Entry(ino, name), slot);
    OnlyNames(v, fs.V(), roles, fs.roles, ino);
    hide Adjusted, InodeOf;
    if r == OK {
      LinkKeeps(v, fs.V(), roles, fs.roles, slot, Entry(ino, name));
      EnterName(Dir(v), slot, Entry(ino, name));
    } else {
      FilesKeep(v, fs.V(), roles, fs.roles, -1, 0);
    }
  }

  lemma InoFits(v: Vol, roles: Roles, ino: nat)
    requires Owned(v, roles) && IsInode(roles, ino)
    ensures 0 < ino < U32
  {
  }

  lemma Unadjusted(v: Vol, roles: Roles, x: nat)
    ensures Adjusted(v, v, roles, roles, x, 0, 0)
  {
  }

  /** sfs_dir_unlink of a slot in use cannot fail: its block is there already. */
  method DirUnlink(fs: Fs, slot: nat) returns (r: Error)
    requires Sound(fs) && slot < |Dir(fs.V())| && Dir(fs.V())[slot].ino != NOINO
    modifies fs, fs.freemap.v
    ensures fs.Valid() && fs.vnodes.Keys == old(fs.vnodes.Keys)
    ensures Adjusted(old(fs.V()), fs.V(), old(fs.roles), fs.roles, old(Dir(fs.V()))[slot].ino, 0, 0)
    ensures r == OK && Dir(fs.V()) == Put(old(Dir(fs.V())), slot, EMPTY)
    ensures var ino := old(Dir(fs.V()))[slot].ino;
            LinkedBut(fs.V(), fs.roles, ino, -1) && IsInode(fs.roles, ino)
            && InodeOf(fs.V(), ino).links > RootLink(ino)
    ensures Bound(old(Dir(fs.V())), Dir(fs.V()), old(Dir(fs.V()))[slot].name, NOINO)
  {
    ghost var v, roles := fs.V(), fs.roles;
    assert IsInode(roles, Dir(v)[slot].ino);
    hide Recorded, OwnedBut, Slot, Targets, Counted, Kinds, Held, Find;
    InMemory(fs.V(), fs.roles, -1, ROOT_LOCATION);
    r := WriteDir(fs, EMPTY, slot);
    OnlyNames(v, fs.V(), roles, fs.roles, Dir(v)[slot].ino);
    hide Adjusted, InodeOf;
    UnlinkKeeps(v, fs.V(), roles, fs.roles, slot);
    LeaveName(Dir(v), slot);
  }

  // ---------------------------------------------------------------- references and link counts

  /** sfs_loadvnode, in terms of names. */
  method Hold(fs: Fs, ino: nat)
    requires Sound(fs) && IsInode(fs.roles, ino)
    modifies fs`vnodes
    ensures Sound(fs) && ino in fs.vnodes && Dir(fs.V()) == old(Dir(fs.V()))
    ensures Adjusted(old(fs.V()), fs.V(), fs.roles, fs.roles, ino, 0, 1)
    ensures SameRoot(old(fs.V()), fs.V()) && fs.V().used == old(fs.V()).used
  {
    hide Recorded, OwnedBut, Slot, Targets, Counted, Kinds, Find, ByteAt, SameOthers;
    ghost var v := fs.V();
    LoadVnode(fs, ino);
    HeldAfterLoad(v, fs.V(), fs.roles, ino);
    FilesKeep(v, fs.V(), fs.roles, fs.roles, -1, 0);
  }

  lemma HeldAfterLoad(v: Vol, v': Vol, roles: Roles, ino: nat)
    requires Held(v, roles) && SameFiles(v, v', roles) && ino in v'.mem && v'.mem == v.mem[ino := v'.mem[ino]]
    requires v'.mem[ino].refs >= 1
    ensures Held(v', roles)
  {
    hide InodeOf, ByteAt;
    forall i | IsInode(roles, i) && i !in v'.mem
      ensures InodeOf(v', i).links > 0
    {
      assert SameFile(v, v', i);
    }
  }

  /** Whether dropping one reference to inode `i` is the end of it. */
  ghost predicate LastGone(v: Vol, i: nat) {
    InodeOf(v, i).links == 0 && Refs(v, i) == 1
  }

  lemma EvictHeld(v: Vol, v': Vol, roles: Roles, i: nat)
    requires Held(v, roles) && SameFiles(v, v', roles) && i in v.mem && InodeOf(v, i).links > 0
    requires v'.mem == v.mem - {i}
    ensures Held(v', roles)
  {
    hide InodeOf, ByteAt;
    forall j | IsInode(roles, j) && j !in v'.mem
      ensures InodeOf(v', j).links > 0
    {
      assert SameFile(v, v', j);
    }
  }

  /** A file that is gone had no names left. */
  lemma DeletedKeeps(v: Vol, v': Vol, roles: Roles, roles': Roles, i: nat)
    requires Linked(v, roles) && Deleted(v, v', roles, roles', i) && IsInode(roles, i) && InodeOf(v, i).links == 0
    requires i != ROOT_LOCATION
    ensures Linked(v', roles') && Dir(v') == Dir(v) && Untouched(v, v', roles, roles')
    ensures forall j :: IsInode(roles', j) ==> InodeOf(v', j).links == InodeOf(v, j).links
    ensures forall j :: IsInode(roles', j) <==> IsInode(roles, j) && j != i
  {
    hide ByteAt, InodeOf, Slot;
    assert SameFile(v, v', ROOT_LOCATION);
    SameDir(v, v');
    forall s | 0 <= s < |Dir(v)| && Dir(v)[s].ino != NOINO
      ensures IsInode(roles', Dir(v)[s].ino)
    {
      CountFound(Dir(v), Dir(v)[s].ino, s);
    }
    forall j | IsInode(roles', j)
      ensures InodeOf(v', j).links == InodeOf(v, j).links && SameData(v, v', j)
    {
      assert SameFile(v, v', j);
    }
  }

  /** One reference to inode `i` has been dropped: the inode goes away exactly when it has neither a name nor
      a reference left, and nothing else changes. */
  ghost predicate Released(v: Vol, v': Vol, roles: Roles, roles': Roles, i: nat) {
    if LastGone(v, i) then
      && Untouched(v, v', roles, roles')
      && (forall j :: IsInode(roles', j) <==> IsInode(roles, j) && j != i)
      && (forall j :: IsInode(roles', j) ==> InodeOf(v', j).links == InodeOf(v, j).links)
      && (forall j: nat :: Refs(v', j) == Refs(v, j) - if j == i then 1 else 0)
    else
      Adjusted(v, v', roles, roles', i, 0, -1)
  }

  lemma DropKeeps(v: Vol, v': Vol, roles: Roles, roles': Roles, i: nat)
    requires Linked(v, roles) && i in v.mem && IsInode(roles, i) && v.mem[i].refs >= 1
    requires i == ROOT_LOCATION ==> v.mem[i].inode.links > 0
    requires Dropped(v, v', roles, roles', i)
    ensures Linked(v', roles') && Dir(v') == Dir(v) && Released(v, v', roles, roles', i)
  {
    hide Slot, Targets, Counted, Kinds, Find, ByteAt, SameOthers, Deleted, Untouched;
    if v.mem[i].refs > 1 {
      HeldAfterLoad(v, v', roles, i);
      FilesKeep(v, v', roles, roles', -1, 0);
    } else if v.mem[i].inode.links > 0 {
      EvictHeld(v, v', roles, i);
      FilesKeep(v, v', roles, roles', -1, 0);
    } else {
      DeletedKeeps(v, v', roles, roles', i);
      GoneFromMemory(v, v', roles, roles', i);
    }
  }

  /** VOP_DECREF, in terms of names. */
  method Release(fs: Fs, i: nat)
    requires fs.Valid() && Linked(fs.V(), fs.roles) && i in fs.vnodes
    modifies fs, fs.freemap.v
    ensures fs.Valid() && Linked(fs.V(), fs.roles) && Dir(fs.V()) == old(Dir(fs.V()))
    ensures Released(old(fs.V()), fs.V(), old(fs.roles), fs.roles, i)
  {
    hide Recorded, OwnedBut, Slot, Targets, Kinds, Find, ByteAt, Dropped, Released;
    ghost var v, roles := fs.V(), fs.roles;
    InMemory(v, roles, -1, i);
    Decref(fs, i);
    hide LinkedBut;
    DropKeeps(v, fs.V(), roles, fs.roles, i);
  }

  lemma GoneFromMemory(v: Vol, v': Vol, roles: Roles, roles': Roles, i: nat)
    requires Deleted(v, v', roles, roles', i)
    ensures v'.mem == v.mem - {i}
  {
  }

  /** The link count of a loaded inode is brought up to date and the inode marked dirty. */
  method Settle(fs: Fs, x: nat, d: int)
    requires fs.Valid() && LinkedBut(fs.V(), fs.roles, x, d) && x in fs.vnodes && fs.vnodes[x].inode.links + d >= 0
    modifies fs`vnodes
    ensures fs.Valid() && Linked(fs.V(), fs.roles) && Dir(fs.V()) == old(Dir(fs.V()))
    ensures Adjusted(old(fs.V()), fs.V(), fs.roles, fs.roles, x, d, 0) && fs.vnodes.Keys == old(fs.vnodes.Keys)
  {
    hide Recorded, OwnedBut, LinkedBut, InodeOf, Slot, Untouched;
    SettleKeeps(fs.V(), fs.roles, x, d);
    fs.vnodes := fs.vnodes[x := Vnode(fs.vnodes[x].inode.(links := fs.vnodes[x].inode.links + d), true, fs.vnodes[x].refs)];
  }

  // ---------------------------------------------------------------- the operations

  /** sfs_lookonce: the link count of what it finds is never zero. */
  method LookOnce(fs: Fs, name: Name) returns (r: Error, ino: nat, slot: nat)
    requires Sound(fs)
    modifies fs, fs.freemap.v
    ensures Sound(fs) && Dir(fs.V()) == old(Dir(fs.V())) && fs.roles == old(fs.roles) && r in {OK, ENOENT}
    ensures r == ENOENT <==> Find(Dir(fs.V()), name) == NOINO
    ensures r == ENOENT ==> fs.V() == old(fs.V())
    ensures r == OK ==>
              && Named(Dir(fs.V()), slot, name) && ino == Dir(fs.V())[slot].ino == Find(Dir(fs.V()), name)
              && IsInode(fs.roles, ino) && ino in fs.vnodes && fs.vnodes[ino].inode.links > RootLink(ino)
              && Adjusted(old(fs.V()), fs.V(), fs.roles, fs.roles, ino, 0, 1)
              && SameRoot(old(fs.V()), fs.V()) && fs.V().used == old(fs.V()).used
  {
    hide Recorded, OwnedBut, LinkedBut, InodeOf, Slot, Find, Adjusted, SameRoot;
    ghost var v, roles := fs.V(), fs.roles;
    var empty;
    r, ino, slot, empty := FindName(fs, name);
    if r == OK {
      NamedHasLinks(v, roles, slot);
      Hold(fs, ino);
      FoundLoaded(v, fs.V(), roles, ino);
    }
  }

  /** An inode that has a name has a link. */
  lemma NamedHasLinks(v: Vol, roles: Roles, s: nat)
    requires Linked(v, roles) && s < |Dir(v)| && Dir(v)[s].ino != NOINO
    ensures IsInode(roles, Dir(v)[s].ino) && InodeOf(v, Dir(v)[s].ino).links > RootLink(Dir(v)[s].ino)
  {
    hide InodeOf, Slot;
    CountFound(Dir(v), Dir(v)[s].ino, s);
  }

  lemma FoundLoaded(v: Vol, v': Vol, roles: Roles, ino: nat)
    requires Owned(v', roles) && ino in v'.mem && Adjusted(v, v', roles, roles, ino, 0, 1) && IsInode(roles, ino)
    ensures v'.mem[ino].inode.links == InodeOf(v, ino).links
  {
    InMemory(v', roles, -1, ino);
  }

  /** The last name of inode `x` and nobody has it open. */
  ghost predicate OnlyName(v: Vol, x: nat) {
    InodeOf(v, x).links == 1 && Refs(v, x) == 0
  }

  /** What removing a name of inode `x` does: the inode itself goes exactly when that was its only name and it
      is not open. */
  ghost predicate Removed(v: Vol, v': Vol, roles: Roles, roles': Roles, x: nat) {
    && Untouched(v, v', roles, roles')
    && (forall j :: IsInode(roles', j) <==> IsInode(roles, j) && !(j == x && OnlyName(v, x)))
    && (forall j :: IsInode(roles', j) ==> InodeOf(v', j).links == InodeOf(v, j).links - if j == x then 1 else 0)
    && (forall j: nat :: Refs(v', j) == Refs(v, j))
  }

  lemma RemoveDone(v: Vol, w: Vol, u: Vol, roles: Roles, roles': Roles, roles'': Roles, x: nat)
    requires Adjusted(v, w, roles, roles', x, -1, 1) && Released(w, u, roles', roles'', x) && IsInode(roles, x)
    ensures Removed(v, u, roles, roles'', x)
  {
    hide InodeOf, Untouched, Refs;
    UntouchedTwice(v, w, u, roles, roles', roles'');
  }

  /** sfs_remove. */
  method Remove(fs: Fs, name: Name) returns (r: Error)
    requires Sound(fs)
    modifies fs, fs.freemap.v
    ensures Sound(fs) && r in {OK, ENOENT}
    ensures r == ENOENT <==> old(Find(Dir(fs.V()), name)) == NOINO
    ensures r == ENOENT ==> fs.V() == old(fs.V()) && fs.roles == old(fs.roles)
    ensures r == OK ==>
              && Bound(old(Dir(fs.V())), Dir(fs.V()), name, NOINO)
              && Removed(old(fs.V()), fs.V(), old(fs.roles), fs.roles, old(Find(Dir(fs.V()), name)))
  {
    hide Recorded, OwnedBut, LinkedBut, InodeOf, Slot, Find, Adjusted, Removed, Released, Bound;
    ghost var v, roles := fs.V(), fs.roles;
    var victim, slot;
    r, victim, slot := LookOnce(fs, name);
    if r != OK {
      return;
    }
    ghost var v1, roles1 := fs.V(), fs.roles;
    r := DirUnlink(fs, slot);
    ghost var v2, roles2 := fs.V(), fs.roles;
    AdjustedTwice(v, v1, v2, roles, roles1, roles2, victim, 0, 1, 0, 0);
    InMemory(v2, roles2, -1, victim);
    Settle(fs, victim, -1);
    ghost var v3 := fs.V();
    AdjustedTwice(v, v2, v3, roles, roles2, roles2, victim, 0, 1, -1, 0);
    Release(fs, victim);
    RemoveDone(v, v3, fs.V(), roles, roles2, fs.roles, victim);
    RootAfter(v, fs.V(), roles, fs.roles, victim);
  }

  /** An operation that leaves the references as they were leaves the directory loaded. */
  lemma RootStays(v: Vol, v': Vol, roles: Roles)
    requires Linked(v, roles) && ROOT_LOCATION in v.mem && Refs(v', ROOT_LOCATION) >= Refs(v, ROOT_LOCATION)
    ensures ROOT_LOCATION in v'.mem
  {
    hide InodeOf, Slot;
  }

  lemma RootAfter(v: Vol, v': Vol, roles: Roles, roles': Roles, x: nat)
    requires Linked(v, roles) && ROOT_LOCATION in v.mem && Removed(v, v', roles, roles', x)
    ensures ROOT_LOCATION in v'.mem
  {
    hide InodeOf, Slot;
    RootStays(v, v', roles);
  }

  /** sfs_link. */
  method Link(fs: Fs, name: Name, file: nat) returns (r: Error)
    requires Sound(fs) && IsName(name) && file in fs.vnodes
    modifies fs, fs.freemap.v
    ensures Sound(fs) && r in {OK, EEXIST, ENAMETOOLONG, ENOSPC, EINVAL}
    ensures r == EEXIST <==> old(Find(Dir(fs.V()), name)) != NOINO
    ensures r == ENAMETOOLONG <==> old(Find(Dir(fs.V()), name)) == NOINO && |name| >= NAMELEN
    ensures r == LinkError(old(fs.V()), name)
    ensures r == ENOSPC ==> forall c :: 0 <= c < |fs.V().used| ==> fs.V().used[c]
    ensures Adjusted(old(fs.V()), fs.V(), old(fs.roles), fs.roles, file, if r == OK then 1 else 0, 0)
    ensures if r == OK then Bound(old(Dir(fs.V())), Dir(fs.V()), name, file) else Dir(fs.V()) == old(Dir(fs.V()))
  {
    hide Recorded, OwnedBut, LinkedBut, InodeOf, Slot, Find, Adjusted, Bound, LinkError;
    ghost var v, roles := fs.V(), fs.roles;
    InMemory(v, roles, -1, file);
    var slot;
    r, slot := DirLink(fs, name, file);
    if r == OK {
      ghost var v1, roles1 := fs.V(), fs.roles;
      Settle(fs, file, 1);
      AdjustedTwice(v, v1, fs.V(), roles, roles1, roles1, file, 0, 0, 1, 0);
    }
  }

  /** What sfs_rename does to the names: `n1` is gone and `n2` leads where it led. */
  lemma RenamedNames(d0: seq<Entry>, d1: seq<Entry>, d2: seq<Entry>, n1: Name, n2: Name, x: nat)
    requires Bound(d0, d1, n2, x) && Bound(d1, d2, n1, NOINO) && n1 != n2
    ensures Renamed(d0, d2, n1, n2, x)
  {
    hide Find;
  }

  ghost predicate Renamed(dir: seq<Entry>, dir': seq<Entry>, n1: Name, n2: Name, x: nat) {
    forall m :: Find(dir', m) == if m == n2 then x else if m == n1 then NOINO else Find(dir, m)
  }

  lemma NotLast(v: Vol, v': Vol, roles: Roles, roles': Roles, x: nat)
    requires Released(v, v', roles, roles', x) && InodeOf(v, x).links > 0
    ensures Adjusted(v, v', roles, roles', x, 0, -1)
  {
  }

  /** sfs_rename: either the names change and every link count is as before, or nothing has changed. Unlinking the
      old name cannot fail, so the code that would undo the new one is never reached. The assertion that only files are
      renamed fails exactly for a name that sfs_link gave to the root directory. */
  method Rename(fs: Fs, n1: Name, n2: Name) returns (r: Error)
    requires Sound(fs) && IsName(n2)
    modifies fs, fs.freemap.v
    ensures Sound(fs) && r in {OK, ENOENT, EEXIST, ENAMETOOLONG, ENOSPC, EINVAL, PANIC}
    ensures r == ENOENT <==> old(Find(Dir(fs.V()), n1)) == NOINO
    ensures r == PANIC <==> old(Find(Dir(fs.V()), n1)) == ROOT_LOCATION
    ensures r == EEXIST <==>
              old(Find(Dir(fs.V()), n1)) !in {NOINO, ROOT_LOCATION} && old(Find(Dir(fs.V()), n2)) != NOINO
    ensures r == ENAMETOOLONG <==>
              && old(Find(Dir(fs.V()), n1)) !in {NOINO, ROOT_LOCATION}
              && old(Find(Dir(fs.V()), n2)) == NOINO && |n2| >= NAMELEN
    ensures r !in {ENOENT, PANIC} ==> r == LinkError(old(fs.V()), n2)
    ensures Adjusted(old(fs.V()), fs.V(), old(fs.roles), fs.roles, old(Find(Dir(fs.V()), n1)), 0,
                     if r == PANIC then 1 else 0)
    ensures if r == OK then Renamed(old(Dir(fs.V())), Dir(fs.V()), n1, n2, old(Find(Dir(fs.V()), n1)))
            else Dir(fs.V()) == old(Dir(fs.V()))
  {
    hide Recorded, OwnedBut, LinkedBut, InodeOf, Slot, Find, Adjusted, Bound, Released, Renamed, SameRoot, LinkError;
    ghost var v, roles := fs.V(), fs.roles;
    var g1, slot1;
    r, g1, slot1 := LookOnce(fs, n1);
    if r != OK {
      Unadjusted(v, roles, NOINO);
      return;
    }
    ghost var v1 := fs.V();
    KindTells(v1, roles, g1);
    if fs.vnodes[g1].inode.kind != TYPE_FILE {
      return PANIC;
    }
    LinkErrorSame(v, v1, n2);
    r := Rebind(fs, n1, n2, g1, slot1);
    ghost var v2, roles2 := fs.V(), fs.roles;
    AdjustedTwice(v, v1, v2, roles, roles, roles2, g1, 0, 1, 0, 0);
    NamedStill(v1, v2, roles, roles2, g1);
    Release(fs, g1);
    NotLast(v2, fs.V(), roles2, fs.roles, g1);
    AdjustedTwice(v, v2, fs.V(), roles, roles2, fs.roles, g1, 0, 1, 0, -1);
    RootKept(v, fs.V(), roles, fs.roles, g1);
  }

  /** Every inode but the root is a file. */
  lemma KindTells(v: Vol, roles: Roles, i: nat)
    requires Owned(v, roles) && Linked(v, roles) && i in v.mem
    ensures v.mem[i].inode.kind == TYPE_FILE <==> i != ROOT_LOCATION
  {
    hide Slot;
    InMemory(v, roles, -1, i);
  }

  lemma NamedStill(v: Vol, v': Vol, roles: Roles, roles': Roles, x: nat)
    requires Owned(v, roles) && x in v.mem && v.mem[x].inode.links > 0 && Adjusted(v, v', roles, roles', x, 0, 0)
    ensures InodeOf(v', x).links > 0
  {
    InMemory(v, roles, -1, x);
  }

  lemma RootKept(v: Vol, v': Vol, roles: Roles, roles': Roles, x: nat)
    requires Linked(v, roles) && ROOT_LOCATION in v.mem && Adjusted(v, v', roles, roles', x, 0, 0)
    ensures ROOT_LOCATION in v'.mem
  {
    hide InodeOf, Slot;
    RootStays(v, v', roles);
  }

  /** The part of sfs_rename between looking up the file and letting go of it. */
  method Rebind(fs: Fs, n1: Name, n2: Name, g1: nat, slot1: nat) returns (r: Error)
    requires Sound(fs) && IsName(n2) && g1 in fs.vnodes && g1 != ROOT_LOCATION
    requires Named(Dir(fs.V()), slot1, n1) && Dir(fs.V())[slot1].ino == g1 == Find(Dir(fs.V()), n1)
    modifies fs, fs.freemap.v
    ensures Sound(fs) && fs.vnodes.Keys == old(fs.vnodes.Keys) && r in {OK, EEXIST, ENAMETOOLONG, ENOSPC, EINVAL}
    ensures r == EEXIST <==> old(Find(Dir(fs.V()), n2)) != NOINO
    ensures r == ENAMETOOLONG <==> old(Find(Dir(fs.V()), n2)) == NOINO && |n2| >= NAMELEN
    ensures r == LinkError(old(fs.V()), n2)
    ensures r == ENOSPC ==> forall c :: 0 <= c < |fs.V().used| ==> fs.V().used[c]
    ensures Adjusted(old(fs.V()), fs.V(), old(fs.roles), fs.roles, g1, 0, 0)
    ensures if r == OK then Renamed(old(Dir(fs.V())), Dir(fs.V()), n1, n2, g1)
            else Dir(fs.V()) == old(Dir(fs.V()))
  {
    hide Recorded, OwnedBut, LinkedBut, InodeOf, Slot, Find, Adjusted, Bound, Renamed, LinkError;
    ghost var v, roles := fs.V(), fs.roles;
    InMemory(v, roles, -1, g1);
    var slot2;
    r, slot2 := DirLink(fs, n2, g1);
    if r != OK {
      return;
    }
    ghost var v1, roles1 := fs.V(), fs.roles;
    Settle(fs, g1, 1);
    ghost var v2 := fs.V();
    AdjustedTwice(v, v1, v2, roles, roles1, roles1, g1, 0, 0, 1, 0);
    r := DirUnlink(fs, slot1);
    ghost var v3, roles3 := fs.V(), fs.roles;
    AdjustedTwice(v, v2, v3, roles, roles1, roles3, g1, 1, 0, 0, 0);
    InMemory(v3, roles3, -1, g1);
    Settle(fs, g1, -1);
    AdjustedTwice(v, v3, fs.V(), roles, roles3, roles3, g1, 1, 0, -1, 0);
    RenamedNames(Dir(v), Dir(v2), Dir(v3), n1, n2, g1);
  }

  /** Inode `ino` is new: an empty file with `links` links and one reference. Nothing else has changed. */
  ghost predicate Grown(v: Vol, v': Vol, roles: Roles, roles': Roles, ino: nat, links: nat) {
    && Untouched(v, v', roles, roles') && !IsInode(roles, ino) && ino != ROOT_LOCATION
    && (forall j :: IsInode(roles', j) <==> IsInode(roles, j) || j == ino)
    && (forall j :: IsInode(roles, j) ==> InodeOf(v', j).links == InodeOf(v, j).links)
    && (forall j: nat :: Refs(v', j) == if j == ino then 1 else Refs(v, j)) && Refs(v, ino) == 0
    && InodeOf(v', ino).kind == TYPE_FILE && InodeOf(v', ino).size == 0 && InodeOf(v', ino).links == links
    && forall k: nat :: ByteAt(v', ino, k) == 0
  }

  lemma CreatedLinked(v: Vol, v': Vol, roles: Roles, roles': Roles, ino: nat)
    requires Linked(v, roles) && ino !in roles && ino !in v.mem && ino != NOINO && ino in v'.mem
    requires roles' == roles[ino := InodeBlock] && SameFiles(v, v', roles)
    requires v'.mem == v.mem[ino := v'.mem[ino]] && v'.mem[ino].refs == 1
    requires InodeOf(v', ino).kind == TYPE_FILE && InodeOf(v', ino).size == 0 && InodeOf(v', ino).links == 0
    requires forall k: nat :: ByteAt(v', ino, k) == 0
    ensures Linked(v', roles') && Dir(v') == Dir(v) && Grown(v, v', roles, roles', ino, 0)
  {
    hide ByteAt, InodeOf, Slot;
    assert SameFile(v, v', ROOT_LOCATION);
    SameDir(v, v');
    forall i | IsInode(roles, i)
      ensures InodeOf(v', i).links == InodeOf(v, i).links && SameData(v, v', i)
    {
      assert SameFile(v, v', i);
    }
    CountAbsent(Dir(v), ino);
  }

  lemma GrownAdjusted(v: Vol, w: Vol, u: Vol, roles: Roles, roles': Roles, roles'': Roles, ino: nat, links: nat,
                      dl: nat)
    requires Grown(v, w, roles, roles', ino, links) && Adjusted(w, u, roles', roles'', ino, dl, 0)
    ensures Grown(v, u, roles, roles'', ino, links + dl)
  {
    hide ByteAt, InodeOf;
    UntouchedTwice(v, w, u, roles, roles', roles'');
    assert SameData(w, u, ino);
  }

  lemma GrownReleased(v: Vol, w: Vol, u: Vol, roles: Roles, roles': Roles, roles'': Roles, ino: nat)
    requires Grown(v, w, roles, roles', ino, 0) && Released(w, u, roles', roles'', ino)
    ensures Adjusted(v, u, roles, roles'', NOINO, 0, 0)
  {
    hide ByteAt, InodeOf;
    UntouchedTwice(v, w, u, roles, roles', roles'');
  }

  lemma MadeRoot(v: Vol, roles: Roles, ino: nat)
    requires Owned(v, roles) && Linked(v, roles) && ino < |v.disk| && !v.used[ino] && ino !in v.mem
    requires Dir(Created(v, ino, TYPE_FILE)) == Dir(v)
    ensures SameRoot(v, Created(v, ino, TYPE_FILE))
  {
    CreatedRoot(v, roles, ino, TYPE_FILE);
  }

  /** sfs_makeobj, in terms of names. */
  method MakeFile(fs: Fs) returns (r: Error, ino: nat)
    requires Sound(fs)
    modifies fs, fs.freemap.v
    ensures Sound(fs) && r in {OK, ENOSPC} && Dir(fs.V()) == old(Dir(fs.V()))
    ensures r == OK ==> ino in fs.vnodes && Grown(old(fs.V()), fs.V(), old(fs.roles), fs.roles, ino, 0)
    ensures r == OK ==> ino < |old(fs.V()).used| && fs.V().used == old(fs.V()).used[ino := true]
    ensures r == OK <==> FreeBlocks(old(fs.V()).used) > 0
    ensures r == OK ==>
              SameRoot(old(fs.V()), fs.V()) && FreeBlocks(fs.V().used) == FreeBlocks(old(fs.V()).used) - 1
    ensures r == ENOSPC ==> fs.V() == old(fs.V())
    ensures r == ENOSPC ==> Adjusted(old(fs.V()), fs.V(), old(fs.roles), fs.roles, NOINO, 0, 0)
    ensures r == ENOSPC ==> forall c :: 0 <= c < |fs.V().used| ==> fs.V().used[c]
  {
    hide Recorded, OwnedBut, LinkedBut, InodeOf, Slot, Find, Adjusted, Grown, ByteAt, SameOthers, FreeBlocks;
    ghost var v, roles := fs.V(), fs.roles;
    r, ino := MakeObj(fs, TYPE_FILE);
    if r == OK {
      InMemory(fs.V(), fs.roles, -1, ino);
      InoFits(fs.V(), fs.roles, ino);
      ZeroBlockReads();
      CreatedLinked(v, fs.V(), roles, fs.roles, ino);
      MadeRoot(v, roles, ino);
    } else {
      Unadjusted(v, roles, NOINO);
    }
  }

  /** sfs_creat: an existing file is opened, a new one is empty and has this name as its only link. When the name
      cannot be entered the new inode is given back and nothing has changed. */
  method Creat(fs: Fs, name: Name, excl: bool) returns (r: Error, ino: nat)
    requires Sound(fs) && IsName(name)
    modifies fs, fs.freemap.v
    ensures Sound(fs) && r in {OK, EEXIST, ENAMETOOLONG, ENOSPC, EINVAL}
    ensures r == EEXIST <==> excl && old(Find(Dir(fs.V()), name)) != NOINO
    ensures r == CreatError(old(fs.V()), name, excl)
    ensures old(Find(Dir(fs.V()), name)) == NOINO && |name| >= NAMELEN <==>
            r == ENAMETOOLONG || (r == ENOSPC && |name| >= NAMELEN)
    ensures r == OK && old(Find(Dir(fs.V()), name)) != NOINO ==>
              && ino == old(Find(Dir(fs.V()), name)) && Dir(fs.V()) == old(Dir(fs.V()))
              && Adjusted(old(fs.V()), fs.V(), old(fs.roles), fs.roles, ino, 0, 1)
    ensures r == OK && old(Find(Dir(fs.V()), name)) == NOINO ==>
              && Bound(old(Dir(fs.V())), Dir(fs.V()), name, ino)
              && Grown(old(fs.V()), fs.V(), old(fs.roles), fs.roles, ino, 1)
    ensures r != OK ==>
              && Dir(fs.V()) == old(Dir(fs.V()))
              && Adjusted(old(fs.V()), fs.V(), old(fs.roles), fs.roles, NOINO, 0, 0)
  {
    hide Recorded, OwnedBut, LinkedBut, InodeOf, Slot, Find, Adjusted, Grown, Bound, Released, SameRoot, LinkError,
         FreeBlocks;
    ghost var v, roles := fs.V(), fs.roles;
    var slot, empty;
    r, ino, slot, empty := FindName(fs, name);
    Unadjusted(v, roles, NOINO);
    if r == OK && excl {
      return EEXIST, 0;
    }
    if r == OK {
      NamedHasLinks(v, roles, slot);
      Hold(fs, ino);
      return;
    }
    r, ino := MakeFile(fs);
    if r != OK {
      return;
    }
    ghost var v1, roles1 := fs.V(), fs.roles;
    InMemory(v1, roles1, -1, ino);
    AfterMake(v, v1, roles, name, excl);
    r, slot := DirLink(fs, name, ino);
    ghost var v2, roles2 := fs.V(), fs.roles;
    GrownAdjusted(v, v1, v2, roles, roles1, roles2, ino, 0, 0);
    if r != OK {
      Release(fs, ino);
      GrownReleased(v, v2, fs.V(), roles, roles2, fs.roles, ino);
      RootKept(v, fs.V(), roles, fs.roles, NOINO);
      return;
    }
    Settle(fs, ino, 1);
    GrownAdjusted(v, v2, fs.V(), roles, roles2, fs.roles, ino, 0, 1);
  }

  // ---------------------------------------------------------------- file operations

  /** A change to the contents of a file leaves all names and counts as they are. */
  lemma ContentsKeep(v: Vol, v': Vol, roles: Roles, roles': Roles, i: nat)
    requires Linked(v, roles) && i != ROOT_LOCATION && SameOthers(v, v', roles, i) && SameInodes(roles, roles')
    requires InodeOf(v', i).links == InodeOf(v, i).links && InodeOf(v', i).kind == InodeOf(v, i).kind
    requires forall j: nat :: (j in v'.mem <==> j in v.mem) && Refs(v', j) == Refs(v, j)
    ensures Linked(v', roles') && Dir(v') == Dir(v)
  {
    hide ByteAt, InodeOf, Slot;
    assert SameFile(v, v', ROOT_LOCATION);
    SameDir(v, v');
    forall j | IsInode(roles, j)
      ensures InodeOf(v', j).links == InodeOf(v, j).links && InodeOf(v', j).kind == InodeOf(v, j).kind
    {
      if j != i {
        assert SameFile(v, v', j);
      }
    }
    forall j | j in v'.mem
      ensures v'.mem[j].refs >= 1
    {
      assert Refs(v', j) == Refs(v, j);
    }
  }

  /** sfs_write to a file keeps what the directory operations rely on. */
  lemma WriteKeepsNames(v: Vol, v': Vol, roles: Roles, roles': Roles, i: nat, off: nat, data: seq<Byte>)
    requires Linked(v, roles) && i != ROOT_LOCATION && IsInode(roles, i)
    requires WroteFile(v, v', roles, roles', i, off, data)
    ensures Linked(v', roles') && Dir(v') == Dir(v)
  {
    hide ByteAt, InodeOf, Slot, LinkedBut;
    ContentsKeep(v, v', roles, roles', i);
  }

  /** So does sfs_truncate. */
  lemma TruncateKeepsNames(v: Vol, v': Vol, roles: Roles, roles': Roles, i: nat, len: nat)
    requires Linked(v, roles) && i != ROOT_LOCATION && IsInode(roles, i)
    requires Truncated(v, v', roles, roles', i, len)
    ensures Linked(v', roles') && Dir(v') == Dir(v)
  {
    hide ByteAt, InodeOf, Slot, LinkedBut, Ptr, Unmapped;
    forall j: nat
      ensures IsInode(roles, j) <==> IsInode(roles', j)
    {
      if IsInode(roles', j) {
        assert Has(roles, j, roles'[j]);
      }
    }
    ContentsKeep(v, v', roles, roles', i);
  }
}
