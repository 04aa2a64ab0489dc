/** Whole runs of SFS: a volume is formatted and mounted, and then any sequence of operations is done to it. */
module SfsRuns {
  import opened SfsFormat
  import opened SfsVolume
  import opened SfsBlocks
  import opened Sfs
  import opened SfsIo
  import opened SfsTruncate
  import opened SfsNames
  import opened SfsVnodes
  import opened SfsRoom
  import opened SfsDir
  import opened SfsMount
  import opened SfsModel
  import opened Uio

  /** The volume is well formed, and its names and link counts agree. */
  ghost predicate Whole(fs: Fs)
    reads fs, fs.freemap.v
  {
    fs.Valid() && Linked(fs.V(), fs.roles)
  }

  predicate IsOpenFile(vnodes: map<nat, Vnode>, i: nat) {
    i in vnodes && i != ROOT_LOCATION
  }

  lemma WroteKeys(v: Vol, v': Vol, roles: Roles, roles': Roles, i: nat, off: nat, data: seq<Byte>)
    requires WroteFile(v, v', roles, roles', i, off, data)
    ensures v'.mem.Keys == v.mem.Keys
  {
  }

  method PerformTruncate(fs: Fs, i: nat, len: nat)
    requires Whole(fs) && IsOpenFile(fs.vnodes, i) && len < OFF_LIMIT
    modifies fs, fs.freemap.v
    ensures Whole(fs) && fs.vnodes.Keys == old(fs.vnodes.Keys)
    ensures Truncated(old(fs.V()), fs.V(), old(fs.roles), fs.roles, i, len)
  {
    hide Recorded, OwnedBut, LinkedBut, InodeOf, Slot, Truncated;
    ghost var v, roles := fs.V(), fs.roles;
    InMemory(v, roles, -1, i);
    Truncate(fs, i, len);
    TruncateKeepsNames(v, fs.V(), roles, fs.roles, i, len);
    TruncatedKeys(v, fs.V(), roles, fs.roles, i, len);
  }

  lemma TruncatedKeys(v: Vol, v': Vol, roles: Roles, roles': Roles, i: nat, len: nat)
    requires Truncated(v, v', roles, roles', i, len)
    ensures v'.mem.Keys == v.mem.Keys
  {
  }

  // ---------------------------------------------------------------- one operation, against the model

  /** An inode is in memory exactly when it is open. */
  lemma LoadedTells(m: Model, v: Vol, roles: Roles, i: nat)
    requires Linked(v, roles) && Agrees(m, v, roles)
    ensures i in v.mem <==> Opens(m, i) > 0
  {
    hide InodeOf, Slot, NamesAgree, FilesAgree;
    assert Refs(v, i) == Opens(m, i);
  }

  /** An open file is one the model knows. */
  lemma LoadedKnown(m: Model, v: Vol, roles: Roles, i: nat)
    requires Owned(v, roles) && FilesAgree(m, v, roles) && i in v.mem
    ensures i in m.files && IsInode(roles, i)
  {
    hide FileAgrees;
    InMemory(v, roles, -1, i);
  }

  lemma NameTells(m: Model, v: Vol, name: Name)
    requires NamesAgree(m, v)
    ensures Find(Dir(v), name) == NOINO <==> name !in m.names
    ensures name in m.names ==> Find(Dir(v), name) == m.names[name]
  {
    hide Dir, Find;
    assert Find(Dir(v), name) == Lookup(m, name);
  }

  method PerformCreat(fs: Fs, name: Name, excl: bool, ghost m: Model) returns (out: Out)
    requires Sound(fs) && IsName(name) && Agrees(m, fs.V(), fs.roles)
    modifies fs, fs.freemap.v
    ensures Sound(fs) && Answers(m, DoCreat(name, excl), out)
    ensures Agrees(Next(m, DoCreat(name, excl), out), fs.V(), fs.roles)
  {
    hide Recorded, OwnedBut, InodeOf, Slot, Find, Adjusted, Grown, Bound, NamesAgree, FilesAgree, OpenAgrees, LinkedBut,
         EnterError, FreeBlocks, Needs, DirFull, FreeSlot;
    ghost var v, roles := fs.V(), fs.roles;
    LoadedTells(m, v, roles, ROOT_LOCATION);
    NameTells(m, v, name);
    var r, ino := Creat(fs, name, excl);
    out := Done(r, ino, 0, []);
    if r != OK {
      AdjustedAgrees(m, v, fs.V(), roles, fs.roles, NOINO, 0, 0);
    } else if name in m.names {
      AdjustedAgrees(m, v, fs.V(), roles, fs.roles, ino, 0, 1);
    } else {
      NewFileFresh(m, v, fs.V(), roles, fs.roles, ino);
      GrownAgrees(m, v, fs.V(), roles, fs.roles, name, ino);
    }
  }

  lemma NewFileFresh(m: Model, v: Vol, v': Vol, roles: Roles, roles': Roles, ino: nat)
    requires FilesAgree(m, v, roles) && Grown(v, v', roles, roles', ino, 1) && Linked(v', roles')
    ensures ino !in m.files && ino != ROOT_LOCATION && ino != NOINO
  {
    hide InodeOf, Slot, FileAgrees, ByteAt;
  }

  method PerformLookup(fs: Fs, name: Name, ghost m: Model) returns (out: Out)
    requires Sound(fs) && Agrees(m, fs.V(), fs.roles)
    modifies fs, fs.freemap.v
    ensures Sound(fs) && Answers(m, DoLookup(name), out)
    ensures Agrees(Next(m, DoLookup(name), out), fs.V(), fs.roles)
  {
    hide Recorded, OwnedBut, InodeOf, Slot, Find, Adjusted, NamesAgree, FilesAgree, OpenAgrees, LinkedBut, SameRoot;
    ghost var v, roles := fs.V(), fs.roles;
    LoadedTells(m, v, roles, ROOT_LOCATION);
    NameTells(m, v, name);
    var r, ino, slot := LookOnce(fs, name);
    out := Done(r, ino, 0, []);
    if r == OK {
      AdjustedAgrees(m, v, fs.V(), roles, fs.roles, ino, 0, 1);
    }
  }

  method PerformLink(fs: Fs, name: Name, i: nat, ghost m: Model) returns (out: Out)
    requires Sound(fs) && IsName(name) && Agrees(m, fs.V(), fs.roles)
    modifies fs, fs.freemap.v
    ensures Sound(fs) && Answers(m, DoLink(name, i), out)
    ensures Agrees(Next(m, DoLink(name, i), out), fs.V(), fs.roles)
  {
    hide Recorded, OwnedBut, InodeOf, Slot, Find, Adjusted, Bound, NamesAgree, FilesAgree, OpenAgrees, LinkedBut,
         LinkError;
    ghost var v, roles := fs.V(), fs.roles;
    LoadedTells(m, v, roles, ROOT_LOCATION);
    LoadedTells(m, v, roles, i);
    NameTells(m, v, name);
    if i !in fs.vnodes {
      return Skip;
    }
    LoadedKnown(m, v, roles, i);
    NotNoino(v, roles, i);
    var r := Link(fs, name, i);
    out := Done(r, i, 0, []);
    if r == OK {
      LinkAgrees(m, v, fs.V(), roles, fs.roles, name, i);
    } else {
      AdjustedAgrees(m, v, fs.V(), roles, fs.roles, i, 0, 0);
    }
  }

  method PerformRemove(fs: Fs, name: Name, ghost m: Model) returns (out: Out)
    requires Sound(fs) && Agrees(m, fs.V(), fs.roles)
    modifies fs, fs.freemap.v
    ensures Sound(fs) && Answers(m, DoRemove(name), out)
    ensures Agrees(Next(m, DoRemove(name), out), fs.V(), fs.roles)
  {
    hide Recorded, OwnedBut, InodeOf, Slot, Find, Removed, Bound, NamesAgree, FilesAgree, OpenAgrees, LinkedBut, Swept;
    ghost var v, roles := fs.V(), fs.roles;
    LoadedTells(m, v, roles, ROOT_LOCATION);
    NameTells(m, v, name);
    var r := Remove(fs, name);
    out := Done(r, 0, 0, []);
    if r == OK {
      NamedIsInode(v, roles, name);
      RemoveAgrees(m, v, fs.V(), roles, fs.roles, name);
    }
  }

  lemma NamedIsInode(v: Vol, roles: Roles, name: Name)
    requires Linked(v, roles) && Find(Dir(v), name) != NOINO
    ensures IsInode(roles, Find(Dir(v), name))
  {
    hide InodeOf, Slot;
  }

  method PerformRename(fs: Fs, n1: Name, n2: Name, ghost m: Model) returns (out: Out)
    requires Sound(fs) && IsName(n2) && Agrees(m, fs.V(), fs.roles)
    modifies fs, fs.freemap.v
    ensures Sound(fs) && Answers(m, DoRename(n1, n2), out)
    ensures Agrees(Next(m, DoRename(n1, n2), out), fs.V(), fs.roles)
  {
    hide Recorded, OwnedBut, InodeOf, Slot, Find, Adjusted, Renamed, NamesAgree, FilesAgree, OpenAgrees, LinkedBut,
         LinkError;
    ghost var v, roles := fs.V(), fs.roles;
    LoadedTells(m, v, roles, ROOT_LOCATION);
    NameTells(m, v, n1);
    NameTells(m, v, n2);
    var r := Rename(fs, n1, n2);
    out := Done(r, 0, 0, []);
    if r == OK {
      RenameAgrees(m, v, fs.V(), roles, fs.roles, n1, n2);
    } else if r == PANIC {
      AdjustedAgrees(m, v, fs.V(), roles, fs.roles, ROOT_LOCATION, 0, 1);
    } else {
      AdjustedAgrees(m, v, fs.V(), roles, fs.roles, Find(Dir(v), n1), 0, 0);
    }
  }

  /** An operation on the directory; its vnode is loaded, since the caller holds it. */
  method PerformNames(fs: Fs, op: Op, ghost m: Model) returns (out: Out)
    requires Sound(fs) && NamesOk(op) && Agrees(m, fs.V(), fs.roles)
    requires op.DoCreat? || op.DoLookup? || op.DoLink? || op.DoRemove? || op.DoRename?
    modifies fs, fs.freemap.v
    ensures Sound(fs) && Answers(m, op, out) && Agrees(Next(m, op, out), fs.V(), fs.roles)
  {
    hide Sound, Agrees, Answers, Next;
    match op
    case DoCreat(name, excl) => out := PerformCreat(fs, name, excl, m);
    case DoLookup(name) => out := PerformLookup(fs, name, m);
    case DoLink(name, i) => out := PerformLink(fs, name, i, m);
    case DoRemove(name) => out := PerformRemove(fs, name, m);
    case DoRename(n1, n2) => out := PerformRename(fs, n1, n2, m);
  }

  method PerformRead(fs: Fs, i: nat, off: nat, len: nat, ghost m: Model) returns (out: Out)
    requires Whole(fs) && Agrees(m, fs.V(), fs.roles)
    modifies fs, fs.freemap.v
    ensures Whole(fs) && Answers(m, DoRead(i, off, len), out)
    ensures Agrees(Next(m, DoRead(i, off, len), out), fs.V(), fs.roles)
  {
    hide Recorded, OwnedBut, LinkedBut, InodeOf, Slot, NamesAgree, FilesAgree, OpenAgrees, ByteAt;
    LoadedTells(m, fs.V(), fs.roles, i);
    if i !in fs.vnodes || off >= OFF_LIMIT || len >= U32 {
      return Skip;
    }
    LoadedKnown(m, fs.V(), fs.roles, i);
    var uio := new Transfer(seq(len, _ => 0), off, READ);
    var r := Read(fs, i, uio);
    var data := uio.buf[..len - uio.resid];
    out := Done(r, i, 0, data);
    assert data == Bytes(fs.V(), i, off, |data|);
    InMemory(fs.V(), fs.roles, -1, i);
    if i != ROOT_LOCATION {
      ReadAgrees(m, fs.V(), fs.roles, i, off, data);
    }
  }

  method PerformWrite(fs: Fs, i: nat, off: nat, data: seq<Byte>, ghost m: Model) returns (out: Out)
    requires Whole(fs) && Agrees(m, fs.V(), fs.roles)
    modifies fs, fs.freemap.v
    ensures Whole(fs) && Answers(m, DoWrite(i, off, data), out)
    ensures Agrees(Next(m, DoWrite(i, off, data), out), fs.V(), fs.roles)
  {
    hide Recorded, OwnedBut, LinkedBut, InodeOf, Slot, WroteFile, NamesAgree, FilesAgree, OpenAgrees, MapError, Written;
    ghost var v, roles := fs.V(), fs.roles;
    LoadedTells(m, v, roles, i);
    if !IsOpenFile(fs.vnodes, i) || off >= OFF_LIMIT || |data| >= U32 {
      return Skip;
    }
    LoadedKnown(m, v, roles, i);
    var uio := new Transfer(data, off, WRITE);
    var r := Write(fs, i, uio);
    var n := |data| - uio.resid;
    out := Done(r, i, n, []);
    assert uio.buf[0..0 + n] == data[..n];
    WriteKeepsNames(v, fs.V(), roles, fs.roles, i, off, data[..n]);
    WriteAgrees(m, v, fs.V(), roles, fs.roles, i, off, data[..n]);
  }

  method PerformCut(fs: Fs, i: nat, len: nat, ghost m: Model) returns (out: Out)
    requires Whole(fs) && Agrees(m, fs.V(), fs.roles)
    modifies fs, fs.freemap.v
    ensures Whole(fs) && Answers(m, DoTruncate(i, len), out)
    ensures Agrees(Next(m, DoTruncate(i, len), out), fs.V(), fs.roles)
  {
    hide Recorded, OwnedBut, LinkedBut, InodeOf, Slot, Truncated, NamesAgree, FilesAgree, OpenAgrees, Shortened;
    ghost var v, roles := fs.V(), fs.roles;
    LoadedTells(m, v, roles, i);
    if !IsOpenFile(fs.vnodes, i) || len >= OFF_LIMIT {
      return Skip;
    }
    LoadedKnown(m, v, roles, i);
    PerformTruncate(fs, i, len);
    TruncateKeepsNames(v, fs.V(), roles, fs.roles, i, len);
    TruncateAgrees(m, v, fs.V(), roles, fs.roles, i, len);
    out := Done(OK, i, 0, []);
  }

  method PerformClose(fs: Fs, i: nat, ghost m: Model) returns (out: Out)
    requires Whole(fs) && Agrees(m, fs.V(), fs.roles)
    modifies fs, fs.freemap.v
    ensures Whole(fs) && Answers(m, DoClose(i), out) && Agrees(Next(m, DoClose(i), out), fs.V(), fs.roles)
  {
    hide Recorded, OwnedBut, LinkedBut, InodeOf, Slot, Released, NamesAgree, FilesAgree, OpenAgrees, Swept;
    ghost var v, roles := fs.V(), fs.roles;
    LoadedTells(m, v, roles, i);
    if i !in fs.vnodes {
      return Skip;
    }
    LoadedKnown(m, v, roles, i);
    Release(fs, i);
    CloseAgrees(m, v, fs.V(), roles, fs.roles, i);
    out := Done(OK, i, 0, []);
  }

  method PerformGetRoot(fs: Fs, ghost m: Model) returns (out: Out)
    requires Whole(fs) && Agrees(m, fs.V(), fs.roles)
    modifies fs`vnodes
    ensures Whole(fs) && Answers(m, DoGetRoot, out) && Agrees(Next(m, DoGetRoot, out), fs.V(), fs.roles)
  {
    hide Recorded, OwnedBut, LinkedBut, InodeOf, Slot, Adjusted, NamesAgree, FilesAgree, OpenAgrees;
    ghost var v := fs.V();
    LoadRoot(fs);
    AdjustedAgrees(m, v, fs.V(), fs.roles, fs.roles, ROOT_LOCATION, 0, 1);
    out := Done(OK, ROOT_LOCATION, 0, []);
  }

  method PerformSync(fs: Fs, ghost m: Model) returns (out: Out)
    requires Whole(fs) && Agrees(m, fs.V(), fs.roles)
    modifies fs`disk, fs`vnodes, fs`mapdirty
    ensures Whole(fs) && Answers(m, DoSync, out) && Agrees(Next(m, DoSync, out), fs.V(), fs.roles)
  {
    hide Recorded, OwnedBut, LinkedBut, InodeOf, Slot, SameOthers, NamesAgree, FilesAgree, OpenAgrees;
    ghost var v, roles := fs.V(), fs.roles;
    Sync(fs);
    SyncLinked(v, fs.V(), roles);
    SameAgrees(m, v, fs.V(), roles);
    out := Done(OK, 0, 0, []);
  }

  /** Nothing is in memory exactly when nothing is open. */
  lemma NothingLoaded(m: Model, v: Vol, roles: Roles)
    requires Linked(v, roles) && Agrees(m, v, roles)
    ensures v.mem == map[] <==> forall i :: i in m.open ==> m.open[i] == 0
  {
    hide LinkedBut, Agrees;
    forall i: nat
      ensures i in v.mem <==> Opens(m, i) > 0
    {
      LoadedTells(m, v, roles, i);
    }
    if v.mem != map[] {
      var i :| i in v.mem;
      assert Opens(m, i) > 0 && i in m.open;
    } else {
      forall i | i in m.open
        ensures m.open[i] == 0
      {
        assert i !in v.mem && Opens(m, i) == m.open[i];
      }
    }
  }

  method PerformRemount(fs: Fs, ghost m: Model) returns (fs': Fs, out: Out)
    requires Whole(fs) && Agrees(m, fs.V(), fs.roles)
    modifies fs`disk, fs`vnodes, fs`mapdirty
    ensures Whole(fs') && (fs' == fs || (fresh(fs') && fresh(fs'.freemap.v)))
    ensures Answers(m, DoRemount, out) && Agrees(Next(m, DoRemount, out), fs'.V(), fs'.roles)
  {
    hide Recorded, OwnedBut, LinkedBut, InodeOf, Slot, SameOthers, NamesAgree, FilesAgree, OpenAgrees, Dir;
    ghost var v, roles := fs.V(), fs.roles;
    NothingLoaded(m, v, roles);
    var r, again := Remount(fs);
    fs' := if r == OK then again else fs;
    SameAgrees(m, v, fs'.V(), roles);
    out := Done(r, 0, 0, []);
  }

  /** One operation. Requests on files that are not open, or past the reach of a file offset, do not get here. The root
      directory too is loaded and reclaimed as it is opened and closed, and a volume with nothing open can be unmounted
      and mounted again. Whatever happens the volume stays sound, and it answers and changes as the model does. */
  method Perform(fs: Fs, op: Op, ghost m: Model) returns (fs': Fs, out: Out)
    requires Whole(fs) && NamesOk(op) && Agrees(m, fs.V(), fs.roles)
    modifies fs, fs.freemap.v
    ensures Whole(fs') && (fs' == fs || (fresh(fs') && fresh(fs'.freemap.v)))
    ensures Answers(m, op, out) && Agrees(Next(m, op, out), fs'.V(), fs'.roles)
  {
    hide Recorded, OwnedBut, LinkedBut, NamesOk, Dir, Agrees, Next;
    fs' := fs;
    LoadedTells(m, fs.V(), fs.roles, ROOT_LOCATION);
    match op
    case DoRead(i, off, len) => out := PerformRead(fs, i, off, len, m);
    case DoWrite(i, off, data) => out := PerformWrite(fs, i, off, data, m);
    case DoTruncate(i, len) => out := PerformCut(fs, i, len, m);
    case DoClose(i) => out := PerformClose(fs, i, m);
    case DoGetRoot => out := PerformGetRoot(fs, m);
    case DoSync => out := PerformSync(fs, m);
    case DoRemount => fs', out := PerformRemount(fs, m);
    case _ =>
      if ROOT_LOCATION in fs.vnodes {
        out := PerformNames(fs, op, m);
      } else {
        out := Skip;
        SkipNext(m, op);
      }
  }

  lemma SkipNext(m: Model, op: Op)
    ensures Next(m, op, Skip) == m
  {
  }

  /** sfs_getroot. */
  method LoadRoot(fs: Fs)
    requires Whole(fs)
    modifies fs`vnodes
    ensures Sound(fs) && Dir(fs.V()) == old(Dir(fs.V()))
    ensures Adjusted(old(fs.V()), fs.V(), fs.roles, fs.roles, ROOT_LOCATION, 0, 1)
  {
    hide Recorded, OwnedBut, Slot, Targets, Counted, Kinds, ByteAt, SameOthers;
    ghost var v := fs.V();
    LoadVnode(fs, ROOT_LOCATION);
    HeldAfterLoad(v, fs.V(), fs.roles, ROOT_LOCATION);
    FilesKeep(v, fs.V(), fs.roles, fs.roles, -1, 0);
  }

  // ---------------------------------------------------------------- whole runs

  /** The model after the first `k` operations. */
  ghost function After(ops: seq<Op>, outs: seq<Out>, k: nat): Model
    requires k <= |ops| == |outs|
  {
    if k == 0 then Empty() else Next(After(ops, outs, k - 1), ops[k - 1], outs[k - 1])
  }

  lemma {:induction false} AfterMore(ops: seq<Op>, outs: seq<Out>, ops': seq<Op>, outs': seq<Out>, k: nat)
    requires k <= |ops| == |outs| <= |ops'| == |outs'| && ops == ops'[..|ops|] && outs == outs'[..|outs|]
    ensures After(ops, outs, k) == After(ops', outs', k)
  {
    hide Next;
    if k > 0 {
      AfterMore(ops, outs, ops', outs', k - 1);
    }
  }

  ghost predicate AllAnswer(ops: seq<Op>, outs: seq<Out>)
    requires |ops| == |outs|
  {
    forall k :: 0 <= k < |ops| ==> Answers(After(ops, outs, k), ops[k], outs[k])
  }

  lemma AnswerMore(ops: seq<Op>, outs: seq<Out>, op: Op, out: Out)
    requires |ops| == |outs| && AllAnswer(ops, outs) && Answers(After(ops, outs, |ops|), op, out)
    ensures AllAnswer(ops + [op], outs + [out])
    ensures After(ops + [op], outs + [out], |ops| + 1) == Next(After(ops, outs, |ops|), op, out)
  {
    hide Next, Answers;
    var ops', outs' := ops + [op], outs + [out];
    forall k | 0 <= k < |ops'|
      ensures Answers(After(ops', outs', k), ops'[k], outs'[k])
    {
      AfterMore(ops, outs, ops', outs', k);
    }
    AfterMore(ops, outs, ops', outs', |ops|);
  }

  lemma StartsEmpty(d: seq<Block>)
    requires 3 <= |d| && Mountable(d, Formatted(|d|)) && Dir(OnDisk(d)) == []
    ensures Agrees(Empty(), OnDisk(d), Formatted(|d|))
  {
    hide Points, Placed, Clean, MapBytes, Slot, Recorded;
    forall n
      ensures Find(Dir(OnDisk(d)), n) == NOINO
    {
      FindNone(Dir(OnDisk(d)), n);
    }
  }

  /** From mksfs on, whatever is done: every block in use belongs to exactly one file or is reserved, the names and
      the link counts agree, and the free map is right. And SFS is the model: every operation answers as the model does
      after the operations before it, and in the end the volume holds the names, the files and the bytes that the model
      holds. */
  method Session(disk: seq<Block>, volname: Name, ops: seq<Op>) returns (ok: bool, fs: Fs?, outs: seq<Out>)
    requires |disk| + BLOCKBITS <= U32 && IsName(volname) && forall k :: 0 <= k < |ops| ==> NamesOk(ops[k])
    ensures ok <==> |volname| < VOLNAME_SIZE && 3 <= |disk| <= BLOCKBITS * MAXBITBLOCKS
    ensures ok ==> fs != null && Whole(fs)
    ensures ok ==>
              |outs| == |ops| && AllAnswer(ops, outs) && Agrees(After(ops, outs, |ops|), fs.V(), fs.roles)
  {
    hide Recorded, OwnedBut, LinkedBut, Dir, NamesOk, Agrees, AllAnswer, Answers, After, Next;
    outs := [];
    var d;
    ok, d := Format(disk, volname);
    if !ok {
      return false, null, [];
    }
    assert d[..|d|] == d;
    var r;
    r, fs := Mount(d, Formatted(|d|));
    StartsEmpty(d);
    NoneYet();
    var k := 0;
    while k < |ops|
      invariant 0 <= k <= |ops| && ok && fs != null && fresh(fs) && fresh(fs.freemap.v) && Whole(fs)
      invariant |outs| == k && AllAnswer(ops[..k], outs) && Agrees(After(ops[..k], outs, k), fs.V(), fs.roles)
    {
      var out;
      ghost var before := outs;
      fs, out := Perform(fs, ops[k], After(ops[..k], outs, k));
      AnswerMore(ops[..k], outs, ops[k], out);
      assert ops[..k] + [ops[k]] == ops[..k + 1];
      outs := outs + [out];
      k := k + 1;
    }
    assert ops[..k] == ops;
  }

  lemma NoneYet()
    ensures AllAnswer([], []) && After([], [], 0) == Empty()
  {
  }

  // ---------------------------------------------------------------- what a truncated file still holds

  lemma RoomAtFirst(d: seq<Block>)
    requires |d| >= 6 && BitBlocks(|d|) == 1 && Mountable(d, Formatted(|d|))
    ensures FreeBlocks(OnDisk(d).used) >= 3
  {
    hide Points, Placed, Clean, MapBytes, FreeBlocks;
    assert 3 !in Formatted(|d|) && 4 !in Formatted(|d|) && 5 !in Formatted(|d|);
    ThreeFree(OnDisk(d).used);
  }

  lemma ThreeFree(used: seq<bool>)
    requires |used| >= 6 && !used[3] && !used[4] && !used[5]
    ensures FreeBlocks(used) >= 3
  {
    hide FreeBlocks;
    FreeMarked(used, 3);
    FreeMarked(used[3 := true], 4);
    FreeMarked(used[3 := true][4 := true], 5);
  }

  /** A new volume, mounted, with nothing in it and blocks to spare. */
  method NewVolume() returns (fs: Fs)
    ensures fresh(fs) && fresh(fs.freemap.v) && Sound(fs) && Dir(fs.V()) == [] && FreeBlocks(fs.V().used) >= 3
  {
    hide Recorded, OwnedBut, LinkedBut, Dir, Mountable, OnDisk, WordAt, Formatted, FreeBlocks;
    var ok, d := Format(seq(16, _ => ZeroBlock()), []);
    assert d[..|d|] == d;
    MountableReads(d, Formatted(|d|));
    var r, fs0 := Mount(d, Formatted(|d|));
    fs := fs0;
    RoomAtFirst(d);
    LoadRoot(fs);
  }

  /** A new, empty, open file on a new volume that has two blocks to spare. */
  method NewFile() returns (fs: Fs, ino: nat)
    ensures fresh(fs) && fresh(fs.freemap.v) && Sound(fs) && IsOpenFile(fs.vnodes, ino)
    ensures fs.vnodes[ino].inode.size == 0 && fs.vnodes[ino].inode.kind == TYPE_FILE && FreeBlocks(fs.V().used) >= 2
  {
    hide Recorded, OwnedBut, LinkedBut, Dir, Grown, FreeBlocks;
    fs := NewVolume();
    ghost var v, roles := fs.V(), fs.roles;
    var r;
    r, ino := MakeFile(fs);
    NewFileIs(v, fs.V(), roles, fs.roles, ino);
  }

  lemma MountableReads(d: seq<Block>, roles: Roles)
    requires Mountable(d, roles)
    ensures |d| > 0 && WordAt(d[SB_LOCATION], 0) == MAGIC && WordAt(d[SB_LOCATION], 4) == |d|
  {
  }

  lemma NewFileIs(v: Vol, v': Vol, roles: Roles, roles': Roles, ino: nat)
    requires Grown(v, v', roles, roles', ino, 0) && ino in v'.mem
    ensures ino != ROOT_LOCATION && v'.mem[ino].inode.size == 0 && v'.mem[ino].inode.kind == TYPE_FILE
  {
  }

  /** A write inside one block that cannot fail. */
  method PutBytes(fs: Fs, i: nat, off: nat, data: seq<Byte>)
    requires Sound(fs) && IsOpenFile(fs.vnodes, i) && off < OFF_LIMIT && OneBlock(off, |data|)
    requires MapError(fs.V(), i, off / BLOCKSIZE) == OK
    modifies fs, fs.freemap.v
    ensures Sound(fs) && IsOpenFile(fs.vnodes, i)
    ensures WroteFile(old(fs.V()), fs.V(), old(fs.roles), fs.roles, i, off, data)
  {
    hide Recorded, OwnedBut, LinkedBut, InodeOf, Slot, WroteFile, MapError;
    ghost var v, roles := fs.V(), fs.roles;
    InMemory(v, roles, -1, i);
    var uio := new Transfer(data, off, WRITE);
    var r := Write(fs, i, uio);
    assert uio.buf[0..0 + |data|] == data;
    WriteKeepsNames(v, fs.V(), roles, fs.roles, i, off, data);
    WroteKeys(v, fs.V(), roles, fs.roles, i, off, data);
  }

  lemma ByteMapped(v: Vol, i: nat, k: nat)
    requires ByteAt(v, i, k) != 0
    ensures Ptr(v, i, k / BLOCKSIZE) != 0
  {
  }

  lemma WroteByte(v: Vol, v': Vol, roles: Roles, roles': Roles, i: nat, off: nat, data: seq<Byte>, k: nat)
    requires WroteFile(v, v', roles, roles', i, off, data) && i in v.mem && i in v'.mem
    ensures ByteAt(v', i, k) == if off <= k < off + |data| then data[k - off] else ByteAt(v, i, k)
    ensures v'.mem[i].inode.kind == v.mem[i].inode.kind
    ensures v'.mem[i].inode.size == if v.mem[i].inode.size < off + |data| then off + |data| else v.mem[i].inode.size
  {
    hide ByteAt;
  }

  lemma CutByte(v: Vol, v': Vol, roles: Roles, roles': Roles, i: nat, len: nat, k: nat)
    requires Truncated(v, v', roles, roles', i, len) && k < len + 10 && 0 < len && len + 10 <= BLOCKSIZE
    ensures i in v.mem && i in v'.mem && ByteAt(v', i, k) == ByteAt(v, i, k)
    ensures v'.mem[i].inode.kind == v.mem[i].inode.kind && v'.mem[i].inode.size == len
  {
    hide ByteAt, Ptr;
    assert k / BLOCKSIZE == 0 && (len + BLOCKSIZE - 1) / BLOCKSIZE == 1;
  }

  /** Ten nines are written to a new file, the file is cut to five bytes, and one byte is written at position 20: the
      nines past the cut are part of the file again, where a reader would expect zeros. */
  method StaleTail() returns (fs: Fs, ino: nat)
    ensures Sound(fs) && IsOpenFile(fs.vnodes, ino) && fs.vnodes[ino].inode.kind == TYPE_FILE
    ensures fs.vnodes[ino].inode.size == 21 && ByteAt(fs.V(), ino, 7) == 9
  {
    hide Recorded, OwnedBut, LinkedBut, InodeOf, Slot, WroteFile, Truncated, ByteAt, FreeBlocks, PtrIn;
    fs, ino := NewFile();
    ghost var v0, r0 := fs.V(), fs.roles;
    var nines: seq<Byte> := [9, 9, 9, 9, 9, 9, 9, 9, 9, 9];
    PutBytes(fs, ino, 0, nines);
    ghost var v1, r1 := fs.V(), fs.roles;
    WroteByte(v0, v1, r0, r1, ino, 0, nines, 7);
    PerformTruncate(fs, ino, 5);
    ghost var v2, r2 := fs.V(), fs.roles;
    CutByte(v1, v2, r1, r2, ino, 5, 7);
    ByteMapped(v2, ino, 7);
    PutBytes(fs, ino, 20, [1]);
    WroteByte(v2, fs.V(), r2, fs.roles, ino, 20, [1], 7);
  }

  lemma KeptByte(v: Vol, v': Vol, roles: Roles, roles': Roles, i: nat)
    requires Truncated(v, v', roles, roles', i, NDIRECT * BLOCKSIZE)
    ensures i in v.mem && i in v'.mem && ByteAt(v', i, NDIRECT * BLOCKSIZE) == ByteAt(v, i, NDIRECT * BLOCKSIZE)
    ensures v'.mem[i].inode.kind == v.mem[i].inode.kind && v'.mem[i].inode.size == NDIRECT * BLOCKSIZE
  {
    hide ByteAt, Ptr;
    assert NDIRECT * BLOCKSIZE / BLOCKSIZE == NDIRECT == (NDIRECT * BLOCKSIZE + BLOCKSIZE - 1) / BLOCKSIZE;
  }

  /** A nine is written at the start of file block 15 and the file is cut to exactly 15 blocks: the block past the end,
      and the indirect block that leads to it, are still there. */
  method KeptBlock() returns (fs: Fs, ino: nat)
    ensures Sound(fs) && IsOpenFile(fs.vnodes, ino) && fs.vnodes[ino].inode.kind == TYPE_FILE
    ensures fs.vnodes[ino].inode.size == NDIRECT * BLOCKSIZE && Ptr(fs.V(), ino, NDIRECT) != 0
    ensures ByteAt(fs.V(), ino, NDIRECT * BLOCKSIZE) == 9
  {
    hide Recorded, OwnedBut, LinkedBut, InodeOf, Slot, WroteFile, Truncated, ByteAt, FreeBlocks, PtrIn;
    fs, ino := NewFile();
    ghost var v0, r0 := fs.V(), fs.roles;
    PutBytes(fs, ino, NDIRECT * BLOCKSIZE, [9]);
    ghost var v1, r1 := fs.V(), fs.roles;
    WroteByte(v0, v1, r0, r1, ino, NDIRECT * BLOCKSIZE, [9], NDIRECT * BLOCKSIZE);
    PerformTruncate(fs, ino, NDIRECT * BLOCKSIZE);
    KeptByte(v1, fs.V(), r1, fs.roles, ino);
    ByteMapped(fs.V(), ino, NDIRECT * BLOCKSIZE);
  }

  // ---------------------------------------------------------------- an assertion that fails

  /** On a volume without names there is room for one. */
  lemma FirstName(v: Vol, roles: Roles, name: Name)
    requires Linked(v, roles) && Dir(v) == [] && FreeBlocks(v.used) >= 2 && |name| < NAMELEN
    ensures LinkError(v, name) == OK
  {
    hide FreeBlocks, PtrIn, InodeOf, Slot, Targets, Counted, Kinds, Held, Unique;
    EnterTells(v, roles);
    FindNone(Dir(v), name);
  }

  /** The root directory is given a second name, and that name is then changed: sfs_rename stops the kernel. */
  method RenameRoot() returns (fs: Fs, r: Error)
    ensures Sound(fs) && r == PANIC
  {
    hide Recorded, OwnedBut, LinkedBut, InodeOf, Slot, Find, Adjusted, Renamed, FreeBlocks, LinkError;
    fs := NewVolume();
    FirstName(fs.V(), fs.roles, [97]);
    r := Link(fs, [97], ROOT_LOCATION);
    r := Rename(fs, [97], [98]);
  }
}
