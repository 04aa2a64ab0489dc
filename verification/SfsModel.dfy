/** SFS as its users see it: names that lead to files, files that are sizes and bytes, and files that are open. Here is
    what each operation does to that, and when a volume agrees with it. */
module SfsModel {
  import opened SfsFormat
  import opened SfsVolume
  import opened SfsBlocks
  import opened Sfs
  import opened SfsIo
  import opened SfsTruncate
  import opened SfsNames
  import opened SfsDir

  /** A byte that is not in the map is 0. */
  datatype File = File(size: nat, bytes: map<nat, Byte>)

  /** Files are known by number; `open` counts how often each is open. */
  datatype Model = Model(names: map<Name, nat>, files: map<nat, File>, open: map<nat, nat>)

  /** What the VFS layer can ask for; `i` is an open file, by inode number. */
  datatype Op =
    | DoCreat(name: Name, excl: bool) | DoLookup(name: Name) | DoLink(name: Name, i: nat)
    | DoRemove(name: Name) | DoRename(n1: Name, n2: Name)
    | DoRead(i: nat, off: nat, len: nat) | DoWrite(i: nat, off: nat, data: seq<Byte>) | DoTruncate(i: nat, len: nat)
    | DoClose(i: nat) | DoGetRoot | DoSync | DoRemount

  /** What the caller gets: an error number, a file, how many bytes were written, and the bytes read. */
  datatype Out = Skip | Done(r: Error, ino: nat, n: nat, data: seq<Byte>)

  /** The names are C strings. */
  ghost predicate NamesOk(op: Op) {
    match op
    case DoCreat(name, _) => IsName(name)
    case DoLink(name, _) => IsName(name)
    case DoRename(_, n2) => IsName(n2)
    case _ => true
  }

  // ---------------------------------------------------------------- the operations

  function At(f: File, k: nat): Byte {
    if k in f.bytes then f.bytes[k] else 0
  }

  function Opens(m: Model, i: nat): nat {
    if i in m.open then m.open[i] else 0
  }

  ghost predicate HasName(m: Model, i: nat) {
    exists n :: n in m.names && m.names[n] == i
  }

  function Opened(m: Model, i: nat): Model {
    m.(open := m.open[i := Opens(m, i) + 1])
  }

  function Closed(m: Model, i: nat): Model {
    m.(open := m.open[i := if Opens(m, i) > 0 then Opens(m, i) - 1 else 0])
  }

  /** A file that has neither a name nor is open is gone; the root directory always stays. */
  ghost function Swept(m: Model, i: nat): Model {
    if i != ROOT_LOCATION && Opens(m, i) == 0 && !HasName(m, i) then m.(files := m.files - {i}) else m
  }

  function Stored(bytes: map<nat, Byte>, off: nat, data: seq<Byte>): (r: map<nat, Byte>)
    ensures forall k: nat :: k in r <==> k in bytes || off <= k < off + |data|
    ensures forall k :: k in r ==> r[k] == if off <= k < off + |data| then data[k - off] else bytes[k]
  {
    var n := |data| - 1;
    if data == [] then bytes else Stored(bytes, off, data[..n])[off + n := data[n]]
  }

  function Written(f: File, off: nat, data: seq<Byte>): File {
    File(if f.size < off + |data| then off + |data| else f.size, Stored(f.bytes, off, data))
  }

  /** The bytes of blocks past the end are gone, except those of one indirect block entry; see `Unmapped`. */
  function Shortened(f: File, len: nat): File {
    File(len, map k | k in f.bytes && !Unmapped((len + BLOCKSIZE - 1) / BLOCKSIZE, k / BLOCKSIZE) :: f.bytes[k])
  }

  ghost function Next(m: Model, op: Op, out: Out): Model {
    if out.Skip? then m
    else
      match op
      case DoCreat(name, _) =>
        if out.r != OK then m
        else if name in m.names then Opened(m, m.names[name])
        else Model(m.names[name := out.ino], m.files[out.ino := File(0, map[])], m.open[out.ino := 1])
      case DoLookup(name) => if out.r == OK && name in m.names then Opened(m, m.names[name]) else m
      case DoLink(name, i) => if out.r == OK then m.(names := m.names[name := i]) else m
      case DoRemove(name) =>
        if out.r == OK && name in m.names then Swept(m.(names := m.names - {name}), m.names[name]) else m
      case DoRename(n1, n2) =>
        if out.r == PANIC then Opened(m, ROOT_LOCATION)
        else if out.r == OK && n1 in m.names then m.(names := (m.names - {n1})[n2 := m.names[n1]])
        else m
      case DoWrite(i, off, data) =>
        if i in m.files && out.n <= |data| then m.(files := m.files[i := Written(m.files[i], off, data[..out.n])]) else m
      case DoTruncate(i, len) => if i in m.files then m.(files := m.files[i := Shortened(m.files[i], len)]) else m
      case DoClose(i) => Swept(Closed(m, i), i)
      case DoGetRoot => Opened(m, ROOT_LOCATION)
      case _ => m
  }

  /** Whether the request gets to SFS: what it names is open, and the numbers are in the range of their types. */
  predicate Applies(m: Model, op: Op) {
    match op
    case DoCreat(_, _) => Opens(m, ROOT_LOCATION) > 0
    case DoLookup(_) => Opens(m, ROOT_LOCATION) > 0
    case DoLink(_, i) => Opens(m, ROOT_LOCATION) > 0 && Opens(m, i) > 0
    case DoRemove(_) => Opens(m, ROOT_LOCATION) > 0
    case DoRename(_, _) => Opens(m, ROOT_LOCATION) > 0
    case DoRead(i, off, len) => Opens(m, i) > 0 && off < OFF_LIMIT && len < U32
    case DoWrite(i, off, data) => Opens(m, i) > 0 && i != ROOT_LOCATION && off < OFF_LIMIT && |data| < U32
    case DoTruncate(i, len) => Opens(m, i) > 0 && i != ROOT_LOCATION && len < OFF_LIMIT
    case DoClose(i) => Opens(m, i) > 0
    case _ => true
  }

  /** The answers the operation may give: which error, which file, which bytes. ENOSPC and EINVAL depend on the blocks
      and not on what is modelled here. */
  ghost predicate Answers(m: Model, op: Op, out: Out) {
    && (out.Skip? <==> !Applies(m, op))
    && (out.Done? ==>
          match op
          case DoCreat(name, excl) =>
            && (name in m.names ==> out.r == (if excl then EEXIST else OK) && (out.r == OK ==> out.ino == m.names[name]))
            && (name !in m.names ==> out.r in {OK, ENAMETOOLONG, ENOSPC, EINVAL})
            && (name !in m.names && out.r == OK ==> |name| < NAMELEN && out.ino !in m.files && out.ino != ROOT_LOCATION)
          case DoLookup(name) =>
            if name in m.names then out.r == OK && out.ino == m.names[name] else out.r == ENOENT
          case DoLink(name, _) =>
            if name in m.names then out.r == EEXIST
            else if |name| >= NAMELEN then out.r == ENAMETOOLONG
            else out.r in {OK, ENOSPC, EINVAL}
          case DoRemove(name) => out.r == if name in m.names then OK else ENOENT
          case DoRename(n1, n2) =>
            if n1 !in m.names then out.r == ENOENT
            else if m.names[n1] == ROOT_LOCATION then out.r == PANIC
            else if n2 in m.names then out.r == EEXIST
            else if |n2| >= NAMELEN then out.r == ENAMETOOLONG
            else out.r in {OK, ENOSPC, EINVAL}
          case DoRead(i, off, len) =>
            i != ROOT_LOCATION && i in m.files ==>
              && |out.data| <= Granted(m.files[i].size, off, len)
              && (out.r == OK ==> |out.data| == Granted(m.files[i].size, off, len))
              && (out.r != OK ==> out.r == EINVAL)
              && forall k :: 0 <= k < |out.data| ==> out.data[k] == At(m.files[i], off + k)
          case DoWrite(_, _, data) => out.n <= |data| && out.r in {OK, ENOSPC, EINVAL} && (out.r == OK ==> out.n == |data|)
          case DoRemount => out.r == if forall i :: i in m.open ==> m.open[i] == 0 then OK else EBUSY
          case _ => out.r == OK)
  }

  // ---------------------------------------------------------------- agreement

  function Lookup(m: Model, n: Name): nat {
    if n in m.names then m.names[n] else NOINO
  }

  ghost predicate NamesAgree(m: Model, v: Vol) {
    && (forall n :: n in m.names ==> m.names[n] != NOINO)
    && forall n :: Find(Dir(v), n) == Lookup(m, n)
  }

  ghost predicate FileAgrees(f: File, v: Vol, i: nat) {
    InodeOf(v, i).size == f.size && forall k: nat :: ByteAt(v, i, k) == At(f, k)
  }

  ghost predicate FilesAgree(m: Model, v: Vol, roles: Roles) {
    && (forall i :: IsInode(roles, i) <==> i in m.files)
    && forall i :: i in m.files && i != ROOT_LOCATION ==> FileAgrees(m.files[i], v, i)
  }

  ghost predicate OpenAgrees(m: Model, v: Vol) {
    forall i: nat :: Refs(v, i) == Opens(m, i)
  }

  ghost predicate Agrees(m: Model, v: Vol, roles: Roles) {
    NamesAgree(m, v) && FilesAgree(m, v, roles) && OpenAgrees(m, v)
  }

  /** No name, no open file, and no file but the root directory. */
  function Empty(): Model {
    Model(map[], map[ROOT_LOCATION := File(0, map[])], map[])
  }

  // ---------------------------------------------------------------- names and links

  lemma {:induction false} CountSlot(dir: seq<Entry>, i: nat) returns (s: nat)
    requires Count(dir, i) > 0
    ensures s < |dir| && dir[s].ino == i
  {
    var n := |dir| - 1;
    if dir[n].ino == i {
      s := n;
    } else {
      s := CountSlot(dir[..n], i);
    }
  }

  /** An inode has as many links as slots: none exactly when no name leads to it. */
  lemma NoLinks(v: Vol, roles: Roles, i: nat)
    requires Linked(v, roles) && IsInode(roles, i) && i != ROOT_LOCATION
    ensures InodeOf(v, i).links == 0 <==> forall n :: Find(Dir(v), n) != i
  {
    hide InodeOf, Slot;
    var dir := Dir(v);
    if Count(dir, i) > 0 {
      var s := CountSlot(dir, i);
      FindAt(dir, dir[s].name, s);
    } else if n :| Find(dir, n) == i {
      var s: nat :| Named(dir, s, n) && dir[s].ino == i;
      CountFound(dir, i, s);
      assert false;
    }
  }

  /** It has one link exactly when no other name leads to it. */
  lemma OneLink(v: Vol, roles: Roles, i: nat, name: Name)
    requires Linked(v, roles) && IsInode(roles, i) && i != ROOT_LOCATION && Find(Dir(v), name) == i
    ensures InodeOf(v, i).links == 1 <==> forall n :: n != name ==> Find(Dir(v), n) != i
  {
    hide InodeOf, Slot;
    var dir := Dir(v);
    var s: nat :| Named(dir, s, name) && dir[s].ino == i;
    var rest := Put(dir, s, EMPTY);
    CountPut(dir, s, EMPTY, i);
    LeaveName(dir, s);
    if Count(rest, i) > 0 {
      var t := CountSlot(rest, i);
      assert rest[t] == dir[t] && t != s;
      FindAt(dir, dir[t].name, t);
      assert dir[t].name != name;
    } else if n :| n != name && Find(dir, n) == i {
      var t: nat :| Named(dir, t, n) && dir[t].ino == i;
      CountFound(rest, i, t);
      assert false;
    }
  }

  // ---------------------------------------------------------------- steps

  lemma AdjustedFiles(m: Model, v: Vol, v': Vol, roles: Roles, roles': Roles, x: nat, dl: int, dr: int)
    requires FilesAgree(m, v, roles) && Adjusted(v, v', roles, roles', x, dl, dr)
    ensures FilesAgree(m, v', roles')
  {
    hide InodeOf, ByteAt, Refs;
    forall i | i in m.files && i != ROOT_LOCATION
      ensures FileAgrees(m.files[i], v', i)
    {
      assert FileAgrees(m.files[i], v, i) && IsInode(roles, i) && IsInode(roles', i) && SameData(v, v', i);
    }
  }

  lemma AdjustedOpen(m: Model, v: Vol, v': Vol, roles: Roles, roles': Roles, x: nat, dl: int, dr: int)
    requires OpenAgrees(m, v) && Adjusted(v, v', roles, roles', x, dl, dr)
    ensures dr == 0 ==> OpenAgrees(m, v')
    ensures dr == 1 ==> OpenAgrees(Opened(m, x), v')
    ensures dr == -1 ==> OpenAgrees(Closed(m, x), v')
  {
    hide InodeOf, ByteAt, Refs, Untouched;
  }

  /** Only names have changed, or one reference. */
  lemma AdjustedAgrees(m: Model, v: Vol, v': Vol, roles: Roles, roles': Roles, x: nat, dl: int, dr: int)
    requires Agrees(m, v, roles) && Adjusted(v, v', roles, roles', x, dl, dr) && Dir(v') == Dir(v)
    ensures dr == 0 ==> Agrees(m, v', roles')
    ensures dr == 1 ==> Agrees(Opened(m, x), v', roles')
  {
    hide Adjusted, FileAgrees, OpenAgrees, Dir;
    AdjustedFiles(m, v, v', roles, roles', x, dl, dr);
    AdjustedOpen(m, v, v', roles, roles', x, dl, dr);
  }

  lemma BoundAgrees(m: Model, v: Vol, v': Vol, name: Name, ino: nat)
    requires NamesAgree(m, v) && Bound(Dir(v), Dir(v'), name, ino)
    ensures ino != NOINO ==> NamesAgree(m.(names := m.names[name := ino]), v')
    ensures ino == NOINO ==> NamesAgree(m.(names := m.names - {name}), v')
  {
    hide Dir, Find;
  }

  lemma LinkAgrees(m: Model, v: Vol, v': Vol, roles: Roles, roles': Roles, name: Name, i: nat)
    requires Agrees(m, v, roles) && Adjusted(v, v', roles, roles', i, 1, 0) && Bound(Dir(v), Dir(v'), name, i) && i != NOINO
    ensures Agrees(m.(names := m.names[name := i]), v', roles')
  {
    hide Adjusted, FileAgrees, OpenAgrees, Dir, Bound, NamesAgree;
    AdjustedFiles(m, v, v', roles, roles', i, 1, 0);
    AdjustedOpen(m, v, v', roles, roles', i, 1, 0);
    BoundAgrees(m, v, v', name, i);
    SameButNames(m, m.(names := m.names[name := i]), v', roles');
  }

  lemma SameButNames(m: Model, m': Model, v: Vol, roles: Roles)
    requires m'.files == m.files && m'.open == m.open && FilesAgree(m, v, roles) && OpenAgrees(m, v)
    ensures FilesAgree(m', v, roles) && OpenAgrees(m', v)
  {
    hide FileAgrees, Refs;
  }

  lemma RenameAgrees(m: Model, v: Vol, v': Vol, roles: Roles, roles': Roles, n1: Name, n2: Name)
    requires Agrees(m, v, roles) && n1 in m.names && Adjusted(v, v', roles, roles', m.names[n1], 0, 0)
    requires Renamed(Dir(v), Dir(v'), n1, n2, m.names[n1])
    ensures Agrees(m.(names := (m.names - {n1})[n2 := m.names[n1]]), v', roles')
  {
    hide Adjusted, FileAgrees, OpenAgrees, Dir, Find;
    AdjustedFiles(m, v, v', roles, roles', m.names[n1], 0, 0);
    AdjustedOpen(m, v, v', roles, roles', m.names[n1], 0, 0);
    SameButNames(m, m.(names := (m.names - {n1})[n2 := m.names[n1]]), v', roles');
  }

  /** A new file. */
  lemma GrownAgrees(m: Model, v: Vol, v': Vol, roles: Roles, roles': Roles, name: Name, ino: nat)
    requires Agrees(m, v, roles) && Grown(v, v', roles, roles', ino, 1) && Bound(Dir(v), Dir(v'), name, ino) && ino != NOINO
    ensures Agrees(Model(m.names[name := ino], m.files[ino := File(0, map[])], m.open[ino := 1]), v', roles')
  {
    var m' := Model(m.names[name := ino], m.files[ino := File(0, map[])], m.open[ino := 1]);
    GrownFiles(m, m', v, v', roles, roles', ino);
    hide Grown, FileAgrees, Dir, Bound, NamesAgree, FilesAgree, OpenAgrees;
    BoundAgrees(m, v, v', name, ino);
    NamesOnly(m.(names := m.names[name := ino]), m', v');
  }

  lemma NamesOnly(m: Model, m': Model, v: Vol)
    requires m'.names == m.names && NamesAgree(m, v)
    ensures NamesAgree(m', v)
  {
    hide Dir, Find;
  }

  lemma GrownFiles(m: Model, m': Model, v: Vol, v': Vol, roles: Roles, roles': Roles, ino: nat)
    requires FilesAgree(m, v, roles) && OpenAgrees(m, v) && Grown(v, v', roles, roles', ino, 1)
    requires m'.files == m.files[ino := File(0, map[])] && m'.open == m.open[ino := 1]
    ensures FilesAgree(m', v', roles') && OpenAgrees(m', v')
  {
    hide InodeOf, ByteAt, Refs;
    forall i | i in m'.files && i != ROOT_LOCATION
      ensures FileAgrees(m'.files[i], v', i)
    {
      if i != ino {
        assert FileAgrees(m.files[i], v, i) && IsInode(roles, i) && IsInode(roles', i) && SameData(v, v', i);
      }
    }
  }

  /** A name is gone, and perhaps the file with it. */
  lemma RemoveAgrees(m: Model, v: Vol, v': Vol, roles: Roles, roles': Roles, name: Name)
    requires Agrees(m, v, roles) && Linked(v, roles) && name in m.names && IsInode(roles, m.names[name])
    requires Bound(Dir(v), Dir(v'), name, NOINO) && Removed(v, v', roles, roles', m.names[name])
    ensures Agrees(Swept(m.(names := m.names - {name}), m.names[name]), v', roles')
  {
    hide LinkedBut, FileAgrees, Dir, Bound, Removed, Find;
    var x, w := m.names[name], m.(names := m.names - {name});
    BoundAgrees(m, v, v', name, NOINO);
    assert (x != ROOT_LOCATION && Opens(w, x) == 0 && !HasName(w, x)) <==> OnlyName(v, x) by {
      OnlyNameTells(m, v, roles, name);
    }
    RemovedFiles(m, Swept(w, x), v, v', roles, roles', x);
    NamesOnly(w, Swept(w, x), v');
  }

  lemma OnlyNameTells(m: Model, v: Vol, roles: Roles, name: Name)
    requires NamesAgree(m, v) && OpenAgrees(m, v) && Linked(v, roles) && name in m.names && IsInode(roles, m.names[name])
    ensures var x, w := m.names[name], m.(names := m.names - {name});
            (x != ROOT_LOCATION && Opens(w, x) == 0 && !HasName(w, x)) <==> OnlyName(v, x)
  {
    hide InodeOf, Slot, Find, Refs;
    var x, w := m.names[name], m.(names := m.names - {name});
    assert Find(Dir(v), name) == x;
    if x == ROOT_LOCATION {
      RootHasTwo(v, roles, name);
    } else {
      OneLink(v, roles, x, name);
      if HasName(w, x) {
        var n :| n in w.names && w.names[n] == x;
        assert n != name && Find(Dir(v), n) == x;
      } else {
        forall n | n != name
          ensures Find(Dir(v), n) != x
        {
          assert Find(Dir(v), n) == Lookup(m, n);
          assert n in m.names ==> n in w.names && w.names[n] == m.names[n];
        }
      }
    }
  }

  lemma RootHasTwo(v: Vol, roles: Roles, name: Name)
    requires Linked(v, roles) && Find(Dir(v), name) == ROOT_LOCATION
    ensures InodeOf(v, ROOT_LOCATION).links >= 2
  {
    hide InodeOf, Slot;
    var dir := Dir(v);
    var s: nat :| Named(dir, s, name) && dir[s].ino == ROOT_LOCATION;
    CountFound(dir, ROOT_LOCATION, s);
  }

  lemma RemovedFiles(m: Model, m': Model, v: Vol, v': Vol, roles: Roles, roles': Roles, x: nat)
    requires FilesAgree(m, v, roles) && OpenAgrees(m, v) && Removed(v, v', roles, roles', x)
    requires m'.open == m.open && m'.files == if OnlyName(v, x) then m.files - {x} else m.files
    ensures FilesAgree(m', v', roles') && OpenAgrees(m', v')
  {
    hide InodeOf, ByteAt, Refs, OnlyName;
    forall i | i in m'.files && i != ROOT_LOCATION
      ensures FileAgrees(m'.files[i], v', i)
    {
      assert FileAgrees(m.files[i], v, i) && IsInode(roles, i) && IsInode(roles', i) && SameData(v, v', i);
    }
  }

  /** A reference is dropped, and perhaps the file with it. */
  lemma CloseAgrees(m: Model, v: Vol, v': Vol, roles: Roles, roles': Roles, i: nat)
    requires Agrees(m, v, roles) && Linked(v, roles) && IsInode(roles, i) && Opens(m, i) > 0
    requires Dir(v') == Dir(v) && Released(v, v', roles, roles', i)
    ensures Agrees(Swept(Closed(m, i), i), v', roles')
  {
    hide LinkedBut, FileAgrees, Dir, Find, Released;
    var w := Closed(m, i);
    assert (i != ROOT_LOCATION && Opens(w, i) == 0 && !HasName(w, i)) <==> LastGone(v, i) by {
      LastGoneTells(m, v, roles, i);
    }
    ReleasedFiles(m, Swept(w, i), v, v', roles, roles', i);
  }

  lemma LastGoneTells(m: Model, v: Vol, roles: Roles, i: nat)
    requires NamesAgree(m, v) && OpenAgrees(m, v) && Linked(v, roles) && IsInode(roles, i) && Opens(m, i) > 0
    ensures (i != ROOT_LOCATION && Opens(Closed(m, i), i) == 0 && !HasName(Closed(m, i), i)) <==> LastGone(v, i)
  {
    hide InodeOf, Slot, Find, Refs;
    if i != ROOT_LOCATION {
      NoLinks(v, roles, i);
      if HasName(m, i) {
        var n :| n in m.names && m.names[n] == i;
        assert Find(Dir(v), n) == i;
      } else {
        forall n
          ensures Find(Dir(v), n) != i
        {
          NotNoino(v, roles, i);
          assert Find(Dir(v), n) == Lookup(m, n);
        }
      }
    } else {
      assert InodeOf(v, i).links > 0;
    }
  }

  lemma NotNoino(v: Vol, roles: Roles, i: nat)
    requires Linked(v, roles) && IsInode(roles, i)
    ensures i != NOINO
  {
    hide InodeOf, Slot;
  }

  lemma ReleasedFiles(m: Model, m': Model, v: Vol, v': Vol, roles: Roles, roles': Roles, i: nat)
    requires FilesAgree(m, v, roles) && OpenAgrees(m, v) && Released(v, v', roles, roles', i) && Opens(m, i) > 0
    requires m'.open == Closed(m, i).open && m'.files == if LastGone(v, i) then m.files - {i} else m.files
    ensures FilesAgree(m', v', roles') && OpenAgrees(m', v')
  {
    hide InodeOf, ByteAt, Refs, LastGone;
    forall j | j in m'.files && j != ROOT_LOCATION
      ensures FileAgrees(m'.files[j], v', j)
    {
      assert FileAgrees(m.files[j], v, j) && IsInode(roles, j) && IsInode(roles', j) && SameData(v, v', j);
    }
  }

  /** The bytes of one file have changed. */
  lemma OneFileAgrees(m: Model, v: Vol, v': Vol, roles: Roles, roles': Roles, i: nat, f: File)
    requires Agrees(m, v, roles) && Dir(v') == Dir(v) && SameInodes(roles, roles') && SameOthers(v, v', roles, i)
    requires (forall j: nat :: Refs(v', j) == Refs(v, j)) && FileAgrees(f, v', i) && i in m.files
    ensures Agrees(m.(files := m.files[i := f]), v', roles')
  {
    hide InodeOf, ByteAt, Refs, Dir, Find;
    var m' := m.(files := m.files[i := f]);
    forall j | j in m'.files && j != ROOT_LOCATION
      ensures FileAgrees(m'.files[j], v', j)
    {
      if j != i {
        assert FileAgrees(m.files[j], v, j) && IsInode(roles, j) && SameFile(v, v', j);
      }
    }
  }

  lemma WriteAgrees(m: Model, v: Vol, v': Vol, roles: Roles, roles': Roles, i: nat, off: nat, data: seq<Byte>)
    requires Agrees(m, v, roles) && Dir(v') == Dir(v) && WroteFile(v, v', roles, roles', i, off, data)
    requires i in m.files && i != ROOT_LOCATION
    ensures Agrees(m.(files := m.files[i := Written(m.files[i], off, data)]), v', roles')
  {
    hide InodeOf, ByteAt, Dir, Find;
    assert FileAgrees(m.files[i], v, i);
    assert FileAgrees(Written(m.files[i], off, data), v', i);
    assert SameInodes(roles, roles');
    hide FileAgrees;
    OneFileAgrees(m, v, v', roles, roles', i, Written(m.files[i], off, data));
  }

  lemma TruncateAgrees(m: Model, v: Vol, v': Vol, roles: Roles, roles': Roles, i: nat, len: nat)
    requires Agrees(m, v, roles) && Dir(v') == Dir(v) && Truncated(v, v', roles, roles', i, len)
    requires i in m.files && i != ROOT_LOCATION
    ensures Agrees(m.(files := m.files[i := Shortened(m.files[i], len)]), v', roles')
  {
    hide InodeOf, ByteAt, Dir, Find, Ptr, Unmapped;
    assert FileAgrees(m.files[i], v, i);
    assert FileAgrees(Shortened(m.files[i], len), v', i);
    forall j: nat
      ensures IsInode(roles, j) <==> IsInode(roles', j)
    {
      if IsInode(roles', j) {
        assert Has(roles, j, roles'[j]);
      }
    }
    hide FileAgrees;
    OneFileAgrees(m, v, v', roles, roles', i, Shortened(m.files[i], len));
  }

  /** No file, name or reference has changed. */
  lemma SameAgrees(m: Model, v: Vol, v': Vol, roles: Roles)
    requires Agrees(m, v, roles) && Dir(v') == Dir(v) && SameFiles(v, v', roles)
    requires forall j: nat :: Refs(v', j) == Refs(v, j)
    ensures Agrees(m, v', roles)
  {
    hide InodeOf, ByteAt, Refs, Dir, Find;
    forall j | j in m.files && j != ROOT_LOCATION
      ensures FileAgrees(m.files[j], v', j)
    {
      assert FileAgrees(m.files[j], v, j) && IsInode(roles, j) && SameFile(v, v', j);
    }
  }

  /** What is read is what the model holds. */
  lemma ReadAgrees(m: Model, v: Vol, roles: Roles, i: nat, off: nat, data: seq<Byte>)
    requires Agrees(m, v, roles) && i in m.files && i != ROOT_LOCATION && data == Bytes(v, i, off, |data|)
    ensures InodeOf(v, i).size == m.files[i].size
    ensures forall k :: 0 <= k < |data| ==> data[k] == At(m.files[i], off + k)
  {
    hide InodeOf, ByteAt;
    assert FileAgrees(m.files[i], v, i);
  }
}
