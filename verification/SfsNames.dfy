/** What the SFS root directory means: a sequence of slots read out of the bytes of its file, the names
    they give to inodes, and the link counts that go with them. */
module SfsNames {
  import opened SfsFormat
  import opened SfsVolume
  import opened SfsBlocks
  import opened SfsIo

  // ---------------------------------------------------------------- slots

  ghost function Slot(v: Vol, s: nat): Entry {
    DecodeEntry(Bytes(v, ROOT_LOCATION, DIRSIZE * s, DIRSIZE))
  }

  /** The directory as its entries, one per slot. */
  ghost function Dir(v: Vol): (dir: seq<Entry>)
    ensures |dir| == InodeOf(v, ROOT_LOCATION).size / DIRSIZE
    ensures forall s :: 0 <= s < |dir| ==> dir[s] == Slot(v, s)
  {
    seq<Entry>(InodeOf(v, ROOT_LOCATION).size / DIRSIZE, s requires s >= 0 => Slot(v, s))
  }

  lemma SameSlot(v: Vol, v': Vol, s: nat)
    requires forall k: nat :: DIRSIZE * s <= k < DIRSIZE * s + DIRSIZE ==>
                                ByteAt(v', ROOT_LOCATION, k) == ByteAt(v, ROOT_LOCATION, k)
    ensures Slot(v', s) == Slot(v, s)
  {
    assert Bytes(v', ROOT_LOCATION, DIRSIZE * s, DIRSIZE) == Bytes(v, ROOT_LOCATION, DIRSIZE * s, DIRSIZE);
  }

  lemma SameDir(v: Vol, v': Vol)
    requires InodeOf(v', ROOT_LOCATION).size == InodeOf(v, ROOT_LOCATION).size
    requires forall k: nat :: ByteAt(v', ROOT_LOCATION, k) == ByteAt(v, ROOT_LOCATION, k)
    ensures Dir(v') == Dir(v)
  {
    hide ByteAt, InodeOf, DecodeEntry;
    forall s | 0 <= s < |Dir(v)|
      ensures Dir(v')[s] == Dir(v)[s]
    {
      SameSlot(v, v', s);
    }
  }

  function Put(dir: seq<Entry>, s: nat, e: Entry): seq<Entry>
    requires s <= |dir|
  {
    if s < |dir| then dir[s := e] else dir + [e]
  }

  /** Writing an encoded entry at its place in the file is changing one slot. */
  lemma SlotWritten(v: Vol, v': Vol, roles: Roles, roles': Roles, s: nat, e: Entry)
    requires IsName(e.name) && |e.name| < NAMELEN && e.ino < U32 && (e.ino == NOINO ==> e.name == [])
    requires InodeOf(v, ROOT_LOCATION).size % DIRSIZE == 0 && s <= |Dir(v)|
    requires WroteFile(v, v', roles, roles', ROOT_LOCATION, DIRSIZE * s, EncodeEntry(e))
    ensures Dir(v') == Put(Dir(v), s, e) && InodeOf(v', ROOT_LOCATION).size % DIRSIZE == 0
  {
    hide ByteAt, InodeOf, DecodeEntry, EncodeEntry;
    EntryRoundTrip(e);
    assert Bytes(v', ROOT_LOCATION, DIRSIZE * s, DIRSIZE) == EncodeEntry(e);
    forall t | 0 <= t < |Dir(v)| && t != s
      ensures Slot(v', t) == Slot(v, t)
    {
      SameSlot(v, v', t);
    }
  }

  /** A slot in use lies in a block that is mapped. */
  lemma SlotMapped(v: Vol, s: nat)
    requires Slot(v, s).ino != NOINO
    ensures Ptr(v, ROOT_LOCATION, DIRSIZE * s / BLOCKSIZE) != 0
    ensures DIRSIZE * s % BLOCKSIZE + DIRSIZE <= BLOCKSIZE
  {
    hide PtrIn, InodeOf;
    var b := Bytes(v, ROOT_LOCATION, DIRSIZE * s, DIRSIZE);
    assert DIRSIZE * s % BLOCKSIZE + DIRSIZE <= BLOCKSIZE by {
      SlotInBlock(s);
    }
    if Ptr(v, ROOT_LOCATION, DIRSIZE * s / BLOCKSIZE) == 0 {
      forall k | 0 <= k < 4
        ensures b[k] == 0
      {
        SameBlock(DIRSIZE * s, k);
      }
    }
  }

  lemma SlotInBlock(s: nat)
    ensures DIRSIZE * s % BLOCKSIZE + DIRSIZE <= BLOCKSIZE
  {
    var q, r := s / 8, s % 8;
    assert DIRSIZE * s == BLOCKSIZE * q + DIRSIZE * r;
  }

  lemma SameBlock(off: nat, k: nat)
    requires off % BLOCKSIZE + k < BLOCKSIZE
    ensures (off + k) / BLOCKSIZE == off / BLOCKSIZE
  {
  }

  // ---------------------------------------------------------------- names

  ghost predicate Named(dir: seq<Entry>, s: nat, name: Name) {
    s < |dir| && dir[s].ino != NOINO && dir[s].name == name
  }

  /** Each name appears only once. */
  ghost predicate Unique(dir: seq<Entry>) {
    forall s: nat, t: nat :: s < t < |dir| && dir[s].ino != NOINO && dir[t].ino != NOINO ==> dir[s].name != dir[t].name
  }

  /** The inode a name leads to, 0 if there is none. */
  ghost function Find(dir: seq<Entry>, name: Name): nat {
    if s: nat :| Named(dir, s, name) then dir[s].ino else NOINO
  }

  lemma FindAt(dir: seq<Entry>, name: Name, s: nat)
    requires Unique(dir) && Named(dir, s, name)
    ensures Find(dir, name) == dir[s].ino != NOINO
  {
  }

  lemma FindNone(dir: seq<Entry>, name: Name)
    requires forall s: nat :: !Named(dir, s, name)
    ensures Find(dir, name) == NOINO
  {
  }

  /** Entering a new name in a free slot makes it lead to its inode, and no other name changes. */
  lemma EnterName(dir: seq<Entry>, s: nat, e: Entry)
    requires Unique(dir) && s <= |dir| && (s < |dir| ==> dir[s].ino == NOINO) && e.ino != NOINO
    requires forall t: nat :: !Named(dir, t, e.name)
    ensures Unique(Put(dir, s, e))
    ensures forall m :: Find(Put(dir, s, e), m) == if m == e.name then e.ino else Find(dir, m)
  {
    var dir' := Put(dir, s, e);
    forall t: nat | t < |dir| && dir[t].ino != NOINO
      ensures dir[t].name != e.name
    {
      assert !Named(dir, t, e.name);
    }
    assert Unique(dir');
    forall m
      ensures Find(dir', m) == if m == e.name then e.ino else Find(dir, m)
    {
      if m == e.name {
        FindAt(dir', m, s);
      } else if t: nat :| Named(dir, t, m) {
        FindAt(dir, m, t);
        assert Named(dir', t, m);
        FindAt(dir', m, t);
      } else {
        assert forall t: nat :: Named(dir', t, m) ==> Named(dir, t, m);
      }
    }
  }

  /** Emptying a slot takes away its name, and no other name changes. */
  lemma LeaveName(dir: seq<Entry>, s: nat)
    requires Unique(dir) && s < |dir| && dir[s].ino != NOINO
    ensures Unique(Put(dir, s, EMPTY))
    ensures forall m :: Find(Put(dir, s, EMPTY), m) == if m == dir[s].name then NOINO else Find(dir, m)
  {
    var dir' := Put(dir, s, EMPTY);
    forall m
      ensures Find(dir', m) == if m == dir[s].name then NOINO else Find(dir, m)
    {
      if m == dir[s].name {
        assert forall t: nat :: !Named(dir', t, m);
      } else if t: nat :| Named(dir, t, m) {
        FindAt(dir, m, t);
        assert Named(dir', t, m);
        FindAt(dir', m, t);
      } else {
        assert forall t: nat :: Named(dir', t, m) ==> Named(dir, t, m);
      }
    }
  }

  // ---------------------------------------------------------------- links

  /** The number of slots that name inode `i`. */
  function Count(dir: seq<Entry>, i: nat): nat {
    if dir == [] then 0 else Count(dir[..|dir| - 1], i) + if dir[|dir| - 1].ino == i then 1 else 0
  }

  lemma {:induction false} CountBound(dir: seq<Entry>, i: nat)
    ensures Count(dir, i) <= |dir|
  {
    if dir != [] {
      CountBound(dir[..|dir| - 1], i);
    }
  }

  lemma {:induction false} CountFound(dir: seq<Entry>, i: nat, s: nat)
    requires s < |dir| && dir[s].ino == i
    ensures Count(dir, i) > 0
  {
    if s < |dir| - 1 {
      CountFound(dir[..|dir| - 1], i, s);
    }
  }

  lemma {:induction false} CountAbsent(dir: seq<Entry>, i: nat)
    requires forall s :: 0 <= s < |dir| ==> dir[s].ino != i
    ensures Count(dir, i) == 0
  {
    if dir != [] {
      CountAbsent(dir[..|dir| - 1], i);
    }
  }

  lemma {:induction false} CountPut(dir: seq<Entry>, s: nat, e: Entry, i: nat)
    requires s <= |dir|
    ensures Count(Put(dir, s, e), i) == Count(dir, i) + (if e.ino == i then 1 else 0)
                                        - (if s < |dir| && dir[s].ino == i then 1 else 0)
  {
    if s == |dir| {
      assert (dir + [e])[..|dir|] == dir;
    } else if s == |dir| - 1 {
      assert dir[s := e][..s] == dir[..s];
    } else {
      CountPut(dir[..|dir| - 1], s, e, i);
      assert dir[s := e][..|dir| - 1] == dir[..|dir| - 1][s := e];
    }
  }

  // ---------------------------------------------------------------- the invariant

  function Refs(v: Vol, i: nat): nat {
    if i in v.mem then v.mem[i].refs else 0
  }

  ghost predicate RootOk(n: Inode) {
    n.kind == TYPE_DIR && n.size % DIRSIZE == 0 && n.size <= MAXBLOCKS * BLOCKSIZE
  }

  /** Every name leads to an inode. */
  ghost predicate Targets(dir: seq<Entry>, roles: Roles) {
    forall s :: 0 <= s < |dir| && dir[s].ino != NOINO ==> IsInode(roles, dir[s].ino)
  }

  function RootLink(i: nat): nat {
    if i == ROOT_LOCATION then 1 else 0
  }

  /** Every link count is the number of names; that of inode `x` is still off by `d`. */
  ghost predicate Counted(v: Vol, dir: seq<Entry>, roles: Roles, x: int, d: int) {
    forall i :: IsInode(roles, i) ==>
                  InodeOf(v, i).links + (if i == x then d else 0) == Count(dir, i) + RootLink(i)
  }

  ghost predicate Kinds(v: Vol, roles: Roles) {
    forall i :: IsInode(roles, i) && i != ROOT_LOCATION ==> InodeOf(v, i).kind == TYPE_FILE
  }

  /** Inodes in memory are referenced, and those without links are in memory. */
  ghost predicate Held(v: Vol, roles: Roles) {
    && (forall i :: i in v.mem ==> v.mem[i].refs >= 1)
    && (forall i :: IsInode(roles, i) && i !in v.mem ==> InodeOf(v, i).links > 0)
  }

  ghost predicate LinkedBut(v: Vol, roles: Roles, x: int, d: int) {
    && IsInode(roles, ROOT_LOCATION) && RootOk(InodeOf(v, ROOT_LOCATION))
    && Unique(Dir(v)) && Targets(Dir(v), roles) && Counted(v, Dir(v), roles, x, d)
    && Kinds(v, roles) && Held(v, roles) && !IsInode(roles, NOINO)
  }

  /** The names and the link counts agree, all inodes can be reached, and no name is given twice. */
  ghost predicate Linked(v: Vol, roles: Roles) {
    LinkedBut(v, roles, -1, 0)
  }

  lemma LinksBound(v: Vol, roles: Roles, x: int, d: int, i: nat)
    requires LinkedBut(v, roles, x, d) && IsInode(roles, i)
    ensures Count(Dir(v), i) <= |Dir(v)| <= 1144
    ensures InodeOf(v, i).links + (if i == x then d else 0) <= 1145
  {
    CountBound(Dir(v), i);
  }

  /** Inode `j` has the same kind, size and bytes. */
  ghost predicate SameData(v: Vol, v': Vol, j: nat) {
    && InodeOf(v', j).kind == InodeOf(v, j).kind && InodeOf(v', j).size == InodeOf(v, j).size
    && forall k: nat :: ByteAt(v', j, k) == ByteAt(v, j, k)
  }

  /** No file that is there before and after has changed its contents. */
  ghost predicate Untouched(v: Vol, v': Vol, roles: Roles, roles': Roles) {
    forall j :: IsInode(roles, j) && IsInode(roles', j) && j != ROOT_LOCATION ==> SameData(v, v', j)
  }

  ghost predicate MoreInodes(roles: Roles, roles': Roles) {
    forall i :: IsInode(roles, i) ==> IsInode(roles', i)
  }

  lemma UntouchedTwice(v: Vol, w: Vol, u: Vol, roles: Roles, roles': Roles, roles'': Roles)
    requires Untouched(v, w, roles, roles') && Untouched(w, u, roles', roles'')
    requires MoreInodes(roles, roles') || MoreInodes(roles'', roles')
    ensures Untouched(v, u, roles, roles'')
  {
    forall j | IsInode(roles, j) && IsInode(roles'', j) && j != ROOT_LOCATION
      ensures SameData(v, u, j)
    {
      assert IsInode(roles', j);
      assert SameData(v, w, j) && SameData(w, u, j);
    }
  }

  // ---------------------------------------------------------------- steps that keep it

  ghost predicate SameInodes(roles: Roles, roles': Roles) {
    forall i :: IsInode(roles, i) <==> IsInode(roles', i)
  }

  /** No inode comes or goes and no contents change; inode `x` has `dl` more links and `dr` more references. */
  ghost predicate Adjusted(v: Vol, v': Vol, roles: Roles, roles': Roles, x: nat, dl: int, dr: int) {
    && SameInodes(roles, roles') && Untouched(v, v', roles, roles')
    && (forall i :: IsInode(roles, i) ==> InodeOf(v', i).links == InodeOf(v, i).links + if i == x then dl else 0)
    && (forall i: nat :: Refs(v', i) == Refs(v, i) + if i == x then dr else 0)
  }

  lemma AdjustedTwice(v: Vol, w: Vol, u: Vol, roles: Roles, roles': Roles, roles'': Roles, x: nat,
                      dl: int, dr: int, dl': int, dr': int)
    requires Adjusted(v, w, roles, roles', x, dl, dr) && Adjusted(w, u, roles', roles'', x, dl', dr')
    ensures Adjusted(v, u, roles, roles'', x, dl + dl', dr + dr')
  {
    hide InodeOf, Untouched, Refs;
    UntouchedTwice(v, w, u, roles, roles', roles'');
  }

  /** `name` now leads to `ino`, and every other name to where it did. */
  ghost predicate Bound(dir: seq<Entry>, dir': seq<Entry>, name: Name, ino: nat) {
    forall m :: Find(dir', m) == if m == name then ino else Find(dir, m)
  }

  /** Nothing but references and what is in memory has changed. */
  lemma FilesKeep(v: Vol, v': Vol, roles: Roles, roles': Roles, x: int, d: int)
    requires LinkedBut(v, roles, x, d) && SameFiles(v, v', roles) && SameInodes(roles, roles') && Held(v', roles')
    ensures LinkedBut(v', roles', x, d) && Dir(v') == Dir(v) && Untouched(v, v', roles, roles')
    ensures forall i :: IsInode(roles, i) ==> InodeOf(v', i).links == InodeOf(v, i).links
  {
    hide ByteAt, InodeOf;
    assert SameFile(v, v', ROOT_LOCATION);
    SameDir(v, v');
    forall i | IsInode(roles, i)
      ensures InodeOf(v', i).links == InodeOf(v, i).links && InodeOf(v', i).kind == InodeOf(v, i).kind
      ensures SameData(v, v', i)
    {
      assert SameFile(v, v', i);
    }
  }

  /** A change to the bytes of the directory alone. */
  lemma OnlyNames(v: Vol, v': Vol, roles: Roles, roles': Roles, x: nat)
    requires SameOthers(v, v', roles, ROOT_LOCATION) && SameInodes(roles, roles') && SameRefs(v, v')
    requires Linked(v, roles) && InodeOf(v', ROOT_LOCATION).links == InodeOf(v, ROOT_LOCATION).links
    ensures Adjusted(v, v', roles, roles', x, 0, 0) && Held(v', roles') && Kinds(v', roles')
  {
    hide ByteAt, InodeOf;
    forall i | IsInode(roles, i)
      ensures InodeOf(v', i).links == InodeOf(v, i).links
      ensures i != ROOT_LOCATION ==> SameData(v, v', i)
    {
      if i != ROOT_LOCATION {
        assert SameFile(v, v', i);
      }
    }
    forall i | IsInode(roles', i) && i !in v'.mem
      ensures InodeOf(v', i).links > 0
    {
      assert IsInode(roles, i) && i !in v.mem;
    }
  }

  /** A new name for inode `e.ino`: its link count is now one short. */
  lemma LinkKeeps(v: Vol, v': Vol, roles: Roles, roles': Roles, s: nat, e: Entry)
    requires Linked(v, roles) && Held(v', roles') && Kinds(v', roles') && SameInodes(roles, roles')
    requires Adjusted(v, v', roles, roles', e.ino, 0, 0)
    requires RootOk(InodeOf(v', ROOT_LOCATION)) && s <= |Dir(v)| && Dir(v') == Put(Dir(v), s, e)
    requires (s < |Dir(v)| ==> Dir(v)[s].ino == NOINO) && IsInode(roles, e.ino)
    requires forall t: nat :: !Named(Dir(v), t, e.name)
    ensures LinkedBut(v', roles', e.ino, 1)
  {
    hide InodeOf, Slot;
    EnterName(Dir(v), s, e);
    forall i | IsInode(roles', i)
      ensures InodeOf(v', i).links + (if i == e.ino then 1 else 0) == Count(Dir(v'), i) + RootLink(i)
    {
      assert IsInode(roles, i);
      CountPut(Dir(v), s, e, i);
    }
  }

  /** One name less for inode `x`: its link count is now one too many. */
  lemma UnlinkKeeps(v: Vol, v': Vol, roles: Roles, roles': Roles, s: nat)
    requires Linked(v, roles) && Held(v', roles') && Kinds(v', roles') && SameInodes(roles, roles')
    requires RootOk(InodeOf(v', ROOT_LOCATION)) && s < |Dir(v)| && Dir(v') == Put(Dir(v), s, EMPTY)
    requires Dir(v)[s].ino != NOINO && Adjusted(v, v', roles, roles', Dir(v)[s].ino, 0, 0)
    ensures LinkedBut(v', roles', Dir(v)[s].ino, -1)
    ensures InodeOf(v', Dir(v)[s].ino).links > RootLink(Dir(v)[s].ino)
  {
    hide InodeOf, Slot;
    var x := Dir(v)[s].ino;
    LeaveName(Dir(v), s);
    CountFound(Dir(v), x, s);
    assert IsInode(roles, x);
    forall i | IsInode(roles', i)
      ensures InodeOf(v', i).links + (if i == x then -1 else 0) == Count(Dir(v'), i) + RootLink(i)
    {
      assert IsInode(roles, i);
      CountPut(Dir(v), s, EMPTY, i);
    }
  }

  /** Correcting the link count. */
  lemma SettleKeeps(v: Vol, roles: Roles, x: nat, d: int)
    requires Owned(v, roles) && LinkedBut(v, roles, x, d) && x in v.mem && v.mem[x].inode.links + d >= 0
    ensures IsInode(roles, x) && v.mem[x].inode == InodeOf(v, x)
    ensures var v' := WithInode(v, x, v.mem[x].inode.(links := v.mem[x].inode.links + d));
            && Owned(v', roles) && Linked(v', roles) && Dir(v') == Dir(v) && Untouched(v, v', roles, roles)
            && forall i :: IsInode(roles, i) ==>
                             InodeOf(v', i).links == InodeOf(v, i).links + if i == x then d else 0
  {
    hide ByteAt, Slot, OwnedBut;
    InMemory(v, roles, -1, x);
    LinksBound(v, roles, x, d, x);
    var n := v.mem[x].inode.(links := v.mem[x].inode.links + d);
    var v' := WithInode(v, x, n);
    SetAttributes(v, roles, x, n);
    Settled(v, v', roles, x, d);
  }

  lemma Settled(v: Vol, v': Vol, roles: Roles, x: nat, d: int)
    requires LinkedBut(v, roles, x, d) && SameOthers(v, v', roles, x) && IsInode(roles, x) && x in v.mem
             && SameRefs(v, v')
    requires SameData(v, v', x) && InodeOf(v', x).links == InodeOf(v, x).links + d
    ensures Linked(v', roles) && Dir(v') == Dir(v) && Untouched(v, v', roles, roles)
    ensures forall i :: IsInode(roles, i) ==> InodeOf(v', i).links == InodeOf(v, i).links + if i == x then d else 0
  {
    hide ByteAt, InodeOf, Slot;
    forall i | IsInode(roles, i)
      ensures InodeOf(v', i).links == InodeOf(v, i).links + if i == x then d else 0
      ensures SameData(v, v', i)
    {
      if i != x {
        assert SameFile(v, v', i);
      }
    }
    SameDir(v, v');
    assert Held(v', roles);
  }
}
