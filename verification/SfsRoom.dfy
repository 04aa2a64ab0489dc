/** When a new name can be entered in the directory: which slot it goes to, and what the volume must have left. */
module SfsRoom {
  import opened SfsFormat
  import opened SfsVolume
  import opened SfsBlocks
  import opened Sfs
  import opened SfsIo
  import opened SfsNames
  import opened SfsVnodes

  const MAXSLOTS: nat := 1144      // slots in 143 blocks

  /** The last empty slot, or -1. */
  ghost function LastEmpty(dir: seq<Entry>): (s: int)
    ensures -1 <= s < |dir| && (s >= 0 ==> dir[s].ino == NOINO)
    ensures forall t :: s < t < |dir| ==> dir[t].ino != NOINO
  {
    if dir == [] then -1
    else if dir[|dir| - 1].ino == NOINO then |dir| - 1
    else LastEmpty(dir[..|dir| - 1])
  }

  /** The slot a new name goes to: the last empty one, or the one past the end. */
  ghost function FreeSlot(dir: seq<Entry>): nat {
    if LastEmpty(dir) >= 0 then LastEmpty(dir) else |dir|
  }

  lemma LastEmptyIs(dir: seq<Entry>, s: int)
    requires -1 <= s < |dir| && (s >= 0 ==> dir[s].ino == NOINO)
    requires forall t :: s < t < |dir| ==> dir[t].ino != NOINO
    ensures LastEmpty(dir) == s
  {
  }

  /** The file block of the directory that a slot lies in. */
  function SlotBlock(s: nat): nat {
    DIRSIZE * s / BLOCKSIZE
  }

  ghost predicate DirFull(dir: seq<Entry>) {
    |dir| == MAXSLOTS && forall s :: 0 <= s < |dir| ==> dir[s].ino != NOINO
  }

  /** What entering a new, short enough name returns. */
  ghost function EnterError(v: Vol): Error {
    MapError(v, ROOT_LOCATION, SlotBlock(FreeSlot(Dir(v))))
  }

  /** What sfs_dir_link returns. */
  ghost function LinkError(v: Vol, name: Name): Error {
    if Find(Dir(v), name) != NOINO then EEXIST
    else if |name| >= NAMELEN then ENAMETOOLONG
    else EnterError(v)
  }

  /** What sfs_creat returns: the new inode takes a block of its own, and takes it first. */
  ghost function CreatError(v: Vol, name: Name, excl: bool): Error {
    if Find(Dir(v), name) != NOINO then if excl then EEXIST else OK
    else if FreeBlocks(v.used) == 0 then ENOSPC
    else if |name| >= NAMELEN then ENAMETOOLONG
    else if DirFull(Dir(v)) then EINVAL
    else if Needs(v, ROOT_LOCATION, SlotBlock(FreeSlot(Dir(v)))) < FreeBlocks(v.used) then OK
    else ENOSPC
  }

  lemma SlotInReach(s: nat)
    ensures SlotBlock(s) < MAXBLOCKS <==> s < MAXSLOTS
  {
  }

  lemma FullTells(dir: seq<Entry>)
    requires |dir| <= MAXSLOTS
    ensures DirFull(dir) <==> FreeSlot(dir) >= MAXSLOTS
  {
    var e := LastEmpty(dir);
    if e >= 0 {
      assert dir[e].ino == NOINO;
    }
  }

  /** A name that is new and short enough is refused with EINVAL exactly when all 1144 slots are taken, and with
      ENOSPC exactly when its slot lies in a block that is not there and the volume lacks the blocks to map it. */
  lemma EnterTells(v: Vol, roles: Roles)
    requires Linked(v, roles)
    ensures EnterError(v) ==
            if DirFull(Dir(v)) then EINVAL
            else if Needs(v, ROOT_LOCATION, SlotBlock(FreeSlot(Dir(v)))) <= FreeBlocks(v.used) then OK
            else ENOSPC
  {
    hide Needs, FreeBlocks, FreeSlot, DirFull, Slot;
    FullTells(Dir(v));
    SlotInReach(FreeSlot(Dir(v)));
  }

  /** The pointers of the directory are the same. */
  ghost predicate SameRoot(v: Vol, v': Vol) {
    && InodeOf(v', ROOT_LOCATION) == InodeOf(v, ROOT_LOCATION) && Dir(v') == Dir(v)
    && forall fb :: Ptr(v', ROOT_LOCATION, fb) == Ptr(v, ROOT_LOCATION, fb)
  }

  lemma LinkErrorSame(v: Vol, v': Vol, name: Name)
    requires SameRoot(v, v') && v'.used == v.used
    ensures LinkError(v', name) == LinkError(v, name)
  {
    hide Ptr, InodeOf, Dir, FreeBlocks, FreeSlot, Find;
  }

  lemma CreatedRoot(v: Vol, roles: Roles, x: nat, kind: nat)
    requires Owned(v, roles) && x < |v.disk| && !v.used[x] && x !in v.mem && IsInode(roles, ROOT_LOCATION)
    ensures InodeOf(Created(v, x, kind), ROOT_LOCATION) == InodeOf(v, ROOT_LOCATION)
    ensures forall fb :: Ptr(Created(v, x, kind), ROOT_LOCATION, fb) == Ptr(v, ROOT_LOCATION, fb)
  {
    AllocInodes(v, roles, x);
    var w := Allocated(v, x);
    assert InodeOf(Created(v, x, kind), ROOT_LOCATION) == InodeOf(w, ROOT_LOCATION);
    forall fb
      ensures Ptr(Created(v, x, kind), ROOT_LOCATION, fb) == Ptr(v, ROOT_LOCATION, fb)
    {
      assert Ptr(Created(v, x, kind), ROOT_LOCATION, fb) == Ptr(w, ROOT_LOCATION, fb);
    }
  }

  /** Entering the name of an inode that was just made, in terms of the volume before. */
  lemma AfterMake(v: Vol, v': Vol, roles: Roles, name: Name, excl: bool)
    requires Linked(v, roles) && SameRoot(v, v') && Find(Dir(v), name) == NOINO
    requires FreeBlocks(v'.used) == FreeBlocks(v.used) - 1
    ensures LinkError(v', name) == CreatError(v, name, excl)
  {
    hide Ptr, InodeOf, Dir, FreeBlocks, FreeSlot, Find, DirFull, Slot, SlotBlock;
    DirBounded(v, roles);
    FullTells(Dir(v));
    SlotInReach(FreeSlot(Dir(v)));
  }

  lemma DirBounded(v: Vol, roles: Roles)
    requires Linked(v, roles)
    ensures |Dir(v)| <= MAXSLOTS
  {
    hide Slot;
  }
}
