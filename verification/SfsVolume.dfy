/** An SFS volume: its blocks, the free-block map and the inodes in memory, what each file's blocks and
    bytes are, and which block belongs to whom. */
module SfsVolume {
  import opened SfsFormat

  /** An inode in memory. `dirty` says it may differ from the one on disk. */
  datatype Vnode = Vnode(inode: Inode, dirty: bool, refs: nat)

  datatype Vol = Vol(disk: seq<Block>, used: seq<bool>, mem: map<nat, Vnode>)

  /** What a block in use is for. File block `fb` of inode `ino` is its `fb`-th block of bytes. */
  datatype Role = Reserved | InodeBlock | Data(ino: nat, fb: nat) | Indirect(ino: nat)

  type Roles = map<nat, Role>

  function InodeOf(v: Vol, i: nat): Inode {
    if i in v.mem then v.mem[i].inode
    else if i < |v.disk| then DecodeInode(v.disk[i])
    else DecodeInode(ZeroBlock())
  }

  /** The disk block of file block `fb` of inode `n`, 0 where none is mapped. */
  function PtrIn(disk: seq<Block>, n: Inode, fb: nat): nat {
    if fb < NDIRECT then (if fb < |n.direct| then n.direct[fb] else 0)
    else if fb < MAXBLOCKS && 0 < n.indirect < |disk| then Words(disk[n.indirect])[fb - NDIRECT]
    else 0
  }

  function Ptr(v: Vol, i: nat, fb: nat): nat {
    PtrIn(v.disk, InodeOf(v, i), fb)
  }

  /** Byte `k` of file `i`: an unbounded map, zero where no block is mapped, whatever the file size. */
  function ByteAt(v: Vol, i: nat, k: nat): Byte {
    var b := Ptr(v, i, k / BLOCKSIZE);
    if 0 < b < |v.disk| then v.disk[b][k % BLOCKSIZE] else 0
  }

  // ---------------------------------------------------------------- block ownership

  ghost predicate IsInode(roles: Roles, i: nat) {
    i in roles && roles[i].InodeBlock?
  }

  /** The role is part of file `i`. */
  predicate Mine(r: Role, i: nat) {
    (r.Data? && r.ino == i) || (r.Indirect? && r.ino == i)
  }

  ghost predicate Has(roles: Roles, b: nat, r: Role) {
    b in roles && roles[b] == r
  }

  /** Every pointer of inode `i` leads to a block with exactly that role. */
  ghost predicate Points(v: Vol, roles: Roles, i: nat) {
    && (forall fb :: 0 <= fb < MAXBLOCKS && Ptr(v, i, fb) != 0 ==> Has(roles, Ptr(v, i, fb), Data(i, fb)))
    && (InodeOf(v, i).indirect != 0 ==> Has(roles, InodeOf(v, i).indirect, Indirect(i)))
  }

  /** Block `b` with role `r` is where the inode of its role says. */
  ghost predicate Placed(v: Vol, roles: Roles, b: nat, r: Role) {
    && (r.Data? ==> IsInode(roles, r.ino) && r.fb < MAXBLOCKS && Ptr(v, r.ino, r.fb) == b)
    && (r.Indirect? ==> IsInode(roles, r.ino) && InodeOf(v, r.ino).indirect == b)
  }

  /** All blocks of file `i` are where its inode says. */
  ghost predicate AllPlaced(v: Vol, roles: Roles, i: nat) {
    forall b :: b in roles && Mine(roles[b], i) ==> Placed(v, roles, b, roles[b])
  }

  /** The blocks of the free map, for a volume of `n` blocks, are put aside. */
  ghost predicate MapReserved(n: nat, roles: Roles) {
    forall b :: MAP_LOCATION <= b < MAP_LOCATION + BitBlocks(n) ==> Has(roles, b, Reserved)
  }

  ghost predicate Shaped(v: Vol, roles: Roles) {
    && |v.disk| <= |v.used| && |v.disk| + BLOCKBITS <= U32
    && (forall b :: b in roles ==> b < |v.disk|)
    && Has(roles, SB_LOCATION, Reserved) && Has(roles, ROOT_LOCATION, InodeBlock) && MapReserved(|v.disk|, roles)
    && (forall i :: i in v.mem ==> IsInode(roles, i))
  }

  /** The blocks marked in use are those with a role, the ones past the end of the volume, and `x`. */
  ghost predicate Marked(v: Vol, roles: Roles, x: int) {
    forall b :: 0 <= b < |v.used| ==> (v.used[b] <==> b in roles || b >= |v.disk| || b == x)
  }

  /** Inodes in memory that are not dirty are also on disk. */
  ghost predicate Clean(v: Vol) {
    forall i :: i in v.mem && !v.mem[i].dirty ==> i < |v.disk| && DecodeInode(v.disk[i]) == v.mem[i].inode
  }

  /** Ownership, with `x` a block that has just been allocated and is not attached to anything yet. */
  ghost predicate OwnedBut(v: Vol, roles: Roles, x: int) {
    && Shaped(v, roles) && Marked(v, roles, x) && x !in roles && Clean(v)
    && (forall i :: IsInode(roles, i) ==> Fits(InodeOf(v, i)) && Points(v, roles, i))
    && (forall b :: b in roles ==> Placed(v, roles, b, roles[b]))
  }

  ghost predicate Owned(v: Vol, roles: Roles) {
    OwnedBut(v, roles, -1)
  }

  /** Block `b` is inside the volume, marked in use and not put aside for the file system itself. */
  ghost predicate InService(v: Vol, roles: Roles, b: nat) {
    b < |v.disk| && b < |v.used| && v.used[b] && b in roles && roles[b] != Reserved
  }

  /** The invariant says what the file system must never lose: the inodes, their indirect blocks and all blocks they
      point to are in service, and all different. */
  lemma PointersDistinct(v: Vol, roles: Roles, x: int, i: nat, fb: nat, j: nat, fc: nat)
    requires OwnedBut(v, roles, x) && IsInode(roles, i) && IsInode(roles, j) && fb < MAXBLOCKS && fc < MAXBLOCKS
    ensures InService(v, roles, i)
    ensures InodeOf(v, i).indirect != 0 ==>
              && InService(v, roles, InodeOf(v, i).indirect) && InodeOf(v, i).indirect != j
              && (InodeOf(v, i).indirect == InodeOf(v, j).indirect ==> i == j)
    ensures Ptr(v, i, fb) != 0 ==>
              && InService(v, roles, Ptr(v, i, fb)) && Ptr(v, i, fb) != j && Ptr(v, i, fb) != InodeOf(v, j).indirect
              && (Ptr(v, i, fb) == Ptr(v, j, fc) ==> i == j && fb == fc)
  {
    assert Points(v, roles, i) && Points(v, roles, j);
  }

  // ---------------------------------------------------------------- locality

  /** The blocks that hold inodes, and indirect blocks of files other than `i`, are the same. */
  ghost predicate SameMetadata(v: Vol, v': Vol, roles: Roles, i: int) {
    && |v'.disk| == |v.disk|
    && forall b :: b in roles && b < |v.disk| && (roles[b].InodeBlock? || (roles[b].Indirect? && roles[b].ino != i)) ==>
                     v'.disk[b] == v.disk[b]
  }

  /** Roles outside file `i` are the same. */
  ghost predicate SameRoles(roles: Roles, roles': Roles, i: nat) {
    && (forall b :: b in roles && !Mine(roles[b], i) ==> Has(roles', b, roles[b]))
    && (forall b :: b in roles' && !Mine(roles'[b], i) ==> Has(roles, b, roles'[b]))
  }

  lemma OtherInode(v: Vol, v': Vol, roles: Roles, i: nat, j: nat)
    requires Shaped(v, roles) && IsInode(roles, j) && Points(v, roles, j) && i != j
    requires SameMetadata(v, v', roles, i) && v'.mem.Keys == v.mem.Keys
    requires j in v.mem ==> v'.mem[j].inode == v.mem[j].inode
    ensures InodeOf(v', j) == InodeOf(v, j) && forall fb :: Ptr(v', j, fb) == Ptr(v, j, fb)
  {
    var n := InodeOf(v, j);
    assert InodeOf(v', j) == n;
    if n.indirect != 0 {
      assert v'.disk[n.indirect] == v.disk[n.indirect];
    }
  }

  lemma MapStays(n: nat, roles: Roles, roles': Roles)
    requires MapReserved(n, roles) && forall b :: Has(roles, b, Reserved) ==> Has(roles', b, Reserved)
    ensures MapReserved(n, roles')
  {
    hide BitBlocks;
    forall b | MAP_LOCATION <= b < MAP_LOCATION + BitBlocks(n)
      ensures Has(roles', b, Reserved)
    {
      assert Has(roles, b, Reserved);
    }
  }

  lemma LocalOthers(v: Vol, v': Vol, roles: Roles, roles': Roles, i: nat, x: int)
    requires OwnedBut(v, roles, x) && v'.mem.Keys == v.mem.Keys
    requires SameMetadata(v, v', roles, i) && SameRoles(roles, roles', i)
    requires forall j :: j in v.mem && j != i ==> v'.mem[j].inode == v.mem[j].inode
    ensures forall j :: IsInode(roles, j) && j != i ==>
                          && InodeOf(v', j) == InodeOf(v, j) && Points(v', roles', j)
                          && forall fb :: Ptr(v', j, fb) == Ptr(v, j, fb)
  {
    forall j | IsInode(roles, j) && j != i
      ensures InodeOf(v', j) == InodeOf(v, j) && forall fb :: Ptr(v', j, fb) == Ptr(v, j, fb)
      ensures Points(v', roles', j)
    {
      assert Points(v, roles, j);
      OtherInode(v, v', roles, i, j);
      assert forall fb :: 0 <= fb < MAXBLOCKS && Ptr(v, j, fb) != 0 ==> !Mine(roles[Ptr(v, j, fb)], i);
    }
  }

  /** A change to file `i` alone: it keeps ownership when it does so for file `i`. */
  lemma Local(v: Vol, v': Vol, roles: Roles, roles': Roles, i: nat, x: int, x': int)
    requires OwnedBut(v, roles, x) && i in v.mem && i in v'.mem && v'.mem == v.mem[i := v'.mem[i]]
    requires SameMetadata(v, v', roles, i) && SameRoles(roles, roles', i) && |v'.used| == |v.used|
    requires Marked(v', roles', x') && x' !in roles' && Clean(v')
    requires forall b :: b in roles' ==> b < |v.disk|
    requires Fits(InodeOf(v', i)) && Points(v', roles', i)
    requires AllPlaced(v', roles', i)
    ensures OwnedBut(v', roles', x')
    ensures forall j :: IsInode(roles, j) && j != i ==>
                          InodeOf(v', j) == InodeOf(v, j) && forall fb :: Ptr(v', j, fb) == Ptr(v, j, fb)
  {
    hide InodeOf, PtrIn, Points, Clean, Marked;
    LocalOthers(v, v', roles, roles', i, x);
    MapStays(|v.disk|, roles, roles');
    forall b | b in roles'
      ensures Placed(v', roles', b, roles'[b])
    {
      if !Mine(roles'[b], i) {
        assert Has(roles, b, roles'[b]);
        assert Placed(v, roles, b, roles[b]);
      }
    }
  }
}
