/** The block and file layer of SFS, os161/kern/fs/sfs/sfs_vnode.c: allocation, block mapping and file I/O.
    Block I/O does not fail here. */
module Sfs {
  import opened SfsFormat
  import opened SfsVolume
  import opened SfsBlocks
  import opened Bitmap

  /** Error numbers; PANIC stands for an assertion that stops the kernel. */
  datatype Error = OK | ENOSPC | EINVAL | ENOENT | EEXIST | ENAMETOOLONG | EBUSY | PANIC

  /** Block `j` of the free map on disk holds its part of `bytes`. */
  ghost predicate MapBlock(disk: seq<Block>, bytes: seq<Byte>, j: nat) {
    && MAP_LOCATION + j < |disk| && BLOCKSIZE * j + BLOCKSIZE <= |bytes|
    && disk[MAP_LOCATION + j] == bytes[BLOCKSIZE * j..BLOCKSIZE * j + BLOCKSIZE]
  }

  /** The free map on disk is `bytes`. */
  ghost predicate MapOnDisk(disk: seq<Block>, bytes: seq<Byte>) {
    && |bytes| == BLOCKSIZE * BitBlocks(|disk|)
    && forall j: nat :: j < BitBlocks(|disk|) ==> MapBlock(disk, bytes, j)
  }

  /** The superblock is there and, unless it is dirty, the free map is on disk as it is in memory. */
  ghost predicate Recorded(disk: seq<Block>, bytes: seq<Byte>, dirty: bool) {
    SuperOk(disk) && (dirty || MapOnDisk(disk, bytes))
  }

  /** Writing a block that belongs to a file touches neither. */
  lemma RecordAway(v: Vol, roles: Roles, b: nat, blk: Block, bytes: seq<Byte>, dirty: bool)
    requires Shaped(v, roles) && b in roles && roles[b] != Reserved && Recorded(v.disk, bytes, dirty)
    ensures b < |v.disk| && Recorded(v.disk[b := blk], bytes, dirty)
  {
    hide BitBlocks, WordAt;
    var disk' := v.disk[b := blk];
    if !dirty {
      forall j: nat | j < BitBlocks(|v.disk|)
        ensures MapBlock(disk', bytes, j)
      {
        assert MapBlock(v.disk, bytes, j) && Has(roles, MAP_LOCATION + j, Reserved);
      }
    }
  }

  /** While the map is dirty only the superblock matters. */
  lemma RecordDirty(disk: seq<Block>, b: nat, blk: Block, bytes: seq<Byte>, bytes': seq<Byte>, dirty: bool)
    requires Recorded(disk, bytes, dirty) && 0 < b < |disk|
    ensures Recorded(disk, bytes', true) && Recorded(disk[b := blk], bytes', true)
  {
    hide WordAt;
  }

  lemma EntryIs(v: Vol, i: nat, off: nat)
    requires off < DBPERIDB && 0 < InodeOf(v, i).indirect < |v.disk|
    ensures Ptr(v, i, NDIRECT + off) == Words(v.disk[InodeOf(v, i).indirect])[off]
  {
  }

  lemma PtrMarked(v: Vol, roles: Roles, i: nat, fb: nat)
    requires Owned(v, roles) && i in v.mem && Ptr(v, i, fb) != 0
    ensures Ptr(v, i, fb) < |v.disk| <= |v.used| && v.used[Ptr(v, i, fb)]
  {
    InMemory(v, roles, -1, i);
    PtrRole(v, roles, -1, i, fb);
  }

  /** How many blocks are not marked in use. */
  ghost function FreeBlocks(used: seq<bool>): nat {
    if used == [] then 0 else FreeBlocks(used[..|used| - 1]) + if used[|used| - 1] then 0 else 1
  }

  lemma {:induction false} FreeMarked(used: seq<bool>, b: nat)
    requires b < |used| && !used[b]
    ensures FreeBlocks(used[b := true]) == FreeBlocks(used) - 1
  {
    var n := |used| - 1;
    if b == n {
      assert used[b := true][..n] == used[..n];
    } else {
      assert used[b := true][..n] == used[..n][b := true];
      FreeMarked(used[..n], b);
    }
  }

  lemma {:induction false} FreeNone(used: seq<bool>)
    ensures FreeBlocks(used) == 0 <==> forall c :: 0 <= c < |used| ==> used[c]
  {
    if used != [] {
      var n := |used| - 1;
      FreeNone(used[..n]);
      assert forall c :: 0 <= c < n ==> used[..n][c] == used[c];
    }
  }

  /** How many blocks it takes to map file block `fb`: none, one, or the indirect block as well. */
  ghost function Needs(v: Vol, i: nat, fb: nat): nat {
    if Ptr(v, i, fb) != 0 then 0 else if fb < NDIRECT || InodeOf(v, i).indirect != 0 then 1 else 2
  }

  ghost predicate CanMap(v: Vol, i: nat, fb: nat) {
    Needs(v, i, fb) <= FreeBlocks(v.used)
  }

  /** What a request to map file block `fb` for writing returns. */
  ghost function MapError(v: Vol, i: nat, fb: nat): Error {
    if fb >= MAXBLOCKS then EINVAL else if CanMap(v, i, fb) then OK else ENOSPC
  }

  class Fs {
    var disk: seq<Block>
    const freemap: BitArray
    var mapdirty: bool
    var vnodes: map<nat, Vnode>
    ghost var roles: Roles

    ghost function V(): Vol
      reads this, freemap.v
    {
      Vol(disk, freemap.Set(), vnodes)
    }

    ghost predicate Valid()
      reads this, freemap.v
    {
      && freemap.Valid() && |disk| <= freemap.nbits == BLOCKBITS * BitBlocks(|disk|) 
      && Recorded(disk, freemap.v[..], mapdirty) && Owned(V(), roles)
    }

    /** A volume as sfs_domount leaves it: its blocks, the free map read from it, and no inode in memory. */
    constructor (d: seq<Block>, map_: BitArray, ghost r: Roles)
      requires map_.Valid() && |d| <= map_.nbits == BLOCKBITS * BitBlocks(|d|) && Recorded(d, map_.v[..], false)
      requires Owned(Vol(d, map_.Set(), map[]), r)
      ensures Valid() && disk == d && freemap == map_ && vnodes == map[] && roles == r
    {
      disk, freemap, mapdirty, vnodes, roles := d, map_, false, map[], r;
    }

    /** bitmap_alloc in the free map. */
    method TakeBit() returns (ok: bool, b: nat)
      requires freemap.Valid()
      modifies freemap.v
      ensures freemap.Valid() && (ok <==> FreeBlocks(old(freemap.Set())) > 0)
      ensures ok ==>
                && b < |old(freemap.Set())| && !old(freemap.Set())[b] && freemap.Set() == old(freemap.Set())[b := true]
                && FreeBlocks(freemap.Set()) == FreeBlocks(old(freemap.Set())) - 1
      ensures !ok ==> freemap.Set() == old(freemap.Set()) && freemap.v[..] == old(freemap.v[..])
      ensures !ok ==> forall c :: 0 <= c < |freemap.Set()| ==> freemap.Set()[c]
    {
      hide FreeBlocks;
      ghost var used := freemap.Set();
      FreeNone(used);
      ok, b := freemap.Alloc();
      if ok {
        FreeMarked(used, b);
      } else {
        assert forall c :: 0 <= c < |used| ==> used[c] == freemap.Set()[c];
      }
    }

    /** sfs_balloc: the first free block, cleared. It is inside the volume. */
    method Balloc() returns (r: Error, b: nat)
      requires Valid()
      modifies this`disk, this`mapdirty, freemap.v
      ensures freemap.Valid() && Recorded(disk, freemap.v[..], mapdirty) && r in {OK, ENOSPC}
      ensures r == OK ==> mapdirty && b > 0
      ensures r == ENOSPC <==> FreeBlocks(old(V()).used) == 0
      ensures r == OK ==> FreeBlocks(V().used) == FreeBlocks(old(V()).used) - 1
      ensures r == OK ==> b < |old(disk)| && !old(V()).used[b] && V() == Allocated(old(V()), b)
      ensures r == ENOSPC ==> V() == old(V()) && forall c :: 0 <= c < |V().used| ==> V().used[c]
    {
      hide Recorded, FreeBlocks;
      ghost var bytes, dirty := freemap.v[..], mapdirty;
      var ok;
      ok, b := TakeBit();
      if !ok {
        return ENOSPC, 0;
      }
      mapdirty := true;
      assert 0 < b < |disk|;
      RecordDirty(disk, b, ZeroBlock(), bytes, freemap.v[..], dirty);
      disk := disk[b := ZeroBlock()];
      r := OK;
    }

    /** sfs_bused. */
    method Bused(b: nat) returns (r: bool)
      requires Valid() && b < |disk|
      ensures r == V().used[b]
    {
      r := freemap.IsSet(b);
    }

    /** The check before a block is handed back: the panic for a block marked free is never reached. */
    method CheckBlock(ghost i: nat, ghost fb: nat, b: nat)
      requires Valid() && i in vnodes && b == Ptr(V(), i, fb)
      ensures b != 0 ==> b < |V().used| && V().used[b]
    {
      hide Recorded, OwnedBut, Kept, Extends, InodeOf, PtrIn;
      if b != 0 {
        PtrMarked(V(), roles, i, fb);
        var used := Bused(b);
        assert used;
      }
    }

    /** Enter block `b` in the inode of file `i`. */
    method EnterDirect(i: nat, fb: nat, b: nat)
      requires i in vnodes && fb < |vnodes[i].inode.direct|
      modifies this`vnodes
      ensures V() == DirectAttached(old(V()), b, i, fb)
    {
      var n := vnodes[i].inode;
      vnodes := vnodes[i := Vnode(n.(direct := n.direct[fb := b]), true, vnodes[i].refs)];
    }

    /** sfs_bmap for one of the direct blocks. */
    method MapDirect(i: nat, fb: nat, doalloc: bool) returns (r: Error, b: nat)
      requires Valid() && i in vnodes && fb < NDIRECT
      modifies this, freemap.v
      ensures Valid() && Kept(old(V()), V(), old(roles), roles) && r in {OK, ENOSPC}
      ensures r == OK ==> b == Ptr(V(), i, fb) && (doalloc ==> b != 0)
      ensures r == OK && b != 0 ==> b < |V().used| && V().used[b]
      ensures !doalloc || old(Ptr(V(), i, fb)) != 0 ==> r == OK && V() == old(V()) && roles == old(roles)
      ensures doalloc ==> (r == OK <==> CanMap(old(V()), i, fb))
      ensures r == ENOSPC ==> V() == old(V()) && roles == old(roles) && forall c :: 0 <= c < |V().used| ==> V().used[c]
    {
      hide Recorded, OwnedBut, Kept, Extends, InodeOf, PtrIn, FreeBlocks;
      InMemory(V(), roles, -1, i);
      KeptSame(V(), roles);
      b := vnodes[i].inode.direct[fb];
      r := OK;
      if b == 0 && doalloc {
        r, b := Balloc();
        if r == OK {
          GrowDirect(old(V()), roles, b, i, fb);
          EnterDirect(i, fb, b);
          roles := roles[b := Data(i, fb)];
        }
      }
      if r == OK {
        CheckBlock(i, fb, b);
      }
    }

    /** The indirect block of file `i`, allocated if there is none yet. */
    method NeedIndirect(i: nat) returns (r: Error)
      requires Valid() && i in vnodes
      modifies this, freemap.v
      ensures Valid() && Kept(old(V()), V(), old(roles), roles) && r in {OK, ENOSPC}
      ensures i in vnodes && (r == OK ==> vnodes[i].inode.indirect != 0)
      ensures r == OK ==> forall fb :: Ptr(V(), i, fb) == old(Ptr(V(), i, fb))
      ensures old(vnodes[i].inode.indirect) != 0 ==> r == OK && V() == old(V()) && roles == old(roles)
      ensures old(vnodes[i].inode.indirect) == 0 ==> (r == OK <==> FreeBlocks(old(V()).used) > 0)
      ensures old(vnodes[i].inode.indirect) == 0 && r == OK ==>
                FreeBlocks(V().used) == FreeBlocks(old(V()).used) - 1
      ensures r == ENOSPC ==> V() == old(V()) && roles == old(roles) && forall c :: 0 <= c < |V().used| ==> V().used[c]
    {
      hide Recorded, OwnedBut, Kept, Extends, PtrIn, FreeBlocks;
      InMemory(V(), roles, -1, i);
      KeptSame(V(), roles);
      r := OK;
      if vnodes[i].inode.indirect == 0 {
        var b;
        r, b := Balloc();
        if r == OK {
          GrowIndirect(old(V()), roles, b, i);
          vnodes := vnodes[i := Vnode(vnodes[i].inode.(indirect := b), true, vnodes[i].refs)];
          roles := roles[b := Indirect(i)];
          assert V() == IndirectAttached(Allocated(old(V()), b), b, i);
        }
      }
    }

    /** Entry `off` of the indirect block of file `i`, allocated if asked for and missing. */
    method MapEntry(i: nat, off: nat, doalloc: bool) returns (r: Error, b: nat)
      requires Valid() && i in vnodes && off < DBPERIDB && vnodes[i].inode.indirect != 0
      modifies this, freemap.v
      ensures Valid() && Kept(old(V()), V(), old(roles), roles) && r in {OK, ENOSPC}
      ensures r == OK ==> b == Ptr(V(), i, NDIRECT + off) && (doalloc ==> b != 0)
      ensures r == OK && b != 0 ==> b < |V().used| && V().used[b]
      ensures !doalloc || old(Ptr(V(), i, NDIRECT + off)) != 0 ==> r == OK && V() == old(V()) && roles == old(roles)
      ensures doalloc && old(Ptr(V(), i, NDIRECT + off)) == 0 ==> (r == OK <==> FreeBlocks(old(V()).used) > 0)
      ensures r == ENOSPC ==> V() == old(V()) && roles == old(roles) && forall c :: 0 <= c < |V().used| ==> V().used[c]
    {
      hide Recorded, OwnedBut, Kept, Extends, PtrIn, WordAt, Digit, FreeBlocks;
      InMemory(V(), roles, -1, i);
      KeptSame(V(), roles);
      EntryIs(V(), i, off);
      var idblock := vnodes[i].inode.indirect;
      var idbuf := Words(disk[idblock]);
      b := idbuf[off];
      r := OK;
      if b == 0 && doalloc {
        r, b := Balloc();
        if r == OK {
          GrowEntry(old(V()), roles, b, i, off);
          RecordDirty(disk, idblock, FromWords(Words(disk[idblock])[off := b]), freemap.v[..], freemap.v[..], true);
          idbuf := Words(disk[idblock])[off := b];
          disk := disk[idblock := FromWords(idbuf)];
          roles := roles[b := Data(i, NDIRECT + off)];
          assert V() == EntryAttached(Allocated(old(V()), b), b, idblock, off);
        }
      }
      if r == OK {
        CheckBlock(i, NDIRECT + off, b);
      }
    }

    /** sfs_bmap for a block behind the indirect block. */
    method MapIndirect(i: nat, off: nat, doalloc: bool) returns (r: Error, b: nat)
      requires Valid() && i in vnodes && off < DBPERIDB
      modifies this, freemap.v
      ensures Valid() && Kept(old(V()), V(), old(roles), roles) && r in {OK, ENOSPC}
      ensures r == OK ==> b == Ptr(V(), i, NDIRECT + off) && (doalloc ==> b != 0)
      ensures r == OK && b != 0 ==> b < |V().used| && V().used[b]
      ensures !doalloc || old(Ptr(V(), i, NDIRECT + off)) != 0 ==> r == OK && V() == old(V()) && roles == old(roles)
      ensures doalloc ==> (r == OK <==> CanMap(old(V()), i, NDIRECT + off))
      ensures r == ENOSPC ==> forall c :: 0 <= c < |V().used| ==> V().used[c]
    {
      hide Recorded, OwnedBut, Kept, Extends, FreeBlocks;
      InMemory(V(), roles, -1, i);
      KeptSame(V(), roles);
      if vnodes[i].inode.indirect == 0 && !doalloc {
        return OK, 0;
      }
      r := NeedIndirect(i);
      if r != OK {
        return r, 0;
      }
      ghost var v1, roles1 := V(), roles;
      r, b := MapEntry(i, off, doalloc);
      KeptAgain(old(V()), v1, V(), old(roles), roles1, roles);
    }

    /** sfs_bmap. Whatever happens, no file changes; a request to allocate either maps the block or finds the
        volume full or the file at its limit. */
    method Bmap(i: nat, fb: nat, doalloc: bool) returns (r: Error, b: nat)
      requires Valid() && i in vnodes
      modifies this, freemap.v
      ensures Valid() && Kept(old(V()), V(), old(roles), roles) && r in {OK, ENOSPC, EINVAL}
      ensures r == EINVAL <==> fb >= MAXBLOCKS
      ensures r == OK ==> b == Ptr(V(), i, fb) && (doalloc ==> b != 0)
      ensures r == OK && b != 0 ==> b < |V().used| && V().used[b]
      ensures !doalloc || old(Ptr(V(), i, fb)) != 0 ==> r != ENOSPC && V() == old(V()) && roles == old(roles)
      ensures r == ENOSPC ==> forall c :: 0 <= c < |V().used| ==> V().used[c]
      ensures r == ENOSPC && fb < NDIRECT ==> V() == old(V())
      ensures r == ENOSPC <==> doalloc && fb < MAXBLOCKS && !CanMap(old(V()), i, fb)
    {
      hide Recorded, OwnedBut, Kept, Extends, Ptr, CanMap, Valid;
      KeptSame(V(), roles);
      if fb < NDIRECT {
        r, b := MapDirect(i, fb, doalloc);
        return;
      }
      var idnum, idoff := (fb - NDIRECT) / DBPERIDB, (fb - NDIRECT) % DBPERIDB;
      if idnum > 0 {
        return EINVAL, 0;
      }
      r, b := MapIndirect(i, idoff, doalloc);
    }
  }
}
