/** Single changes to a volume - write a data block, allocate a block, attach it to a file - and what
    each does to block ownership and to the contents of files. */
module SfsBlocks {
  import opened SfsFormat
  import opened SfsVolume

  ghost predicate SameAttributes(n: Inode, m: Inode) {
    n.size == m.size && n.kind == m.kind && n.links == m.links
  }

  /** File `j` has the same attributes and the same bytes in both volumes. */
  ghost predicate SameFile(v: Vol, v': Vol, j: nat) {
    && SameAttributes(InodeOf(v, j), InodeOf(v', j))
    && forall k: nat :: ByteAt(v', j, k) == ByteAt(v, j, k)
  }

  /** The same inodes are in memory, with the same number of references. */
  ghost predicate SameRefs(v: Vol, v': Vol) {
    v'.mem.Keys == v.mem.Keys && forall i :: i in v.mem ==> v'.mem[i].refs == v.mem[i].refs
  }

  ghost predicate SameOthers(v: Vol, v': Vol, roles: Roles, i: int) {
    forall j :: IsInode(roles, j) && j != i ==> SameFile(v, v', j)
  }

  ghost predicate SameFiles(v: Vol, v': Vol, roles: Roles) {
    SameOthers(v, v', roles, -1)
  }

  /** The same blocks in the same places hold the same bytes. */
  lemma SameBytes(v: Vol, v': Vol, j: nat)
    requires |v'.disk| == |v.disk| && forall fb :: Ptr(v', j, fb) == Ptr(v, j, fb)
    requires forall fb :: 0 < Ptr(v, j, fb) < |v.disk| ==> v'.disk[Ptr(v, j, fb)] == v.disk[Ptr(v, j, fb)]
    ensures forall k: nat :: ByteAt(v', j, k) == ByteAt(v, j, k)
  {
    forall k: nat
      ensures ByteAt(v', j, k) == ByteAt(v, j, k)
    {
      assert Ptr(v', j, k / BLOCKSIZE) == Ptr(v, j, k / BLOCKSIZE);
    }
  }

  lemma PtrPastEnd(v: Vol, i: nat, fb: nat)
    requires fb >= MAXBLOCKS
    ensures Ptr(v, i, fb) == 0
  {
  }

  /** What a pointer leads to. */
  lemma PtrRole(v: Vol, roles: Roles, x: int, j: nat, fb: nat)
    requires OwnedBut(v, roles, x) && IsInode(roles, j) && Ptr(v, j, fb) != 0
    ensures fb < MAXBLOCKS && Has(roles, Ptr(v, j, fb), Data(j, fb)) && 0 < Ptr(v, j, fb) < |v.disk|
    ensures v.used[Ptr(v, j, fb)]
  {
    assert Points(v, roles, j);
  }

  /** What ownership says of an inode in memory. */
  lemma InMemory(v: Vol, roles: Roles, x: int, i: nat)
    requires OwnedBut(v, roles, x) && i in v.mem
    ensures IsInode(roles, i) && Fits(v.mem[i].inode) && InodeOf(v, i) == v.mem[i].inode
    ensures forall fb :: 0 <= fb < NDIRECT ==> Ptr(v, i, fb) == v.mem[i].inode.direct[fb]
    ensures v.mem[i].inode.indirect != 0 ==>
              Has(roles, v.mem[i].inode.indirect, Indirect(i)) && v.mem[i].inode.indirect < |v.disk|
  {
    assert Fits(InodeOf(v, i)) && Points(v, roles, i);
  }

  // ---------------------------------------------------------------- writing a data block

  lemma WriteInodes(v: Vol, roles: Roles, b: nat, blk: Block)
    requires Owned(v, roles) && b in roles && roles[b].Data?
    ensures forall j :: IsInode(roles, j) ==> InodeOf(v.(disk := v.disk[b := blk]), j) == InodeOf(v, j)
    ensures forall j, fb :: IsInode(roles, j) ==> Ptr(v.(disk := v.disk[b := blk]), j, fb) == Ptr(v, j, fb)
  {
    var v' := v.(disk := v.disk[b := blk]);
    forall j | IsInode(roles, j)
      ensures InodeOf(v', j) == InodeOf(v, j) && forall fb :: Ptr(v', j, fb) == Ptr(v, j, fb)
    {
      assert Points(v, roles, j);
      assert j != b && InodeOf(v, j).indirect != b;
    }
  }

  /** Writing file block `fb` of file `i` keeps ownership and changes exactly those bytes of that file. */
  lemma WriteBlock(v: Vol, roles: Roles, i: nat, fb: nat, blk: Block)
    requires Owned(v, roles) && IsInode(roles, i) && fb < MAXBLOCKS && Ptr(v, i, fb) != 0
    ensures Ptr(v, i, fb) < |v.disk| && Owned(v.(disk := v.disk[Ptr(v, i, fb) := blk]), roles)
    ensures SameOthers(v, v.(disk := v.disk[Ptr(v, i, fb) := blk]), roles, i)
    ensures InodeOf(v.(disk := v.disk[Ptr(v, i, fb) := blk]), i) == InodeOf(v, i)
    ensures forall k: nat :: ByteAt(v.(disk := v.disk[Ptr(v, i, fb) := blk]), i, k) ==
                        if k / BLOCKSIZE == fb then blk[k % BLOCKSIZE] else ByteAt(v, i, k)
  {
    PtrRole(v, roles, -1, i, fb);
    var b := Ptr(v, i, fb);
    var v' := v.(disk := v.disk[b := blk]);
    WriteInodes(v, roles, b, blk);
    WriteOwned(v, roles, b, blk);
    forall j | IsInode(roles, j) && j != i
      ensures SameFile(v, v', j)
    {
      forall fc | 0 < Ptr(v, j, fc) < |v.disk|
        ensures v'.disk[Ptr(v, j, fc)] == v.disk[Ptr(v, j, fc)]
      {
        PtrRole(v, roles, -1, j, fc);
      }
      SameBytes(v, v', j);
    }
    forall k: nat
      ensures ByteAt(v', i, k) == if k / BLOCKSIZE == fb then blk[k % BLOCKSIZE] else ByteAt(v, i, k)
    {
      var fc := k / BLOCKSIZE;
      if fc != fb && Ptr(v, i, fc) != 0 {
        PtrRole(v, roles, -1, i, fc);
      }
    }
  }

  lemma WriteOwned(v: Vol, roles: Roles, b: nat, blk: Block)
    requires Owned(v, roles) && b in roles && roles[b].Data?
    ensures Owned(v.(disk := v.disk[b := blk]), roles)
  {
    var v' := v.(disk := v.disk[b := blk]);
    WriteInodes(v, roles, b, blk);
    forall j | IsInode(roles, j)
      ensures Fits(InodeOf(v', j)) && Points(v', roles, j)
    {
      assert Points(v, roles, j);
    }
    forall c | c in roles
      ensures Placed(v', roles, c, roles[c])
    {
      assert Placed(v, roles, c, roles[c]);
    }
  }

  // ---------------------------------------------------------------- allocating a block

  function Allocated(v: Vol, x: nat): Vol
    requires x < |v.disk| && x < |v.used|
  {
    v.(used := v.used[x := true], disk := v.disk[x := ZeroBlock()])
  }

  lemma AllocInodes(v: Vol, roles: Roles, x: nat)
    requires Owned(v, roles) && x < |v.disk| && !v.used[x]
    ensures x !in roles
    ensures forall j :: IsInode(roles, j) ==> InodeOf(Allocated(v, x), j) == InodeOf(v, j)
    ensures forall j, fb :: IsInode(roles, j) ==> Ptr(Allocated(v, x), j, fb) == Ptr(v, j, fb)
  {
    var v' := Allocated(v, x);
    forall j | IsInode(roles, j)
      ensures InodeOf(v', j) == InodeOf(v, j) && forall fb :: Ptr(v', j, fb) == Ptr(v, j, fb)
    {
      assert Points(v, roles, j);
      assert j != x && InodeOf(v, j).indirect != x;
    }
  }

  /** A free block that is marked and cleared belongs to nobody and changes no file. */
  lemma AllocKeeps(v: Vol, roles: Roles, x: nat)
    requires Owned(v, roles) && x < |v.disk| && !v.used[x]
    ensures x !in roles && OwnedBut(Allocated(v, x), roles, x) && SameFiles(v, Allocated(v, x), roles)
  {
    var v' := Allocated(v, x);
    AllocInodes(v, roles, x);
    forall j | IsInode(roles, j)
      ensures Fits(InodeOf(v', j)) && Points(v', roles, j) && SameFile(v, v', j)
    {
      assert Points(v, roles, j);
      forall fb | 0 < Ptr(v, j, fb) < |v.disk|
        ensures v'.disk[Ptr(v, j, fb)] == v.disk[Ptr(v, j, fb)]
      {
        PtrRole(v, roles, -1, j, fb);
      }
      SameBytes(v, v', j);
    }
    forall c | c in roles
      ensures Placed(v', roles, c, roles[c])
    {
      assert Placed(v, roles, c, roles[c]);
    }
  }

  // ---------------------------------------------------------------- attaching a block to a file

  function WithInode(v: Vol, i: nat, n: Inode): Vol
    requires i in v.mem
  {
    v.(mem := v.mem[i := Vnode(n, true, v.mem[i].refs)])
  }

  /** `x` is a cleared block on its way to file `i`. */
  ghost predicate Ready(v: Vol, roles: Roles, x: nat, i: nat) {
    OwnedBut(v, roles, x) && x < |v.disk| && v.disk[x] == ZeroBlock() && i in v.mem
  }

  /** File `i` gained block `x` as file block `fb` and nothing else changed. */
  ghost predicate Gained(v: Vol, v': Vol, roles: Roles, x: nat, i: nat, fb: nat) {
    && Owned(v', roles[x := Data(i, fb)]) && SameFiles(v, v', roles) && Ptr(v', i, fb) == x > 0
    && (forall fc :: fc != fb ==> Ptr(v', i, fc) == Ptr(v, i, fc))
    && SameRefs(v, v') && v'.used == v.used && |v'.disk| == |v.disk|
  }

  lemma GainedBytes(v: Vol, v': Vol, roles: Roles, x: nat, i: nat, fb: nat)
    requires Ready(v, roles, x, i) && fb < MAXBLOCKS && Ptr(v, i, fb) == 0
    requires |v'.disk| == |v.disk| && v'.disk[x] == v.disk[x] && Ptr(v', i, fb) == x
    requires forall fc :: fc != fb ==> Ptr(v', i, fc) == Ptr(v, i, fc)
    requires forall b :: b in roles && roles[b].Data? ==> b < |v.disk| && v'.disk[b] == v.disk[b]
    ensures forall k: nat :: ByteAt(v', i, k) == ByteAt(v, i, k)
  {
    forall k: nat
      ensures ByteAt(v', i, k) == ByteAt(v, i, k)
    {
      var fc := k / BLOCKSIZE;
      if fc != fb && Ptr(v, i, fc) != 0 {
        PtrRole(v, roles, x, i, fc);
      }
    }
  }

  lemma OthersKeepFiles(v: Vol, v': Vol, roles: Roles, x: int, i: nat)
    requires OwnedBut(v, roles, x) && |v'.disk| == |v.disk|
    requires forall b :: b in roles && roles[b].Data? && roles[b].ino != i ==> v'.disk[b] == v.disk[b]
    requires forall j :: IsInode(roles, j) && j != i ==>
                           InodeOf(v', j) == InodeOf(v, j) && forall fb :: Ptr(v', j, fb) == Ptr(v, j, fb)
    ensures SameOthers(v, v', roles, i)
  {
    forall j | IsInode(roles, j) && j != i
      ensures SameFile(v, v', j)
    {
      forall fc | 0 < Ptr(v, j, fc) < |v.disk|
        ensures v'.disk[Ptr(v, j, fc)] == v.disk[Ptr(v, j, fc)]
      {
        PtrRole(v, roles, x, j, fc);
      }
      SameBytes(v, v', j);
    }
  }

  /** `v'` is `v` with `x` entered as file block `fb` of file `i`, in the inode or in its indirect block. */
  ghost predicate Entered(v: Vol, v': Vol, roles: Roles, x: nat, i: nat, fb: nat) {
    && fb < MAXBLOCKS && Ptr(v, i, fb) == 0 && Ptr(v', i, fb) == x
    && (forall fc :: fc != fb ==> Ptr(v', i, fc) == Ptr(v, i, fc))
    && i in v.mem && i in v'.mem && v'.mem == v.mem[i := v'.mem[i]] && v'.mem[i].refs == v.mem[i].refs && Clean(v')
    && Fits(InodeOf(v', i)) && SameAttributes(InodeOf(v, i), InodeOf(v', i))
    && InodeOf(v', i).indirect == InodeOf(v, i).indirect
    && v'.used == v.used && |v'.disk| == |v.disk|
    && (forall b :: 0 <= b < |v.disk| && (b != InodeOf(v, i).indirect || b == 0) ==> v'.disk[b] == v.disk[b])
  }

  lemma EnteredPoints(v: Vol, v': Vol, roles: Roles, roles': Roles, x: nat, i: nat, fb: nat)
    requires Ready(v, roles, x, i) && Entered(v, v', roles, x, i, fb) && roles' == roles[x := Data(i, fb)]
    ensures Points(v', roles', i) && AllPlaced(v', roles', i)
  {
    assert Points(v, roles, i);
    forall b | b in roles' && Mine(roles'[b], i)
      ensures Placed(v', roles', b, roles'[b])
    {
      if b != x {
        assert Placed(v, roles, b, roles[b]);
      }
    }
  }

  lemma EnteredOwned(v: Vol, v': Vol, roles: Roles, roles': Roles, x: nat, i: nat, fb: nat)
    requires Ready(v, roles, x, i) && Entered(v, v', roles, x, i, fb) && roles' == roles[x := Data(i, fb)]
    ensures Owned(v', roles') && SameOthers(v, v', roles, i)
  {
    hide Points, PtrIn, Placed, Clean, Marked, SameRoles, SameMetadata;
    EnteredPoints(v, v', roles, roles', x, i, fb);
    EnteredShape(v, v', roles, roles', x, i, fb);
    Local(v, v', roles, roles', i, x, -1);
    OthersKeepFiles(v, v', roles, x, i);
  }

  lemma EnteredShape(v: Vol, v': Vol, roles: Roles, roles': Roles, x: nat, i: nat, fb: nat)
    requires Ready(v, roles, x, i) && Entered(v, v', roles, x, i, fb) && roles' == roles[x := Data(i, fb)]
    ensures Marked(v', roles', -1) && SameMetadata(v, v', roles, i) && SameRoles(roles, roles', i)
    ensures forall b :: b in roles && roles[b].Data? && roles[b].ino != i ==> v'.disk[b] == v.disk[b]
  {
    hide Placed, PtrIn;
    assert Points(v, roles, i);
  }

  lemma EnterKeeps(v: Vol, v': Vol, roles: Roles, x: nat, i: nat, fb: nat)
    requires Ready(v, roles, x, i) && Entered(v, v', roles, x, i, fb)
    ensures Gained(v, v', roles, x, i, fb)
  {
    assert Points(v, roles, i);
    assert InodeOf(v, i).indirect != x;
    EnteredOwned(v, v', roles, roles[x := Data(i, fb)], x, i, fb);
    GainedBytes(v, v', roles, x, i, fb);
  }

  function DirectAttached(v: Vol, x: nat, i: nat, fb: nat): Vol
    requires i in v.mem && fb < |v.mem[i].inode.direct|
  {
    WithInode(v, i, v.mem[i].inode.(direct := v.mem[i].inode.direct[fb := x]))
  }

  lemma AttachDirect(v: Vol, roles: Roles, x: nat, i: nat, fb: nat)
    requires Ready(v, roles, x, i) && fb < NDIRECT && Ptr(v, i, fb) == 0
    ensures fb < |v.mem[i].inode.direct| && Gained(v, DirectAttached(v, x, i, fb), roles, x, i, fb)
  {
    assert Fits(InodeOf(v, i));
    EnterKeeps(v, DirectAttached(v, x, i, fb), roles, x, i, fb);
  }

  function IndirectAttached(v: Vol, x: nat, i: nat): Vol
    requires i in v.mem
  {
    WithInode(v, i, v.mem[i].inode.(indirect := x))
  }

  /** An indirect block is cleared, so attaching it maps no file block. */
  lemma AttachIndirect(v: Vol, roles: Roles, x: nat, i: nat)
    requires Ready(v, roles, x, i) && InodeOf(v, i).indirect == 0
    ensures Owned(IndirectAttached(v, x, i), roles[x := Indirect(i)]) && SameFiles(v, IndirectAttached(v, x, i), roles)
    ensures forall fb :: Ptr(IndirectAttached(v, x, i), i, fb) == Ptr(v, i, fb)
  {
    hide PtrIn, Placed, Clean, Marked, SameRoles, SameMetadata, InodeOf, Points;
    var v', roles' := IndirectAttached(v, x, i), roles[x := Indirect(i)];
    IndirectPoints(v, roles, x, i);
    IndirectShape(v, roles, x, i);
    Local(v, v', roles, roles', i, x, -1);
    SameBytes(v, v', i);
    OthersKeepFiles(v, v', roles, x, i);
  }

  lemma IndirectPoints(v: Vol, roles: Roles, x: nat, i: nat)
    requires Ready(v, roles, x, i) && InodeOf(v, i).indirect == 0
    ensures var v', roles' := IndirectAttached(v, x, i), roles[x := Indirect(i)];
            && (forall fb :: Ptr(v', i, fb) == Ptr(v, i, fb)) && SameAttributes(InodeOf(v, i), InodeOf(v', i))
            && Fits(InodeOf(v', i)) && Points(v', roles', i) && AllPlaced(v', roles', i)
  {
    assert Fits(InodeOf(v, i)) && Points(v, roles, i);
    ZeroBlockReads();
    var v', roles' := IndirectAttached(v, x, i), roles[x := Indirect(i)];
    assert forall fb :: Ptr(v', i, fb) == Ptr(v, i, fb);
    forall b | b in roles' && Mine(roles'[b], i)
      ensures Placed(v', roles', b, roles'[b])
    {
      if b != x {
        assert Placed(v, roles, b, roles[b]);
      }
    }
  }

  lemma IndirectShape(v: Vol, roles: Roles, x: nat, i: nat)
    requires Ready(v, roles, x, i)
    ensures var v', roles' := IndirectAttached(v, x, i), roles[x := Indirect(i)];
            Marked(v', roles', -1) && SameMetadata(v, v', roles, i) && SameRoles(roles, roles', i) && Clean(v')
  {
    hide Points, Placed;
  }

  function EntryAttached(v: Vol, x: nat, ind: nat, off: nat): Vol
    requires ind < |v.disk| && off < DBPERIDB
  {
    v.(disk := v.disk[ind := FromWords(Words(v.disk[ind])[off := x])])
  }

  lemma AttachEntry(v: Vol, roles: Roles, x: nat, i: nat, off: nat)
    requires Ready(v, roles, x, i) && off < DBPERIDB
    requires InodeOf(v, i).indirect != 0 && Ptr(v, i, NDIRECT + off) == 0
    ensures InodeOf(v, i).indirect < |v.disk|
    ensures Gained(v, EntryAttached(v, x, InodeOf(v, i).indirect, off), roles, x, i, NDIRECT + off)
  {
    assert Fits(InodeOf(v, i)) && Points(v, roles, i);
    EntryPtrs(v, x, i, off);
    EntryClean(v, roles, x, i, off);
    EnterKeeps(v, EntryAttached(v, x, InodeOf(v, i).indirect, off), roles, x, i, NDIRECT + off);
  }

  lemma EntryPtrs(v: Vol, x: nat, i: nat, off: nat)
    requires i in v.mem && off < DBPERIDB && 0 < InodeOf(v, i).indirect < |v.disk| && x < U32
    ensures var v' := EntryAttached(v, x, InodeOf(v, i).indirect, off);
            && Ptr(v', i, NDIRECT + off) == x
            && forall fc :: fc != NDIRECT + off ==> Ptr(v', i, fc) == Ptr(v, i, fc)
  {
    var ind := InodeOf(v, i).indirect;
    var ws := Words(v.disk[ind])[off := x];
    WordsRoundTrip(ws);
    var v' := EntryAttached(v, x, ind, off);
    assert Words(v'.disk[ind]) == ws;
  }

  lemma EntryClean(v: Vol, roles: Roles, x: nat, i: nat, off: nat)
    requires Shaped(v, roles) && Clean(v) && i in v.mem && off < DBPERIDB
    requires Has(roles, InodeOf(v, i).indirect, Indirect(i))
    ensures Clean(EntryAttached(v, x, InodeOf(v, i).indirect, off))
    ensures v.mem == v.mem[i := v.mem[i]]
  {
  }

  // ---------------------------------------------------------------- allocating and attaching

  /** The same inodes are allocated before and after, and every block kept its role. */
  ghost predicate Extends(roles: Roles, roles': Roles) {
    && (forall b :: b in roles ==> Has(roles', b, roles[b]))
    && (forall b :: b in roles' && roles'[b].InodeBlock? ==> b in roles)
  }

  /** What mapping a file block keeps: all files, the inodes in memory, and the role of every block. */
  ghost predicate Kept(v: Vol, v': Vol, roles: Roles, roles': Roles) {
    && SameFiles(v, v', roles) && Extends(roles, roles')
    && SameRefs(v, v') && |v'.disk| == |v.disk| && |v'.used| == |v.used|
  }

  lemma KeptSame(v: Vol, roles: Roles)
    ensures Kept(v, v, roles, roles)
  {
  }

  lemma KeptAgain(v: Vol, w: Vol, u: Vol, roles: Roles, roles': Roles, roles'': Roles)
    requires Kept(v, w, roles, roles') && Kept(w, u, roles', roles'')
    ensures Kept(v, u, roles, roles'')
  {
    forall j | IsInode(roles, j)
      ensures SameFile(v, u, j)
    {
      assert IsInode(roles', j);
      assert SameFile(v, w, j) && SameFile(w, u, j);
    }
  }

  lemma AllocReady(v: Vol, roles: Roles, x: nat, i: nat)
    requires Owned(v, roles) && x < |v.disk| && !v.used[x] && i in v.mem
    ensures Ready(Allocated(v, x), roles, x, i) && x !in roles
    ensures InodeOf(Allocated(v, x), i) == InodeOf(v, i) && forall fb :: Ptr(Allocated(v, x), i, fb) == Ptr(v, i, fb)
    ensures Kept(v, Allocated(v, x), roles, roles)
  {
    AllocKeeps(v, roles, x);
    AllocInodes(v, roles, x);
    assert IsInode(roles, i);
  }

  lemma GrowDirect(v: Vol, roles: Roles, x: nat, i: nat, fb: nat)
    requires Owned(v, roles) && x < |v.disk| && !v.used[x] && i in v.mem && fb < NDIRECT && Ptr(v, i, fb) == 0
    ensures |v.mem[i].inode.direct| == NDIRECT
    ensures var v' := DirectAttached(Allocated(v, x), x, i, fb);
            && Owned(v', roles[x := Data(i, fb)]) && Kept(v, v', roles, roles[x := Data(i, fb)])
            && Ptr(v', i, fb) == x > 0
  {
    AllocReady(v, roles, x, i);
    AttachDirect(Allocated(v, x), roles, x, i, fb);
    assert Fits(InodeOf(v, i));
    KeptAgain(v, Allocated(v, x), DirectAttached(Allocated(v, x), x, i, fb), roles, roles, roles[x := Data(i, fb)]);
  }

  lemma GrowIndirect(v: Vol, roles: Roles, x: nat, i: nat)
    requires Owned(v, roles) && x < |v.disk| && !v.used[x] && i in v.mem && InodeOf(v, i).indirect == 0
    ensures var v' := IndirectAttached(Allocated(v, x), x, i);
            && Owned(v', roles[x := Indirect(i)]) && Kept(v, v', roles, roles[x := Indirect(i)])
            && InodeOf(v', i).indirect == x > 0 && v'.disk[x] == ZeroBlock()
            && forall fb :: Ptr(v', i, fb) == Ptr(v, i, fb)
  {
    AllocReady(v, roles, x, i);
    AttachIndirect(Allocated(v, x), roles, x, i);
    KeptAgain(v, Allocated(v, x), IndirectAttached(Allocated(v, x), x, i), roles, roles, roles[x := Indirect(i)]);
  }

  lemma GrowEntry(v: Vol, roles: Roles, x: nat, i: nat, off: nat)
    requires Owned(v, roles) && x < |v.disk| && !v.used[x] && i in v.mem && off < DBPERIDB
    requires InodeOf(v, i).indirect != 0 && Ptr(v, i, NDIRECT + off) == 0
    ensures InodeOf(v, i).indirect < |v.disk|
    ensures var v' := EntryAttached(Allocated(v, x), x, InodeOf(v, i).indirect, off);
            && Owned(v', roles[x := Data(i, NDIRECT + off)]) && Kept(v, v', roles, roles[x := Data(i, NDIRECT + off)])
            && Ptr(v', i, NDIRECT + off) == x > 0
  {
    AllocReady(v, roles, x, i);
    AttachEntry(Allocated(v, x), roles, x, i, off);
    KeptAgain(v, Allocated(v, x), EntryAttached(Allocated(v, x), x, InodeOf(v, i).indirect, off),
              roles, roles, roles[x := Data(i, NDIRECT + off)]);
  }

  // ---------------------------------------------------------------- attributes

  /** Changing size, type or link count of a file concerns no block. */
  lemma SetAttributes(v: Vol, roles: Roles, i: nat, n: Inode)
    requires Owned(v, roles) && i in v.mem && Fits(n)
    requires n == v.mem[i].inode.(size := n.size, kind := n.kind, links := n.links)
    ensures Owned(WithInode(v, i, n), roles) && SameOthers(v, WithInode(v, i, n), roles, i)
    ensures InodeOf(WithInode(v, i, n), i) == n
    ensures forall k: nat :: ByteAt(WithInode(v, i, n), i, k) == ByteAt(v, i, k)
    ensures forall fb :: Ptr(WithInode(v, i, n), i, fb) == Ptr(v, i, fb)
  {
    hide PtrIn, Placed, Clean, Marked, SameRoles, SameMetadata, InodeOf, Points;
    var v' := WithInode(v, i, n);
    AttributePoints(v, roles, i, n);
    Local(v, v', roles, roles, i, -1, -1);
    SameBytes(v, v', i);
    OthersKeepFiles(v, v', roles, -1, i);
  }

  lemma AttributePoints(v: Vol, roles: Roles, i: nat, n: Inode)
    requires Owned(v, roles) && i in v.mem && Fits(n)
    requires n == v.mem[i].inode.(size := n.size, kind := n.kind, links := n.links)
    ensures var v' := WithInode(v, i, n);
            && InodeOf(v', i) == n && Points(v', roles, i) && AllPlaced(v', roles, i)
            && (forall fb :: Ptr(v', i, fb) == Ptr(v, i, fb))
            && Marked(v', roles, -1) && SameMetadata(v, v', roles, i) && SameRoles(roles, roles, i) && Clean(v')
  {
    assert Points(v, roles, i);
    var v' := WithInode(v, i, n);
    assert forall fb :: Ptr(v', i, fb) == Ptr(v, i, fb);
    forall b | b in roles && Mine(roles[b], i)
      ensures Placed(v', roles, b, roles[b])
    {
      assert Placed(v, roles, b, roles[b]);
    }
  }
}
