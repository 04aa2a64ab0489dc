/** Taking blocks away from a file, for truncation in os161/kern/fs/sfs/sfs_vnode.c. */
module SfsTrim {
  import opened SfsFormat
  import opened SfsVolume
  import opened SfsBlocks

  /** The file blocks from `lo` to `hi` that lie at or past `len`. */
  datatype Cut = Cut(lo: nat, hi: nat, len: nat) {
    predicate Has(fb: nat) {
      lo <= fb < hi && fb >= len
    }
  }

  /** The role goes when the file blocks `cut` of file `i` are taken away, and its indirect block if `ind`. */
  predicate Gone(r: Role, i: nat, cut: Cut, ind: bool) {
    (r.Data? && r.ino == i && cut.Has(r.fb)) || (r.Indirect? && r.ino == i && ind)
  }

  function Without(roles: Roles, i: nat, cut: Cut, ind: bool): Roles {
    map b | b in roles && !Gone(roles[b], i, cut, ind) :: roles[b]
  }

  /** `v'` is `v` after the blocks were freed and the inode and its indirect block no longer name them. */
  ghost predicate Trimmed(v: Vol, v': Vol, roles: Roles, i: nat, cut: Cut, ind: bool) {
    && i in v.mem && i in v'.mem && v'.mem == v.mem[i := v'.mem[i]] && v'.mem[i].refs == v.mem[i].refs && Clean(v')
    && Fits(v'.mem[i].inode) && SameAttributes(v.mem[i].inode, v'.mem[i].inode)
    && (forall fb :: Ptr(v', i, fb) == if cut.Has(fb) then 0 else Ptr(v, i, fb))
    && v'.mem[i].inode.indirect == (if ind then 0 else v.mem[i].inode.indirect)
    && |v'.disk| == |v.disk| && |v'.used| == |v.used|
    && (forall b :: 0 <= b < |v.disk| && b != v.mem[i].inode.indirect ==> v'.disk[b] == v.disk[b])
    && (forall b :: 0 <= b < |v.used| ==>
          (v'.used[b] <==> v.used[b] && !(b in roles && Gone(roles[b], i, cut, ind))))
  }

  lemma TrimmedPoints(v: Vol, v': Vol, roles: Roles, i: nat, cut: Cut, ind: bool)
    requires Owned(v, roles) && Trimmed(v, v', roles, i, cut, ind)
    requires ind ==> forall fb :: NDIRECT <= fb < MAXBLOCKS ==> Ptr(v', i, fb) == 0
    ensures Points(v', Without(roles, i, cut, ind), i) && AllPlaced(v', Without(roles, i, cut, ind), i)
  {
    var roles' := Without(roles, i, cut, ind);
    assert IsInode(roles, i);
    assert Points(v, roles, i);
    forall b | b in roles' && Mine(roles'[b], i)
      ensures Placed(v', roles', b, roles'[b])
    {
      assert Placed(v, roles, b, roles[b]);
    }
  }

  lemma TrimmedMarked(v: Vol, v': Vol, roles: Roles, i: nat, cut: Cut, ind: bool)
    requires Owned(v, roles) && Trimmed(v, v', roles, i, cut, ind)
    ensures Marked(v', Without(roles, i, cut, ind), -1) && SameMetadata(v, v', roles, i)
    ensures SameRoles(roles, Without(roles, i, cut, ind), i)
  {
    assert IsInode(roles, i);
    assert Points(v, roles, i);
  }

  lemma WithoutInside(v: Vol, roles: Roles, i: nat, cut: Cut, ind: bool)
    requires Shaped(v, roles)
    ensures forall b :: b in Without(roles, i, cut, ind) ==> b < |v.disk|
  {
  }

  lemma TrimOwned(v: Vol, v': Vol, roles: Roles, i: nat, cut: Cut, ind: bool)
    requires Owned(v, roles) && Trimmed(v, v', roles, i, cut, ind)
    requires ind ==> forall fb :: NDIRECT <= fb < MAXBLOCKS ==> Ptr(v', i, fb) == 0
    ensures Owned(v', Without(roles, i, cut, ind)) && SameOthers(v, v', roles, i)
  {
    hide PtrIn, Placed, Clean, Marked, SameRoles, SameMetadata, Points, Without;
    TrimmedPoints(v, v', roles, i, cut, ind);
    TrimmedMarked(v, v', roles, i, cut, ind);
    WithoutInside(v, roles, i, cut, ind);
    Local(v, v', roles, Without(roles, i, cut, ind), i, -1, -1);
    InMemory(v, roles, -1, i);
    OthersKeepFiles(v, v', roles, -1, i);
  }

  /** Freeing blocks of a file keeps ownership; the file reads as zeros there and is unchanged elsewhere. */
  lemma TrimKeeps(v: Vol, v': Vol, roles: Roles, i: nat, cut: Cut, ind: bool)
    requires Owned(v, roles) && Trimmed(v, v', roles, i, cut, ind)
    requires ind ==> forall fb :: NDIRECT <= fb < MAXBLOCKS ==> Ptr(v', i, fb) == 0
    ensures Owned(v', Without(roles, i, cut, ind)) && SameOthers(v, v', roles, i)
    ensures forall k: nat :: ByteAt(v', i, k) == if cut.Has(k / BLOCKSIZE) then 0 else ByteAt(v, i, k)
  {
    TrimOwned(v, v', roles, i, cut, ind);
    InMemory(v, roles, -1, i);
    hide OwnedBut, SameOthers, PtrIn;
    forall k: nat
      ensures ByteAt(v', i, k) == if cut.Has(k / BLOCKSIZE) then 0 else ByteAt(v, i, k)
    {
      var fb := k / BLOCKSIZE;
      if Ptr(v, i, fb) != 0 {
        PtrRole(v, roles, -1, i, fb);
      }
    }
  }
}
