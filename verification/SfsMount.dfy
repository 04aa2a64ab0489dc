/** Making, syncing and mounting an SFS volume: os161/sbin/mksfs/mksfs.c and os161/kern/fs/sfs/sfs_fs.c. */
module SfsMount {
  import opened SfsFormat
  import opened SfsVolume
  import opened SfsBlocks
  import opened Sfs
  import opened SfsIo
  import opened SfsNames
  import opened SfsVnodes
  import opened Bitmap

  const MAXBITBLOCKS: nat := 32    // the largest free map mksfs can write

  // ---------------------------------------------------------------- the free map on disk

  /** The bytes of the free map, read from the disk. */
  function MapBytes(disk: seq<Block>): (r: seq<Byte>)
    requires MAP_LOCATION + BitBlocks(|disk|) <= |disk|
    ensures |r| == BLOCKSIZE * BitBlocks(|disk|)
  {
    seq<Byte>(BLOCKSIZE * BitBlocks(|disk|), k requires 0 <= k < BLOCKSIZE * BitBlocks(|disk|) =>
      disk[MAP_LOCATION + k / BLOCKSIZE][k % BLOCKSIZE])
  }

  lemma BlockIndex(j: nat, m: nat)
    requires m < BLOCKSIZE
    ensures (BLOCKSIZE * j + m) / BLOCKSIZE == j && (BLOCKSIZE * j + m) % BLOCKSIZE == m
  {
  }

  lemma MapBytesOn(disk: seq<Block>)
    requires MAP_LOCATION + BitBlocks(|disk|) <= |disk|
    ensures MapOnDisk(disk, MapBytes(disk))
  {
    hide BitBlocks;
    var bytes := MapBytes(disk);
    forall j: nat | j < BitBlocks(|disk|)
      ensures MapBlock(disk, bytes, j)
    {
      var blk := disk[MAP_LOCATION + j];
      forall m | 0 <= m < BLOCKSIZE
        ensures bytes[BLOCKSIZE * j + m] == blk[m]
      {
        BlockIndex(j, m);
      }
    }
  }

  /** There is only one such map. */
  lemma MapBytesUnique(disk: seq<Block>, bytes: seq<Byte>)
    requires MapOnDisk(disk, bytes) && MAP_LOCATION + BitBlocks(|disk|) <= |disk|
    ensures bytes == MapBytes(disk)
  {
    hide BitBlocks;
    forall k | 0 <= k < |bytes|
      ensures bytes[k] == MapBytes(disk)[k]
    {
      assert MapBlock(disk, bytes, k / BLOCKSIZE);
      assert k == BLOCKSIZE * (k / BLOCKSIZE) + k % BLOCKSIZE;
    }
  }

  /** sfs_mapio for a write. */
  method WriteMap(disk: seq<Block>, bytes: seq<Byte>, mapsize: nat) returns (d: seq<Block>)
    requires MAP_LOCATION + mapsize <= |disk| && |bytes| >= BLOCKSIZE * mapsize
    ensures |d| == |disk| && (mapsize == BitBlocks(|disk|) ==> MapOnDisk(d, bytes[..BLOCKSIZE * mapsize]))
    ensures forall b :: 0 <= b < |disk| && !(MAP_LOCATION <= b < MAP_LOCATION + mapsize) ==> d[b] == disk[b]
  {
    hide BitBlocks;
    d := disk;
    var j := 0;
    while j < mapsize
      invariant 0 <= j <= mapsize && |d| == |disk|
      invariant forall k: nat :: k < j ==> MapBlock(d, bytes, k)
      invariant forall b :: 0 <= b < |disk| && !(MAP_LOCATION <= b < MAP_LOCATION + j) ==> d[b] == disk[b]
    {
      MapRoom(j, mapsize, |bytes|);
      ghost var d0 := d;
      d := d[MAP_LOCATION + j := bytes[BLOCKSIZE * j..BLOCKSIZE * j + BLOCKSIZE]];
      assert MapBlock(d, bytes, j);
      forall k: nat | k < j
        ensures MapBlock(d, bytes, k)
      {
        assert MapBlock(d0, bytes, k);
      }
      j := j + 1;
    }
    if mapsize == BitBlocks(|disk|) {
      CutBytes(d, bytes, mapsize);
    }
  }

  lemma MapRoom(j: nat, n: nat, len: nat)
    requires j < n && len >= BLOCKSIZE * n
    ensures BLOCKSIZE * j + BLOCKSIZE <= len
  {
  }

  lemma CutBytes(d: seq<Block>, bytes: seq<Byte>, n: nat)
    requires n == BitBlocks(|d|) && |bytes| >= BLOCKSIZE * n && forall k: nat :: k < n ==> MapBlock(d, bytes, k)
    ensures MapOnDisk(d, bytes[..BLOCKSIZE * n])
  {
    hide BitBlocks;
    var cut := bytes[..BLOCKSIZE * n];
    forall k: nat | k < n
      ensures MapBlock(d, cut, k)
    {
      MapRoom(k, n, BLOCKSIZE * n);
      assert MapBlock(d, bytes, k);
      assert cut[BLOCKSIZE * k..BLOCKSIZE * k + BLOCKSIZE] == bytes[BLOCKSIZE * k..BLOCKSIZE * k + BLOCKSIZE];
    }
  }

  /** sfs_mapio for a read. */
  method ReadMap(disk: seq<Block>, v: array<Byte>)
    requires MAP_LOCATION + BitBlocks(|disk|) <= |disk| && v.Length == BLOCKSIZE * BitBlocks(|disk|)
    modifies v
    ensures v[..] == MapBytes(disk)
  {
    hide BitBlocks;
    var mapsize := BitBlocks(|disk|);
    var j := 0;
    while j < mapsize
      invariant 0 <= j <= mapsize
      invariant forall k :: 0 <= k < BLOCKSIZE * j ==> v[k] == MapBytes(disk)[k]
    {
      MapRoom(j, mapsize, v.Length);
      var blk := disk[MAP_LOCATION + j];
      forall m | 0 <= m < BLOCKSIZE
        ensures blk[m] == MapBytes(disk)[BLOCKSIZE * j + m]
      {
        BlockIndex(j, m);
      }
      var m := 0;
      while m < BLOCKSIZE
        invariant 0 <= m <= BLOCKSIZE
        invariant forall k :: 0 <= k < BLOCKSIZE * j + m ==> v[k] == MapBytes(disk)[k]
      {
        v[BLOCKSIZE * j + m] := blk[m];
        m := m + 1;
      }
      j := j + 1;
    }
  }

  // ---------------------------------------------------------------- sync

  lemma MapFits(v: Vol, roles: Roles)
    requires Shaped(v, roles)
    ensures MAP_LOCATION + BitBlocks(|v.disk|) <= |v.disk|
  {
    hide BitBlocks;
    if BitBlocks(|v.disk|) > 0 {
      assert Has(roles, MAP_LOCATION + BitBlocks(|v.disk|) - 1, Reserved);
    } else {
      assert Has(roles, ROOT_LOCATION, InodeBlock);
    }
  }

  /** Writing the map blocks changes no file. */
  lemma MapWriteKeeps(v: Vol, d: seq<Block>, roles: Roles)
    requires Owned(v, roles) && |d| == |v.disk|
    requires forall b :: 0 <= b < |d| && !(MAP_LOCATION <= b < MAP_LOCATION + BitBlocks(|d|)) ==> d[b] == v.disk[b]
    ensures Owned(v.(disk := d), roles) && SameFiles(v, v.(disk := d), roles)
  {
    hide BitBlocks;
    var v' := v.(disk := d);
    forall b | b in roles && roles[b] != Reserved
      ensures d[b] == v.disk[b]
    {
      assert !Has(roles, b, Reserved);
    }
    forall j | IsInode(roles, j)
      ensures InodeOf(v', j) == InodeOf(v, j) && forall fb :: Ptr(v', j, fb) == Ptr(v, j, fb)
    {
      assert Points(v, roles, j);
    }
    Reowned(v, v', roles);
  }

  ghost predicate AllClean(mem: map<nat, Vnode>) {
    forall i :: i in mem ==> !mem[i].dirty
  }

  /** The same inodes, whether dirty or not. */
  ghost predicate SameVnodes(mem: map<nat, Vnode>, mem': map<nat, Vnode>) {
    mem'.Keys == mem.Keys && forall i :: i in mem ==> mem'[i].inode == mem[i].inode && mem'[i].refs == mem[i].refs
  }

  /** sfs_sync: afterwards all there is to know is on the disk, and no file has changed. */
  method Sync(fs: Fs)
    requires fs.Valid()
    modifies fs`disk, fs`vnodes, fs`mapdirty
    ensures fs.Valid() && SameFiles(old(fs.V()), fs.V(), fs.roles) && SameVnodes(old(fs.vnodes), fs.vnodes)
    ensures AllClean(fs.vnodes) && !fs.mapdirty
  {
    hide OwnedBut, SameOthers, Recorded;
    SyncVnodes(fs);
    if fs.mapdirty {
      ghost var v := fs.V();
      MapInside(fs);
      ghost var disk := fs.disk;
      var d := WriteMap(fs.disk, fs.freemap.v[..], BitBlocks(|fs.disk|));
      MapWriteKeeps(v, d, fs.roles);
      RecordAfter(disk, d, fs.freemap.v[..], fs.mapdirty);
      fs.disk, fs.mapdirty := d, false;
      FilesAgain(old(fs.V()), v, fs.V(), fs.roles);
    }
  }

  lemma MapInside(fs: Fs)
    requires fs.Valid()
    ensures MAP_LOCATION + BitBlocks(|fs.disk|) <= |fs.disk| && fs.freemap.v.Length == BLOCKSIZE * BitBlocks(|fs.disk|)
  {
    MapFits(fs.V(), fs.roles);
  }

  lemma RecordAfter(disk: seq<Block>, d: seq<Block>, bytes: seq<Byte>, dirty: bool)
    requires Recorded(disk, bytes, dirty) && |d| == |disk| && |bytes| == BLOCKSIZE * BitBlocks(|disk|)
    requires MapOnDisk(d, bytes[..BLOCKSIZE * BitBlocks(|disk|)])
    requires forall b :: 0 <= b < |disk| && !(MAP_LOCATION <= b < MAP_LOCATION + BitBlocks(|disk|)) ==> d[b] == disk[b]
    ensures Recorded(d, bytes, false)
  {
    hide MapOnDisk, BitBlocks, WordAt;
    assert bytes[..|bytes|] == bytes;
  }

  /** The loop over the table of loaded vnodes; its order does not matter. */
  method SyncVnodes(fs: Fs)
    requires fs.Valid()
    modifies fs`disk, fs`vnodes
    ensures fs.Valid() && SameFiles(old(fs.V()), fs.V(), fs.roles) && SameVnodes(old(fs.vnodes), fs.vnodes)
    ensures AllClean(fs.vnodes)
  {
    hide OwnedBut, SameOthers, Recorded;
    var todo := fs.vnodes.Keys;
    SameFilesRefl(fs.V(), fs.roles);
    while todo != {}
      invariant todo <= fs.vnodes.Keys && fs.Valid() && SameFiles(old(fs.V()), fs.V(), fs.roles)
      invariant SameVnodes(old(fs.vnodes), fs.vnodes)
      invariant forall i :: i in fs.vnodes && i !in todo ==> !fs.vnodes[i].dirty
      decreases todo
    {
      var i :| i in todo;
      ghost var v := fs.V();
      SyncInode(fs, i);
      FilesAgain(old(fs.V()), v, fs.V(), fs.roles);
      todo := todo - {i};
    }
  }

  // ---------------------------------------------------------------- mount

  /** The volume a disk holds, with nothing in memory yet. */
  function OnDisk(d: seq<Block>): Vol
    requires MAP_LOCATION + BitBlocks(|d|) <= |d|
  {
    Vol(d, Bits(MapBytes(d)), map[])
  }

  ghost predicate Mountable(d: seq<Block>, roles: Roles) {
    SuperOk(d) && MAP_LOCATION + BitBlocks(|d|) <= |d| && Owned(OnDisk(d), roles)
  }

  /** sfs_domount of a volume on a device that may be larger. */
  method Mount(dev: seq<Block>, ghost roles: Roles) returns (r: Error, fs: Fs?)
    requires |dev| > 0
    requires WordAt(dev[SB_LOCATION], 0) == MAGIC ==>
               0 < WordAt(dev[SB_LOCATION], 4) <= |dev| && Mountable(dev[..WordAt(dev[SB_LOCATION], 4)], roles)
    ensures r == if WordAt(dev[SB_LOCATION], 0) == MAGIC then OK else EINVAL
    ensures r == OK ==>
              && fs != null && fresh(fs) && fresh(fs.freemap.v) && fs.Valid() && fs.roles == roles
              && fs.V() == OnDisk(dev[..WordAt(dev[SB_LOCATION], 4)])
  {
    hide OwnedBut, WordAt;
    if WordAt(dev[SB_LOCATION], 0) != MAGIC {
      return EINVAL, null;
    }
    var nblocks := WordAt(dev[SB_LOCATION], 4);
    var d := dev[..nblocks];
    var freemap := new BitArray(BLOCKBITS * BitBlocks(nblocks));
    ReadMap(d, freemap.v);
    MapBytesOn(d);
    fs := new Fs(d, freemap, roles);
    r := OK;
  }

  /** What a sync has put on disk is what a mount finds there: the same files in the same blocks, even if it
      happens with files still open. */
  lemma RemountKeeps(v: Vol, roles: Roles, bytes: seq<Byte>)
    requires Owned(v, roles) && AllClean(v.mem) && Recorded(v.disk, bytes, false) && v.used == Bits(bytes)
    ensures Mountable(v.disk, roles) && OnDisk(v.disk) == v.(mem := map[]) && SameFiles(v, OnDisk(v.disk), roles)
  {
    MapFits(v, roles);
    MapBytesUnique(v.disk, bytes);
    var v' := v.(mem := map[]);
    forall j: nat | IsInode(roles, j)
      ensures InodeOf(v', j) == InodeOf(v, j)
    {
      assert j in v.mem ==> DecodeInode(v.disk[j]) == v.mem[j].inode;
    }
    Reowned(v, v', roles);
  }

  /** The names come back too, and the link counts agree with them. Unlinked files that were open are what can be
      lost: the remounted volume is consistent exactly when there are none. */
  lemma RemountNames(v: Vol, v': Vol, roles: Roles)
    requires Linked(v, roles) && SameFiles(v, v', roles) && v'.mem == map[]
    ensures Dir(v') == Dir(v)
    ensures Linked(v', roles) <==> forall i :: IsInode(roles, i) ==> InodeOf(v, i).links > 0
  {
    hide ByteAt, InodeOf, Slot;
    assert SameFile(v, v', ROOT_LOCATION);
    SameDir(v, v');
    forall i | IsInode(roles, i)
      ensures SameFile(v, v', i)
    {
    }
    if forall i :: IsInode(roles, i) ==> InodeOf(v, i).links > 0 {
      assert Held(v', roles);
      FilesKeep(v, v', roles, roles, -1, 0);
    }
  }

  lemma SyncLinked(v: Vol, v': Vol, roles: Roles)
    requires Linked(v, roles) && SameFiles(v, v', roles) && SameVnodes(v.mem, v'.mem)
    ensures Linked(v', roles) && Dir(v') == Dir(v)
  {
    hide InodeOf, Slot, ByteAt;
    forall i | IsInode(roles, i) && i !in v'.mem
      ensures InodeOf(v', i).links > 0
    {
      assert SameFile(v, v', i);
    }
    FilesKeep(v, v', roles, roles, -1, 0);
  }

  /** FS_SYNC, then sfs_unmount and sfs_mount again: refused while files are open, and otherwise the names, the files
      and the free blocks are the same. */
  method Remount(fs: Fs) returns (r: Error, fs': Fs?)
    requires fs.Valid() && Linked(fs.V(), fs.roles)
    modifies fs`disk, fs`vnodes, fs`mapdirty
    ensures r == if old(fs.vnodes) == map[] then OK else EBUSY
    ensures r == OK ==>
              && fs' != null && fresh(fs') && fresh(fs'.freemap.v)
              && fs'.Valid() && fs'.roles == fs.roles && Linked(fs'.V(), fs'.roles)
              && Dir(fs'.V()) == old(Dir(fs.V())) && fs'.V().used == old(fs.V().used)
              && SameFiles(old(fs.V()), fs'.V(), fs.roles) && fs'.vnodes == map[]
    ensures r == EBUSY ==>
              && fs.Valid() && Linked(fs.V(), fs.roles) && SameFiles(old(fs.V()), fs.V(), fs.roles)
              && Dir(fs.V()) == old(Dir(fs.V())) && SameVnodes(old(fs.vnodes), fs.vnodes)
  {
    hide OwnedBut, SameOthers, Recorded, Slot, InodeOf, ByteAt, LinkedBut;
    ghost var v, roles := fs.V(), fs.roles;
    Sync(fs);
    if |fs.vnodes| > 0 {
      SyncLinked(v, fs.V(), roles);
      return EBUSY, null;
    }
    RemountKeeps(fs.V(), roles, fs.freemap.v[..]);
    NothingOpen(v, fs.V(), roles);
    assert fs.disk[..|fs.disk|] == fs.disk;
    var result;
    result, fs' := Mount(fs.disk, roles);
    r := OK;
  }

  lemma NothingOpen(v: Vol, v': Vol, roles: Roles)
    requires Linked(v, roles) && v.mem == map[] && v'.mem == map[] && SameFiles(v, v', roles)
    ensures Linked(v', roles) && Dir(v') == Dir(v)
  {
    hide ByteAt, InodeOf, Slot;
    RemountNames(v, v', roles);
  }

  // ---------------------------------------------------------------- mksfs

  /** SFS_BITBLOCKS as mksfs computes it, in 32 bits. */
  function BitBlocks32(n: nat): nat {
    (n + BLOCKBITS - 1) % U32 / BLOCKBITS
  }

  /** It is right exactly for volumes that leave room to round up. */
  lemma BitBlocksFit(n: nat)
    requires n < U32
    ensures BitBlocks32(n) == BitBlocks(n) <==> n + BLOCKBITS <= U32
    ensures n + BLOCKBITS > U32 ==> BitBlocks32(n) == 0
    ensures BitBlocks32(n) <= MAXBITBLOCKS <==> n <= BLOCKBITS * MAXBITBLOCKS || n + BLOCKBITS > U32
  {
  }

  function FirstRole(b: nat): Role {
    if b == ROOT_LOCATION then InodeBlock else Reserved
  }

  /** The blocks a new volume has in use: superblock, root inode and free map. */
  function Formatted(n: nat): Roles {
    map b: nat | b < MAP_LOCATION + BitBlocks(n) :: FirstRole(b)
  }

  const EMPTY_ROOT: Inode := Inode(0, TYPE_DIR, 1, [0, 0, 0, 0, 0, 0, 0, 0, 0, 0, 0, 0, 0, 0, 0], 0)

  /** A new volume is a volume: well formed, with an empty directory and nothing else. */
  lemma FormatKeeps(d: seq<Block>)
    requires SuperOk(d) && MAP_LOCATION + BitBlocks(|d|) <= |d| && |d| + BLOCKBITS <= U32
    requires DecodeInode(d[ROOT_LOCATION]) == EMPTY_ROOT
    requires forall c :: 0 <= c < 8 * |MapBytes(d)| ==>
                           (BitAt(MapBytes(d), c) <==> c < MAP_LOCATION + BitBlocks(|d|) || c >= |d|)
    ensures Mountable(d, Formatted(|d|)) && Linked(OnDisk(d), Formatted(|d|)) && Dir(OnDisk(d)) == []
  {
    var v, roles := OnDisk(d), Formatted(|d|);
    assert InodeOf(v, ROOT_LOCATION) == EMPTY_ROOT;
    assert |d| <= |v.used|;
    hide DecodeInode;
    assert forall fb :: Ptr(v, ROOT_LOCATION, fb) == 0;
    assert forall i :: IsInode(roles, i) <==> i == ROOT_LOCATION;
  }

  /** doallocbit: fails when the bit is set already. */
  method DoAllocBit(bitbuf: array<Byte>, bit: nat) returns (ok: bool)
    requires bit < 8 * bitbuf.Length
    modifies bitbuf
    ensures ok <==> !old(Bits(bitbuf[..]))[bit]
    ensures Bits(bitbuf[..]) == old(Bits(bitbuf[..]))[bit := true]
  {
    SetIn(bitbuf[..], bit);
    ok := !Bit(bitbuf[bit / 8], bit % 8);
    if ok {
      bitbuf[bit / 8] := SetBit(bitbuf[bit / 8], bit % 8);
      assert bitbuf[..] == old(bitbuf[..])[bit / 8 := SetBit(old(bitbuf[..])[bit / 8], bit % 8)];
    } else {
      assert Bits(bitbuf[..])[bit];
      assert Bits(bitbuf[..]) == Bits(bitbuf[..])[bit := true];
    }
  }

  /** doallocbit for `lo` up to `hi`; fails when one of the bits is set already. */
  method AllocBits(bitbuf: array<Byte>, lo: nat, hi: nat) returns (ok: bool)
    requires hi <= 8 * bitbuf.Length
    modifies bitbuf
    ensures ok <==> forall c :: lo <= c < hi ==> !old(Bits(bitbuf[..]))[c]
    ensures ok ==> forall c :: 0 <= c < 8 * bitbuf.Length ==>
                                 (Bits(bitbuf[..])[c] <==> old(Bits(bitbuf[..]))[c] || lo <= c < hi)
  {
    hide Bits;
    ghost var before := Bits(bitbuf[..]);
    ok := true;
    var i := lo;
    while i < hi
      invariant lo <= i && (i == lo || i <= hi) && ok
      invariant forall c :: lo <= c < i ==> !before[c]
      invariant forall c :: 0 <= c < 8 * bitbuf.Length ==> (Bits(bitbuf[..])[c] <==> before[c] || lo <= c < i)
    {
      ok := DoAllocBit(bitbuf, i);
      if !ok {
        return;
      }
      i := i + 1;
    }
  }

  method ZeroBytes(n: nat) returns (a: array<Byte>)
    ensures fresh(a) && a.Length == n && forall c :: 0 <= c < 8 * n ==> !Bits(a[..])[c]
  {
    a := new Byte[n](_ => 0);
    forall c | 0 <= c < 8 * n
      ensures !BitAt(a[..], c)
    {
      ZeroBits(c % 8);
    }
  }

  /** The bits mksfs sets for a volume of `n` blocks whose free map takes `nblocks` blocks. */
  predicate InUse(n: nat, nblocks: nat, c: nat) {
    c < MAP_LOCATION + nblocks || c >= n
  }

  /** writebitmap: gives up on a volume that is too large for its buffer or too small to hold the map. */
  method WriteBitmap(disk: seq<Block>) returns (ok: bool, d: seq<Block>)
    requires 2 <= |disk| < U32
    ensures ok <==> BitBlocks32(|disk|) <= MAXBITBLOCKS && |disk| >= 3
    ensures ok ==> |d| == |disk| && d[..MAP_LOCATION] == disk[..MAP_LOCATION]
    ensures ok && |disk| + BLOCKBITS <= U32 ==>
              && MAP_LOCATION + BitBlocks(|disk|) <= |disk|
              && forall c :: 0 <= c < 8 * |MapBytes(d)| ==>
                               (BitAt(MapBytes(d), c) <==> InUse(|disk|, BitBlocks(|disk|), c))
    ensures ok && |disk| + BLOCKBITS > U32 ==> d == disk
  {
    hide Bits, MapOnDisk, BitAt;
    d := disk;
    var nblocks := BitBlocks32(|disk|);
    var nbits := BLOCKBITS * nblocks;
    if nblocks > MAXBITBLOCKS {
      return false, d;
    }
    var bitbuf := ZeroBytes(MAXBITBLOCKS * BLOCKSIZE);
    ok := AllocBits(bitbuf, SB_LOCATION, SB_LOCATION + 1);
    ok := AllocBits(bitbuf, ROOT_LOCATION, ROOT_LOCATION + 1);
    ok := AllocBits(bitbuf, MAP_LOCATION, MAP_LOCATION + nblocks);
    MapLeavesRoom(|disk|);
    BitBlocksFit(|disk|);
    assert nblocks > 0 ==> Bits(bitbuf[..])[MAP_LOCATION];
    ok := AllocBits(bitbuf, |disk|, nbits);
    if !ok {
      return;
    }
    d := WriteMap(disk, bitbuf[..], nblocks);
    if nblocks == BitBlocks(|disk|) {
      MapBytesUnique(d, bitbuf[..BLOCKSIZE * nblocks]);
      PrefixBits(bitbuf[..], BLOCKSIZE * nblocks);
    }
  }

  lemma MapLeavesRoom(n: nat)
    requires n >= 2
    ensures 1 <= BitBlocks(n) && n <= BLOCKBITS * BitBlocks(n) && (n >= 3 ==> MAP_LOCATION + BitBlocks(n) <= n)
  {
  }

  lemma PrefixBits(v: seq<Byte>, n: nat)
    requires n <= |v|
    ensures forall c :: 0 <= c < 8 * n ==> BitAt(v[..n], c) == Bits(v)[c]
  {
  }

  /** mksfs: what it writes can be mounted, and holds an empty directory, unless the volume is so large that the size of
      its free map wraps around to 0: then no map is written. It fails exactly when the name is too long or the volume
      too small or too large for its buffer. */
  method Format(disk: seq<Block>, volname: Name) returns (ok: bool, d: seq<Block>)
    requires |disk| < U32 && IsName(volname)
    ensures ok <==> |volname| < VOLNAME_SIZE && 3 <= |disk|
                    && (|disk| <= BLOCKBITS * MAXBITBLOCKS || |disk| + BLOCKBITS > U32)
    ensures ok && |disk| + BLOCKBITS <= U32 ==>
              && |d| == |disk| && Mountable(d, Formatted(|d|))
              && Linked(OnDisk(d), Formatted(|d|)) && Dir(OnDisk(d)) == []
    ensures ok && |disk| + BLOCKBITS > U32 ==> |d| == |disk| && d[MAP_LOCATION..] == disk[MAP_LOCATION..]
  {
    hide Mountable, Linked, Dir, BitAt, MapBytes;
    d := disk;
    if |volname| >= VOLNAME_SIZE || |disk| < 2 {
      return false, d;
    }
    SuperReads(|disk|, volname);
    d := d[SB_LOCATION := EncodeSuper(|disk|, volname)];
    InodeRoundTrip(EMPTY_ROOT);
    d := d[ROOT_LOCATION := EncodeInode(EMPTY_ROOT)];
    ghost var d0 := d;
    BitBlocksFit(|disk|);
    ok, d := WriteBitmap(d);
    if ok && |disk| + BLOCKBITS <= U32 {
      assert d[SB_LOCATION] == d[..MAP_LOCATION][SB_LOCATION] == d0[..MAP_LOCATION][SB_LOCATION];
      assert d[ROOT_LOCATION] == d[..MAP_LOCATION][ROOT_LOCATION] == d0[..MAP_LOCATION][ROOT_LOCATION];
      FormatKeeps(d);
    }
  }

  /** The superblock, its last 472 bytes unused. */
  function EncodeSuper(nblocks: nat, volname: Name): Block
    requires |volname| < VOLNAME_SIZE
  {
    [Digit(MAGIC, 0), Digit(MAGIC, 1), Digit(MAGIC, 2), Digit(MAGIC, 3)]
    + [Digit(nblocks, 0), Digit(nblocks, 1), Digit(nblocks, 2), Digit(nblocks, 3)]
    + volname + seq(504 - |volname|, i => 0)
  }

  lemma SuperReads(nblocks: nat, volname: Name)
    requires |volname| < VOLNAME_SIZE && nblocks < U32
    ensures WordAt(EncodeSuper(nblocks, volname), 0) == MAGIC && WordAt(EncodeSuper(nblocks, volname), 4) == nblocks
  {
    DigitsMakeWord(MAGIC);
    DigitsMakeWord(nblocks);
  }
}
