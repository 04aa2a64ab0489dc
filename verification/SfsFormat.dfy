/** The on-disk format of SFS, os161/kern/include/kern/sfs.h: blocks of bytes, and how words, inodes
    and directory entries are laid out in them (big-endian, as the MIPS kernel stores them). */
module SfsFormat {

  const MAGIC: nat := 0xabadf001
  const VOLNAME_SIZE: nat := 32
  const BLOCKSIZE: nat := 512
  const NDIRECT: nat := 15
  const DBPERIDB: nat := 128
  const MAXBLOCKS: nat := 143      // NDIRECT + DBPERIDB
  const NAMELEN: nat := 60
  const DIRSIZE: nat := 64         // bytes in a directory entry
  const SB_LOCATION: nat := 0
  const ROOT_LOCATION: nat := 1
  const MAP_LOCATION: nat := 2
  const NOINO: nat := 0
  const TYPE_INVAL: nat := 0
  const TYPE_FILE: nat := 1
  const TYPE_DIR: nat := 2
  const BLOCKBITS: nat := 4096     // bits in a block
  const U32: nat := 0x1_0000_0000
  const U16: nat := 0x1_0000
  const OFF_LIMIT: nat := 0x8000_0000    // file positions are below this

  type Byte = b: int | 0 <= b < 256

  type Block = s: seq<Byte> | |s| == BLOCKSIZE witness seq(BLOCKSIZE, i => 0)

  function ZeroBlock(): Block {
    seq(BLOCKSIZE, i => 0)
  }

  /** SFS_BITBLOCKS: the blocks that the free map of a volume of `n` blocks takes. */
  function BitBlocks(n: nat): nat {
    (n + BLOCKBITS - 1) / BLOCKBITS
  }

  // ---------------------------------------------------------------- words

  function WordAt(b: seq<Byte>, at: nat): (w: nat)
    requires at + 4 <= |b|
    ensures w < U32
  {
    b[at] as int * 0x100_0000 + b[at + 1] as int * 0x1_0000 + b[at + 2] as int * 0x100 + b[at + 3] as int
  }

  function Digit(w: nat, k: nat): Byte {
    if k == 0 then w / 0x100_0000 % 0x100
    else if k == 1 then w / 0x1_0000 % 0x100
    else if k == 2 then w / 0x100 % 0x100
    else w % 0x100
  }

  lemma DigitsMakeWord(w: nat)
    requires w < U32
    ensures Digit(w, 0) as int * 0x100_0000 + Digit(w, 1) as int * 0x1_0000 + Digit(w, 2) as int * 0x100
            + Digit(w, 3) as int == w
  {
    var a := w / 0x100;
    var b := a / 0x100;
    var c := b / 0x100;
    assert w == a * 0x100 + w % 0x100 && a == b * 0x100 + a % 0x100 && b == c * 0x100 + b % 0x100;
    assert w / 0x1_0000 == b && w / 0x100_0000 == c && c < 0x100;
  }

  /** The block read as an array of words. */
  function Words(b: Block): (ws: seq<nat>)
    ensures |ws| == DBPERIDB && forall i :: 0 <= i < DBPERIDB ==> ws[i] == WordAt(b, 4 * i) < U32
  {
    seq(DBPERIDB, i requires 0 <= i < DBPERIDB => WordAt(b, 4 * i))
  }

  function FromWords(ws: seq<nat>): (b: Block)
    requires |ws| == DBPERIDB
    ensures forall k :: 0 <= k < BLOCKSIZE ==> b[k] == Digit(ws[k / 4], k % 4)
  {
    seq(BLOCKSIZE, k requires 0 <= k < BLOCKSIZE => Digit(ws[k / 4], k % 4))
  }

  lemma WordsRoundTrip(ws: seq<nat>)
    requires |ws| == DBPERIDB && forall i :: 0 <= i < DBPERIDB ==> ws[i] < U32
    ensures Words(FromWords(ws)) == ws
  {
    hide Digit;
    var b := FromWords(ws);
    forall i | 0 <= i < DBPERIDB
      ensures WordAt(b, 4 * i) == ws[i]
    {
      DigitsMakeWord(ws[i]);
      assert b[4 * i] == Digit(ws[i], 0) && b[4 * i + 1] == Digit(ws[i], 1);
      assert b[4 * i + 2] == Digit(ws[i], 2) && b[4 * i + 3] == Digit(ws[i], 3);
    }
  }

  // ---------------------------------------------------------------- the superblock

  /** Block 0 is the superblock of a volume of as many blocks as there are. */
  ghost predicate SuperOk(disk: seq<Block>) {
    |disk| > 0 && WordAt(disk[SB_LOCATION], 0) == MAGIC && WordAt(disk[SB_LOCATION], 4) == |disk|
  }

  // ---------------------------------------------------------------- inodes

  datatype Inode = Inode(size: nat, kind: nat, links: nat, direct: seq<nat>, indirect: nat)

  /** The inode fits the fields of struct sfs_inode. */
  ghost predicate Fits(n: Inode) {
    && n.size < OFF_LIMIT && n.kind < U16 && n.links < U16
    && |n.direct| == NDIRECT && (forall i :: 0 <= i < NDIRECT ==> n.direct[i] < U32) && n.indirect < U32
  }

  function InodeWords(n: Inode): (ws: seq<nat>)
    requires |n.direct| == NDIRECT
    ensures |ws| == DBPERIDB
  {
    [n.size, n.kind * U16 + n.links] + n.direct + [n.indirect] + seq(110, i => 0)
  }

  function EncodeInode(n: Inode): Block
    requires |n.direct| == NDIRECT
  {
    FromWords(InodeWords(n))
  }

  function InodeFrom(ws: seq<nat>): (n: Inode)
    requires |ws| == DBPERIDB
    ensures |n.direct| == NDIRECT
  {
    Inode(ws[0], ws[1] / U16, ws[1] % U16, ws[2..17], ws[17])
  }

  function DecodeInode(b: Block): (n: Inode)
    ensures |n.direct| == NDIRECT
  {
    InodeFrom(Words(b))
  }

  lemma InodeWordsFit(n: Inode)
    requires Fits(n)
    ensures forall i :: 0 <= i < DBPERIDB ==> InodeWords(n)[i] < U32
    ensures InodeFrom(InodeWords(n)) == n
  {
    var ws := InodeWords(n);
    forall i | 0 <= i < DBPERIDB
      ensures ws[i] < U32
    {
      if 2 <= i < 17 {
        assert ws[i] == n.direct[i - 2];
      } else if i >= 18 {
        assert ws[i] == 0;
      }
    }
    assert ws[2..17] == n.direct;
  }

  lemma InodeRoundTrip(n: Inode)
    requires Fits(n)
    ensures DecodeInode(EncodeInode(n)) == n
  {
    InodeWordsFit(n);
    WordsRoundTrip(InodeWords(n));
  }

  lemma ZeroBlockReads()
    ensures forall i :: 0 <= i < DBPERIDB ==> Words(ZeroBlock())[i] == 0
    ensures DecodeInode(ZeroBlock()) == Inode(0, TYPE_INVAL, 0, seq(NDIRECT, i => 0), 0)
  {
    var z := Words(ZeroBlock());
    forall i | 0 <= i < DBPERIDB
      ensures z[i] == 0
    {
      assert z[i] == WordAt(ZeroBlock(), 4 * i);
    }
    assert z[2..17] == seq(NDIRECT, i => 0);
  }

  // ---------------------------------------------------------------- directory entries

  /** A name is a C string: its bytes up to the terminating NUL. */
  type Name = seq<Byte>

  ghost predicate IsName(name: Name) {
    forall i :: 0 <= i < |name| ==> name[i] != 0
  }

  datatype Entry = Entry(ino: nat, name: Name)

  const EMPTY: Entry := Entry(NOINO, [])

  /** The string at the start of `b`, ended by a NUL or by the end of `b`. */
  function CString(b: seq<Byte>): (r: Name)
    ensures IsName(r) && |r| <= |b| && r == b[..|r|]
    ensures |r| < |b| ==> b[|r|] == 0
  {
    if b == [] || b[0] == 0 then []
    else [b[0]] + CString(b[1..])
  }

  lemma {:induction false} CStringOf(b: seq<Byte>, name: Name)
    requires IsName(name) && |name| < |b| && name == b[..|name|] && b[|name|] == 0
    ensures CString(b) == name
  {
    if name != [] {
      assert b[0] == name[0];
      CStringOf(b[1..], name[1..]);
    }
  }

  function EncodeEntry(e: Entry): (b: seq<Byte>)
    requires |e.name| < NAMELEN
    ensures |b| == DIRSIZE
  {
    [Digit(e.ino, 0), Digit(e.ino, 1), Digit(e.ino, 2), Digit(e.ino, 3)] + e.name + seq(NAMELEN - |e.name|, i => 0)
  }

  /** The entry as sfs_dir_findname reads it: the last byte of the name is taken to be NUL. An entry
      without an inode number is empty whatever its name. */
  function DecodeEntry(b: seq<Byte>): (e: Entry)
    requires |b| == DIRSIZE
    ensures IsName(e.name) && |e.name| < NAMELEN && e.ino < U32
  {
    if WordAt(b, 0) == NOINO then EMPTY else Entry(WordAt(b, 0), CString(b[4..63]))
  }

  lemma EntryRoundTrip(e: Entry)
    requires IsName(e.name) && |e.name| < NAMELEN && e.ino < U32 && (e.ino == NOINO ==> e.name == [])
    ensures DecodeEntry(EncodeEntry(e)) == e
  {
    var b := EncodeEntry(e);
    DigitsMakeWord(e.ino);
    assert WordAt(b, 0) == e.ino;
    var s := b[4..63];
    assert s[..|e.name|] == e.name;
    if |e.name| == 59 {
      assert s == e.name;
      CStringFull(s);
    } else {
      assert s[|e.name|] == 0;
      CStringOf(s, e.name);
    }
  }

  lemma {:induction false} CStringFull(b: seq<Byte>)
    requires IsName(b)
    ensures CString(b) == b
  {
    if b != [] {
      CStringFull(b[1..]);
      assert b == [b[0]] + b[1..];
    }
  }
}
