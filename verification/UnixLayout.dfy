/** The on-disk layout of block/unixdisk.h, read off a disk image.  Data blocks are numbered from the first block
    after the inode blocks. */
module UnixLayout {
  import opened Options
  import opened Blocks

  type Image = seq<Block>

  /** 16 words: the size, 12 direct pointers, and pointers to a single, a double and a triple indirect block. */
  type Inode = i: seq<Word> | |i| == 16 witness seq(16, _ => 0)

  const INODES_PER_BLOCK := 16
  const ENTRIES_PER_BLOCK := 256
  const ENTRIES_PER_FREE_BLOCK := 254

  /** How many blocks of a file are reached without indirect blocks, with single and with double ones. */
  const DIRECT := 12
  const WITH_SINGLE := 268
  const WITH_DOUBLE := 65804

  /** The number that stands for no block. */
  const NONE := 0xFFFF_FFFF

  function NInodeBlocks(img: Image): Word
    requires |img| > 0
  {
    img[0][0]
  }

  function FreeList(img: Image): Word
    requires |img| > 0
  {
    img[0][1]
  }

  function FreeOffset(img: Image): Word
    requires |img| > 0
  {
    img[0][2]
  }

  function NInodes(img: Image): nat
    requires |img| > 0
  {
    NInodeBlocks(img) * INODES_PER_BLOCK
  }

  /** The superblock and the inode blocks are there, and block numbers are words. */
  predicate Formatted(img: Image) {
    |img| > 0 && NInodeBlocks(img) < |img| < WORD_LIMIT
  }

  /** The first data block, and how many there are. */
  function First(img: Image): nat
    requires |img| > 0
  {
    1 + NInodeBlocks(img)
  }

  function NData(img: Image): nat
    requires Formatted(img)
  {
    |img| - First(img)
  }

  function DataBlock(img: Image, d: nat): Block
    requires Formatted(img) && d < NData(img)
  {
    img[First(img) + d]
  }

  function InodeBlockno(ino: nat): nat {
    1 + ino / INODES_PER_BLOCK
  }

  function GetInode(block: Block, k: nat): Inode
    requires k < INODES_PER_BLOCK
  {
    block[16 * k..16 * k + 16]
  }

  function InodeOf(img: Image, ino: nat): Inode
    requires Formatted(img) && ino < NInodes(img)
  {
    GetInode(img[InodeBlockno(ino)], ino % INODES_PER_BLOCK)
  }

  /** A change of one inode leaves the others in its block alone. */
  lemma InodeUpdated(block: Block, k: nat, w: nat, x: Word, k': nat)
    requires k < INODES_PER_BLOCK && w < 16 && k' < INODES_PER_BLOCK
    ensures GetInode(block[16 * k + w := x], k') == if k' == k then GetInode(block, k)[w := x] else GetInode(block, k')
  {
  }

  // ---------------------------------------------------------------- looking up pointers

  /** The block number of a data block. */
  function Address(img: Image, d: Word): Word
    requires |img| > 0
  {
    (d + First(img)) % WORD_LIMIT
  }

  function Fetch(img: Image, d: Word): Option<Block>
    requires |img| > 0
  {
    if Address(img, d) < |img| then Some(img[Address(img, d)]) else None
  }

  /** The entry of an indirect block. */
  function Entry(img: Image, d: Word, k: nat): Option<Word>
    requires |img| > 0 && k < ENTRIES_PER_BLOCK
  {
    match Fetch(img, d) case None => None case Some(block) => Some(block[k])
  }

  /** The entry that a pointer leads to, if there is a pointer. */
  function Follow(img: Image, d: Option<Word>, k: nat): Option<Word>
    requires |img| > 0 && k < ENTRIES_PER_BLOCK
  {
    if d.Some? then Entry(img, d.value, k) else None
  }

  /** The pointer to a block of a file, with the branch for triple indirection as it is. */
  function Pointer(img: Image, inode: Inode, offset: nat): Option<Word>
    requires |img| > 0 && offset < WITH_DOUBLE + ENTRIES_PER_BLOCK * ENTRIES_PER_BLOCK * ENTRIES_PER_BLOCK
  {
    if offset < DIRECT then Some(inode[1 + offset])
    else if offset < WITH_SINGLE then Entry(img, inode[13], offset - DIRECT)
    else if offset < WITH_DOUBLE then
      var e := offset - WITH_SINGLE;
      Follow(img, Entry(img, inode[14], e / 256), e % 256)
    else
      var e := offset - WITH_DOUBLE;
      Follow(img, Follow(img, Entry(img, inode[14], e / 65536), e / 256 % 256), e % 256)
  }

  /** Where the block of a file is. */
  function Traverse(img: Image, inode: Inode, offset: nat): Word
    requires |img| > 0 && offset < WITH_DOUBLE + ENTRIES_PER_BLOCK * ENTRIES_PER_BLOCK * ENTRIES_PER_BLOCK
  {
    match Pointer(img, inode, offset) case None => NONE case Some(d) => Address(img, d)
  }

  /** The indices that the code computes by subtracting. */
  lemma Indices(e: nat)
    ensures e - e / 256 * 256 == e % 256
    ensures (e - e / 65536 * 65536) / 256 == e / 256 % 256
    ensures e - e / 65536 * 65536 - e / 256 % 256 * 256 == e % 256
  {
  }
}
