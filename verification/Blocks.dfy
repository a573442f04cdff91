/** Blocks, block numbers and the lowest layer of the storage stack. */
module Blocks {
  import opened Options

  /** A `block_no`: an unsigned 32-bit word. */
  const WORD_LIMIT := 0x1_0000_0000
  type Word = w: nat | w < 0x1_0000_0000

  /** A block is 1024 bytes, seen through the on-disk unions as 256 words. */
  const REFS_PER_BLOCK := 256
  type Block = b: seq<Word> | |b| == 256 witness seq(256, _ => 0)

  /** A block of null bytes. */
  function NullBlock(): (b: Block)
    ensures forall i | 0 <= i < 256 :: b[i] == 0
  {
    seq(256, _ => 0)
  }

  /** The abstract contents of a block store: one growable array of blocks per inode. */
  type Inodes = seq<seq<Block>>

  predicate InRange(inodes: Inodes, ino: nat, offset: nat) {
    ino < |inodes| && offset < |inodes[ino]|
  }

  /** The store after writing `block` at (`ino`, `offset`); a key out of range leaves it alone. */
  function Put(inodes: Inodes, ino: nat, offset: nat, block: Block): Inodes {
    if InRange(inodes, ino, offset) then
      var row: seq<Block> := inodes[ino];
      inodes[ino := row[offset := block]]
    else
      inodes
  }

  /** Block (`ino`, `offset`) is `block`, and every other block of every inode is as it was. */
  predicate Replaced(a: Inodes, b: Inodes, ino: nat, offset: nat, block: Block)
    requires InRange(a, ino, offset)
  {
    && |b| == |a| && |b[ino]| == |a[ino]| && b[ino][offset] == block
    && (forall j | 0 <= j < |a[ino]| && j != offset :: b[ino][j] == a[ino][j])
    && (forall i | 0 <= i < |a| && i != ino :: b[i] == a[i])
  }

  /** A write replaces one block, and there is one store in which that is all that has changed. */
  lemma PutIs(a: Inodes, b: Inodes, ino: nat, offset: nat, block: Block)
    ensures InRange(a, ino, offset) ==> (b == Put(a, ino, offset, block) <==> Replaced(a, b, ino, offset, block))
    ensures !InRange(a, ino, offset) ==> Put(a, ino, offset, block) == a
  {
    if InRange(a, ino, offset) && Replaced(a, b, ino, offset, block) {
      Extensional(b, Put(a, ino, offset, block));
    }
  }

  function Truncate(inodes: Inodes, ino: nat, size: nat): Inodes
    requires ino < |inodes| && size <= |inodes[ino]|
  {
    var row: seq<Block> := inodes[ino];
    inodes[ino := row[..size]]
  }

  /** A cut takes away the blocks from `size` on, and there is one store in which that is all that has changed. */
  lemma TruncateIs(a: Inodes, b: Inodes, ino: nat, size: nat)
    requires ino < |a| && size <= |a[ino]|
    ensures b == Truncate(a, ino, size) <==>
            && |b| == |a| && |b[ino]| == size && (forall j | 0 <= j < size :: b[ino][j] == a[ino][j])
            && forall i | 0 <= i < |a| && i != ino :: b[i] == a[i]
  {
    if |b| == |a| && |b[ino]| == size && (forall j | 0 <= j < size :: b[ino][j] == a[ino][j]) {
      assert b[ino] == a[ino][..size];
    }
  }

  /** Whether two stores have the same inodes with the same sizes. */
  ghost predicate SameShape(a: Inodes, b: Inodes) {
    |a| == |b| && forall i | 0 <= i < |a| :: |a[i]| == |b[i]|
  }

  /** Two stores of one shape that agree at every key in range are equal. */
  lemma Extensional(a: Inodes, b: Inodes)
    requires SameShape(a, b)
    requires forall i, o | 0 <= i < |a| && 0 <= o < |a[i]| :: a[i][o] == b[i][o]
    ensures a == b
  {
    forall i | 0 <= i < |a| ensures a[i] == b[i] {
    }
  }

  /** The store at the bottom of the stack: reads and writes off the end fail. */
  class Store {
    var inodes: Inodes

    constructor (contents: Inodes)
      ensures inodes == contents
    {
      inodes := contents;
    }

    method GetSize(ino: nat) returns (size: int)
      ensures size == if ino < |inodes| then |inodes[ino]| else -1
    {
      size := if ino < |inodes| then |inodes[ino]| else -1;
    }

    /** Truncates an inode and returns its old size; it cannot grow one. */
    method SetSize(ino: nat, size: nat) returns (r: int)
      modifies this
      ensures ino < |old(inodes)| && size <= |old(inodes)[ino]| ==>
                r == |old(inodes)[ino]| && inodes == Truncate(old(inodes), ino, size)
      ensures !(ino < |old(inodes)| && size <= |old(inodes)[ino]|) ==> r == -1 && inodes == old(inodes)
    {
      if ino < |inodes| && size <= |inodes[ino]| {
        r := |inodes[ino]|;
        inodes := Truncate(inodes, ino, size);
      } else {
        r := -1;
      }
    }

    method Read(ino: nat, offset: nat) returns (r: Option<Block>)
      ensures r == if InRange(inodes, ino, offset) then Some(inodes[ino][offset]) else None
    {
      r := if InRange(inodes, ino, offset) then Some(inodes[ino][offset]) else None;
    }

    method Write(ino: nat, offset: nat, block: Block) returns (ok: bool)
      modifies this
      ensures ok == InRange(old(inodes), ino, offset)
      ensures if ok then Replaced(old(inodes), inodes, ino, offset, block) else inodes == old(inodes)
      ensures inodes == Put(old(inodes), ino, offset, block)
    {
      PutIs(inodes, Put(inodes, ino, offset, block), ino, offset, block);
      ok := InRange(inodes, ino, offset);
      inodes := Put(inodes, ino, offset, block);
    }
  }
}
