/** The free list of a unix disk is a stack: a linked list of blocks, each with room for 254 entries.  All of
    them but the head are full. */
module UnixLists {
  import opened Blocks
  import opened UnixLayout

  predicate AllData(img: Image, s: seq<nat>) {
    Formatted(img) && forall i | 0 <= i < |s| :: s[i] < NData(img)
  }

  /** Slot `i` of the stack, counted from the bottom.  Every 255th one is a block of the list, and the others are
      entries of the one before them. */
  predicate SlotOk(img: Image, s: seq<nat>, i: nat)
    requires AllData(img, s) && i < |s|
  {
    if i % 255 == 0 then DataBlock(img, s[i])[1] == if i == 0 then NONE else s[i - 255]
    else DataBlock(img, s[i - i % 255])[1 + i % 255] == s[i]
  }

  /** The superblock names the last block of the list and the number of its entries. */
  predicate HeadOk(img: Image, s: seq<nat>)
    requires Formatted(img)
  {
    if s == [] then FreeList(img) == NONE && FreeOffset(img) == 254
    else FreeOffset(img) == (|s| - 1) % 255 && FreeList(img) == s[|s| - 1 - (|s| - 1) % 255]
  }

  /** The list is the stack. */
  ghost predicate StackOk(img: Image, s: seq<nat>) {
    AllData(img, s) && HeadOk(img, s) && forall i | 0 <= i < |s| :: SlotOk(img, s, i)
  }

  predicate Distinct(s: seq<nat>) {
    forall i, j | 0 <= i < j < |s| :: s[i] != s[j]
  }

  function SuperImage(img: Image, head: Word, offset: Word): (r: Image)
    requires |img| > 0
    ensures |r| == |img| && r[1..] == img[1..] && NInodeBlocks(r) == NInodeBlocks(img)
    ensures Formatted(img) ==> Formatted(r) && forall c | 0 <= c < NData(img) :: DataBlock(r, c) == DataBlock(img, c)
  {
    img[0 := img[0][1 := head][2 := offset]]
  }

  // ---------------------------------------------------------------- taking a block

  /** The block that is taken next. */
  function TakenBlock(img: Image): Word
    requires Formatted(img) && FreeOffset(img) <= 254
  {
    if FreeList(img) == NONE || Address(img, FreeList(img)) >= |img| then NONE
    else if FreeOffset(img) > 0 then img[Address(img, FreeList(img))][1 + FreeOffset(img)]
    else FreeList(img)
  }

  function TakenImage(img: Image): (r: Image)
    requires Formatted(img) && FreeOffset(img) <= 254
    ensures |r| == |img| && r[1..] == img[1..] && NInodeBlocks(r) == NInodeBlocks(img) && Formatted(r)
  {
    if FreeList(img) == NONE || Address(img, FreeList(img)) >= |img| then img
    else if FreeOffset(img) > 0 then SuperImage(img, FreeList(img), FreeOffset(img) - 1)
    else SuperImage(img, img[Address(img, FreeList(img))][1], 254)
  }

  function Top(s: seq<nat>): nat
    requires s != []
  {
    s[|s| - 1]
  }

  function Rest(s: seq<nat>): seq<nat>
    requires s != []
  {
    s[..|s| - 1]
  }

  lemma TakeHead(img: Image, s: seq<nat>)
    requires StackOk(img, s) && s != []
    ensures TakenBlock(img) == Top(s) && HeadOk(TakenImage(img), Rest(s))
  {
    var n := |s| - 1;
    assert SlotOk(img, s, n) && SlotOk(img, s, n - n % 255);
    hide SlotOk;
    assert Address(img, FreeList(img)) == First(img) + FreeList(img);
  }

  /** The block taken is the top of the stack, and the rest of it stays. */
  lemma Take(img: Image, s: seq<nat>)
    requires StackOk(img, s) && s != []
    ensures TakenBlock(img) == Top(s) && StackOk(TakenImage(img), Rest(s))
  {
    TakeHead(img, s);
    hide TakenImage, TakenBlock, HeadOk;
    var img', t := TakenImage(img), Rest(s);
    forall i | 0 <= i < |t| ensures SlotOk(img', t, i) {
      assert SlotOk(img, s, i);
    }
  }

  /** An empty stack has no block, and what stands for none is the address of the last inode block. */
  lemma NothingToTake(img: Image)
    requires StackOk(img, [])
    ensures TakenBlock(img) == NONE && TakenImage(img) == img && Address(img, TakenBlock(img)) == NInodeBlocks(img)
  {
  }

  // ---------------------------------------------------------------- giving a block back

  /** The head of the list is there, unless the list is empty. */
  predicate Readable(img: Image) {
    && Formatted(img) && FreeOffset(img) <= ENTRIES_PER_FREE_BLOCK
    && (if FreeList(img) == NONE then FreeOffset(img) == ENTRIES_PER_FREE_BLOCK else FreeList(img) < NData(img))
  }

  function GivenImage(img: Image, b: Word): (r: Image)
    requires Readable(img) && b < NData(img)
    ensures |r| == |img| && NInodeBlocks(r) == NInodeBlocks(img) && Formatted(r)
  {
    var head := Address(img, FreeList(img));
    if FreeOffset(img) < 254 then
      SuperImage(img[head := img[head][2 + FreeOffset(img) := b]], FreeList(img), FreeOffset(img) + 1)
    else
      SuperImage(img[First(img) + b := img[head][1 := FreeList(img)]], b, 0)
  }

  lemma GiveHead(img: Image, s: seq<nat>, b: Word)
    requires StackOk(img, s) && b < NData(img)
    ensures Readable(img)
    ensures HeadOk(GivenImage(img, b), s + [b])
  {
    hide SlotOk;
  }

  /** What becomes of data block `c`. */
  lemma GivenAt(img: Image, b: Word, c: nat)
    requires Readable(img) && b < NData(img) && c < NData(img)
    ensures Address(img, FreeList(img)) < |img|
    ensures DataBlock(GivenImage(img, b), c) ==
      if FreeOffset(img) < 254 then
        (if c == FreeList(img) then DataBlock(img, c)[2 + FreeOffset(img) := b] else DataBlock(img, c))
      else if c == b then img[Address(img, FreeList(img))][1 := FreeList(img)]
      else DataBlock(img, c)
  {
    hide SuperImage;
    assert FreeList(img) < NData(img) ==> Address(img, FreeList(img)) == First(img) + FreeList(img);
  }

  lemma GiveSlot(img: Image, s: seq<nat>, b: Word, i: nat)
    requires StackOk(img, s) && Distinct(s) && b !in s && b < NData(img) && i <= |s|
    requires Readable(img)
    ensures AllData(GivenImage(img, b), s + [b]) && SlotOk(GivenImage(img, b), s + [b], i)
  {
    hide GivenImage, Address;
    var t := s + [b];
    if i < |s| {
      assert SlotOk(img, s, i);
      assert b != s[i] && b != s[i - i % 255];
    }
    assert i == |s| && s != [] ==> i % 255 == if FreeOffset(img) < 254 then FreeOffset(img) + 1 else 0;
    if i % 255 == 0 {
      GivenAt(img, b, t[i]);
    } else {
      GivenAt(img, b, t[i - i % 255]);
    }
  }

  /** The block given back is the new top of the stack. */
  lemma Give(img: Image, s: seq<nat>, b: Word)
    requires StackOk(img, s) && Distinct(s) && b !in s && b < NData(img)
    ensures Readable(img)
    ensures StackOk(GivenImage(img, b), s + [b])
  {
    hide SlotOk, HeadOk, GivenImage;
    GiveHead(img, s, b);
    forall i | 0 <= i <= |s| ensures SlotOk(GivenImage(img, b), s + [b], i) {
      GiveSlot(img, s, b, i);
    }
  }

  /** Only the superblock and one data block change: the head of the list, or the block given back. */
  lemma GiveFrame(img: Image, s: seq<nat>, b: Word, c: nat)
    requires StackOk(img, s) && b < NData(img) && c < |img| && c != 0 && c != First(img) + b
    requires forall i | 0 <= i < |s| :: c != First(img) + s[i]
    requires Readable(img)
    ensures GivenImage(img, b)[c] == img[c]
  {
    hide SlotOk;
  }

  /** Taking a block after giving one back returns that block, and leaves the old list. */
  lemma TakeUndoesGive(img: Image, s: seq<nat>, b: Word)
    requires StackOk(img, s) && Distinct(s) && b !in s && b < NData(img)
    ensures Readable(img) && FreeOffset(GivenImage(img, b)) <= 254
    ensures var img' := GivenImage(img, b); TakenBlock(img') == b && StackOk(TakenImage(img'), s)
  {
    Give(img, s, b);
    Take(GivenImage(img, b), s + [b]);
    assert Rest(s + [b]) == s;
  }
}
