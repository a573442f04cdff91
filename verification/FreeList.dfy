/** The free list of a treedisk: taking a block off it and putting one on. */
module FreeLists {
  import opened Blocks
  import opened TreeLayout
  import opened TreeInvariant

  lemma HeadIsTop(img: Image, at: Roles, dying: int)
    requires Inv(img, at, dying) && FreeList(img) != 0
    ensures ListOk(img, at, FreeList(img)) && FreeList(img) < |img|
  {
    assert RoleOk(img, at, dying, FreeList(img));
  }

  /** An empty free list means that no block is free. */
  lemma EmptyList(img: Image, at: Roles, dying: int, b: nat)
    requires Inv(img, at, dying) && FreeList(img) == 0 && b < |img|
    ensures !IsFree(at[b])
  {
    assert RoleOk(img, at, dying, b);
    assert at[b].ListSlot? ==> at[b].holder < |img| && RoleOk(img, at, dying, at[b].holder);
  }

  /** Block `b` has been taken off the free list; no file and no other block in use has changed. */
  ghost predicate Taken(img: Image, img': Image, at: Roles, at': Roles, b: nat) {
    && |img'| == |img| == |at| && b < |img| && IsFree(at[b]) && at' == at[b := Limbo]
    && Inv(img', at') && Formatted(img) && SameFiles(img, img')
    && (forall j | 0 <= j < NInodes(img) :: InodeOf(img', j) == InodeOf(img, j))
    && FreeCount(at') == FreeCount(at) - 1
    && forall c | 0 < c < |img| && !IsFree(at[c]) :: img'[c] == img[c]
  }

  /** Block `t` has joined the free list; no file but `dying` and no other block in use has changed. */
  ghost predicate Freed(img: Image, img': Image, at: Roles, at': Roles, dying: int, t: nat) {
    && |img'| == |img| == |at| == |at'|
    && Inv(img', at', dying) && Formatted(img) && SameFiles(img, img', dying)
    && (forall j | 0 <= j < NInodes(img) :: InodeOf(img', j) == InodeOf(img, j))
    && forall c | 0 <= c < |img| ::
         && (IsFree(at'[c]) <==> IsFree(at[c]) || c == t)
         && (!IsFree(at'[c]) ==> at'[c] == at[c] && (c != 0 ==> img'[c] == img[c]))
  }

  function TakeSlotImage(img: Image, i: nat): Image
    requires |img| > 0 && 0 < FreeList(img) < |img| && 1 <= i < 256
  {
    var h := FreeList(img);
    img[h := img[h][i := 0]]
  }

  lemma TakeSlotRole(img: Image, at: Roles, i: nat, c: nat)
    requires Inv(img, at) && 0 < FreeList(img) < |img| && 1 <= i < 256 && img[FreeList(img)][i] != 0
    requires img[FreeList(img)][i] < |img| && at[img[FreeList(img)][i]] == ListSlot(FreeList(img), i)
    requires c < |img| && IsFree(at[c]) && c != img[FreeList(img)][i]
    ensures RoleOk(TakeSlotImage(img, i), at[img[FreeList(img)][i] := Limbo], -1, c)
  {
    HeadIsTop(img, at, -1);
    assert RoleOk(img, at, -1, 0) && RoleOk(img, at, -1, c);
    assert at[c].ListSlot? && at[c].holder == FreeList(img) ==> at[c].index != i;
  }

  /** Taking the block in slot `i` of the head of the free list. */
  lemma TakeSlot(img: Image, at: Roles, i: nat)
    requires Inv(img, at) && FreeList(img) != 0 && FreeList(img) < |img| && 1 <= i < 256 && img[FreeList(img)][i] != 0
    ensures var b, img' := img[FreeList(img)][i], TakeSlotImage(img, i);
            b < |img| && Taken(img, img', at, at[b := Limbo], b)
  {
    var h := FreeList(img);
    HeadIsTop(img, at, -1);
    var b, img' := img[h][i], TakeSlotImage(img, i);
    var at' := at[b := Limbo];
    FreeCountUpdate(at, b, Limbo);
    assert RoleOk(img, at, -1, 0);
    FilesKept(img, img', at, at', -1, -1);
    forall c | 0 <= c < |img| && IsFree(at'[c]) ensures RoleOk(img', at', -1, c) {
      TakeSlotRole(img, at, i, c);
    }
  }

  function TakeHeadImage(img: Image): Image
    requires |img| > 0 && 0 < FreeList(img) < |img|
  {
    img[0 := img[0][1 := img[FreeList(img)][0]]]
  }

  lemma TakeHeadRole(img: Image, at: Roles, c: nat)
    requires Inv(img, at) && 0 < FreeList(img) < |img| && c < |img| && IsFree(at[c]) && c != FreeList(img)
    requires forall i | 1 <= i < 256 :: img[FreeList(img)][i] == 0
    ensures RoleOk(TakeHeadImage(img), at[FreeList(img) := Limbo], -1, c)
  {
    HeadIsTop(img, at, -1);
    assert RoleOk(img, at, -1, 0) && RoleOk(img, at, -1, c);
    assert at[c].ListBlock? ==> RoleOk(img, at, -1, at[c].pred);
  }

  /** Taking the head of the free list itself, once its slots are used up. */
  lemma TakeHead(img: Image, at: Roles)
    requires Inv(img, at) && FreeList(img) != 0 && FreeList(img) < |img|
    requires forall i | 1 <= i < 256 :: img[FreeList(img)][i] == 0
    ensures var b, img' := FreeList(img), TakeHeadImage(img);
            b < |img| && Taken(img, img', at, at[b := Limbo], b)
  {
    var h := FreeList(img);
    HeadIsTop(img, at, -1);
    var img', at' := TakeHeadImage(img), at[h := Limbo];
    FreeCountUpdate(at, h, Limbo);
    assert RoleOk(img, at, -1, 0);
    FilesKept(img, img', at, at', -1, -1);
    var next := FreeList(img');
    if next != 0 {
      assert RoleOk(img, at, -1, next);
    }
    forall c | 0 <= c < |img| && IsFree(at'[c]) ensures RoleOk(img', at', -1, c) {
      TakeHeadRole(img, at, c);
    }
  }

  /** Block `t` may be freed: nothing refers to it as its parent. */
  ghost predicate Loose(at: Roles, dying: int, t: nat)
    requires t < |at|
  {
    && (at[t].Limbo? || (at[t].Node? && at[t].ino == dying))
    && forall c | 0 <= c < |at| && at[c].Node? :: c == t || at[c].parent != t
  }

  function FirstImage(img: Image, t: nat): Image
    requires 0 < t < |img| < WORD_LIMIT
  {
    img[t := NullBlock()][0 := img[0][1 := t]]
  }

  /** Freeing a block onto an empty free list. */
  lemma FreeFirst(img: Image, at: Roles, dying: int, t: nat)
    requires Inv(img, at, dying) && t < |img| && Loose(at, dying, t) && FreeList(img) == 0
    ensures 0 < t && Freed(img, FirstImage(img, t), at, at[t := ListBlock(0, 0)], dying, t)
  {
    assert RoleOk(img, at, dying, 0);
    assert RoleOk(img, at, dying, t);
    var img', at' := FirstImage(img, t), at[t := ListBlock(0, 0)];
    FilesKept(img, img', at, at', dying, t);
    forall c | 0 <= c < |img| && IsFree(at'[c]) ensures RoleOk(img', at', dying, c) {
      EmptyList(img, at, dying, c);
    }
  }

  function SlotImage(img: Image, t: nat, i: nat): Image
    requires |img| > 0 && 0 < FreeList(img) < |img| < WORD_LIMIT && t < |img| && 1 <= i < 256
  {
    img[t := NullBlock()][FreeList(img) := img[FreeList(img)][i := t]]
  }

  lemma FreeIntoSlotRole(img: Image, at: Roles, dying: int, t: nat, i: nat, c: nat)
    requires Inv(img, at, dying) && 0 < t < |img| && c < |img| && !IsFree(at[t])
    requires !at[t].Super? && !at[t].InodeBlock?
    requires 0 < FreeList(img) < |img| && 1 <= i < 256 && img[FreeList(img)][i] == 0
    requires IsFree(at[t := ListSlot(FreeList(img), i)][c])
    ensures RoleOk(SlotImage(img, t, i), at[t := ListSlot(FreeList(img), i)], dying, c)
  {
    HeadIsTop(img, at, dying);
    assert RoleOk(img, at, dying, t);
    assert RoleOk(img, at, dying, c);
  }

  /** Freeing a block into an empty slot of the head of the free list. */
  lemma FreeIntoSlot(img: Image, at: Roles, dying: int, t: nat, i: nat)
    requires Inv(img, at, dying) && t < |img| && Loose(at, dying, t)
    requires |img| > 0 && 0 < FreeList(img) < |img| && 1 <= i < 256 && img[FreeList(img)][i] == 0
    ensures 0 < t != FreeList(img)
    ensures Freed(img, SlotImage(img, t, i), at, at[t := ListSlot(FreeList(img), i)], dying, t)
  {
    assert at[FreeList(img)].ListBlock? by { HeadIsTop(img, at, dying); }
    assert RoleOk(img, at, dying, 0);
    assert RoleOk(img, at, dying, t);
    var img', at' := SlotImage(img, t, i), at[t := ListSlot(FreeList(img), i)];
    FilesKept(img, img', at, at', dying, t);
    forall c | 0 <= c < |img| && IsFree(at'[c]) ensures RoleOk(img', at', dying, c) {
      FreeIntoSlotRole(img, at, dying, t, i, c);
    }
  }

  function HeadImage(img: Image, t: nat): Image
    requires |img| > 0 && 0 < FreeList(img) < |img| < WORD_LIMIT && 0 < t < |img|
  {
    img[t := NullBlock()][0 := img[0][1 := t]][t := NullBlock()[0 := FreeList(img)]]
  }

  /** The roles after `t` has become the new head of the free list. */
  function HeadRoles(img: Image, at: Roles, t: nat): Roles
    requires |img| == |at| > 0 && t < |at| && 0 < FreeList(img) < |at| && at[FreeList(img)].ListBlock?
  {
    var h := FreeList(img);
    at[t := ListBlock(at[h].rank + 1, 0)][h := ListBlock(at[h].rank, t)]
  }

  lemma FreeAsHeadRole(img: Image, at: Roles, dying: int, t: nat, c: nat)
    requires Inv(img, at, dying) && 0 < t < |img| && c < |img| && !IsFree(at[t])
    requires 0 < FreeList(img) < |img| && at[FreeList(img)].ListBlock? && IsFree(HeadRoles(img, at, t)[c])
    requires !at[t].Super? && !at[t].InodeBlock?
    ensures RoleOk(HeadImage(img, t), HeadRoles(img, at, t), dying, c)
  {
    HeadIsTop(img, at, dying);
    assert RoleOk(img, at, dying, t);
    assert RoleOk(img, at, dying, c);
  }

  /** Freeing a block by making it the new head of the free list. */
  lemma FreeAsHead(img: Image, at: Roles, dying: int, t: nat)
    requires Inv(img, at, dying) && t < |img| && Loose(at, dying, t)
    requires 0 < FreeList(img) < |img|
    ensures 0 < t != FreeList(img) && at[FreeList(img)].ListBlock?
    ensures Freed(img, HeadImage(img, t), at, HeadRoles(img, at, t), dying, t)
  {
    assert RoleOk(img, at, dying, 0);
    assert RoleOk(img, at, dying, t);
    var img', at' := HeadImage(img, t), HeadRoles(img, at, t);
    FilesKept(img, img', at, at', dying, t);
    forall c | 0 <= c < |img| && IsFree(at'[c]) ensures RoleOk(img', at', dying, c) {
      FreeAsHeadRole(img, at, dying, t, c);
    }
  }

  // ---------------------------------------------------------------- one step of the allocator

  /** The last slot in use of a free-list block below `i`, or 0 when there is none. */
  function LastSlot(f: Block, i: nat := 256): (k: nat)
    requires 1 <= i <= 256
    ensures k < i && (k > 0 ==> f[k] != 0)
    ensures forall j | k < j < i :: f[j] == 0
  {
    if i == 1 then 0 else if f[i - 1] != 0 then i - 1 else LastSlot(f, i - 1)
  }

  /** The first empty slot of a free-list block from `i` on, or 256 when there is none. */
  function EmptySlot(f: Block, i: nat := 1): (k: nat)
    requires 1 <= i <= 256
    ensures i <= k <= 256 && (k < 256 ==> f[k] == 0)
    ensures forall j | i <= j < k :: f[j] != 0
    decreases 256 - i
  {
    if i == 256 || f[i] == 0 then i else EmptySlot(f, i + 1)
  }

  predicate Readable(img: Image) {
    0 < |img| < WORD_LIMIT && FreeList(img) < |img|
  }

  /** The block that an allocation takes; 0 when the free list is empty. */
  function TakenBlock(img: Image): nat
    requires Readable(img)
  {
    var h := FreeList(img);
    if h == 0 then 0 else if LastSlot(img[h]) == 0 then h else img[h][LastSlot(img[h])]
  }

  /** The image after an allocation. */
  function TakenImage(img: Image): Image
    requires Readable(img)
  {
    var h := FreeList(img);
    if h == 0 then img
    else if LastSlot(img[h]) == 0 then TakeHeadImage(img)
    else TakeSlotImage(img, LastSlot(img[h]))
  }

  /** An allocation takes a free block whenever there is one, and changes no file. */
  lemma Take(img: Image, at: Roles)
    requires Inv(img, at)
    ensures Readable(img)
    ensures TakenBlock(img) == 0 <==> FreeCount(at) == 0
    ensures TakenBlock(img) != 0 ==>
      TakenBlock(img) < |at| && Taken(img, TakenImage(img), at, at[TakenBlock(img) := Limbo], TakenBlock(img))
  {
    var h := FreeList(img);
    if h == 0 {
      forall c | 0 <= c < |at| ensures !IsFree(at[c]) { EmptyList(img, at, -1, c); }
      FreeCountZero(at);
    } else {
      HeadIsTop(img, at, -1);
      if LastSlot(img[h]) == 0 {
        TakeHead(img, at);
      } else {
        TakeSlot(img, at, LastSlot(img[h]));
      }
    }
  }

  /** An allocation does not depend on what a block in use holds. */
  lemma TakeElsewhere(img: Image, at: Roles, c: nat, x: Block)
    requires 0 < c < |img| && Inv(img[c := x], at) && !IsFree(at[c])
    ensures Readable(img) && TakenBlock(img) == TakenBlock(img[c := x])
    ensures TakenImage(img)[c := x] == TakenImage(img[c := x])
  {
    if FreeList(img) != 0 {
      HeadIsTop(img[c := x], at, -1);
    }
  }

  /** The image after freeing a block. */
  function FreedImage(img: Image, t: nat): Image
    requires Readable(img) && 0 < t < |img|
  {
    var h := FreeList(img);
    if h == 0 then FirstImage(img, t)
    else if EmptySlot(img[h]) < 256 then SlotImage(img, t, EmptySlot(img[h]))
    else HeadImage(img, t)
  }

  function FreedRoles(img: Image, at: Roles, t: nat): Roles
    requires Readable(img) && t < |img| == |at|
  {
    var h := FreeList(img);
    if h == 0 then at[t := ListBlock(0, 0)]
    else if EmptySlot(img[h]) < 256 || !at[h].ListBlock? then at[t := ListSlot(h, EmptySlot(img[h]))]
    else HeadRoles(img, at, t)
  }

  /** Freeing a block makes it free again and changes no other file. */
  lemma Free(img: Image, at: Roles, dying: int, t: nat)
    requires Inv(img, at, dying) && t < |img| && Loose(at, dying, t)
    ensures Readable(img) && 0 < t && t != FreeList(img)
    ensures Freed(img, FreedImage(img, t), at, FreedRoles(img, at, t), dying, t)
  {
    var h := FreeList(img);
    if h == 0 {
      FreeFirst(img, at, dying, t);
    } else {
      HeadIsTop(img, at, dying);
      if EmptySlot(img[h]) < 256 {
        FreeIntoSlot(img, at, dying, t, EmptySlot(img[h]));
      } else {
        FreeAsHead(img, at, dying, t);
      }
    }
  }

  lemma LimboIsLoose(img: Image, at: Roles, dying: int, t: nat)
    requires Inv(img, at, dying) && t < |img| && at[t].Limbo?
    ensures Loose(at, dying, t)
  {
    assert RoleOk(img, at, dying, 0);
    forall c | 0 <= c < |at| && at[c].Node? ensures at[c].parent != t {
      NodeUp(img, at, dying, c);
    }
  }

  lemma FreedCount(img: Image, at: Roles, t: nat)
    requires Readable(img) && t < |img| == |at| && !IsFree(at[t])
    requires FreeList(img) != 0 ==> at[FreeList(img)].ListBlock?
    ensures FreeCount(FreedRoles(img, at, t)) == FreeCount(at) + 1
  {
    hide FreeCount;
    var h := FreeList(img);
    if h == 0 {
      FreeCountUpdate(at, t, ListBlock(0, 0));
    } else if EmptySlot(img[h]) < 256 {
      FreeCountUpdate(at, t, ListSlot(h, EmptySlot(img[h])));
    } else {
      FreeCountUpdate(at, t, ListBlock(at[h].rank + 1, 0));
      FreeCountUpdate(at[t := ListBlock(at[h].rank + 1, 0)], h, ListBlock(at[h].rank, t));
    }
  }

  /** Freeing a block undoes its allocation: the same number of blocks is free again. */
  lemma FreeAfterTake(img: Image, at: Roles)
    requires Inv(img, at) && FreeCount(at) > 0
    ensures Readable(img) && 0 < TakenBlock(img) < |at|
    ensures var b := TakenBlock(img);
            var img', at' := TakenImage(img), at[b := Limbo];
            && Readable(img') && |img'| == |at'|
            && FreeCount(FreedRoles(img', at', b)) == FreeCount(at)
            && Files(FreedImage(img', b)) == Files(img)
  {
    Take(img, at);
    var b := TakenBlock(img);
    var img', at' := TakenImage(img), at[b := Limbo];
    LimboIsLoose(img', at', -1, b);
    Free(img', at', -1, b);
    FreedCount(img', at', b);
    var img'' := FreedImage(img', b);
    forall i | 0 <= i < NInodes(img) ensures Files(img'')[i] == Files(img)[i] {
      assert Contents(img', i) == Contents(img, i);
    }
  }
}
