/** The places of a treedisk image from which blocks are reached, read off the image alone. */
module TreePlaces {
  import opened TreeLayout
  import opened TreeInvariant

  /** - NodeAt: the tree node of a file at a level, covering the data blocks from `prefix * 256^level` on
      - ListAt: the `k`-th block of the free list
      - SlotAt: slot `i` of that block */
  datatype Place =
    | SuperAt
    | InodeAt(block: nat)
    | NodeAt(ino: nat, level: nat, prefix: nat)
    | ListAt(k: nat)
    | SlotAt(k: nat, i: nat)

  /** The block number found by following a file's tree from the root; 0 where there is a hole. */
  function NodeBlock(img: Image, ino: nat, l: nat, q: nat): nat
    requires Formatted(img) && ino < NInodes(img) && l <= Top(img, ino)
    decreases Top(img, ino) - l
  {
    if l == Top(img, ino) then (if q == 0 then InodeOf(img, ino).root else 0)
    else
      var p := NodeBlock(img, ino, l + 1, q / 256);
      if p == 0 || p >= |img| then 0 else img[p][q % 256]
  }

  /** The block number found by following the free list for `k` steps; 0 past its end. */
  function ListBlockAt(img: Image, k: nat): nat
    requires |img| > 0
  {
    if k == 0 then FreeList(img)
    else
      var p := ListBlockAt(img, k - 1);
      if p == 0 || p >= |img| then 0 else img[p][0]
  }

  /** Place `p` is in use and holds block `b`. */
  ghost predicate Reached(img: Image, p: Place, b: nat)
    requires Formatted(img)
  {
    match p
    case SuperAt => b == 0
    case InodeAt(c) => 1 <= c <= NInodeBlocks(img) && b == c
    case NodeAt(ino, l, q) =>
      && ino < NInodes(img) && l <= Top(img, ino) && Within(q, l, InodeOf(img, ino).nblocks)
      && b == NodeBlock(img, ino, l, q) && b != 0
    case ListAt(k) => b == ListBlockAt(img, k) && b != 0
    case SlotAt(k, i) =>
      && 1 <= i < 256 && 0 < ListBlockAt(img, k) < |img|
      && b == img[ListBlockAt(img, k)][i] && 0 < b < |img|
  }

  /** No place leads off the disk and no block is reached from two places. */
  ghost predicate Sound(img: Image)
    requires Formatted(img)
  {
    && (forall p, b: nat :: Reached(img, p, b) ==> b < |img|)
    && (forall p, p', b: nat :: Reached(img, p, b) && Reached(img, p', b) ==> p == p')
  }

  /** Block `b` is at some place. */
  ghost predicate Accounted(img: Image, b: nat)
    requires Formatted(img)
  {
    exists p :: Reached(img, p, b)
  }

  // ---------------------------------------------------------------- the partition

  /** The place that a role stands for. */
  function PlaceOf(img: Image, at: Roles, b: nat): Place
    requires 0 < |img| == |at| && b < |at|
  {
    var top := if FreeList(img) < |at| && at[FreeList(img)].ListBlock? then at[FreeList(img)].rank else 0;
    match at[b]
    case Super => SuperAt
    case InodeBlock => InodeAt(b)
    case Node(ino, l, q, _) => NodeAt(ino, l, q)
    case ListBlock(rank, _) => ListAt(if rank <= top then top - rank else 0)
    case ListSlot(h, i) =>
      SlotAt(if h < |at| && at[h].ListBlock? && at[h].rank <= top then top - at[h].rank else 0, i)
    case Limbo => SuperAt
  }

  /** Following the tree to a node's place finds the node. */
  lemma {:induction false} NodeIsThere(img: Image, at: Roles, b: nat)
    requires Inv(img, at) && b < |img| && at[b].Node?
    ensures at[b].ino < NInodes(img) && at[b].level <= Top(img, at[b].ino)
    ensures NodeBlock(img, at[b].ino, at[b].level, at[b].prefix) == b
    decreases if at[b].ino < NInodes(img) then Top(img, at[b].ino) - at[b].level else 0
  {
    NodeUp(img, at, -1, b);
    if at[b].level >= Top(img, at[b].ino) {
    } else {
      NodeIsThere(img, at, at[b].parent);
    }
  }

  /** What is found by following the tree is the node of that place. */
  lemma {:induction false} ThereIsNode(img: Image, at: Roles, ino: nat, l: nat, q: nat)
    requires Inv(img, at) && ino < NInodes(img) && l <= Top(img, ino)
    ensures var b := NodeBlock(img, ino, l, q);
            b != 0 ==> b < |img| && at[b].Node? && at[b].ino == ino && at[b].level == l && at[b].prefix == q
    decreases Top(img, ino) - l
  {
    if l == Top(img, ino) {
      assert RootOk(img, at, ino);
    } else {
      ThereIsNode(img, at, ino, l + 1, q / 256);
      var p := NodeBlock(img, ino, l + 1, q / 256);
      if p != 0 {
        Child(img, at, -1, p, q % 256);
      }
    }
  }

  lemma {:induction false} ListIsThere(img: Image, at: Roles, b: nat)
    requires Inv(img, at) && b < |img| && at[b].ListBlock?
    ensures 0 < FreeList(img) < |img| && at[FreeList(img)].ListBlock? && at[b].rank <= at[FreeList(img)].rank
    ensures ListBlockAt(img, at[FreeList(img)].rank - at[b].rank) == b && b != 0
    decreases if FreeList(img) < |img| && at[FreeList(img)].ListBlock? then at[FreeList(img)].rank - at[b].rank else 0
  {
    assert RoleOk(img, at, -1, b);
    if b == FreeList(img) {
    } else {
      ListIsThere(img, at, at[b].pred);
    }
  }

  lemma {:induction false} ThereIsList(img: Image, at: Roles, k: nat)
    requires Inv(img, at)
    ensures var b := ListBlockAt(img, k);
            b != 0 ==> 0 < FreeList(img) < |img| && b < |img| && at[b].ListBlock? && at[FreeList(img)].ListBlock?
                       && at[b].rank + k == at[FreeList(img)].rank
  {
    if k == 0 {
      assert HeadOk(img, at);
    } else {
      ThereIsList(img, at, k - 1);
      var p := ListBlockAt(img, k - 1);
      if p != 0 {
        assert RoleOk(img, at, -1, p);
      }
    }
  }

  /** The partition: in every state that keeps the invariant, each block number is at exactly one place,
      except for blocks in limbo, which are at none. */
  lemma Partition(img: Image, at: Roles, p: Place, b: nat)
    requires Inv(img, at)
    ensures Reached(img, p, b) <==> b < |img| && !at[b].Limbo? && p == PlaceOf(img, at, b)
  {
    if Reached(img, p, b) {
      ReachedHasRole(img, at, p, b);
    }
    if b < |img| && !at[b].Limbo? {
      RoleIsReached(img, at, b);
    }
  }

  lemma ReachedHasRole(img: Image, at: Roles, p: Place, b: nat)
    requires Inv(img, at) && Reached(img, p, b)
    ensures b < |img| && !at[b].Limbo? && p == PlaceOf(img, at, b)
  {
    match p {
      case SuperAt =>
        assert RoleOk(img, at, -1, 0);
      case InodeAt(c) =>
        assert RoleOk(img, at, -1, c);
      case NodeAt(ino, l, q) =>
        ThereIsNode(img, at, ino, l, q);
      case ListAt(k) =>
        ThereIsList(img, at, k);
      case SlotAt(k, i) =>
        ThereIsList(img, at, k);
        assert RoleOk(img, at, -1, ListBlockAt(img, k));
    }
  }

  lemma RoleIsReached(img: Image, at: Roles, b: nat)
    requires Inv(img, at) && b < |img| && !at[b].Limbo?
    ensures Reached(img, PlaceOf(img, at, b), b)
  {
    assert RoleOk(img, at, -1, b);
    match at[b] {
      case Super =>
      case InodeBlock =>
      case Node(ino, l, q, _) =>
        NodeIsThere(img, at, b);
        NodeUp(img, at, -1, b);
      case ListBlock(rank, _) =>
        ListIsThere(img, at, b);
      case ListSlot(h, i) =>
        ListIsThere(img, at, h);
        assert RoleOk(img, at, -1, 0);
    }
  }

  /** An image that keeps the invariant is sound, and without limbo it has no leaks. */
  lemma InvariantIsSound(img: Image, at: Roles)
    requires Inv(img, at)
    ensures Sound(img)
    ensures NoLimbo(at) ==> forall b | 0 <= b < |img| :: Accounted(img, b)
  {
    forall p, b: nat ensures Reached(img, p, b) <==> b < |img| && !at[b].Limbo? && p == PlaceOf(img, at, b) {
      Partition(img, at, p, b);
    }
    if NoLimbo(at) {
      forall b | 0 <= b < |img| ensures Accounted(img, b) {
        assert Reached(img, PlaceOf(img, at, b), b);
      }
    }
  }
}
