/** Byte files on the blocks of virtual block stores: what the block file server of apps/bfs.c stores and reads. */
module FileBytes {
  import opened Blocks
  import opened TreeSteps

  const BLOCK_SIZE := 1024

  type Byte = b: nat | b < 256

  /** Byte `k` of a block, whose words are stored with the low byte first. */
  function BlockByte(block: Block, k: nat): Byte
    requires k < 1024
  {
    var w := block[k / 4];
    if k % 4 == 0 then w % 256
    else if k % 4 == 1 then w / 256 % 256
    else if k % 4 == 2 then w / 65536 % 256
    else w / 16777216
  }

  function WordOf(a: Byte, b: Byte, c: Byte, d: Byte): Word {
    a + 256 * b + 65536 * c + 16777216 * d
  }

  /** The block that 1024 bytes make up. */
  function FromBytes(s: seq<Byte>): Block
    requires |s| == 1024
  {
    seq(256, i requires 0 <= i < 256 => WordOf(s[4 * i], s[4 * i + 1], s[4 * i + 2], s[4 * i + 3]))
  }

  lemma SplitWord(a: Byte, b: Byte, c: Byte, d: Byte)
    ensures var w := WordOf(a, b, c, d);
            w % 256 == a && w / 256 % 256 == b && w / 65536 % 256 == c && w / 16777216 == d
  {
    var w := WordOf(a, b, c, d);
    assert w / 256 == b + 256 * c + 65536 * d;
    assert w / 65536 == c + 256 * d;
  }

  lemma ByteOfWord(s: seq<Byte>, k: nat)
    requires |s| == 1024 && k < 1024
    ensures BlockByte(FromBytes(s), k) == s[k]
  {
    var i := k / 4;
    SplitWord(s[4 * i], s[4 * i + 1], s[4 * i + 2], s[4 * i + 3]);
    assert k == 4 * i + k % 4;
  }

  // ---------------------------------------------------------------- files as byte sequences

  /** Byte `k` of a file; past its blocks there are null bytes. */
  function ByteAt(f: seq<Block>, k: nat): Byte {
    if k / 1024 < |f| then BlockByte(f[k / 1024], k % 1024) else 0
  }

  /** The first `size` bytes of a file. */
  function BytesOf(f: seq<Block>, size: nat): (s: seq<Byte>)
    ensures |s| == size && forall k | 0 <= k < size :: s[k] == ByteAt(f, k)
  {
    seq(size, k requires 0 <= k => ByteAt(f, k))
  }

  /** All stored bytes from the end of the file on are null. */
  ghost predicate NullTail(f: seq<Block>, size: nat) {
    forall k: nat | size <= k :: ByteAt(f, k) == 0
  }

  /** The file has the blocks that its size calls for. */
  predicate HasBlocks(f: seq<Block>, size: nat) {
    size > 0 ==> size / 1024 < |f|
  }

  /** The specification of a put: `data` replaces what is at `offset`, and a gap fills with null bytes. */
  function Overlay(s: seq<Byte>, offset: nat, data: seq<Byte>): (r: seq<Byte>)
    ensures |r| == if offset + |data| > |s| then offset + |data| else |s|
    ensures forall k | 0 <= k < |r| ::
      r[k] == if offset <= k < offset + |data| then data[k - offset] else if k < |s| then s[k] else 0
  {
    seq(if offset + |data| > |s| then offset + |data| else |s|, k requires 0 <= k =>
      if offset <= k < offset + |data| then data[k - offset] else if k < |s| then s[k] else 0)
  }

  lemma ByteInBlock(f: seq<Block>, o: nat, k: nat)
    requires o < |f| && k < 1024
    ensures ByteAt(f, o * 1024 + k) == BlockByte(f[o], k)
  {
  }

  /** A write of one block changes the bytes of that block and no others. */
  lemma WrittenByte(v: Inodes, ino: nat, offset: nat, block: Block, k: nat)
    requires ino < |v|
    ensures ByteAt(Written(v, ino, offset, block)[ino], k)
         == if k / 1024 == offset then BlockByte(block, k % 1024) else ByteAt(v[ino], k)
    ensures |Written(v, ino, offset, block)[ino]| == if offset < |v[ino]| then |v[ino]| else offset + 1
    ensures |Written(v, ino, offset, block)| == |v|
    ensures forall j | 0 <= j < |v| && j != ino :: Written(v, ino, offset, block)[j] == v[j]
  {
    assert forall i | 0 <= i < 1024 :: BlockByte(NullBlock(), i) == 0;
  }

  /** How the bytes of a file change when `buffer` is written from block `start` on. */
  ghost predicate Patched(f: seq<Block>, f': seq<Block>, start: nat, buffer: seq<Byte>) {
    forall k: nat :: ByteAt(f', k) ==
      if start * 1024 <= k < start * 1024 + |buffer| then buffer[k - start * 1024] else ByteAt(f, k)
  }

  /** The bytes in the blocks that a size covers. */
  function Held(size: nat): nat {
    if size == 0 then 0 else (size / 1024 + 1) * 1024
  }

  /** A put looks at the blocks that the size covers, and takes the rest for null. */
  function Base(f: seq<Block>, size: nat, k: nat): Byte {
    if k < Held(size) then ByteAt(f, k) else 0
  }

  /** The `n` bytes from block `start` on, as a put sees them. */
  function BaseFrom(f: seq<Block>, size: nat, start: nat, n: nat): (s: seq<Byte>)
    ensures |s| == n && forall i | 0 <= i < n :: s[i] == Base(f, size, start * 1024 + i)
  {
    if n == 0 then [] else BaseFrom(f, size, start, n - 1) + [Base(f, size, start * 1024 + n - 1)]
  }

  /** The buffer holds the blocks from `start` on, with the data put in at `offset`. */
  ghost predicate Assembled(f: seq<Block>, size: nat, offset: nat, data: seq<Byte>, start: nat, buffer: seq<Byte>) {
    && start * 1024 <= offset && offset + |data| <= start * 1024 + |buffer|
    && var at := offset - start * 1024;
    && forall i | 0 <= i < |buffer| ::
         buffer[i] == if at <= i < at + |data| then data[i - at] else Base(f, size, start * 1024 + i)
  }

  function Spliced(s: seq<Byte>, at: nat, data: seq<Byte>): seq<Byte>
    requires at + |data| <= |s|
  {
    s[..at] + data + s[at + |data|..]
  }

  lemma Merge(f: seq<Block>, size: nat, offset: nat, data: seq<Byte>, start: nat, buffer: seq<Byte>)
    requires start * 1024 <= offset && offset + |data| <= start * 1024 + |buffer|
    requires buffer == Spliced(BaseFrom(f, size, start, |buffer|), offset - start * 1024, data)
    ensures Assembled(f, size, offset, data, start, buffer)
  {
  }

  /** The size of a file after a put. */
  function SizeAfter(size: nat, offset: nat, n: nat): nat {
    if offset + n > size then offset + n else size
  }

  /** What a put does to the stored bytes of a file, in order or not. */
  ghost predicate PutEffect(f: seq<Block>, f': seq<Block>, size: nat, offset: nat, data: seq<Byte>) {
    && HasBlocks(f', SizeAfter(size, offset, |data|))
    && forall k: nat :: ByteAt(f', k) ==
         if offset <= k < offset + |data| then data[k - offset]
         else if offset / 1024 <= k / 1024 <= (offset + |data|) / 1024 then Base(f, size, k)
         else ByteAt(f, k)
  }

  /** A put on a file with null bytes past its end is an overlay, and leaves null bytes past the new end. */
  lemma PutIsOverlay(f: seq<Block>, f': seq<Block>, size: nat, offset: nat, data: seq<Byte>)
    requires PutEffect(f, f', size, offset, data) && NullTail(f, size)
    ensures var size' := SizeAfter(size, offset, |data|);
            BytesOf(f', size') == Overlay(BytesOf(f, size), offset, data) && NullTail(f', size')
  {
    forall k: nat
      ensures ByteAt(f', k) == if offset <= k < offset + |data| then data[k - offset] else ByteAt(f, k)
    {
      assert Base(f, size, k) == ByteAt(f, k);
    }
    assert BytesOf(f', SizeAfter(size, offset, |data|)) == Overlay(BytesOf(f, size), offset, data);
  }

  /** And only then: a byte left past the end shows after a put of anything in the next block. */
  lemma StaleByteShows(f: seq<Block>, f': seq<Block>, size: nat, k: nat, data: seq<Byte>)
    requires size <= k && ByteAt(f, k) != 0
    requires PutEffect(f, f', size, (k / 1024 + 1) * 1024, data)
    ensures var offset := (k / 1024 + 1) * 1024;
            BytesOf(f', SizeAfter(size, offset, |data|)) != Overlay(BytesOf(f, size), offset, data)
  {
    var offset := (k / 1024 + 1) * 1024;
    assert ByteAt(f', k) == ByteAt(f, k);
    assert BytesOf(f', SizeAfter(size, offset, |data|))[k] != Overlay(BytesOf(f, size), offset, data)[k];
  }

  // ---------------------------------------------------------------- the server

  /** The file control block, as far as it matters here. */
  datatype Fcb = Fcb(alloc: bool, size: nat, uid: nat, ownerRead: bool, ownerWrite: bool, otherRead: bool, otherWrite: bool)

  predicate ReadAllowed(stat: Fcb, uid: nat) {
    if uid == 0 then true else if uid == stat.uid then stat.ownerRead else stat.otherRead
  }

  predicate WriteAllowed(stat: Fcb, uid: nat) {
    if uid == 0 then true else if uid == stat.uid then stat.ownerWrite else stat.otherWrite
  }

  /** Which bits decide: none for the superuser, the owner's for the owner, and the others' for anyone else. */
  lemma Permissions(stat: Fcb, uid: nat)
    ensures uid == 0 ==> ReadAllowed(stat, uid) && WriteAllowed(stat, uid)
    ensures uid != 0 && uid == stat.uid ==> ReadAllowed(stat, uid) == stat.ownerRead && WriteAllowed(stat, uid) == stat.ownerWrite
    ensures uid != 0 && uid != stat.uid ==> ReadAllowed(stat, uid) == stat.otherRead && WriteAllowed(stat, uid) == stat.otherWrite
  {
  }

  /** Every file has the blocks that its size calls for. */
  ghost predicate Backed(v: Inodes, stats: seq<Fcb>) {
    |v| == |stats| && forall f | 0 <= f < |v| :: HasBlocks(v[f], stats[f].size)
  }

  /** Every file has null bytes only past its end. */
  ghost predicate Tidy(v: Inodes, stats: seq<Fcb>) {
    |v| == |stats| && forall f | 0 <= f < |v| :: NullTail(v[f], stats[f].size)
  }

  /** After a shrink the file holds its first bytes.  It is in order exactly when it is empty, or the bytes cut
      off were null already. */
  lemma CutFile(f: seq<Block>, oldSize: nat, size: nat)
    requires size <= oldSize && NullTail(f, oldSize)
    ensures BytesOf(f, size) == BytesOf(f, oldSize)[..size]
    ensures var f' := if size == 0 then [] else f;
            NullTail(f', size) <==> size == 0 || forall k | size <= k < oldSize :: BytesOf(f, oldSize)[k] == 0
  {
    if forall k | size <= k < oldSize :: BytesOf(f, oldSize)[k] == 0 {
      forall k: nat | size <= k ensures ByteAt(f, k) == 0 {
        assert k < oldSize ==> BytesOf(f, oldSize)[k] == 0;
      }
    }
    if NullTail(f, size) {
      forall k | size <= k < oldSize ensures BytesOf(f, oldSize)[k] == 0 {
        assert ByteAt(f, k) == 0;
      }
    }
  }

  /** A file of five bytes, the last of which is 7, is cut to four and then gets a byte at 1024: the 7 is back, in
      what should be a gap. */
  lemma CutByteComesBack(f: seq<Block>, f': seq<Block>)
    requires f == [NullBlock()[1 := 7]] && PutEffect(f, f', 4, 1024, [1])
    ensures BytesOf(f, 5)[4] == 7 && BytesOf(f', 1025)[4] == 7 && Overlay(BytesOf(f, 4), 1024, [1])[4] == 0
  {
    assert ByteAt(f, 4) == 7;
    assert ByteAt(f', 4) == ByteAt(f, 4);
  }

  /** The blocks that a read covers are there, and hold the bytes. */
  lemma ReadFits(f: seq<Block>, size: nat, offset: nat, n: nat)
    requires HasBlocks(f, size) && offset < size && offset + n <= size
    ensures var start, nblocks := offset / 1024, (offset + n - 1) / 1024 - offset / 1024 + 1;
            && offset == start * 1024 + offset % 1024
            && offset % 1024 + n <= nblocks * 1024
            && start + nblocks <= |f|
  {
  }

  lemma CutOut(f: seq<Block>, size: nat, offset: nat, n: nat, start: nat, at: nat, buffer: seq<Byte>)
    requires offset == start * 1024 + at && at + n <= |buffer| && offset + n <= size
    requires forall k | 0 <= k < |buffer| :: buffer[k] == ByteAt(f, start * 1024 + k)
    ensures buffer[at..at + n] == Slice(BytesOf(f, size), offset, n)
  {
    hide ByteAt, BlockByte;
  }

  /** The `n` bytes at an offset. */
  function Slice(s: seq<Byte>, offset: nat, n: nat): (r: seq<Byte>)
    requires n > 0 ==> offset + n <= |s|
    ensures |r| == n && forall k | 0 <= k < n :: r[k] == s[offset + k]
  {
    if n == 0 then [] else s[offset..offset + n]
  }

  /** How many bytes a read returns: the difference of the sizes goes through a 32-bit variable. */
  function ReplyLength(fileSize: nat, offset: nat, size: nat): (n: nat)
    ensures n > 0 ==> offset + n <= fileSize
  {
    if offset >= fileSize then 0
    else
      var n := (fileSize - offset) % WORD_LIMIT;
      if n > size then size else n
  }

  /** A read stops early exactly when the rest of the file is 4 GB or more and its length modulo 4 GB is
      below the size asked for. */
  lemma ReplyIsFull(fileSize: nat, offset: nat, size: nat)
    requires offset < fileSize && size < WORD_LIMIT
    ensures ReplyLength(fileSize, offset, size) == (if fileSize - offset < size then fileSize - offset else size)
       <==> fileSize - offset < WORD_LIMIT || size <= (fileSize - offset) % WORD_LIMIT
  {
  }

  /** The blocks a put handles: `loaded` of the `nblocks` blocks from `start` on are read before.  The data goes
      to place `at` in them. */
  datatype Plan = Plan(size: nat, start: nat, at: nat, nblocks: nat, loaded: nat)

  function PlanPut(fileSize: nat, offset: nat, size: nat): Plan {
    var start := offset / BLOCK_SIZE;
    if offset + size > fileSize then
      Plan(offset + size, start, offset % BLOCK_SIZE, (offset + size) / BLOCK_SIZE - start + 1,
           if start <= fileSize / BLOCK_SIZE then fileSize / BLOCK_SIZE - start + 1 else 0)
    else
      Plan(fileSize, start, offset % BLOCK_SIZE, (offset + size) / BLOCK_SIZE - start + 1, (offset + size) / BLOCK_SIZE - start + 1)
  }

  /** The plan covers the data, and reads only what is there. */
  ghost predicate Fits(p: Plan, fileSize: nat, offset: nat, size: nat) {
    && p.start * 1024 + p.at == offset
    && offset + size <= p.start * 1024 + p.nblocks * 1024 && p.nblocks > 0
    && (p.start <= fileSize / 1024 ==>
        p.loaded <= p.nblocks && p.start + p.loaded <= fileSize / 1024 + 1
        && (p.start + p.loaded == fileSize / 1024 + 1 || p.loaded == p.nblocks))
    && p.size == SizeAfter(fileSize, offset, size)
  }

  lemma PlanFits(fileSize: nat, offset: nat, size: nat)
    ensures Fits(PlanPut(fileSize, offset, size), fileSize, offset, size)
    ensures var p := PlanPut(fileSize, offset, size); p.start + p.nblocks == (offset + size) / 1024 + 1
  {
  }

  /** What a put does to the stores. */
  ghost predicate Stored(v: Inodes, v': Inodes, ino: nat, size: nat, offset: nat, data: seq<Byte>) {
    && ino < |v| == |v'|
    && |v'[ino]| == (if (offset + |data|) / 1024 < |v[ino]| then |v[ino]| else (offset + |data|) / 1024 + 1)
    && (forall j | 0 <= j < |v| && j != ino :: v'[j] == v[j])
    && PutEffect(v[ino], v'[ino], size, offset, data)
  }

  /** What file `f` holds. */
  function FileAt(v: Inodes, stats: seq<Fcb>, f: nat): seq<Byte>
    requires f < |v| == |stats|
  {
    BytesOf(v[f], stats[f].size)
  }

  /** What a put does to stores and control blocks. */
  ghost predicate PutStored(v: Inodes, stats: seq<Fcb>, v': Inodes, stats': seq<Fcb>, fileNo: nat, offset: nat, data: seq<Byte>) {
    && fileNo < |stats| && Stored(v, v', fileNo, stats[fileNo].size, offset, data)
    && stats' == stats[fileNo := stats[fileNo].(size := SizeAfter(stats[fileNo].size, offset, |data|))]
  }

  /** What a put does to files in order: the file holds the overlay, its control block the new size, and every
      other file and control block is as before. */
  ghost predicate PutDone(v: Inodes, stats: seq<Fcb>, v': Inodes, stats': seq<Fcb>, fileNo: nat, offset: nat, data: seq<Byte>) {
    && fileNo < |v| == |stats| == |v'| == |stats'|
    && FileAt(v', stats', fileNo) == Overlay(FileAt(v, stats, fileNo), offset, data)
    && stats' == stats[fileNo := stats[fileNo].(size := |FileAt(v', stats', fileNo)|)]
    && forall f | 0 <= f < |v| && f != fileNo :: FileAt(v', stats', f) == FileAt(v, stats, f)
  }

  lemma PutInOrder(v: Inodes, stats: seq<Fcb>, v': Inodes, stats': seq<Fcb>, fileNo: nat, offset: nat, data: seq<Byte>)
    requires PutStored(v, stats, v', stats', fileNo, offset, data)
    ensures Tidy(v, stats) ==> Tidy(v', stats') && PutDone(v, stats, v', stats', fileNo, offset, data)
  {
    if Tidy(v, stats) {
      PutIsOverlay(v[fileNo], v'[fileNo], stats[fileNo].size, offset, data);
    }
  }

  lemma PutStep(v: Inodes, v': Inodes, ino: nat, size: nat, offset: nat, data: seq<Byte>, buffer: seq<Byte>)
    requires var p := PlanPut(size, offset, |data|);
             && FilePatched(v, v', ino, p.start, p.nblocks, buffer) && |buffer| == p.nblocks * 1024
             && HasBlocks(v[ino], size)
             && Assembled(v[ino], size, offset, data, p.start, buffer)
    ensures Stored(v, v', ino, size, offset, data)
  {
    PlanFits(size, offset, |data|);
    var p := PlanPut(size, offset, |data|);
    forall k: nat
      ensures ByteAt(v'[ino], k) ==
        if offset <= k < offset + |data| then data[k - offset]
        else if offset / 1024 <= k / 1024 <= (offset + |data|) / 1024 then Base(v[ino], size, k)
        else ByteAt(v[ino], k)
    {
      if p.start * 1024 <= k < p.start * 1024 + |buffer| {
        assert ByteAt(v'[ino], k) == buffer[k - p.start * 1024];
      }
    }
  }

  /** File `ino` has been patched with `n` blocks from block `offset` on; no other file has changed. */
  ghost predicate FilePatched(v: Inodes, v': Inodes, ino: nat, offset: nat, n: nat, buffer: seq<Byte>) {
    && ino < |v| == |v'|
    && (forall j | 0 <= j < |v| && j != ino :: v'[j] == v[j])
    && Patched(v[ino], v'[ino], offset, buffer)
    && |v'[ino]| == if n > 0 && offset + n > |v[ino]| then offset + n else |v[ino]|
  }

  lemma PatchOne(v: Inodes, v1: Inodes, ino: nat, offset: nat, i: nat, buffer: seq<Byte>)
    requires i * 1024 + 1024 <= |buffer| && FilePatched(v, v1, ino, offset, i, buffer[..i * 1024])
    ensures FilePatched(v, Written(v1, ino, offset + i, FromBytes(buffer[i * 1024..i * 1024 + 1024])), ino, offset, i + 1,
                        buffer[..(i + 1) * 1024])
  {
    var s := buffer[i * 1024..i * 1024 + 1024];
    var block := FromBytes(s);
    var v2 := Written(v1, ino, offset + i, block);
    forall k: nat
      ensures ByteAt(v2[ino], k) ==
        if offset * 1024 <= k < offset * 1024 + (i + 1) * 1024 then buffer[k - offset * 1024] else ByteAt(v[ino], k)
    {
      WrittenByte(v1, ino, offset + i, block, k);
      ByteOfWord(s, k % 1024);
      assert ByteAt(v1[ino], k) ==
        if offset * 1024 <= k < offset * 1024 + i * 1024 then buffer[k - offset * 1024] else ByteAt(v[ino], k);
    }
    WrittenByte(v1, ino, offset + i, block, 0);
  }

  // ---------------------------------------------------------------- histories

  /** A request to write, or to cut a file to nothing. */
  datatype Request = Write(fileNo: nat, offset: nat, data: seq<Byte>, uid: nat) | Cut(fileNo: nat, uid: nat)

  /** Control blocks that differ in sizes only. */
  predicate SameModes(stats: seq<Fcb>, stats': seq<Fcb>) {
    |stats| == |stats'| && forall f | 0 <= f < |stats| :: stats'[f] == stats[f].(size := stats'[f].size)
  }

  /** Whether a request is served depends on the file's modes alone. */
  predicate Accepted(stats: seq<Fcb>, r: Request) {
    r.fileNo < |stats| && stats[r.fileNo].alloc && WriteAllowed(stats[r.fileNo], r.uid)
  }

  /** What file `f` holds after some requests. */
  function ContentsAfter(start: seq<Byte>, stats: seq<Fcb>, history: seq<Request>, f: nat): seq<Byte> {
    if history == [] then start
    else
      var n := |history| - 1;
      var before, r := ContentsAfter(start, stats, history[..n], f), history[n];
      if r.fileNo != f || !Accepted(stats, r) then before
      else match r
           case Write(_, offset, data, _) => Overlay(before, offset, data)
           case Cut(_, _) => []
  }

  /** The request leaves byte `k` of file `f` alone. */
  predicate Spares(stats: seq<Fcb>, r: Request, f: nat, k: nat) {
    r.fileNo == f && Accepted(stats, r) ==> r.Write? && !(r.offset <= k < r.offset + |r.data|)
  }

  /** Every byte is the one that was written last. */
  lemma {:induction false} LastWritten(start: seq<Byte>, stats: seq<Fcb>, history: seq<Request>, f: nat, i: nat, k: nat)
    requires i < |history| && history[i].Write? && history[i].fileNo == f && Accepted(stats, history[i])
    requires history[i].offset <= k < history[i].offset + |history[i].data|
    requires forall j | i < j < |history| :: Spares(stats, history[j], f, k)
    ensures var s := ContentsAfter(start, stats, history, f);
            k < |s| && s[k] == history[i].data[k - history[i].offset]
  {
    var n := |history| - 1;
    if i == n {
    } else {
      LastWritten(start, stats, history[..n], f, i, k);
      assert Spares(stats, history[n], f, k);
    }
  }

  /** Bytes of a new file that were never written are null. */
  lemma {:induction false} GapIsNull(stats: seq<Fcb>, history: seq<Request>, f: nat, k: nat)
    requires k < |ContentsAfter([], stats, history, f)|
    requires forall j | 0 <= j < |history| && history[j].Write? :: Spares(stats, history[j], f, k)
    ensures ContentsAfter([], stats, history, f)[k] == 0
  {
    if history == [] {
    } else {
      var n := |history| - 1;
      if k < |ContentsAfter([], stats, history[..n], f)| {
        GapIsNull(stats, history[..n], f, k);
      }
    }
  }

  /** A new file that was not cut ends at least where each write ended. */
  lemma {:induction false} ReachesWrites(start: seq<Byte>, stats: seq<Fcb>, history: seq<Request>, f: nat, i: nat)
    requires forall j | i <= j < |history| :: history[j].Write?
    requires i < |history| && history[i].fileNo == f && Accepted(stats, history[i])
    ensures history[i].offset + |history[i].data| <= |ContentsAfter(start, stats, history, f)|
  {
    var n := |history| - 1;
    if i == n {
    } else {
      ReachesWrites(start, stats, history[..n], f, i);
    }
  }

  /** It does not end anywhere else: if it is not empty, some write ended there. */
  lemma {:induction false} EndsAtAWrite(stats: seq<Fcb>, history: seq<Request>, f: nat) returns (i: nat)
    requires ContentsAfter([], stats, history, f) != []
    ensures i < |history| && history[i].Write? && history[i].fileNo == f && Accepted(stats, history[i])
    ensures |ContentsAfter([], stats, history, f)| == history[i].offset + |history[i].data|
  {
    var n := |history| - 1;
    var r := history[n];
    if r.Write? && r.fileNo == f && Accepted(stats, r)
       && r.offset + |r.data| == |ContentsAfter([], stats, history, f)| {
      i := n;
    } else {
      i := EndsAtAWrite(stats, history[..n], f);
    }
  }

  /** One more request. */
  lemma OneMore(start: seq<Byte>, stats: seq<Fcb>, history: seq<Request>, i: nat, f: nat)
    requires i < |history|
    ensures ContentsAfter(start, stats, history[..i + 1], f)
         == var before, r := ContentsAfter(start, stats, history[..i], f), history[i];
            if r.fileNo != f || !Accepted(stats, r) then before
            else if r.Write? then Overlay(before, r.offset, r.data) else []
  {
    assert history[..i + 1][..i] == history[..i] && history[..i + 1][i] == history[i];
  }

  /** What serving one request does to files in order. */
  ghost predicate Served(v: Inodes, stats: seq<Fcb>, v': Inodes, stats': seq<Fcb>, r: Request) {
    && |v| == |stats| == |v'| == |stats'| && SameModes(stats, stats')
    && (forall f | 0 <= f < |v| ::
         FileAt(v', stats', f) ==
           if r.fileNo != f || !Accepted(stats, r) then FileAt(v, stats, f)
           else if r.Write? then Overlay(FileAt(v, stats, f), r.offset, r.data) else [])
    && (forall f | 0 <= f < |v| ::
         |v'[f]| <= |v[f]| || (r.Write? && |v'[f]| <= (r.offset + |r.data|) / 1024 + 1))
  }

  lemma WriteServed(v: Inodes, stats: seq<Fcb>, v': Inodes, stats': seq<Fcb>, r: Request, refused: bool)
    requires r.Write? && |v| == |stats| == |v'| == |stats'| && (refused <==> !Accepted(stats, r))
    requires refused ==> v' == v && stats' == stats
    requires !refused ==>
      PutStored(v, stats, v', stats', r.fileNo, r.offset, r.data) && PutDone(v, stats, v', stats', r.fileNo, r.offset, r.data)
    ensures Served(v, stats, v', stats', r)
  {
  }

  lemma CutServed(v: Inodes, stats: seq<Fcb>, v': Inodes, stats': seq<Fcb>, r: Request)
    requires r.Cut? && |v| == |stats| == |v'| == |stats'|
    requires !Accepted(stats, r) ==> v' == v && stats' == stats
    requires Accepted(stats, r) ==> v' == v[r.fileNo := []] && stats' == stats[r.fileNo := stats[r.fileNo].(size := 0)]
    ensures Served(v, stats, v', stats', r)
  {
    if Accepted(stats, r) {
      assert FileAt(v', stats', r.fileNo) == [];
    }
  }

  /** The files hold what a history has made of them. */
  ghost predicate Follows(v: Inodes, stats: seq<Fcb>, v': Inodes, stats': seq<Fcb>, history: seq<Request>) {
    && |v| == |stats| == |v'| == |stats'| && SameModes(stats, stats')
    && (forall f | 0 <= f < |v| :: FileAt(v', stats', f) == ContentsAfter(FileAt(v, stats, f), stats, history, f))
    && (forall f | 0 <= f < |v| :: |v'[f]| <= 0x100_0000)
  }

  lemma FollowsOn(v: Inodes, stats: seq<Fcb>, v1: Inodes, stats1: seq<Fcb>, v2: Inodes, stats2: seq<Fcb>,
                  history: seq<Request>, i: nat)
    requires i < |history| && Follows(v, stats, v1, stats1, history[..i]) && Served(v1, stats1, v2, stats2, history[i])
    requires history[i].Write? ==> (history[i].offset + |history[i].data|) / 1024 < 0x100_0000
    ensures Follows(v, stats, v2, stats2, history[..i + 1])
  {
    assert Accepted(stats1, history[i]) <==> Accepted(stats, history[i]);
    forall f | 0 <= f < |v| ensures FileAt(v2, stats2, f) == ContentsAfter(FileAt(v, stats, f), stats, history[..i + 1], f) {
      OneMore(FileAt(v, stats, f), stats, history, i, f);
    }
  }
}
