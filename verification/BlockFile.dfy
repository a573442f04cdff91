/** The block file server of apps/bfs.c: byte files on the virtual block stores of a tree disk. */
module BlockFiles {
  import opened Options
  import opened Blocks
  import opened TreeInvariant
  import opened TreeWrite
  import opened TreeDisks
  import opened FileBytes

  class FileServer {
    const disk: TreeDisk
    const fcbs: array<Fcb>

    ghost function Repr(): set<object> {
      {this, fcbs} + disk.Repr()
    }

    ghost predicate Sound()
      reads Repr()
    {
      && fcbs !in disk.Repr() && this !in disk.Repr()
      && disk.Valid() && Backed(disk.Inodes(), fcbs[..])
    }

    ghost predicate Valid()
      reads Repr()
    {
      Sound() && Tidy(disk.Inodes(), fcbs[..])
    }

    /** What a file holds. */
    ghost function File(f: nat): seq<Byte>
      requires Sound() && f < fcbs.Length
      reads Repr()
    {
      FileAt(disk.Inodes(), fcbs[..], f)
    }

    /** A server for a disk on which every file is still empty. */
    constructor (disk: TreeDisk, fcbs: array<Fcb>)
      requires disk.Valid() && fcbs !in disk.Repr() && fcbs.Length == |disk.Inodes()|
      requires forall f | 0 <= f < fcbs.Length :: disk.Inodes()[f] == [] && fcbs[f].size == 0
      ensures Valid() && this.disk == disk && this.fcbs == fcbs
      ensures forall f | 0 <= f < fcbs.Length :: File(f) == []
    {
      this.disk := disk;
      this.fcbs := fcbs;
    }

    /** Reads consecutive blocks into a buffer, as many as there are. */
    method MultiblockRead(ino: nat, offset: nat, addr: array<Byte>, nblocks: nat) returns (ok: bool, n: nat)
      requires disk.Valid() && ino < |disk.Inodes()| && addr as object !in disk.Repr()
      requires nblocks * 1024 <= addr.Length && offset + nblocks < WORD_LIMIT
      modifies addr, disk.below.Repr()
      ensures disk.Valid() && disk.img == old(disk.img)
      ensures var f := disk.Inodes()[ino];
              n == (if offset >= |f| then 0 else if |f| - offset < nblocks then |f| - offset else nblocks)
      ensures ok <==> n > 0 || nblocks == 0
      ensures forall k | 0 <= k < addr.Length ::
        addr[k] == if k < n * 1024 then ByteAt(disk.Inodes()[ino], offset * 1024 + k) else old(addr[k])
    {
      hide ByteAt, TreeDisk.Valid;
      ghost var f: seq<Block> := disk.Inodes()[ino];
      n := 0;
      while n < nblocks
        invariant 0 <= n <= nblocks && disk.Valid() && disk.img == old(disk.img)
        invariant n > 0 ==> offset + n <= |f|
        invariant forall k | 0 <= k < addr.Length ::
          addr[k] == if k < n * 1024 then ByteAt(f, offset * 1024 + k) else old(addr[k])
      {
        ok := BlockRead(ino, offset + n, addr, n);
        if !ok {
          return n > 0, n;
        }
        n := n + 1;
      }
      ok := true;
    }

    /** Reads a block to its place in a buffer. */
    method BlockRead(ino: nat, offset: nat, addr: array<Byte>, n: nat) returns (ok: bool)
      requires disk.Valid() && ino < |disk.Inodes()| && addr as object !in disk.Repr() && offset < WORD_LIMIT
      requires n * 1024 + 1024 <= addr.Length
      modifies addr, disk.below.Repr()
      ensures disk.Valid() && disk.img == old(disk.img)
      ensures ok <==> offset < |disk.Inodes()[ino]|
      ensures forall k | 0 <= k < addr.Length ::
        addr[k] == if ok && n * 1024 <= k < n * 1024 + 1024 then ByteAt(disk.Inodes()[ino], offset * 1024 + (k - n * 1024))
                   else old(addr[k])
    {
      var r := disk.Read(ino, offset);
      if r == None {
        return false;
      }
      forall k: nat | k < 1024 ensures ByteAt(disk.Inodes()[ino], offset * 1024 + k) == BlockByte(r.value, k) {
        ByteInBlock(disk.Inodes()[ino], offset, k);
      }
      CopyIn(addr, n, r.value);
      ok := true;
    }

    /** Copies a block to its place in a buffer. */
    method CopyIn(addr: array<Byte>, n: nat, block: Block)
      requires n * 1024 + 1024 <= addr.Length
      modifies addr
      ensures forall k | 0 <= k < addr.Length ::
        addr[k] == if n * 1024 <= k < n * 1024 + 1024 then BlockByte(block, k - n * 1024) else old(addr[k])
    {
      forall k | n * 1024 <= k < n * 1024 + 1024 {
        addr[k] := BlockByte(block, k - n * 1024);
      }
    }

    /** Writes consecutive blocks from a buffer. */
    method MultiblockWrite(ino: nat, offset: nat, addr: array<Byte>, nblocks: nat) returns (panicked: bool)
      requires disk.Valid() && ino < |disk.Inodes()| && addr as object !in disk.Repr()
      requires nblocks * 1024 == addr.Length && nblocks > 0 && offset + nblocks < WORD_LIMIT
      modifies disk.Repr()
      ensures !panicked ==> disk.Valid() && FilePatched(old(disk.Inodes()), disk.Inodes(), ino, offset, nblocks, addr[..])
      ensures panicked ==> FreeCount(old(disk.at)) < 8 * nblocks
    {
      ghost var v := disk.Inodes();
      var i := 0;
      while i < nblocks
        invariant 0 <= i <= nblocks && disk.Valid()
        invariant FilePatched(v, disk.Inodes(), ino, offset, i, addr[..i * 1024])
        invariant FreeCount(disk.at) + 8 * i >= FreeCount(old(disk.at))
      {
        panicked := BlockWrite(ino, offset, i, addr, v);
        if panicked {
          return;
        }
        i := i + 1;
      }
      assert addr[..nblocks * 1024] == addr[..];
      panicked := false;
    }

    /** Writes block `i` of a buffer that starts at block `offset` of a file. */
    method BlockWrite(ino: nat, offset: nat, i: nat, addr: array<Byte>, ghost v: Inodes) returns (panicked: bool)
      requires disk.Valid() && ino < |disk.Inodes()| && addr as object !in disk.Repr()
      requires i * 1024 + 1024 <= addr.Length && offset + i + 1 < WORD_LIMIT
      requires FilePatched(v, disk.Inodes(), ino, offset, i, addr[..i * 1024])
      modifies disk.Repr()
      ensures !panicked ==> disk.Valid() && FilePatched(v, disk.Inodes(), ino, offset, i + 1, addr[..(i + 1) * 1024])
      ensures if panicked then FreeCount(old(disk.at)) < 8 else FreeCount(disk.at) + 8 >= FreeCount(old(disk.at))
    {
      NeededBound(disk.img, ino, offset + i);
      PatchOne(v, disk.Inodes(), ino, offset, i, addr[..]);
      assert addr[..][..i * 1024] == addr[..i * 1024] && addr[..][..(i + 1) * 1024] == addr[..(i + 1) * 1024];
      assert addr[..][i * 1024..i * 1024 + 1024] == addr[i * 1024..i * 1024 + 1024];
      var r := disk.Write(ino, offset + i, FromBytes(addr[i * 1024..i * 1024 + 1024]));
      panicked := r == Panicked;
    }

    /** Copies data into a buffer. */
    method CopyData(contents: array<Byte>, at: nat, data: seq<Byte>)
      requires at + |data| <= contents.Length
      modifies contents
      ensures contents[..] == Spliced(old(contents[..]), at, data)
    {
      forall k | at <= k < at + |data| {
        contents[k] := data[k - at];
      }
    }

    /** Loads the blocks that a put covers, as far as the size of the file goes. */
    method LoadBlocks(fileNo: nat, fileSize: nat, start: nat, contents: array<Byte>, psizeNblock: nat)
      requires disk.Valid() && fileNo < |disk.Inodes()| && HasBlocks(disk.Inodes()[fileNo], fileSize)
      requires contents as object !in disk.Repr()
      requires forall k | 0 <= k < contents.Length :: contents[k] == 0
      requires start <= fileSize / 1024 ==>
        psizeNblock * 1024 <= contents.Length && start + psizeNblock <= fileSize / 1024 + 1
        && (start + psizeNblock == fileSize / 1024 + 1 || psizeNblock * 1024 == contents.Length)
      modifies contents, disk.below.Repr()
      ensures disk.Valid() && disk.img == old(disk.img)
      ensures contents[..] == BaseFrom(disk.Inodes()[fileNo], fileSize, start, contents.Length)
    {
      ghost var f: seq<Block> := disk.Inodes()[fileNo];
      if start <= fileSize / 1024 && fileSize != 0 {
        var ok, n := MultiblockRead(fileNo, start, contents, psizeNblock);
        assert n == psizeNblock;
      }
    }

    /** Puts data at an offset of a file.  On a server in order a gap before it reads as null bytes; no other
        file changes.  With eight free blocks for every block written the system does not panic. */
    method Put(fileNo: nat, offset: nat, data: seq<Byte>) returns (panicked: bool)
      requires Sound() && fileNo < fcbs.Length && (offset + |data|) / 1024 + 1 < WORD_LIMIT
      modifies Repr()
      ensures !panicked ==> Sound() && PutStored(old(disk.Inodes()), old(fcbs[..]), disk.Inodes(), fcbs[..], fileNo, offset, data)
      ensures !panicked && Tidy(old(disk.Inodes()), old(fcbs[..])) ==>
        Tidy(disk.Inodes(), fcbs[..]) && PutDone(old(disk.Inodes()), old(fcbs[..]), disk.Inodes(), fcbs[..], fileNo, offset, data)
      ensures panicked ==> FreeCount(old(disk.at)) < 8 * ((offset + |data|) / 1024 - offset / 1024 + 1)
    {
      hide ByteAt, TreeDisk.Valid;
      ghost var v: Inodes, stats: seq<Fcb> := disk.Inodes(), fcbs[..];
      var plan := PlanPut(fcbs[fileNo].size, offset, |data|);
      panicked := Rewrite(fileNo, offset, data, plan);
      if panicked {
        return;
      }
      fcbs[fileNo] := fcbs[fileNo].(size := plan.size);
      assert fcbs[..] == stats[fileNo := stats[fileNo].(size := plan.size)];
      PutInOrder(v, stats, disk.Inodes(), fcbs[..], fileNo, offset, data);
    }

    /** Reads the blocks that the data covers and changes them. */
    method Assemble(fileNo: nat, fileSize: nat, offset: nat, data: seq<Byte>, plan: Plan) returns (contents: array<Byte>)
      requires disk.Valid() && fileNo < |disk.Inodes()| && Fits(plan, fileSize, offset, |data|)
      requires HasBlocks(disk.Inodes()[fileNo], fileSize)
      modifies disk.below.Repr()
      ensures disk.Valid() && disk.img == old(disk.img) && fresh(contents)
      ensures contents.Length == plan.nblocks * 1024
      ensures Assembled(disk.Inodes()[fileNo], fileSize, offset, data, plan.start, contents[..])
    {
      contents := new Byte[plan.nblocks * BLOCK_SIZE](_ => 0);
      LoadBlocks(fileNo, fileSize, plan.start, contents, plan.loaded);
      CopyData(contents, plan.at, data);
      Merge(disk.Inodes()[fileNo], fileSize, offset, data, plan.start, contents[..]);
    }

    /** Reads the blocks that the data covers, changes them and writes them back. */
    method Rewrite(fileNo: nat, offset: nat, data: seq<Byte>, plan: Plan) returns (panicked: bool)
      requires Sound() && fileNo < fcbs.Length && (offset + |data|) / 1024 + 1 < WORD_LIMIT
      requires plan == PlanPut(fcbs[fileNo].size, offset, |data|)
      modifies disk.Repr()
      ensures !panicked ==> Sound() && Stored(old(disk.Inodes()), disk.Inodes(), fileNo, fcbs[fileNo].size, offset, data)
      ensures panicked ==> FreeCount(old(disk.at)) < 8 * plan.nblocks
    {
      hide ByteAt, TreeDisk.Valid;
      PlanFits(fcbs[fileNo].size, offset, |data|);
      var contents := Assemble(fileNo, fcbs[fileNo].size, offset, data, plan);
      ghost var v: Inodes := disk.Inodes();
      panicked := MultiblockWrite(fileNo, plan.start, contents, plan.nblocks);
      if !panicked {
        PutStep(v, disk.Inodes(), fileNo, fcbs[fileNo].size, offset, data, contents[..]);
      }
    }

    /** The read request.  The reply is refused to callers without permission, and otherwise holds the bytes
        of the file from `offset` on, as many as the reply length says. */
    method DoRead(fileNo: nat, offset: nat, size: nat, uid: nat) returns (reply: Option<seq<Byte>>)
      requires Sound() && size < WORD_LIMIT
      modifies disk.below.Repr()
      ensures Sound() && disk.img == old(disk.img)
      ensures reply == None <==> fileNo >= fcbs.Length || !fcbs[fileNo].alloc || !ReadAllowed(fcbs[fileNo], uid)
      ensures fileNo < fcbs.Length && fcbs[fileNo].alloc ==>
        && (uid == 0 ==> reply.Some?)
        && (uid != 0 && uid == fcbs[fileNo].uid ==> (reply == None <==> !fcbs[fileNo].ownerRead))
        && (uid != 0 && uid != fcbs[fileNo].uid ==> (reply == None <==> !fcbs[fileNo].otherRead))
      ensures reply.Some? ==> reply.value == Slice(File(fileNo), offset, ReplyLength(fcbs[fileNo].size, offset, size))
    {
      hide BytesOf, ByteAt, TreeDisk.Valid;
      if fileNo >= fcbs.Length || !fcbs[fileNo].alloc {
        return None;
      }
      if !ReadAllowed(fcbs[fileNo], uid) {
        return None;
      }
      if size == 0 {
        return Some([]);
      }
      if offset >= fcbs[fileNo].size {
        return Some([]);
      }
      var n := (fcbs[fileNo].size - offset) % WORD_LIMIT;
      if n > size {
        n := size;
      }
      var bytes := ReadBytes(fileNo, offset, n);
      reply := Some(bytes);
    }

    /** Reads the blocks that hold `n` bytes at `offset`, and cuts the bytes out. */
    method ReadBytes(fileNo: nat, offset: nat, n: nat) returns (bytes: seq<Byte>)
      requires Sound() && fileNo < fcbs.Length && offset < fcbs[fileNo].size && offset + n <= fcbs[fileNo].size
      modifies disk.below.Repr()
      ensures Sound() && disk.img == old(disk.img)
      ensures bytes == Slice(File(fileNo), offset, n)
    {
      hide Slice, ByteAt, TreeDisk.Valid;
      ghost var f: seq<Block> := disk.Inodes()[fileNo];
      assert HasBlocks(f, fcbs[fileNo].size);
      var start := offset / BLOCK_SIZE;
      var nblocks: nat := (offset + n - 1) / BLOCK_SIZE - start + 1;
      ReadFits(f, fcbs[fileNo].size, offset, n);
      var contents := new Byte[nblocks * BLOCK_SIZE](_ => 0);
      var ok, found := MultiblockRead(fileNo, start, contents, nblocks);
      assert found == nblocks;
      CutOut(f, fcbs[fileNo].size, offset, n, start, offset % BLOCK_SIZE, contents[..]);
      bytes := contents[offset % BLOCK_SIZE..offset % BLOCK_SIZE + n];
    }

    /** The write request, with the size the message claims.  `refused` says that the reply is an error; then
        nothing has changed. */
    method DoWrite(fileNo: nat, offset: nat, size: nat, data: seq<Byte>, uid: nat) returns (refused: bool, panicked: bool)
      requires Sound() && (offset + |data|) / 1024 + 1 < WORD_LIMIT
      modifies Repr()
      ensures refused <==> fileNo >= fcbs.Length || !old(fcbs[..])[fileNo].alloc || size != |data|
                           || !WriteAllowed(old(fcbs[..])[fileNo], uid)
      ensures fileNo < fcbs.Length && old(fcbs[..])[fileNo].alloc && size == |data| ==>
        var stat := old(fcbs[..])[fileNo];
        && (uid == 0 ==> !refused)
        && (uid != 0 && uid == stat.uid ==> (refused <==> !stat.ownerWrite))
        && (uid != 0 && uid != stat.uid ==> (refused <==> !stat.otherWrite))
      ensures refused ==> !panicked && Sound() && disk.Inodes() == old(disk.Inodes()) && fcbs[..] == old(fcbs[..])
      ensures !refused && !panicked ==>
        Sound() && PutStored(old(disk.Inodes()), old(fcbs[..]), disk.Inodes(), fcbs[..], fileNo, offset, data)
      ensures !refused && !panicked && Tidy(old(disk.Inodes()), old(fcbs[..])) ==>
        Tidy(disk.Inodes(), fcbs[..]) && PutDone(old(disk.Inodes()), old(fcbs[..]), disk.Inodes(), fcbs[..], fileNo, offset, data)
      ensures panicked ==> FreeCount(old(disk.at)) < 8 * ((offset + |data|) / 1024 - offset / 1024 + 1)
    {
      if fileNo >= fcbs.Length || !fcbs[fileNo].alloc || size != |data| || !WriteAllowed(fcbs[fileNo], uid) {
        return true, false;
      }
      refused := false;
      panicked := Put(fileNo, offset, data);
    }

    /** The setsize request, which can only shrink a file.  It answers with an error when refused, with an error
        and then with success when the blocks cannot be given up, and else with success.  Unless it is refused
        the file is cut to the new size in each case. */
    method DoSetsize(fileNo: nat, size: nat, uid: nat) returns (replies: seq<bool>)
      requires Sound() && (fileNo < fcbs.Length ==> |disk.Inodes()[fileNo]| <= 0x100_0000)
      modifies Repr()
      ensures Sound()
      ensures var refused := fileNo >= fcbs.Length || !old(fcbs[..])[fileNo].alloc || size > old(fcbs[..])[fileNo].size
                             || !WriteAllowed(old(fcbs[..])[fileNo], uid);
              if refused then replies == [false] && disk.Inodes() == old(disk.Inodes()) && fcbs[..] == old(fcbs[..])
              else
                && replies == (if size == 0 || 1 + size / 1024 == |old(disk.Inodes())[fileNo]| then [true] else [false, true])
                && fcbs[..] == old(fcbs[..])[fileNo := old(fcbs[..])[fileNo].(size := size)]
                && disk.Inodes() == (if size == 0 then old(disk.Inodes())[fileNo := []] else old(disk.Inodes()))
      ensures fileNo < fcbs.Length && old(fcbs[..])[fileNo].alloc && size <= old(fcbs[..])[fileNo].size ==>
        var stat := old(fcbs[..])[fileNo];
        && (uid == 0 ==> replies != [false])
        && (uid != 0 && uid == stat.uid ==> (replies == [false] <==> !stat.ownerWrite))
        && (uid != 0 && uid != stat.uid ==> (replies == [false] <==> !stat.otherWrite))
    {
      hide ByteAt, TreeDisk.Valid;
      if fileNo >= fcbs.Length || !fcbs[fileNo].alloc || size > fcbs[fileNo].size || !WriteAllowed(fcbs[fileNo], uid) {
        return [false];
      }
      ghost var v: Inodes, stats: seq<Fcb> := disk.Inodes(), fcbs[..];
      assert HasBlocks(v[fileNo], fcbs[fileNo].size);
      var nblocks := if size == 0 then 0 else 1 + size / BLOCK_SIZE;
      var r := disk.SetSize(fileNo, nblocks);
      replies := if r < 0 then [false, true] else [true];
      fcbs[fileNo] := fcbs[fileNo].(size := size);
      assert fcbs[..] == stats[fileNo := stats[fileNo].(size := size)];
    }

    /** One request of a history. */
    method ServeOne(r: Request) returns (panicked: bool)
      requires Valid()
      requires r.Write? ==> (r.offset + |r.data|) / 1024 + 1 < WORD_LIMIT
      requires r.fileNo < fcbs.Length ==> |disk.Inodes()[r.fileNo]| <= 0x100_0000
      modifies Repr()
      ensures !panicked ==> Valid() && Served(old(disk.Inodes()), old(fcbs[..]), disk.Inodes(), fcbs[..], r)
    {
      ghost var v: Inodes, stats: seq<Fcb> := disk.Inodes(), fcbs[..];
      match r
      case Write(fileNo, offset, data, uid) =>
        var refused;
        refused, panicked := DoWrite(fileNo, offset, |data|, data, uid);
        if !panicked {
          WriteServed(v, stats, disk.Inodes(), fcbs[..], r, refused);
        }
      case Cut(fileNo, uid) =>
        var replies := DoSetsize(fileNo, 0, uid);
        panicked := false;
        CutServed(v, stats, disk.Inodes(), fcbs[..], r);
    }

    /** Serves a history of requests: unless the disk fills up each file holds what the history says. */
    method Serve(history: seq<Request>) returns (panicked: bool)
      requires Valid() && forall f | 0 <= f < fcbs.Length :: |disk.Inodes()[f]| <= 0x100_0000
      requires forall i | 0 <= i < |history| && history[i].Write? :: (history[i].offset + |history[i].data|) / 1024 < 0x100_0000
      modifies Repr()
      ensures !panicked ==> Valid() && SameModes(old(fcbs[..]), fcbs[..])
      ensures !panicked ==> forall f | 0 <= f < fcbs.Length :: File(f) == ContentsAfter(old(File(f)), old(fcbs[..]), history, f)
    {
      ghost var v: Inodes, stats: seq<Fcb> := disk.Inodes(), fcbs[..];
      for i := 0 to |history|
        invariant Valid() && Follows(v, stats, disk.Inodes(), fcbs[..], history[..i])
      {
        ghost var v1: Inodes, stats1: seq<Fcb> := disk.Inodes(), fcbs[..];
        panicked := ServeOne(history[i]);
        if panicked {
          return;
        }
        FollowsOn(v, stats, v1, stats1, disk.Inodes(), fcbs[..], history, i);
      }
      assert history[..|history|] == history;
      panicked := false;
    }

    /** Serves a history and then a read, which gets the bytes that the history left at its offset. */
    method ReadBack(history: seq<Request>, fileNo: nat, offset: nat, size: nat, uid: nat)
      returns (panicked: bool, reply: Option<seq<Byte>>)
      requires Valid() && forall f | 0 <= f < fcbs.Length :: |disk.Inodes()[f]| <= 0x100_0000
      requires forall i | 0 <= i < |history| && history[i].Write? :: (history[i].offset + |history[i].data|) / 1024 < 0x100_0000
      requires size < WORD_LIMIT
      modifies Repr()
      ensures !panicked ==>
        (reply == None <==> fileNo >= fcbs.Length || !old(fcbs[..])[fileNo].alloc || !ReadAllowed(old(fcbs[..])[fileNo], uid))
      ensures !panicked && reply.Some? ==>
        var s := ContentsAfter(old(if fileNo < fcbs.Length then File(fileNo) else []), old(fcbs[..]), history, fileNo);
        reply.value == Slice(s, offset, ReplyLength(|s|, offset, size))
    {
      reply := None;
      panicked := Serve(history);
      if !panicked {
        reply := DoRead(fileNo, offset, size, uid);
      }
    }
  }
}
