/** mkfs.c: the initial image.  The builder hands out blocks by counting up and writes the
    free map last; until then the invariant is that of the volume as it will be once the map
    shows the first `freeblock` blocks in use. */
module Mkfs {
  import opened Machine
  import opened Sectors
  import opened FreeMap
  import opened InodeBlocks
  import opened BlockCounts
  import opened FileSystem

  const FSSIZE: nat := 1000
  const NINODES: nat := 200
  const IPB: nat := 8
  const NLOG: nat := 30

  /** The layout computation at the start of main. */
  function MkLayout(): (l: Layout)
    ensures l.Valid() && 0 < l.nmeta
  {
    var nbitmap := FSSIZE / (BSIZE * 8) + 1;
    var ninodeblocks := NINODES / IPB + 1;
    Layout(FSSIZE, 2 + NLOG + ninodeblocks, 2 + NLOG + ninodeblocks + nbitmap)
  }

  /** The disk with the bits of the first n blocks set, one after another. */
  function WithMap(l: Layout, disk: Disk, n: nat): (r: Disk)
    requires l.Valid() && |disk| == l.size
    ensures |r| == l.size
  {
    if n == 0 || n > l.size then disk
    else
      var d := WithMap(l, disk, n - 1);
      if InUse(l, d, n - 1) then d else Mark(l, d, n - 1)
  }

  ghost predicate NoBits(l: Layout, disk: Disk)
    requires l.Valid() && |disk| == l.size
  {
    forall b :: 0 <= b < l.size ==> !InUse(l, disk, b)
  }

  lemma {:induction false} MapBits(l: Layout, disk: Disk, n: nat)
    requires l.Valid() && |disk| == l.size && n <= l.size && NoBits(l, disk)
    ensures forall b :: 0 <= b < l.size ==> (InUse(l, WithMap(l, disk, n), b) <==> b < n)
    ensures n > 0 ==> !InUse(l, WithMap(l, disk, n - 1), n - 1)
    ensures n > 0 ==> WithMap(l, disk, n) == Mark(l, WithMap(l, disk, n - 1), n - 1)
  {
    hide InUse, Mark;
    if n > 0 {
      MapBits(l, disk, n - 1);
      var d := WithMap(l, disk, n - 1);
      forall b | 0 <= b < l.size ensures InUse(l, WithMap(l, disk, n), b) <==> b < n {
        MarkOne(l, d, n - 1, b);
      }
    }
  }

  /** Data blocks show through. */
  lemma {:induction false} MapData(l: Layout, disk: Disk, n: nat, x: nat)
    requires l.Valid() && |disk| == l.size && l.nmeta <= x < l.size
    ensures WithMap(l, disk, n)[x] == disk[x]
  {
    hide InUse, Mark;
    if 0 < n <= l.size {
      MapData(l, disk, n - 1, x);
      assert (n - 1) / BPB <= l.size / BPB;
    }
  }

  lemma SwapWrite(l: Layout, d: Disk, b: nat, x: nat, s: Sector)
    requires l.Valid() && |d| == l.size && b < l.size && l.nmeta <= x < l.size && !InUse(l, d, b)
    ensures !InUse(l, d[x := s], b) && Mark(l, d[x := s], b) == Mark(l, d, b)[x := s]
  {
    OtherBlock(l, d, x, s, b);
    assert b / BPB <= l.size / BPB;
  }

  /** Writing a data block and writing the map commute. */
  lemma {:induction false} MapWrite(l: Layout, disk: Disk, n: nat, x: nat, s: Sector)
    requires l.Valid() && |disk| == l.size && l.nmeta <= x < l.size
    ensures WithMap(l, disk[x := s], n) == WithMap(l, disk, n)[x := s]
  {
    hide InUse, Mark;
    if 0 < n <= l.size {
      MapWrite(l, disk, n - 1, x, s);
      var d := WithMap(l, disk, n - 1);
      OtherBlock(l, d, x, s, n - 1);
      if !InUse(l, d, n - 1) {
        SwapWrite(l, d, n - 1, x, s);
      }
    }
  }

  /** Inode i has blocks exactly for its first n bytes, the indirect block included. */
  ghost predicate TightTo(fs: Fs, i: nat, n: nat) {
    && (forall bn :: 0 <= bn < MAXFILE ==> (Addr(fs, i, SlotOf(bn)) != 0 <==> bn * BSIZE < n))
    && (Addr(fs, i, NDIRECT) != 0 <==> NDIRECT * BSIZE < n)
  }

  /** The blocks a file of n bytes occupies: its data, and the indirect block if it needs one. */
  function BlocksFor(n: nat): nat {
    (n + BSIZE - 1) / BSIZE + if n > NDIRECT * BSIZE then 1 else 0
  }

  lemma BlocksGrow(n: nat, m: nat)
    requires n <= m
    ensures BlocksFor(n) <= BlocksFor(m)
  {
  }

  /** A file with blocks for its first bytes lacks exactly what the next chunk needs. */
  lemma MissingChunk(fs: Fs, i: nat, at: nat, m: nat)
    requires TightTo(fs, i, at) && 0 < m && at % BSIZE + m <= BSIZE && at + m <= MAXBYTES
    ensures BlocksFor(at + m) == BlocksFor(at) + Missing(fs, i, at / BSIZE)
  {
    hide Addr, SlotOf;
    var bn := at / BSIZE;
    assert bn < MAXFILE && at == bn * BSIZE + at % BSIZE;
    assert (at + m + BSIZE - 1) / BSIZE == bn + 1;
    assert Addr(fs, i, SlotOf(bn)) != 0 <==> at % BSIZE > 0;
    assert (at + BSIZE - 1) / BSIZE == if at % BSIZE > 0 then bn + 1 else bn;
  }

  ghost predicate ZeroFrom(fs: Fs, i: nat, n: nat) {
    forall k :: n <= k < MAXBYTES ==> ByteAt(fs, i, k) == 0
  }

  /** Blocks for its size and no more, and the rest of the last block still blank. */
  ghost predicate Tight(fs: Fs, i: nat) {
    && i < |fs.inodes| && fs.inodes[i].size <= MAXBYTES
    && TightTo(fs, i, fs.inodes[i].size) && ZeroFrom(fs, i, fs.inodes[i].size)
  }

  /** A file whose blocks cover n bytes and no more is without holes exactly if its size asks
      for no further block. */
  lemma TightFile(fs: Fs, i: nat, n: nat)
    requires i < |fs.inodes| && n <= fs.inodes[i].size <= MAXBYTES && TightTo(fs, i, n)
    ensures FileOK(fs, i) <==> (fs.inodes[i].size + BSIZE - 1) / BSIZE == (n + BSIZE - 1) / BSIZE
  {
    hide Addr, SlotOf;
    var size := fs.inodes[i].size;
    if (size + BSIZE - 1) / BSIZE == (n + BSIZE - 1) / BSIZE {
      forall k | 0 <= k < size ensures Addr(fs, i, SlotOf(k / BSIZE)) != 0 {
        assert k / BSIZE < MAXFILE && k / BSIZE * BSIZE < n;
      }
    } else {
      var k := (n + BSIZE - 1) / BSIZE * BSIZE;
      assert n <= k < size && k / BSIZE * BSIZE == k && k / BSIZE < MAXFILE;
      assert Addr(fs, i, SlotOf(k / BSIZE)) == 0;
    }
  }

  lemma ChunkTight(gs: Fs, hs: Fs, rs: Fs, i: nat, at: nat, m: nat)
    requires TightTo(gs, i, at) && GrowsAt(gs, hs, i, BmapSlots(at / BSIZE)) && GrowsAt(hs, rs, i, {})
    requires i < |gs.inodes| && Addr(hs, i, SlotOf(at / BSIZE)) != 0 && 0 < m && at % BSIZE + m <= BSIZE
    ensures TightTo(rs, i, at + m)
  {
    assert Addr(hs, i, at / BSIZE + 1) != 0 && at / BSIZE >= NDIRECT ==> Addr(hs, i, NDIRECT) != 0;
    hide Addr;
    assert Addr(rs, i, NDIRECT) == Addr(hs, i, NDIRECT);
    if at / BSIZE < NDIRECT {
      assert NDIRECT !in BmapSlots(at / BSIZE);
      assert Addr(hs, i, NDIRECT) == Addr(gs, i, NDIRECT);
      assert at + m <= NDIRECT * BSIZE;
    }
    forall bn | 0 <= bn < MAXFILE ensures Addr(rs, i, SlotOf(bn)) != 0 <==> bn * BSIZE < at + m {
      assert SlotOf(bn) < NSLOTS;
      assert Addr(rs, i, SlotOf(bn)) == Addr(hs, i, SlotOf(bn));
      if bn == at / BSIZE {
        assert bn * BSIZE <= at;
      } else {
        assert SlotOf(bn) !in BmapSlots(at / BSIZE);
        assert bn * BSIZE < at + m <==> bn * BSIZE < at;
      }
    }
  }

  function EmptyInode(): Inode {
    Inode(0, seq(NDIRECT + 1, _ => 0))
  }

  lemma BlankAddr(disk: Disk, inodes: seq<Inode>, i: nat, s: nat)
    requires forall i :: 0 <= i < |inodes| ==> inodes[i] == EmptyInode()
    ensures Addr(Fs(disk, inodes), i, s) == 0 || i >= |inodes| || s > NSLOTS
    ensures i < |inodes| && s < NSLOTS ==> Addr(Fs(disk, inodes), i, s) == 0
  {
  }

  lemma BlankImage(l: Layout, disk: Disk, inodes: seq<Inode>, n: nat)
    requires l.Valid() && |disk| == l.size && n == l.nmeta
    requires forall x :: 0 <= x < l.size ==> disk[x] == Zero()
    requires forall i :: 0 <= i < |inodes| ==> inodes[i] == EmptyInode()
    ensures NoBits(l, disk) && FsOK(l, Fs(WithMap(l, disk, n), inodes), {})
  {
    ZeroBits(l, disk);
    MapBits(l, disk, n);
    var fs := Fs(WithMap(l, disk, n), inodes);
    assert forall i :: 0 <= i < |inodes| ==> |inodes[i].addrs| == NDIRECT + 1;
    hide Addr, InUse, WithMap;
    forall i, s | 0 <= i < |inodes| && 0 <= s < NSLOTS ensures Addr(fs, i, s) == 0 {
      BlankAddr(fs.disk, inodes, i, s);
    }
    assert forall b :: b != 0 ==> !Owned(fs, b);
  }

  lemma {:induction false} ZeroBit(k: nat)
    ensures !Bit(0, k)
  {
    if k > 0 { ZeroBit(k - 1); }
  }

  lemma ZeroBits(l: Layout, disk: Disk)
    requires l.Valid() && |disk| == l.size
    requires forall x :: 0 <= x < l.size ==> disk[x] == Zero()
    ensures NoBits(l, disk)
  {
    forall b | 0 <= b < l.size ensures !InUse(l, disk, b) {
      ZeroBit(b % BPB % 8);
    }
  }

  lemma StillNoBits(l: Layout, disk: Disk, x: nat, s: Sector)
    requires l.Valid() && |disk| == l.size && l.nmeta <= x < l.size && NoBits(l, disk)
    ensures NoBits(l, disk[x := s])
  {
    hide InUse;
    var d := disk[x := s];
    forall b | 0 <= b < l.size ensures !InUse(l, d, b) {
      OtherBlock(l, disk, x, s, b);
    }
  }

  /** Counting freeblock up is balloc on the image: the next block is zeroed and free. */
  lemma NextBlock(l: Layout, disk: Disk, inodes: seq<Inode>, b: nat, i: nat, s: nat) returns (gs: Fs)
    requires l.Valid() && |disk| == l.size && l.nmeta <= b < l.size && NoBits(l, disk) && disk[b] == Zero()
    requires FsOK(l, Fs(WithMap(l, disk, b), inodes), {}) && i < |inodes| && s < NSLOTS
    requires Addr(Fs(WithMap(l, disk, b), inodes), i, s) == 0
    requires s > NDIRECT ==> Addr(Fs(WithMap(l, disk, b), inodes), i, NDIRECT) != 0
    ensures gs == Fs(WithMap(l, disk, b + 1), inodes) && FsOK(l, gs, {b})
    ensures var fs := Fs(WithMap(l, disk, b), inodes);
      SameBytes(fs, gs) && GrowsAt(fs, gs, 0, {}) && Addr(gs, i, s) == 0
    ensures s > NDIRECT ==> Addr(gs, i, NDIRECT) != 0
    ensures gs.disk[b] == Zero() && 0 < b < UINT_LIMIT && |inodes[i].addrs| == NDIRECT + 1
    ensures s > NDIRECT ==> l.nmeta <= inodes[i].addrs[NDIRECT] < b
    ensures s > NDIRECT ==> gs.disk[inodes[i].addrs[NDIRECT]] == disk[inodes[i].addrs[NDIRECT]]
  {
    hide Addr, InUse, SameBytes, Mark, OnceEach;
    var fs := Fs(WithMap(l, disk, b), inodes);
    MapBits(l, disk, b);
    MapBits(l, disk, b + 1);
    MapData(l, disk, b, b);
    MapData(l, disk, b + 1, b);
    assert {} + {b} == {b};
    AllocateKeeps(l, fs, {}, b);
    AllocateBytes(l, fs, {}, b);
    gs := Fs(WithMap(l, disk, b + 1), inodes);
    assert gs.disk == Allocated(l, fs.disk, b);
    AddrInode(fs, i);
    if s > NDIRECT {
      var ind := inodes[i].addrs[NDIRECT];
      assert Owns(fs, i, NDIRECT, ind) && Owned(fs, ind);
      assert InUse(l, fs.disk, ind);
      MapData(l, disk, b + 1, ind);
    }
  }

  /** What the builder reads from the indirect block is what the image has there. */
  lemma EntrySame(l: Layout, disk: Disk, inodes: seq<Inode>, n: nat, i: nat)
    requires l.Valid() && |disk| == l.size && FsOK(l, Fs(WithMap(l, disk, n), inodes), {}) && i < |inodes|
    ensures |inodes[i].addrs| == NDIRECT + 1 && inodes[i].addrs[NDIRECT] < l.size
    ensures inodes[i].addrs[NDIRECT] != 0 ==>
      WithMap(l, disk, n)[inodes[i].addrs[NDIRECT]] == disk[inodes[i].addrs[NDIRECT]]
  {
    hide Addr, InUse, WithMap;
    AddrInode(Fs(WithMap(l, disk, n), inodes), i);
    if inodes[i].addrs[NDIRECT] != 0 {
      MapData(l, disk, n, inodes[i].addrs[NDIRECT]);
    }
  }

  /** Every block in use by an inode lies below the counter. */
  lemma BelowFree(l: Layout, disk: Disk, inodes: seq<Inode>, n: nat, i: nat, bn: nat)
    requires l.Valid() && |disk| == l.size && n <= l.size && NoBits(l, disk)
    requires FsOK(l, Fs(WithMap(l, disk, n), inodes), {}) && i < |inodes| && bn < MAXFILE
    ensures var x := Addr(Fs(WithMap(l, disk, n), inodes), i, SlotOf(bn));
      x != 0 ==> l.nmeta <= x < n && WithMap(l, disk, n)[x] == disk[x]
  {
    hide Addr, InUse, WithMap;
    var fs := Fs(WithMap(l, disk, n), inodes);
    var x := Addr(fs, i, SlotOf(bn));
    MapBits(l, disk, n);
    if x != 0 {
      assert Owns(fs, i, SlotOf(bn), x) && Owned(fs, x);
      MapData(l, disk, n, x);
    }
  }

  lemma ResizedTight(fs: Fs, i: nat, n: nat)
    requires i < |fs.inodes| && TightTo(fs, i, n)
    ensures TightTo(Resized(fs, i, n), i, n)
  {
    hide Addr;
    forall bn | 0 <= bn < MAXFILE ensures Addr(Resized(fs, i, n), i, SlotOf(bn)) == Addr(fs, i, SlotOf(bn)) {
      ResizedAddr(fs, i, n, i, SlotOf(bn));
    }
    ResizedAddr(fs, i, n, i, NDIRECT);
  }

  lemma ResizedZero(l: Layout, fs: Fs, es: Fs, i: nat, off: nat, src: seq<Byte>)
    requires Spliced(l, fs, es, i, off, src, |src|) && ZeroFrom(fs, i, off) && i < |fs.inodes| == |es.inodes|
    ensures ZeroFrom(Resized(es, i, off + |src|), i, off + |src|)
  {
    hide FsOK, Addr, ByteAt;
    var gs := Resized(es, i, off + |src|);
    forall k | off + |src| <= k < MAXBYTES ensures ByteAt(gs, i, k) == 0 {
      ResizedByte(es, i, off + |src|, k);
      assert ByteAt(es, i, k) == SplicedByte(fs, i, off, src, |src|, i, k);
    }
  }

  lemma ResizedByte(fs: Fs, i: nat, n: nat, k: nat)
    requires i < |fs.inodes|
    ensures ByteAt(Resized(fs, i, n), i, k) == ByteAt(fs, i, k)
  {
    hide Addr;
    ResizedAddr(fs, i, n, i, SlotOf(k / BSIZE));
  }

  lemma AppendIsSplice(c: seq<Byte>, data: seq<Byte>)
    ensures Splice(c, |c|, data) == c + data
  {
  }

  // ----- directories and host files

  datatype HostFile = HostFile(name: seq<Byte>, data: seq<Byte>)

  const UNDERSCORE: Byte := 95

  /** A leading underscore is skipped. */
  function FileName(name: seq<Byte>): seq<Byte> {
    if name != [] && name[0] == UNDERSCORE then name[1..] else name
  }

  /** A directory entry: two bytes of inode number, fourteen of name, padded with zeros. */
  function Dirent(inum: nat, name: seq<Byte>): (d: seq<Byte>)
    ensures |d| == DIRENT
  {
    [inum % 256, inum / 256 % 256] + seq(DIRSIZ, k requires 0 <= k => if k < |name| then name[k] else 0)
  }

  /** The root directory after the given files have been entered. */
  function RootDir(files: seq<HostFile>): (c: seq<Byte>)
    ensures |c| == DIRENT * (2 + |files|)
  {
    if files == [] then Dirent(ROOTINO, [46]) + Dirent(ROOTINO, [46, 46])
    else
      var k := |files| - 1;
      RootDir(files[..k]) + Dirent(k + 2, FileName(files[k].name))
  }

  lemma RootDirMore(files: seq<HostFile>, k: nat)
    requires k < |files|
    ensures RootDir(files[..k + 1]) == RootDir(files[..k]) + Dirent(k + 2, FileName(files[k].name))
  {
    assert files[..k + 1][..k] == files[..k];
  }

  /** The blocks the contents of the files occupy. */
  function DataBlocks(files: seq<HostFile>): nat {
    if files == [] then 0
    else DataBlocks(files[..|files| - 1]) + BlocksFor(|files[|files| - 1].data|)
  }

  /** The blocks the finished image holds: the root directory and the files. */
  function Need(files: seq<HostFile>): nat {
    BlocksFor(DIRENT * (2 + |files|)) + DataBlocks(files)
  }

  /** The condition under which mkfs can build the image. */
  predicate Fits(l: Layout, files: seq<HostFile>) {
    (forall k :: 0 <= k < |files| ==> |files[k].data| <= MAXBYTES) && l.nmeta + Need(files) <= l.size
  }

  lemma NeedMore(files: seq<HostFile>, k: nat)
    requires k < |files|
    ensures DataBlocks(files[..k + 1]) == DataBlocks(files[..k]) + BlocksFor(|files[k].data|)
    ensures Need(files[..k]) <= Need(files[..k + 1])
  {
    assert files[..k + 1][..k] == files[..k];
    BlocksGrow(DIRENT * (2 + k), DIRENT * (3 + k));
  }

  lemma {:induction false} NeedGrows(files: seq<HostFile>, k: nat)
    requires k <= |files|
    ensures Need(files[..k]) <= Need(files)
    decreases |files| - k
  {
    if k == |files| {
      assert files[..k] == files;
    } else {
      NeedMore(files, k);
      NeedGrows(files, k + 1);
    }
  }

  lemma EmptyContent(fs: Fs, i: nat)
    requires i < |fs.inodes| && fs.inodes[i].size == 0
    ensures Content(fs, i) == []
  {
  }

  lemma SelfUndisturbed(fs: Fs, i: nat)
    ensures forall j :: 0 <= j < |fs.inodes| && j != i ==> Undisturbed(fs, fs, j)
  {
  }

  lemma UndisturbedTwice(fs: Fs, gs: Fs, hs: Fs, j: nat)
    requires Undisturbed(fs, gs, j) && Undisturbed(gs, hs, j)
    ensures Undisturbed(fs, hs, j)
  {
    hide Addr, ByteAt;
    forall k | 0 <= k < MAXBYTES ensures ByteAt(hs, j, k) == ByteAt(fs, j, k) {
      assert ByteAt(hs, j, k) == ByteAt(gs, j, k);
    }
    forall s | 0 <= s < NSLOTS ensures Addr(hs, j, s) == Addr(fs, j, s) {
      assert Addr(hs, j, s) == Addr(gs, j, s);
    }
  }

  lemma UndisturbedTrans(fs: Fs, gs: Fs, hs: Fs, i: nat)
    requires |fs.inodes| == |gs.inodes| == |hs.inodes|
    requires forall j :: 0 <= j < |fs.inodes| && j != i ==> Undisturbed(fs, gs, j)
    requires forall j :: 0 <= j < |fs.inodes| && j != i ==> Undisturbed(gs, hs, j)
    ensures forall j :: 0 <= j < |fs.inodes| && j != i ==> Undisturbed(fs, hs, j)
  {
    hide Undisturbed;
    forall j | 0 <= j < |fs.inodes| && j != i ensures Undisturbed(fs, hs, j) {
      UndisturbedTwice(fs, gs, hs, j);
    }
  }

  lemma StillThere(fs: Fs, gs: Fs, j: nat)
    requires Undisturbed(fs, gs, j)
    ensures gs.inodes[j].size == fs.inodes[j].size
    ensures Tight(fs, j) ==> Tight(gs, j) && Content(gs, j) == Content(fs, j)
  {
    hide Addr, ByteAt;
    assert forall bn :: 0 <= bn < MAXFILE ==> SlotOf(bn) < NSLOTS;
  }

  lemma AllStill(fs: Fs, gs: Fs, i: nat)
    requires |fs.inodes| == |gs.inodes|
    requires forall j :: 0 <= j < |fs.inodes| && j != i ==> Undisturbed(fs, gs, j)
    ensures forall j :: 0 <= j < |fs.inodes| && j != i ==> gs.inodes[j].size == fs.inodes[j].size
    ensures forall j :: 0 <= j < |fs.inodes| && j != i && Tight(fs, j) ==>
      Tight(gs, j) && Content(gs, j) == Content(fs, j)
  {
    hide Undisturbed, Tight, Content;
    forall j | 0 <= j < |fs.inodes| && j != i
      ensures gs.inodes[j].size == fs.inodes[j].size
      ensures Tight(fs, j) ==> Tight(gs, j) && Content(gs, j) == Content(fs, j)
    {
      StillThere(fs, gs, j);
    }
  }

  /** The finished image: every file complete, the root directory naming all of them in order
      and blank from there on.  Rounding its size up leaves it one block short exactly when the
      entries fill their last block. */
  ghost predicate Written(fs: Fs, files: seq<HostFile>) {
    && |fs.inodes| == NINODES && |files| + 2 <= NINODES
    && (forall j :: j == 0 || |files| + 2 <= j < NINODES ==> fs.inodes[j].size == 0)
    && (forall j :: 2 <= j < |files| + 2 ==> FileOK(fs, j) && Content(fs, j) == files[j - 2].data)
    && fs.inodes[ROOTINO].size % BSIZE == 0 && |RootDir(files)| < fs.inodes[ROOTINO].size <= |RootDir(files)| + BSIZE
    && Content(fs, ROOTINO)[..|RootDir(files)|] == RootDir(files)
    && (forall k :: |RootDir(files)| <= k < fs.inodes[ROOTINO].size ==> Content(fs, ROOTINO)[k] == 0)
    && (FileOK(fs, ROOTINO) <==> (|files| + 2) % (BSIZE / DIRENT) != 0)
    && (forall j :: 0 <= j < NINODES ==> Filled(fs, j) == SlotsFor(0, Bytes(files, j)))
  }

  /** The bytes inode j has blocks for. */
  function Bytes(files: seq<HostFile>, j: nat): nat {
    if j == ROOTINO then |RootDir(files)| else if 2 <= j < |files| + 2 then |files[j - 2].data| else 0
  }

  lemma {:induction false} SlotsAre(n: nat, s: nat)
    ensures s in SlotsFor(0, n) <==> if s <= NDIRECT then s * BSIZE < n else (s - 1) * BSIZE < n
  {
    if n > 0 {
      SlotsAre(n - 1, s);
      var bn := (n - 1) / BSIZE;
      assert bn * BSIZE < n <= (bn + 1) * BSIZE;
    }
  }

  /** Tight files have filled exactly the slots of their bytes. */
  lemma TightFilled(fs: Fs, i: nat, n: nat)
    requires TightTo(fs, i, n) && n <= MAXBYTES
    ensures Filled(fs, i) == SlotsFor(0, n)
  {
    hide Addr;
    forall s: nat ensures s in Filled(fs, i) <==> s in SlotsFor(0, n) {
      SlotsAre(n, s);
      if s < NDIRECT {
        assert SlotOf(s) == s;
      } else if NDIRECT < s < NSLOTS {
        assert SlotOf(s - 1) == s;
      }
    }
  }

  lemma ResizedFilled(fs: Fs, i: nat, size: nat, j: nat)
    requires i < |fs.inodes|
    ensures Filled(Resized(fs, i, size), j) == Filled(fs, j)
  {
    hide Addr;
    forall s: nat ensures Addr(Resized(fs, i, size), j, s) == Addr(fs, j, s) {
      ResizedAddr(fs, i, size, j, s);
    }
  }

  /** The map of the image leaves the blocks from the counter on free. */
  lemma MapCount(l: Layout, disk: Disk, n: nat)
    requires l.Valid() && |disk| == l.size && n <= l.size && NoBits(l, disk)
    ensures FreeCount(l, WithMap(l, disk, n)) == l.size - n
  {
    hide InUse, WithMap, UpTo, FreeSet;
    var free := FreeSet(l, WithMap(l, disk, n));
    forall b: nat ensures b in free <==> n <= b < l.size {
      MapFree(l, disk, n, b);
    }
    assert free + UpTo(n) == UpTo(l.size);
    UnionCount(free, UpTo(n));
  }

  lemma MapFree(l: Layout, disk: Disk, n: nat, b: nat)
    requires l.Valid() && |disk| == l.size && n <= l.size && NoBits(l, disk)
    ensures b in FreeSet(l, WithMap(l, disk, n)) <==> n <= b < l.size
  {
    hide InUse, WithMap;
    MapBits(l, disk, n);
  }

  lemma EmptyTight(fs: Fs)
    requires forall j :: 0 <= j < |fs.inodes| ==> fs.inodes[j] == EmptyInode()
    ensures forall j :: 0 <= j < |fs.inodes| ==> Tight(fs, j)
  {
    hide Addr;
    forall j, s | 0 <= j < |fs.inodes| && 0 <= s < NSLOTS ensures Addr(fs, j, s) == 0 {
      BlankAddr(fs.disk, fs.inodes, j, s);
    }
    assert forall bn :: 0 <= bn < MAXFILE ==> SlotOf(bn) < NSLOTS;
    assert forall k :: 0 <= k < MAXBYTES ==> k / BSIZE < MAXFILE;
  }

  /** Rounding up the size of the root directory. */
  lemma RoundedRoot(l: Layout, es: Fs, files: seq<HostFile>)
    requires FsOK(l, es, {}) && |es.inodes| == NINODES && |files| + 2 <= NINODES
    requires Tight(es, ROOTINO) && Content(es, ROOTINO) == RootDir(files)
    requires forall j :: 2 <= j < |files| + 2 ==> Tight(es, j) && Content(es, j) == files[j - 2].data
    requires forall j :: j == 0 || |files| + 2 <= j < NINODES ==> Tight(es, j) && es.inodes[j].size == 0
    ensures var gs := Resized(es, ROOTINO, (es.inodes[ROOTINO].size / BSIZE + 1) * BSIZE);
      FsOK(l, gs, {}) && Written(gs, files)
  {
    hide FsOK, Addr, ByteAt, TightTo, ZeroFrom, RootDir, FileOK, SlotsFor, Filled;
    var n := |RootDir(files)|;
    var size := (n / BSIZE + 1) * BSIZE;
    var gs := Resized(es, ROOTINO, size);
    ResizedKeeps(l, es, ROOTINO, size);
    forall j | 2 <= j < |files| + 2 ensures FileOK(gs, j) && Content(gs, j) == files[j - 2].data {
      ResizedOther(es, size, j);
    }
    forall j | 0 <= j < NINODES ensures Filled(gs, j) == SlotsFor(0, Bytes(files, j)) {
      assert Tight(es, j) && es.inodes[j].size == Bytes(files, j);
      TightFilled(es, j, es.inodes[j].size);
      ResizedFilled(es, ROOTINO, size, j);
    }
    RoundedZero(es, n, size);
    RoundedFile(es, n, size);
  }

  lemma ResizedOther(es: Fs, size: nat, j: nat)
    requires ROOTINO < |es.inodes| && Tight(es, j) && j != ROOTINO
    ensures var gs := Resized(es, ROOTINO, size); FileOK(gs, j) && Content(gs, j) == Content(es, j)
  {
    hide Addr, TightTo, ZeroFrom;
    var gs := Resized(es, ROOTINO, size);
    TightFile(es, j, es.inodes[j].size);
    forall s ensures Addr(gs, j, s) == Addr(es, j, s) {
      ResizedAddr(es, ROOTINO, size, j, s);
    }
  }

  lemma RoundedZero(es: Fs, n: nat, size: nat)
    requires ROOTINO < |es.inodes| && n < size <= MAXBYTES && es.inodes[ROOTINO].size == n && Tight(es, ROOTINO)
    ensures var c := Content(Resized(es, ROOTINO, size), ROOTINO);
      c[..n] == Content(es, ROOTINO) && forall k :: n <= k < size ==> c[k] == 0
  {
    hide Addr, ByteAt, TightTo;
    forall k ensures ByteAt(Resized(es, ROOTINO, size), ROOTINO, k) == ByteAt(es, ROOTINO, k) {
      ResizedByte(es, ROOTINO, size, k);
    }
  }

  lemma RoundedFile(es: Fs, n: nat, size: nat)
    requires ROOTINO < |es.inodes| && es.inodes[ROOTINO].size == n && Tight(es, ROOTINO)
    requires n % DIRENT == 0 && size == (n / BSIZE + 1) * BSIZE <= MAXBYTES
    ensures FileOK(Resized(es, ROOTINO, size), ROOTINO) <==> n / DIRENT % (BSIZE / DIRENT) != 0
  {
    hide Addr, ByteAt, ZeroFrom;
    var gs := Resized(es, ROOTINO, size);
    forall s ensures Addr(gs, ROOTINO, s) == Addr(es, ROOTINO, s) {
      ResizedAddr(es, ROOTINO, size, ROOTINO, s);
    }
    TightFile(gs, ROOTINO, n);
  }

  class Builder {
    const l: Layout
    const disk: array<Sector>
    const inodes: array<Inode>
    var freeinode: nat
    var freeblock: nat

    /** The volume as it will be when the free map has been written. */
    ghost function Image(): Fs
      requires l.Valid() && disk.Length == l.size
      reads this, disk, inodes
    {
      Fs(WithMap(l, disk[..], freeblock), inodes[..])
    }

    ghost predicate Valid()
      reads this, disk, inodes
    {
      && l.Valid() && disk.Length == l.size
      && l.nmeta <= freeblock <= l.size
      && NoBits(l, disk[..]) && disk[l.bmapstart] == Zero()
      && (forall x :: freeblock <= x < l.size ==> disk[x] == Zero())
      && FsOK(l, Image(), {})
    }

    constructor ()
      ensures Valid() && l == MkLayout() && freeinode == 1 && freeblock == l.nmeta
      ensures inodes.Length == NINODES && fresh(disk) && fresh(inodes)
      ensures forall i :: 0 <= i < NINODES ==> inodes[i] == EmptyInode()
    {
      l := MkLayout();
      disk := new Sector[FSSIZE](_ => Zero());
      inodes := new Inode[NINODES](_ => EmptyInode());
      freeinode := 1;
      freeblock := MkLayout().nmeta;
      new;
      BlankImage(l, disk[..], inodes[..], freeblock);
    }

    /** The allocation in iappend: take the next block and enter it.  false: the disk is full. */
    method AllocInto(i: nat, s: nat) returns (ok: bool)
      requires Valid() && i < inodes.Length && s < NSLOTS && Addr(Image(), i, s) == 0
      requires s > NDIRECT ==> Addr(Image(), i, NDIRECT) != 0
      modifies this`freeblock, disk, inodes
      ensures ok <==> old(freeblock) < l.size
      ensures !ok ==> freeblock == old(freeblock) && disk[..] == old(disk[..]) && inodes[..] == old(inodes[..])
      ensures ok ==> Valid() && freeblock == old(freeblock) + 1
      ensures ok ==> SameBytes(old(Image()), Image()) && GrowsAt(old(Image()), Image(), i, {s})
      ensures ok ==> Addr(Image(), i, s) == old(freeblock)
    {
      hide FsOK, Addr, InUse, SameBytes, NoBits, WithMap, Mark;
      if freeblock >= l.size {
        return false;
      }
      ok := true;
      ghost var fs := Image();
      var b := freeblock;
      ghost var gs := NextBlock(l, disk[..], inodes[..], b, i, s);
      EnterKeeps(l, gs, {b}, i, s, b);
      assert {b} - {b} == {};
      freeblock := freeblock + 1;
      var ip := inodes[i];
      if s <= NDIRECT {
        inodes[i] := ip.(addrs := ip.addrs[s := b]);
      } else {
        var ind := ip.addrs[NDIRECT];
        var d := SetWord(disk[ind], s - NDIRECT - 1, b);
        MapWrite(l, disk[..], b + 1, ind, d);
        StillNoBits(l, disk[..], ind, d);
        disk[ind] := d;
      }
      assert Image() == Enter(gs, i, s, b);
      GrowsTrans(fs, gs, Image(), i, {}, {s});
    }

    /** The lookup in iappend: the block of file block bn, allocated if it is missing.
        false: the disk is full. */
    method Lookup(i: nat, bn: nat) returns (ok: bool, x: nat)
      requires Valid() && i < inodes.Length && bn < MAXFILE
      modifies this`freeblock, disk, inodes
      ensures ok <==> old(freeblock) + Missing(old(Image()), i, bn) <= l.size
      ensures ok ==> freeblock == old(freeblock) + Missing(old(Image()), i, bn)
      ensures ok ==> Valid() && SameBytes(old(Image()), Image()) && GrowsAt(old(Image()), Image(), i, BmapSlots(bn))
      ensures ok ==> l.nmeta <= x < freeblock && x == Addr(Image(), i, SlotOf(bn))
    {
      hide FsOK, Addr, InUse, SameBytes, GrowsAt, NoBits, WithMap, WordAt;
      ghost var fs := Image();
      InodeShape(l, fs, i, bn);
      if bn < NDIRECT {
        if inodes[i].addrs[bn] == 0 {
          ok := AllocInto(i, bn);
          if !ok { return false, 0; }
          InodeShape(l, Image(), i, bn);
        } else {
          SelfGrows(fs, i);
          SlotsMonotone(fs, fs, i, {}, BmapSlots(bn));
        }
        ok, x := true, inodes[i].addrs[bn];
      } else {
        ok := LookupTable(i);
        if !ok { return false, 0; }
        SlotKept(fs, Image(), i, {NDIRECT}, bn + 1);
        ok, x := LookupEntry(fs, i, bn);
      }
      if ok {
        BelowFree(l, disk[..], inodes[..], freeblock, i, bn);
      }
    }

    /** The indirect block of inode i, allocated if it is missing. */
    method LookupTable(i: nat) returns (ok: bool)
      requires Valid() && i < inodes.Length
      modifies this`freeblock, disk, inodes
      ensures ok <==> Addr(old(Image()), i, NDIRECT) != 0 || old(freeblock) < l.size
      ensures ok ==> freeblock == old(freeblock) + if Addr(old(Image()), i, NDIRECT) == 0 then 1 else 0
      ensures ok ==> Valid() && SameBytes(old(Image()), Image()) && GrowsAt(old(Image()), Image(), i, {NDIRECT})
      ensures ok ==> Addr(Image(), i, NDIRECT) != 0
    {
      hide FsOK, Addr, InUse, SameBytes, GrowsAt, NoBits, WithMap, WordAt;
      ghost var fs := Image();
      InodeShape(l, fs, i, NDIRECT);
      if inodes[i].addrs[NDIRECT] == 0 {
        ok := AllocInto(i, NDIRECT);
      } else {
        ok := true;
        SelfGrows(fs, i);
        SlotsMonotone(fs, fs, i, {}, {NDIRECT});
      }
    }

    /** The entry of file block bn in the indirect block, allocated if it is missing. */
    method LookupEntry(ghost fs: Fs, i: nat, bn: nat) returns (ok: bool, x: nat)
      requires Valid() && i < inodes.Length && NDIRECT <= bn < MAXFILE && Addr(Image(), i, NDIRECT) != 0
      requires SameBytes(fs, Image()) && GrowsAt(fs, Image(), i, {NDIRECT})
      modifies this`freeblock, disk, inodes
      ensures ok <==> Addr(old(Image()), i, bn + 1) != 0 || old(freeblock) < l.size
      ensures ok ==> freeblock == old(freeblock) + if Addr(old(Image()), i, bn + 1) == 0 then 1 else 0
      ensures ok ==> Valid() && SameBytes(fs, Image()) && GrowsAt(fs, Image(), i, BmapSlots(bn))
      ensures ok ==> x != 0 && x == Addr(Image(), i, SlotOf(bn))
    {
      hide FsOK, Addr, InUse, SameBytes, GrowsAt, NoBits, WithMap, WordAt;
      ghost var gs := Image();
      ok := true;
      InodeShape(l, gs, i, bn);
      EntrySame(l, disk[..], inodes[..], freeblock, i);
      if WordAt(disk[inodes[i].addrs[NDIRECT]], bn - NDIRECT) == 0 {
        ok := AllocInto(i, bn + 1);
        if !ok { return false, 0; }
        GrowsTrans(fs, gs, Image(), i, {NDIRECT}, {bn + 1});
        assert {NDIRECT} + {bn + 1} == BmapSlots(bn);
        InodeShape(l, Image(), i, bn);
        EntrySame(l, disk[..], inodes[..], freeblock, i);
      } else {
        SlotsMonotone(fs, gs, i, {NDIRECT}, BmapSlots(bn));
      }
      x := WordAt(disk[inodes[i].addrs[NDIRECT]], bn - NDIRECT);
    }

    /** iappend: data goes to the end of file i.  false: its assertion fails because the file
        grows too long, or the disk is full. */
    method Iappend(i: nat, data: seq<Byte>) returns (ok: bool)
      requires Valid() && i < inodes.Length && Tight(Image(), i)
      modifies this`freeblock, disk, inodes
      ensures ok <==> (old(inodes[i].size) + |data| <= MAXBYTES &&
        old(freeblock) + BlocksFor(old(inodes[i].size) + |data|) <= l.size + BlocksFor(old(inodes[i].size)))
      ensures ok ==>
        freeblock + BlocksFor(old(inodes[i].size)) == old(freeblock) + BlocksFor(old(inodes[i].size) + |data|)
      ensures ok ==> Valid() && Tight(Image(), i)
      ensures ok ==> Content(Image(), i) == old(Content(Image(), i)) + data
      ensures ok ==> forall j :: 0 <= j < inodes.Length && j != i ==> Undisturbed(old(Image()), Image(), j)
    {
      hide FsOK, Addr, SameBytes, GrowsAt, ByteAt, FileOK, Spliced, Undisturbed, Content, InUse, NoBits, WithMap,
        TightTo, ZeroFrom, Missing, BlocksFor;
      ghost var fs := Image();
      var off := inodes[i].size;
      var n := |data|;
      if off + n > MAXBYTES {
        return false;
      }
      TightFile(fs, i, off);
      SplicedStart(l, fs, i, off, data);
      var tot: nat := 0;
      while tot < n
        invariant tot <= n && Valid() && Spliced(l, fs, Image(), i, off, data, tot)
        invariant TightTo(Image(), i, off + tot)
        invariant freeblock + BlocksFor(off) == old(freeblock) + BlocksFor(off + tot)
      {
        ghost var gs := Image();
        var fbn := (off + tot) / BSIZE;
        var n1 := Min(n - tot, (fbn + 1) * BSIZE - (off + tot));
        assert (off + tot) % BSIZE + n1 <= BSIZE;
        MissingChunk(gs, i, off + tot, n1);
        BlocksGrow(off + tot + n1, off + n);
        var found, x := Lookup(i, fbn);
        if !found { return false; }
        ghost var hs := Image();
        var d := Patch(disk[x], (off + tot) % BSIZE, data[tot..tot + n1]);
        BelowFree(l, disk[..], inodes[..], freeblock, i, fbn);
        SplicedOK(l, fs, gs, i, off, data, tot);
        ChunkKeeps(l, fs, gs, hs, i, off, data, tot, n1);
        OverwriteKeeps(l, hs, i, fbn, d);
        StillNoBits(l, disk[..], x, d);
        MapWrite(l, disk[..], freeblock, x, d);
        disk[x] := d;
        assert Image() == Overwrite(hs, i, fbn, d);
        ChunkTight(gs, hs, Image(), i, off + tot, n1);
        tot := tot + n1;
      }
      ghost var es := Image();
      WriteDone(l, fs, es, i, off, data);
      ResizedTight(es, i, off + n);
      ResizedZero(l, fs, es, i, off, data);
      AppendIsSplice(Content(fs, i), data);
      inodes[i] := inodes[i].(size := off + n);
      assert Image() == Resized(es, i, NewSize(fs, i, off, n));
      return true;
    }

    /** balloc of mkfs: the map block with the first `used` bits set. */
    method WriteMap(used: nat)
      requires l.Valid() && disk.Length == l.size <= BPB && NoBits(l, disk[..]) && disk[l.bmapstart] == Zero()
      requires used <= l.size
      modifies disk
      ensures disk[..] == WithMap(l, old(disk[..]), used)
    {
      hide InUse, NoBits;
      ghost var was: Disk := disk[..];
      var buf: Sector := Zero();
      assert was[l.bmapstart := buf] == was;
      for i := 0 to used
        invariant was[l.bmapstart := buf] == WithMap(l, was, i) && disk[..] == was
      {
        MapBits(l, was, i + 1);
        assert l.MapBlock(i) == l.bmapstart && i % BPB == i;
        buf := buf[i / 8 := (buf[i / 8] as int + Pow2(i % 8)) % 256];
      }
      disk[l.bmapstart] := buf;
    }

    /** ialloc of mkfs: inode numbers count up. */
    method Ialloc() returns (inum: nat)
      requires freeinode < inodes.Length
      modifies this`freeinode
      ensures inum == old(freeinode) && freeinode == inum + 1
    {
      inum := freeinode;
      freeinode := freeinode + 1;
    }

    /** What holds after k files: the directory names them in order, file k has inode k + 2,
        and inodes not yet handed out are empty. */
    ghost predicate Holding(files: seq<HostFile>, k: nat)
      reads this, disk, inodes
    {
      && Valid() && k <= |files| && inodes.Length == NINODES && freeinode == k + 2 <= NINODES
      && freeblock == l.nmeta + Need(files[..k]) && (forall j :: 0 <= j < k ==> |files[j].data| <= MAXBYTES)
      && Tight(Image(), ROOTINO) && Content(Image(), ROOTINO) == RootDir(files[..k])
      && (forall j :: 2 <= j < k + 2 ==> Tight(Image(), j) && Content(Image(), j) == files[j - 2].data)
      && (forall j :: j == 0 || k + 2 <= j < NINODES ==> Tight(Image(), j) && inodes[j].size == 0)
    }

    /** Copying a file into inode i, one buffer at a time.  false: the image is full. */
    method AppendAll(i: nat, data: seq<Byte>) returns (ok: bool)
      requires Valid() && i < inodes.Length && Tight(Image(), i) && inodes[i].size == 0
      modifies this`freeblock, disk, inodes
      ensures ok <==> |data| <= MAXBYTES && old(freeblock) + BlocksFor(|data|) <= l.size
      ensures ok ==> freeblock == old(freeblock) + BlocksFor(|data|)
      ensures ok ==> Valid() && Tight(Image(), i) && Content(Image(), i) == data
      ensures ok ==> forall j :: 0 <= j < inodes.Length && j != i ==> Undisturbed(old(Image()), Image(), j)
    {
      hide FsOK, Addr, Undisturbed, Content, NoBits, WithMap, TightTo, ZeroFrom;
      ghost var fs := Image();
      EmptyContent(fs, i);
      SelfUndisturbed(fs, i);
      var done: nat := 0;
      ok := true;
      while done < |data|
        invariant done <= |data| && ok && Valid() && Tight(Image(), i) && Content(Image(), i) == data[..done]
        invariant inodes[i].size == done <= MAXBYTES && freeblock == old(freeblock) + BlocksFor(done)
        invariant forall j :: 0 <= j < inodes.Length && j != i ==> Undisturbed(fs, Image(), j)
      {
        ghost var gs := Image();
        var cc := Min(BSIZE, |data| - done);
        BlocksGrow(done + cc, |data|);
        ok := Iappend(i, data[done..done + cc]);
        if !ok { return; }
        assert data[..done] + data[done..done + cc] == data[..done + cc];
        UndisturbedTrans(fs, gs, Image(), i);
        done := done + cc;
      }
      assert data[..done] == data;
    }

    /** One round of the loop over the command line.  false: the image is full. */
    method AddFile(files: seq<HostFile>, k: nat) returns (ok: bool)
      requires Holding(files, k) && k < |files| && k + 3 <= NINODES
      modifies this, disk, inodes
      ensures ok <==> |files[k].data| <= MAXBYTES && l.nmeta + Need(files[..k + 1]) <= l.size
      ensures ok ==> Holding(files, k + 1)
    {
      hide FsOK, Addr, Undisturbed, Content, NoBits, WithMap, RootDir, TightTo, ZeroFrom, Dirent, BlocksFor, DataBlocks;
      NeedMore(files, k);
      ghost var fs := Image();
      var inum := Ialloc();
      ok := Iappend(ROOTINO, Dirent(inum, FileName(files[k].name)));
      if !ok { return; }
      ghost var gs := Image();
      AllStill(fs, gs, ROOTINO);
      ok := AppendAll(inum, files[k].data);
      if !ok { return; }
      ghost var hs := Image();
      AllStill(gs, hs, inum);
      RootDirMore(files, k);
      assert Tight(hs, ROOTINO) && Content(hs, ROOTINO) == RootDir(files[..k + 1]);
      forall j | 2 <= j < k + 3 ensures Tight(hs, j) && Content(hs, j) == files[j - 2].data {
        if j < k + 2 {
          assert Tight(fs, j) && Tight(gs, j);
        }
      }
      forall j | j == 0 || k + 3 <= j < NINODES ensures Tight(hs, j) && inodes[j].size == 0 {
        assert Tight(fs, j) && Tight(gs, j);
      }
    }

    /** main after the layout: the root directory with its two entries, the files, the size of
        the root directory rounded up, and the free map.  false: the image is full. */
    method Populate(files: seq<HostFile>) returns (ok: bool)
      requires Valid() && l == MkLayout() && freeinode == 1 && freeblock == l.nmeta
      requires inodes.Length == NINODES && |files| + 2 <= NINODES
      requires forall j :: 0 <= j < NINODES ==> inodes[j] == EmptyInode()
      modifies this, disk, inodes
      ensures ok <==> Fits(l, files)
      ensures ok ==> disk.Length == l.size && FsOK(l, Fs(disk[..], inodes[..]), {})
      ensures ok ==> Written(Fs(disk[..], inodes[..]), files)
      ensures ok ==> FreeCount(l, disk[..]) == l.size - l.nmeta - Need(files)
    {
      hide FsOK, Addr, Undisturbed, Content, NoBits, WithMap, RootDir, Dirent, Tight, Written, Need, FreeCount;
      EmptyTight(Image());
      NeedGrows(files, 0);
      ok := AddRoot(files);
      if !ok { return; }
      for k := 0 to |files|
        invariant Holding(files, k) && ok
      {
        NeedGrows(files, k + 1);
        ok := AddFile(files, k);
        if !ok { return; }
      }
      ghost var es := Image();
      var off := inodes[ROOTINO].size;
      assert files[..|files|] == files;
      RoundedRoot(l, es, files);
      MapCount(l, disk[..], freeblock);
      inodes[ROOTINO] := inodes[ROOTINO].(size := (off / BSIZE + 1) * BSIZE);
      WriteMap(freeblock);
      assert Fs(disk[..], inodes[..]) == Resized(es, ROOTINO, (off / BSIZE + 1) * BSIZE);
    }

    method AddRoot(files: seq<HostFile>) returns (ok: bool)
      requires Valid() && freeinode == 1 && freeblock == l.nmeta && inodes.Length == NINODES
      requires forall j :: 0 <= j < NINODES ==> Tight(Image(), j) && inodes[j].size == 0
      modifies this, disk, inodes
      ensures ok <==> l.nmeta + Need(files[..0]) <= l.size
      ensures ok ==> Holding(files, 0)
    {
      hide FsOK, Addr, Undisturbed, Content, NoBits, WithMap, Tight, Dirent;
      ghost var fs := Image();
      EmptyContent(fs, ROOTINO);
      var rootino := Ialloc();
      ok := Iappend(rootino, Dirent(rootino, [46]));
      if !ok { return; }
      ghost var gs := Image();
      AllStill(fs, gs, ROOTINO);
      ok := Iappend(rootino, Dirent(rootino, [46, 46]));
      if !ok { return; }
      ghost var hs := Image();
      AllStill(gs, hs, ROOTINO);
      forall j | j == 0 || 2 <= j < NINODES ensures Tight(hs, j) && inodes[j].size == 0 {
        assert Tight(fs, j) && Tight(gs, j);
      }
      assert files[..0] == [];
    }
  }

  lemma {:induction false} NoData(files: seq<HostFile>)
    requires forall k :: 0 <= k < |files| ==> files[k].data == []
    ensures DataBlocks(files) == 0
  {
    if files != [] {
      NoData(files[..|files| - 1]);
    }
  }

  lemma ThirtyFit(files: seq<HostFile>)
    requires |files| == 30 && forall k :: 0 <= k < |files| ==> files[k].data == []
    ensures Fits(MkLayout(), files)
  {
    NoData(files);
  }

  /** Thirty empty files: with the two dots the entries fill one block, and the image leaves
      the root directory with a size of two blocks and a hole for the second. */
  method RootHole() returns (fs: Fs)
    ensures FsOK(MkLayout(), fs, {}) && ROOTINO < |fs.inodes|
    ensures fs.inodes[ROOTINO].size == 2 * BSIZE && !FileOK(fs, ROOTINO)
  {
    hide FsOK, FileOK, Content, RootDir, DataBlocks, Fits;
    var files := seq(30, _ => HostFile([97], []));
    ThirtyFit(files);
    var b := new Builder();
    var ok := b.Populate(files);
    fs := Fs(b.disk[..], b.inodes[..]);
  }
}
