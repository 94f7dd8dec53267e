/** The block and inode layers of fs.c, on the flat block map that the log and the buffer
    cache provide.  A result of None is a kernel panic unless its contract says otherwise. */
module FileSystem {
  import opened Machine
  import opened Sectors
  import opened FreeMap
  import opened InodeBlocks
  import opened BlockCounts

  /** The bit balloc tests at bi in the map block of b is the bit of block b + bi. */
  lemma ReadBit(l: Layout, disk: Disk, b: nat, bi: nat)
    requires l.Valid() && |disk| == l.size && b % BPB == 0 && bi < BPB && b + bi < l.size
    ensures l.MapBlock(b) < l.size
    ensures InUse(l, disk, b + bi) == Bit(disk[l.MapBlock(b)][bi / 8], bi % 8)
  {
    assert (b + bi) % BPB == bi && (b + bi) / BPB == b / BPB;
  }

  /** balloc leaves the addresses alone, so an empty slot is still empty. */
  lemma AfterBalloc(l: Layout, fs: Fs, gs: Fs, b: nat, i: nat, s: nat)
    requires FsOK(l, fs, {}) && FsOK(l, gs, {b}) && GrowsAt(fs, gs, 0, {})
    requires i < |fs.inodes| && s < NSLOTS && Addr(fs, i, s) == 0
    requires l.nmeta <= b < l.size && !InUse(l, fs.disk, b) && gs.disk == Allocated(l, fs.disk, b)
    ensures Addr(gs, i, s) == 0 && Addr(gs, i, NDIRECT) == Addr(fs, i, NDIRECT)
    ensures gs.disk[b] == Zero() && b < UINT_LIMIT && 0 < b
  {
  }

  lemma EnterSplit(l: Layout, fs: Fs, i: nat, s: nat, b: nat)
    requires FsOK(l, fs, {b}) && i < |fs.inodes| && s < NSLOTS
    requires s > NDIRECT ==> Addr(fs, i, NDIRECT) != 0
    ensures |fs.inodes[i].addrs| == NDIRECT + 1
    ensures s > NDIRECT ==> fs.inodes[i].addrs[NDIRECT] < |fs.disk|
  {
    AddrInode(fs, i);
  }

  lemma GrowsTrans(fs: Fs, gs: Fs, hs: Fs, i: nat, a: set<nat>, b: set<nat>)
    requires (GrowsAt(fs, gs, i, a) || (GrowsAt(fs, gs, 0, a) && a == {})) && GrowsAt(gs, hs, i, b)
    requires SameBytes(fs, gs) && SameBytes(gs, hs)
    ensures GrowsAt(fs, hs, i, a + b) && SameBytes(fs, hs)
  {
  }

  lemma SelfGrows(fs: Fs, i: nat)
    ensures GrowsAt(fs, fs, i, {}) && SameBytes(fs, fs)
  {
  }

  lemma SlotsMonotone(fs: Fs, gs: Fs, i: nat, a: set<nat>, b: set<nat>)
    requires GrowsAt(fs, gs, i, a) && a <= b
    ensures GrowsAt(fs, gs, i, b)
  {
  }

  /** How the slots of an inode are read from its fields. */
  lemma InodeShape(l: Layout, fs: Fs, i: nat, bn: nat)
    requires FsOK(l, fs, {}) && i < |fs.inodes|
    ensures |fs.inodes[i].addrs| == NDIRECT + 1
    ensures Addr(fs, i, NDIRECT) == fs.inodes[i].addrs[NDIRECT] < l.size == |fs.disk|
    ensures bn < NDIRECT ==> Addr(fs, i, SlotOf(bn)) == fs.inodes[i].addrs[bn] < l.size
    ensures NDIRECT <= bn < MAXFILE ==>
      Addr(fs, i, bn + 1) < l.size && SlotOf(bn) == bn + 1 &&
      Addr(fs, i, bn + 1) ==
        if Addr(fs, i, NDIRECT) == 0 then 0 else WordAt(fs.disk[Addr(fs, i, NDIRECT)], bn - NDIRECT)
  {
    AddrInode(fs, i);
    assert bn < NDIRECT ==> Addr(fs, i, bn) == fs.inodes[i].addrs[bn];
    assert NDIRECT <= bn < MAXFILE ==> Addr(fs, i, bn + 1) < l.size;
  }

  function Min(a: nat, b: nat): nat {
    if a < b then a else b
  }

  // ----- what bmap gains

  /** An inode that grew in some slots and has them all now has gained what it lacked of them. */
  lemma GrownGained(fs: Fs, gs: Fs, i: nat, slots: set<nat>)
    requires GrowsAt(fs, gs, i, slots) && i < |fs.inodes|
    requires forall s :: s in slots ==> s < NSLOTS && Addr(gs, i, s) != 0
    ensures Gained(fs, gs, i, slots - Filled(fs, i)) && Filled(gs, i) == Filled(fs, i) + slots
  {
    hide Addr;
    forall j, s | 0 <= j < |fs.inodes| && 0 <= s < NSLOTS
      ensures Addr(gs, j, s) != 0 <==> Addr(fs, j, s) != 0 || (j == i && s in slots)
    {
    }
    forall j | 0 <= j < |fs.inodes| && j != i ensures Filled(gs, j) == Filled(fs, j) {
    }
  }

  /** With file block bn there, all slots on the way to it are. */
  lemma SlotsThere(fs: Fs, i: nat, bn: nat)
    requires bn < MAXFILE && Addr(fs, i, SlotOf(bn)) != 0
    ensures forall s :: s in BmapSlots(bn) ==> s < NSLOTS && Addr(fs, i, s) != 0
  {
  }

  /** bmap has taken from the free blocks exactly what was missing. */
  lemma BmapTook(l: Layout, fs: Fs, gs: Fs, i: nat, bn: nat)
    requires FsOK(l, fs, {}) && FsOK(l, gs, {}) && i < |fs.inodes| && bn < MAXFILE
    requires GrowsAt(fs, gs, i, BmapSlots(bn)) && Addr(gs, i, SlotOf(bn)) != 0
    ensures FreeCount(l, gs.disk) + |BmapSlots(bn) - Filled(fs, i)| == FreeCount(l, fs.disk)
    ensures Filled(gs, i) == Filled(fs, i) + BmapSlots(bn)
  {
    hide FsOK, Addr, FreeCount, GrowsAt, Filled;
    SlotsThere(gs, i, bn);
    GrownGained(fs, gs, i, BmapSlots(bn));
    GainedCount(l, fs, gs, i, BmapSlots(bn) - Filled(fs, i));
  }

  lemma BmapWay(bn: nat)
    ensures bn < NDIRECT ==> BmapSlots(bn) == {bn}
    ensures bn >= NDIRECT ==> {NDIRECT} <= BmapSlots(bn) && {NDIRECT} + {bn + 1} == BmapSlots(bn)
  {
  }

  lemma SlotKept(fs: Fs, gs: Fs, i: nat, slots: set<nat>, s: nat)
    requires GrowsAt(fs, gs, i, slots) && i < |fs.inodes| && s < NSLOTS && s !in slots
    ensures Addr(gs, i, s) == Addr(fs, i, s)
  {
  }

  lemma VolumeShape(l: Layout, fs: Fs)
    requires FsOK(l, fs, {})
    ensures l.Valid() && |fs.disk| == l.size
  {
  }

  lemma OneTaken(l: Layout, fs: Fs, gs: Fs, i: nat, s: nat)
    requires FsOK(l, fs, {}) && FsOK(l, gs, {}) && i < |fs.inodes| && s < NSLOTS
    requires GrowsAt(fs, gs, i, {s}) && Addr(fs, i, s) == 0 && Addr(gs, i, s) != 0
    ensures FreeCount(l, gs.disk) == FreeCount(l, fs.disk) - 1
  {
    hide FsOK, Addr, FreeCount, GrowsAt;
    GrownGained(fs, gs, i, {s});
    assert {s} - Filled(fs, i) == {s};
    GainedCount(l, fs, gs, i, {s});
  }

  /** The slots behind bytes lo up to hi of inode i that are still empty: what bmap will need. */
  function Lacks(fs: Fs, i: nat, lo: nat, hi: nat): nat {
    |SlotsFor(lo, hi) - Filled(fs, i)|
  }

  /** Between fs and gs the slots of bytes lo up to at were filled, from the free blocks. */
  ghost predicate Counted(l: Layout, fs: Fs, gs: Fs, i: nat, lo: nat, at: nat) {
    && l.Valid() && |fs.disk| == |gs.disk| == l.size
    && Filled(gs, i) == Filled(fs, i) + SlotsFor(lo, at)
    && FreeCount(l, gs.disk) + Lacks(fs, i, lo, at) == FreeCount(l, fs.disk)
  }

  lemma CountedStart(l: Layout, fs: Fs, i: nat, lo: nat)
    requires l.Valid() && |fs.disk| == l.size
    ensures Counted(l, fs, fs, i, lo, lo)
  {
    hide Filled, FreeCount;
    assert SlotsFor(lo, lo) - Filled(fs, i) == {};
  }

  lemma CountedMore(l: Layout, fs: Fs, gs: Fs, hs: Fs, i: nat, lo: nat, at: nat, m: nat)
    requires Counted(l, fs, gs, i, lo, at) && FsOK(l, gs, {}) && FsOK(l, hs, {}) && i < |gs.inodes|
    requires lo <= at && 0 < m && at % BSIZE + m <= BSIZE && at / BSIZE < MAXFILE
    requires GrowsAt(gs, hs, i, BmapSlots(at / BSIZE)) && Addr(hs, i, SlotOf(at / BSIZE)) != 0
    ensures Counted(l, fs, hs, i, lo, at + m)
  {
    hide FsOK, Addr, GrowsAt, Filled, FreeCount, BmapSlots, SlotsFor;
    VolumeShape(l, hs);
    BmapTook(l, gs, hs, i, at / BSIZE);
    SlotsChunk(lo, at, m);
    MoreOutside(SlotsFor(lo, at), BmapSlots(at / BSIZE), Filled(fs, i));
    assert Filled(fs, i) + SlotsFor(lo, at) + BmapSlots(at / BSIZE) == Filled(fs, i) + SlotsFor(lo, at + m);
  }

  /** bmap gets through the next chunk exactly if all slots so far could be had. */
  lemma ChunkNeeds(l: Layout, fs: Fs, gs: Fs, i: nat, lo: nat, at: nat, m: nat, hi: nat)
    requires Counted(l, fs, gs, i, lo, at) && lo <= at && 0 < m && at % BSIZE + m <= BSIZE && at + m <= hi
    ensures |BmapSlots(at / BSIZE) - Filled(gs, i)| <= FreeCount(l, gs.disk) <==>
      Lacks(fs, i, lo, at + m) <= FreeCount(l, fs.disk)
    ensures Lacks(fs, i, lo, at + m) <= Lacks(fs, i, lo, hi)
  {
    hide Filled, FreeCount, BmapSlots, SlotsFor;
    SlotsChunk(lo, at, m);
    MoreOutside(SlotsFor(lo, at), BmapSlots(at / BSIZE), Filled(fs, i));
    SlotsGrow(lo, at + m, hi);
    SubsetCount(SlotsFor(lo, at + m) - Filled(fs, i), SlotsFor(lo, hi) - Filled(fs, i));
  }

  lemma CountedShape(l: Layout, fs: Fs, gs: Fs, i: nat, lo: nat, at: nat)
    requires Counted(l, fs, gs, i, lo, at)
    ensures l.Valid() && |fs.disk| == |gs.disk| == l.size
  {
  }

  lemma SameSize(fs: Fs, gs: Fs, i: nat, slots: set<nat>)
    requires GrowsAt(fs, gs, i, slots) && i < |fs.inodes|
    ensures |gs.inodes| == |fs.inodes| && gs.inodes[i].size == fs.inodes[i].size
  {
  }

  lemma CountedFits(l: Layout, fs: Fs, gs: Fs, i: nat, lo: nat, at: nat)
    requires Counted(l, fs, gs, i, lo, at)
    ensures Lacks(fs, i, lo, at) <= FreeCount(l, fs.disk)
  {
  }

  /** Writing data or sizes changes no slot and no bit of the map. */
  lemma CountedSame(l: Layout, fs: Fs, gs: Fs, hs: Fs, i: nat, lo: nat, at: nat)
    requires Counted(l, fs, gs, i, lo, at) && FsOK(l, gs, {}) && FsOK(l, hs, {}) && i < |gs.inodes|
    requires GrowsAt(gs, hs, i, {})
    ensures Counted(l, fs, hs, i, lo, at)
  {
    hide FsOK, Addr, GrowsAt, Filled, FreeCount, SlotsFor;
    VolumeShape(l, hs);
    GrownGained(gs, hs, i, {});
    GainedCount(l, gs, hs, i, {});
    assert {} - Filled(gs, i) == {};
  }

  lemma AllUsed(l: Layout, disk: Disk)
    requires l.Valid() && |disk| == l.size
    ensures FreeCount(l, disk) == 0 <==> forall c :: 0 <= c < l.size ==> InUse(l, disk, c)
  {
    hide InUse;
    if forall c :: 0 <= c < l.size ==> InUse(l, disk, c) {
      assert FreeSet(l, disk) == {};
    }
    if FreeCount(l, disk) == 0 {
      forall c | 0 <= c < l.size ensures InUse(l, disk, c) {
        assert c !in FreeSet(l, disk);
      }
    }
  }

  // ----- files as byte sequences

  /** A file within bounds and with a block behind every byte. */
  ghost predicate FileOK(fs: Fs, i: nat) {
    && i < |fs.inodes| && fs.inodes[i].size <= MAXBYTES
    && forall k :: 0 <= k < fs.inodes[i].size ==> Addr(fs, i, SlotOf(k / BSIZE)) != 0
  }

  ghost function Content(fs: Fs, i: nat): (c: seq<Byte>)
    requires i < |fs.inodes|
    ensures |c| == fs.inodes[i].size
    ensures forall k :: 0 <= k < |c| ==> c[k] == ByteAt(fs, i, k)
  {
    seq(fs.inodes[i].size, k requires 0 <= k => ByteAt(fs, i, k))
  }

  /** There is a block behind every byte from lo up to hi. */
  ghost predicate Backed(fs: Fs, i: nat, lo: nat, hi: nat) {
    forall k :: lo <= k < hi ==> Addr(fs, i, SlotOf(k / BSIZE)) != 0
  }

  lemma BackedMore(fs: Fs, i: nat, lo: nat, at: nat, m: nat)
    requires lo <= at && 0 < m && at % BSIZE + m <= BSIZE
    ensures Backed(fs, i, lo, at + m) <==> Backed(fs, i, lo, at) && Addr(fs, i, SlotOf(at / BSIZE)) != 0
  {
    hide Addr, SlotOf;
    forall k | at <= k < at + m ensures k / BSIZE == at / BSIZE {
    }
  }

  lemma BackedGrows(fs: Fs, gs: Fs, i: nat, lo: nat, hi: nat)
    requires Grows(fs, gs) && Backed(fs, i, lo, hi) && i < |fs.inodes| && hi <= MAXBYTES
    ensures Backed(gs, i, lo, hi)
  {
    hide Addr, SlotOf;
    forall k | lo <= k < hi ensures Addr(gs, i, SlotOf(k / BSIZE)) != 0 {
      SlotBound(k);
    }
  }

  /** Bytes past the largest file read as zeros. */
  lemma FarByte(fs: Fs, i: nat, k: nat)
    requires k >= MAXBYTES
    ensures ByteAt(fs, i, k) == 0
  {
    assert k / BSIZE >= MAXFILE;
  }

  /** Filling holes with zeroed blocks leaves every file as it reads. */
  lemma SameContents(fs: Fs, gs: Fs, i: nat)
    requires Grows(fs, gs) && SameBytes(fs, gs) && i < |fs.inodes|
    ensures Content(gs, i) == Content(fs, i)
  {
    hide Addr, ByteAt;
    forall k | 0 <= k < fs.inodes[i].size ensures ByteAt(gs, i, k) == ByteAt(fs, i, k) {
      if k >= MAXBYTES {
        FarByte(fs, i, k);
        FarByte(gs, i, k);
      }
    }
  }

  /** The part of a block that readi copies is the part of the file it stands for. */
  lemma ReadChunk(fs: Fs, i: nat, at: nat, m: nat)
    requires i < |fs.inodes| && at + m <= fs.inodes[i].size && at % BSIZE + m <= BSIZE
    requires 0 < Addr(fs, i, SlotOf(at / BSIZE)) < |fs.disk|
    ensures fs.disk[Addr(fs, i, SlotOf(at / BSIZE))][at % BSIZE..at % BSIZE + m] == Content(fs, i)[at..at + m]
  {
    hide Addr, SlotOf;
    var d := fs.disk[Addr(fs, i, SlotOf(at / BSIZE))];
    var part, want := d[at % BSIZE..at % BSIZE + m], Content(fs, i)[at..at + m];
    forall k | 0 <= k < m ensures part[k] == want[k] {
      assert (at + k) / BSIZE == at / BSIZE && (at + k) % BSIZE == at % BSIZE + k;
    }
  }

  // ----- readi

  datatype ReadResult = NoBlock | BadRange | Bytes(data: seq<Byte>)

  /** Between two chunks of readi: fs is the state before the call, gs the current one, and dst
      what has been read from offset off on. */
  ghost predicate Reading(l: Layout, fs: Fs, gs: Fs, i: nat, off: nat, dst: seq<Byte>) {
    && FsOK(l, gs, {}) && SameBytes(fs, gs) && GrowsIn(fs, gs, i) && i < |fs.inodes|
    && off + |dst| <= fs.inodes[i].size && dst == Content(fs, i)[off..off + |dst|]
    && (dst != [] ==> off + |dst| <= MAXBYTES)
    && Backed(gs, i, off, off + |dst|) && (Backed(fs, i, off, off + |dst|) ==> gs == fs)
  }

  lemma ReadingStart(l: Layout, fs: Fs, i: nat, off: nat)
    requires FsOK(l, fs, {}) && i < |fs.inodes| && off <= fs.inodes[i].size
    ensures Reading(l, fs, fs, i, off, [])
  {
    hide FsOK, Addr, ByteAt, Content;
  }

  lemma ReadingOK(l: Layout, fs: Fs, gs: Fs, i: nat, off: nat, dst: seq<Byte>)
    requires Reading(l, fs, gs, i, off, dst)
    ensures FsOK(l, gs, {}) && |gs.inodes| == |fs.inodes| && gs.inodes[i].size == fs.inodes[i].size
  {
    hide FsOK, Addr, ByteAt, Content, Backed, SameBytes;
  }

  /** One chunk of readi: bmap gave hs. */
  lemma ReadingMore(l: Layout, fs: Fs, gs: Fs, hs: Fs, i: nat, off: nat, dst: seq<Byte>, m: nat)
    requires Reading(l, fs, gs, i, off, dst) && FsOK(l, hs, {}) && SameBytes(gs, hs)
    requires GrowsAt(gs, hs, i, BmapSlots((off + |dst|) / BSIZE))
    requires Addr(gs, i, SlotOf((off + |dst|) / BSIZE)) != 0 ==> hs == gs
    requires (off + |dst|) / BSIZE < MAXFILE && 0 < Addr(hs, i, SlotOf((off + |dst|) / BSIZE)) < |hs.disk|
    requires 0 < m && (off + |dst|) % BSIZE + m <= BSIZE && off + |dst| + m <= fs.inodes[i].size
    ensures var at := off + |dst|;
      Reading(l, fs, hs, i, off, dst + hs.disk[Addr(hs, i, SlotOf(at / BSIZE))][at % BSIZE..at % BSIZE + m])
  {
    hide FsOK, Addr, ByteAt, Content, SlotOf, BmapSlots;
    var at := off + |dst|;
    assert at + m <= MAXBYTES;
    ReadChunk(hs, i, at, m);
    SameTwice(fs, gs, hs, i, BmapSlots(at / BSIZE));
    SameContents(fs, hs, i);
    var c := Content(fs, i);
    assert c[off..at] + c[at..at + m] == c[off..at + m];
    BackedGrows(gs, hs, i, off, at);
    BackedMore(hs, i, off, at, m);
    BackedMore(fs, i, off, at, m);
    SlotBound(at);
  }

  lemma SameTwice(fs: Fs, gs: Fs, hs: Fs, i: nat, slots: set<nat>)
    requires GrowsIn(fs, gs, i) && GrowsAt(gs, hs, i, slots) && SameBytes(fs, gs) && SameBytes(gs, hs)
    ensures GrowsIn(fs, hs, i) && SameBytes(fs, hs)
  {
    hide Addr, ByteAt;
  }

  lemma ReadingStuck(l: Layout, fs: Fs, gs: Fs, hs: Fs, i: nat, off: nat, dst: seq<Byte>)
    requires Reading(l, fs, gs, i, off, dst) && SameBytes(gs, hs)
    requires GrowsAt(gs, hs, i, BmapSlots((off + |dst|) / BSIZE))
    ensures SameBytes(fs, hs) && GrowsIn(fs, hs, i)
  {
    hide FsOK, Addr, ByteAt, Content, Backed, BmapSlots;
    SameTwice(fs, gs, hs, i, BmapSlots((off + |dst|) / BSIZE));
  }

  lemma ReadDone(l: Layout, fs: Fs, gs: Fs, i: nat, off: nat, dst: seq<Byte>)
    requires FsOK(l, fs, {}) && Reading(l, fs, gs, i, off, dst)
    ensures FsOK(l, gs, {}) && Grows(fs, gs) && SameBytes(fs, gs)
    ensures dst == Content(fs, i)[off..off + |dst|] && (dst != [] ==> off + |dst| <= MAXBYTES)
    ensures gs == fs <==> Backed(fs, i, off, off + |dst|)
    ensures forall j :: 0 <= j < |fs.inodes| && j != i ==> Undisturbed(fs, gs, j)
  {
    hide Addr, ByteAt, Content, OnceEach, Conserved;
    forall j | 0 <= j < |fs.inodes| && j != i ensures Undisturbed(fs, gs, j) {
      InodeSame(fs, gs, j);
    }
  }

  // ----- writei

  datatype WriteResult = Panic | Error | Wrote(n: nat)

  /** The file c with src written over it from offset off on. */
  function Splice(c: seq<Byte>, off: nat, src: seq<Byte>): seq<Byte>
    requires off <= |c|
  {
    c[..off] + src + if off + |src| < |c| then c[off + |src|..] else []
  }

  /** Same size, same bytes, same blocks. */
  ghost predicate Undisturbed(fs: Fs, gs: Fs, j: nat) {
    && j < |fs.inodes| && j < |gs.inodes| && gs.inodes[j] == fs.inodes[j]
    && (forall s :: 0 <= s < NSLOTS ==> Addr(gs, j, s) == Addr(fs, j, s))
    && (forall k :: 0 <= k < MAXBYTES ==> ByteAt(gs, j, k) == ByteAt(fs, j, k))
  }

  /** Inode i keeps the blocks it had. */
  ghost predicate AddrsKept(fs: Fs, gs: Fs, i: nat) {
    forall s :: 0 <= s < NSLOTS && Addr(fs, i, s) != 0 ==> Addr(gs, i, s) == Addr(fs, i, s)
  }

  lemma UndisturbedSelf(fs: Fs)
    ensures forall j :: 0 <= j < |fs.inodes| ==> Undisturbed(fs, fs, j) && AddrsKept(fs, fs, j)
  {
  }

  function Patch(d: Sector, o: nat, bytes: seq<Byte>): (r: Sector)
    requires o + |bytes| <= BSIZE
    ensures forall k {:trigger r[k]} :: 0 <= k < BSIZE ==> r[k] == if o <= k < o + |bytes| then bytes[k - o] else d[k]
  {
    d[..o] + bytes + d[o + |bytes|..]
  }

  function NewSize(fs: Fs, i: nat, off: nat, n: nat): nat
    requires i < |fs.inodes|
  {
    if n > 0 && off + n > fs.inodes[i].size then off + n else fs.inodes[i].size
  }

  function Resized(fs: Fs, i: nat, size: nat): Fs
    requires i < |fs.inodes|
  {
    fs.(inodes := fs.inodes[i := fs.inodes[i].(size := size)])
  }

  /** What byte k of inode j must be once the first tot bytes of src are written. */
  function SplicedByte(fs: Fs, i: nat, off: nat, src: seq<Byte>, tot: nat, j: nat, k: nat): Byte
    requires tot <= |src|
  {
    if j == i && off <= k < off + tot then src[k - off] else ByteAt(fs, j, k)
  }

  /** Between two chunks of writei: fs is the state before the call, gs the current one. */
  ghost predicate Spliced(l: Layout, fs: Fs, gs: Fs, i: nat, off: nat, src: seq<Byte>, tot: nat) {
    && FsOK(l, gs, {}) && tot <= |src|
    && GrowsIn(fs, gs, i)
    && (forall j, k :: 0 <= j < |fs.inodes| && 0 <= k < MAXBYTES ==>
          ByteAt(gs, j, k) == SplicedByte(fs, i, off, src, tot, j, k))
    && (forall k :: off <= k < off + tot ==> Addr(gs, i, SlotOf(k / BSIZE)) != 0)
  }

  /** Growing, and only inode i gained blocks. */
  ghost predicate GrowsIn(fs: Fs, gs: Fs, i: nat) {
    && Grows(fs, gs)
    && forall j, s :: 0 <= j < |fs.inodes| && 0 <= s < NSLOTS && j != i ==> Addr(gs, j, s) == Addr(fs, j, s)
  }

  lemma SplicedStart(l: Layout, fs: Fs, i: nat, off: nat, src: seq<Byte>)
    requires FsOK(l, fs, {})
    ensures Spliced(l, fs, fs, i, off, src, 0)
  {
    hide FsOK, Addr, ByteAt;
  }

  lemma SplicedOK(l: Layout, fs: Fs, gs: Fs, i: nat, off: nat, src: seq<Byte>, tot: nat)
    requires Spliced(l, fs, gs, i, off, src, tot) && i < |fs.inodes|
    ensures FsOK(l, gs, {}) && |gs.inodes| == |fs.inodes| && gs.inodes[i].size == fs.inodes[i].size
  {
    hide FsOK, Addr, ByteAt;
  }

  lemma ChunkByte(hs: Fs, i: nat, at: nat, m: nat, bytes: seq<Byte>, k: nat)
    requires at % BSIZE + m <= BSIZE && |bytes| == m && k / BSIZE == at / BSIZE
    requires 0 < Addr(hs, i, SlotOf(at / BSIZE)) < |hs.disk|
    ensures Patch(hs.disk[Addr(hs, i, SlotOf(at / BSIZE))], at % BSIZE, bytes)[k % BSIZE] ==
      if at <= k < at + m then bytes[k - at] else ByteAt(hs, i, k)
  {
    hide Addr, SlotOf, Patch;
  }

  /** One chunk of writei: bmap gave hs, and the patched block goes where file block at/BSIZE is. */
  lemma ChunkKeeps(l: Layout, fs: Fs, gs: Fs, hs: Fs, i: nat, off: nat, src: seq<Byte>, tot: nat, m: nat)
    requires Spliced(l, fs, gs, i, off, src, tot) && i < |fs.inodes| && FsOK(l, hs, {})
    requires SameBytes(gs, hs) && GrowsAt(gs, hs, i, BmapSlots((off + tot) / BSIZE))
    requires tot + m <= |src| && off + |src| <= MAXBYTES && 0 < m && (off + tot) % BSIZE + m <= BSIZE
    requires 0 < Addr(hs, i, SlotOf((off + tot) / BSIZE)) < |hs.disk|
    ensures var at := off + tot;
      var d := Patch(hs.disk[Addr(hs, i, SlotOf(at / BSIZE))], at % BSIZE, src[tot..tot + m]);
      Spliced(l, fs, Overwrite(hs, i, at / BSIZE, d), i, off, src, tot + m)
  {
    hide FsOK, Addr, ByteAt, SlotOf, Patch, Overwrite;
    var at := off + tot;
    var bn := at / BSIZE;
    var d := Patch(hs.disk[Addr(hs, i, SlotOf(bn))], at % BSIZE, src[tot..tot + m]);
    assert bn < MAXFILE;
    OverwriteKeeps(l, hs, i, bn, d);
    var r := Overwrite(hs, i, bn, d);
    forall j, k | 0 <= j < |fs.inodes| && 0 <= k < MAXBYTES
      ensures ByteAt(r, j, k) == SplicedByte(fs, i, off, src, tot + m, j, k)
    {
      if j == i && k / BSIZE == bn {
        ChunkByte(hs, i, at, m, src[tot..tot + m], k);
      } else if at <= k < at + m {
        assert k / BSIZE == bn;
      }
    }
    forall k | off <= k < at + m ensures Addr(r, i, SlotOf(k / BSIZE)) != 0 {
      SlotBound(k);
      if at <= k {
        assert k / BSIZE == bn;
      }
    }
    GrowsChain(fs, gs, hs, r, i, BmapSlots(bn));
  }

  /** bmap gave up: what has been written so far stands. */
  lemma SplicedStuck(l: Layout, fs: Fs, gs: Fs, hs: Fs, i: nat, off: nat, src: seq<Byte>, tot: nat)
    requires Spliced(l, fs, gs, i, off, src, tot) && i < |fs.inodes| && FsOK(l, hs, {}) && SameBytes(gs, hs)
    requires GrowsAt(gs, hs, i, BmapSlots((off + tot) / BSIZE)) && off + tot <= MAXBYTES
    ensures Spliced(l, fs, hs, i, off, src, tot)
  {
    hide FsOK, Addr, ByteAt, SlotOf, BmapSlots;
    forall k | off <= k < off + tot ensures Addr(hs, i, SlotOf(k / BSIZE)) != 0 {
      SlotBound(k);
    }
  }

  lemma ChunkCounted(l: Layout, fs: Fs, hs: Fs, i: nat, off: nat, at: nat, m: nat, d: Sector)
    requires Counted(l, fs, hs, i, off, at + m) && FsOK(l, hs, {}) && i < |hs.inodes|
    requires at / BSIZE < MAXFILE && Addr(hs, i, SlotOf(at / BSIZE)) != 0
    ensures Addr(hs, i, SlotOf(at / BSIZE)) < |hs.disk|
    ensures Counted(l, fs, Overwrite(hs, i, at / BSIZE, d), i, off, at + m)
  {
    hide FsOK, Addr, Counted, GrowsAt, Overwrite;
    OverwriteKeeps(l, hs, i, at / BSIZE, d);
    CountedSame(l, fs, hs, Overwrite(hs, i, at / BSIZE, d), i, off, at + m);
  }

  lemma ResizedCounted(l: Layout, fs: Fs, es: Fs, i: nat, off: nat, src: seq<Byte>)
    requires Counted(l, fs, es, i, off, off + |src|) && i < |fs.inodes| && i < |es.inodes|
    ensures Counted(l, fs, Resized(es, i, NewSize(fs, i, off, |src|)), i, off, off + |src|)
  {
    hide Addr, SlotsFor, FreeCount, Lacks;
    var size := NewSize(fs, i, off, |src|);
    forall s: nat ensures Addr(Resized(es, i, size), i, s) == Addr(es, i, s) {
      ResizedAddr(es, i, size, i, s);
    }
    assert Filled(Resized(es, i, size), i) == Filled(es, i);
  }

  lemma GrowsChain(fs: Fs, gs: Fs, hs: Fs, rs: Fs, i: nat, slots: set<nat>)
    requires GrowsIn(fs, gs, i) && GrowsAt(gs, hs, i, slots) && GrowsAt(hs, rs, i, {})
    ensures GrowsIn(fs, rs, i)
  {
    hide Addr;
  }

  lemma ResizedAddr(fs: Fs, i: nat, size: nat, j: nat, s: nat)
    requires i < |fs.inodes|
    ensures Addr(Resized(fs, i, size), j, s) == Addr(fs, j, s)
  {
  }

  lemma ResizedKeeps(l: Layout, fs: Fs, i: nat, size: nat)
    requires FsOK(l, fs, {}) && i < |fs.inodes|
    ensures FsOK(l, Resized(fs, i, size), {})
    ensures forall j, k :: 0 <= j < |fs.inodes| && 0 <= k < MAXBYTES ==>
      ByteAt(Resized(fs, i, size), j, k) == ByteAt(fs, j, k)
  {
    hide Addr, InUse;
    var gs := Resized(fs, i, size);
    forall j, s ensures Addr(gs, j, s) == Addr(fs, j, s) {
      ResizedAddr(fs, i, size, j, s);
    }
    SameAddrs(l, fs, gs);
  }

  lemma InodeSame(fs: Fs, gs: Fs, j: nat)
    requires j < |fs.inodes| && j < |gs.inodes| && gs.inodes[j].size == fs.inodes[j].size
    requires |fs.inodes[j].addrs| == |gs.inodes[j].addrs| == NDIRECT + 1
    requires forall s :: 0 <= s < NSLOTS ==> Addr(gs, j, s) == Addr(fs, j, s)
    ensures gs.inodes[j] == fs.inodes[j]
  {
    forall s | 0 <= s <= NDIRECT ensures gs.inodes[j].addrs[s] == fs.inodes[j].addrs[s] {
      assert Addr(gs, j, s) == Addr(fs, j, s);
    }
  }

  lemma Bystander(l: Layout, fs: Fs, es: Fs, i: nat, off: nat, src: seq<Byte>, size: nat, j: nat)
    requires Spliced(l, fs, es, i, off, src, |src|) && i < |fs.inodes| && j < |fs.inodes| && j != i
    requires |fs.inodes[j].addrs| == NDIRECT + 1
    ensures |es.inodes| == |fs.inodes| && Undisturbed(fs, Resized(es, i, size), j)
  {
    assert forall s :: 0 <= s < NSLOTS ==> Addr(es, j, s) == Addr(fs, j, s);
    InodeSame(fs, es, j);
    hide Addr;
    ResizedKeeps(l, es, i, size);
    forall s ensures Addr(Resized(es, i, size), j, s) == Addr(es, j, s) {
      ResizedAddr(es, i, size, j, s);
    }
  }

  lemma WrittenFile(l: Layout, fs: Fs, es: Fs, i: nat, off: nat, src: seq<Byte>)
    requires Spliced(l, fs, es, i, off, src, |src|) && FileOK(fs, i)
    requires off <= fs.inodes[i].size && off + |src| <= MAXBYTES
    ensures |es.inodes| == |fs.inodes|
    ensures FileOK(Resized(es, i, NewSize(fs, i, off, |src|)), i)
  {
    hide FsOK, Addr, ByteAt, SlotOf;
    var size := NewSize(fs, i, off, |src|);
    var gs := Resized(es, i, size);
    forall k | 0 <= k < size ensures Addr(gs, i, SlotOf(k / BSIZE)) != 0 {
      ResizedAddr(es, i, size, i, SlotOf(k / BSIZE));
      SlotBound(k);
      assert k < off || k >= off + |src| ==> k < fs.inodes[i].size;
    }
  }

  lemma WrittenContent(l: Layout, fs: Fs, es: Fs, i: nat, off: nat, src: seq<Byte>)
    requires Spliced(l, fs, es, i, off, src, |src|) && i < |fs.inodes|
    requires off <= fs.inodes[i].size && off + |src| <= MAXBYTES
    ensures |es.inodes| == |fs.inodes|
    ensures Content(Resized(es, i, NewSize(fs, i, off, |src|)), i) == Splice(Content(fs, i), off, src)
  {
    hide FsOK, Addr, ByteAt, SlotOf;
    var size := NewSize(fs, i, off, |src|);
    ResizedKeeps(l, es, i, size);
    var c, want := Content(Resized(es, i, size), i), Splice(Content(fs, i), off, src);
    forall k | 0 <= k < size ensures c[k] == want[k] {
      if k >= MAXBYTES {
        FarByte(fs, i, k);
        FarByte(Resized(es, i, size), i, k);
      } else {
        assert c[k] == SplicedByte(fs, i, off, src, |src|, i, k);
      }
    }
  }

  lemma SameSlots(fs: Fs, es: Fs, i: nat, size: nat)
    requires Grows(fs, es) && i < |fs.inodes|
    ensures AddrsKept(fs, Resized(es, i, size), i)
  {
  }

  /** After the last chunk and the update of the size, the file is the spliced one, without holes
      if it had none, and no other file has changed. */
  lemma WriteDone(l: Layout, fs: Fs, es: Fs, i: nat, off: nat, src: seq<Byte>)
    requires FsOK(l, fs, {}) && Spliced(l, fs, es, i, off, src, |src|) && i < |fs.inodes|
    requires off <= fs.inodes[i].size && off + |src| <= MAXBYTES
    ensures |es.inodes| == |fs.inodes| && es.inodes[i].size == fs.inodes[i].size
    ensures var gs := Resized(es, i, NewSize(fs, i, off, |src|));
      && FsOK(l, gs, {}) && (FileOK(fs, i) ==> FileOK(gs, i))
      && Content(gs, i) == Splice(Content(fs, i), off, src) && AddrsKept(fs, gs, i)
      && forall j :: 0 <= j < |fs.inodes| && j != i ==> Undisturbed(fs, gs, j)
  {
    SameSlots(fs, es, i, NewSize(fs, i, off, |src|));
    hide Addr, ByteAt, Content, Undisturbed, OnceEach, Conserved, Splice;
    if FileOK(fs, i) {
      WrittenFile(l, fs, es, i, off, src);
    }
    WrittenContent(l, fs, es, i, off, src);
    ResizedKeeps(l, es, i, NewSize(fs, i, off, |src|));
    forall j | 0 <= j < |fs.inodes| && j != i ensures Undisturbed(fs, Resized(es, i, NewSize(fs, i, off, |src|)), j) {
      Bystander(l, fs, es, i, off, src, NewSize(fs, i, off, |src|), j);
    }
  }

  // ----- itrunc

  ghost predicate FreedBy(fs: Fs, i: nat, done: set<nat>, b: nat) {
    b != 0 && exists s :: s in done && Owns(fs, i, s, b)
  }

  /** The disk in the middle of itrunc: only the bits of the slots in `done` have been cleared. */
  ghost predicate Freed(l: Layout, fs: Fs, disk: Disk, i: nat, done: set<nat>) {
    && l.Valid() && |disk| == |fs.disk| == l.size
    && (forall x :: l.nmeta <= x < l.size ==> disk[x] == fs.disk[x])
    && (forall b :: 0 <= b < l.size ==>
          (InUse(l, disk, b) <==> InUse(l, fs.disk, b) && !FreedBy(fs, i, done, b)))
  }

  lemma FreedStart(l: Layout, fs: Fs, i: nat)
    requires FsOK(l, fs, {})
    ensures Freed(l, fs, fs.disk, i, {})
  {
    hide InUse, Addr;
  }

  lemma FreedShape(l: Layout, fs: Fs, disk: Disk, i: nat, done: set<nat>)
    requires Freed(l, fs, disk, i, done)
    ensures l.Valid() && |disk| == l.size
  {
    hide InUse, Addr;
  }

  lemma FreedData(l: Layout, fs: Fs, disk: Disk, i: nat, done: set<nat>, x: nat)
    requires Freed(l, fs, disk, i, done) && FsOK(l, fs, {}) && i < |fs.inodes| && x == Addr(fs, i, NDIRECT) != 0
    ensures disk[x] == fs.disk[x]
  {
    hide InUse, Addr;
  }

  lemma ClearedElsewhere(l: Layout, disk: Disk, a: nat)
    requires l.Valid() && |disk| == l.size && a < l.size && InUse(l, disk, a)
    ensures forall x :: l.nmeta <= x < l.size ==> Clear(l, disk, a)[x] == disk[x]
  {
    hide InUse, Clear;
    assert a / BPB <= l.size / BPB;
  }

  lemma DoneMore(fs: Fs, i: nat, done: set<nat>, s: nat, b: nat)
    requires i < |fs.inodes| && s < NSLOTS
    ensures FreedBy(fs, i, done + {s}, b) <==> FreedBy(fs, i, done, b) || (b != 0 && Addr(fs, i, s) == b)
  {
    hide Addr;
    if FreedBy(fs, i, done, b) {
      var t :| t in done && Owns(fs, i, t, b);
      assert t in done + {s};
    }
    if b != 0 && Addr(fs, i, s) == b {
      assert s in done + {s} && Owns(fs, i, s, b);
    }
  }

  /** The next block to free is still marked, and freeing it clears one more slot's bit. */
  lemma SlotStep(l: Layout, fs: Fs, disk: Disk, i: nat, done: set<nat>, s: nat)
    requires FsOK(l, fs, {}) && Freed(l, fs, disk, i, done) && i < |fs.inodes| && s < NSLOTS && s !in done
    ensures var a := Addr(fs, i, s);
      if a == 0 then Freed(l, fs, disk, i, done + {s})
      else a < l.size && InUse(l, disk, a) && Freed(l, fs, Clear(l, disk, a), i, done + {s})
  {
    hide InUse, Addr, Clear, FreedBy;
    var a := Addr(fs, i, s);
    forall b ensures FreedBy(fs, i, done + {s}, b) <==> FreedBy(fs, i, done, b) || (b != 0 && a == b) {
      DoneMore(fs, i, done, s, b);
    }
    if a != 0 {
      assert Owns(fs, i, s, a);
      NotYetFreed(fs, i, done, s);
      ClearedElsewhere(l, disk, a);
      forall b | 0 <= b < l.size ensures InUse(l, Clear(l, disk, a), b) == (b != a && InUse(l, disk, b)) {
        ClearOne(l, disk, a, b);
      }
    }
  }

  lemma NotYetFreed(fs: Fs, i: nat, done: set<nat>, s: nat)
    requires OnceEach(fs) && i < |fs.inodes| && s < NSLOTS && s !in done && Addr(fs, i, s) != 0
    ensures !FreedBy(fs, i, done, Addr(fs, i, s))
  {
    hide Addr;
  }

  lemma NoIndirect(fs: Fs, i: nat)
    requires i < |fs.inodes| && |fs.inodes[i].addrs| == NDIRECT + 1 && fs.inodes[i].addrs[NDIRECT] == 0
    ensures forall s :: NDIRECT <= s < NSLOTS ==> Addr(fs, i, s) == 0
  {
  }

  lemma EmptiedIs(fs: Fs, i: nat, gs: Fs)
    requires i < |fs.inodes| && gs.inodes == fs.inodes[i := Inode(0, seq(NDIRECT + 1, _ => 0))]
    ensures gs == Emptied(fs, i, gs.disk)
  {
  }

  /** All slots done, or the rest of them empty: the inode is free and nobody else noticed. */
  lemma FreedAll(l: Layout, fs: Fs, disk: Disk, i: nat, done: set<nat>)
    requires FsOK(l, fs, {}) && Freed(l, fs, disk, i, done) && i < |fs.inodes|
    requires forall s :: 0 <= s < NSLOTS && s !in done ==> Addr(fs, i, s) == 0
    ensures FsOK(l, Emptied(fs, i, disk), {})
    ensures forall b :: 0 <= b < l.size ==>
      (InUse(l, disk, b) <==> InUse(l, fs.disk, b) && !(exists s :: Owns(fs, i, s, b) && b != 0))
    ensures forall j :: 0 <= j < |fs.inodes| && j != i ==> Undisturbed(fs, Emptied(fs, i, disk), j)
  {
    hide InUse, Addr, Emptied;
    forall b | 0 <= b < l.size ensures FreedBy(fs, i, done, b) <==> exists s :: Owns(fs, i, s, b) && b != 0 {
    }
    EmptiedKeeps(l, fs, i, disk);
    forall j | 0 <= j < |fs.inodes| && j != i ensures Undisturbed(fs, Emptied(fs, i, disk), j) {
      EmptiedOther(l, fs, i, disk, j);
    }
  }

  lemma EmptiedOther(l: Layout, fs: Fs, i: nat, disk: Disk, j: nat)
    requires FsOK(l, fs, {}) && i < |fs.inodes| && j < |fs.inodes| && j != i && |disk| == l.size
    requires forall x :: l.nmeta <= x < l.size ==> disk[x] == fs.disk[x]
    requires forall k :: 0 <= k < MAXBYTES ==> ByteAt(Emptied(fs, i, disk), j, k) == ByteAt(fs, j, k)
    ensures Undisturbed(fs, Emptied(fs, i, disk), j)
  {
    hide Addr, ByteAt;
    forall s | 0 <= s < NSLOTS ensures Addr(Emptied(fs, i, disk), j, s) == Addr(fs, j, s) {
      EmptiedAddr(l, fs, i, disk, j, s);
    }
  }

  /** What itrunc gives back. */
  lemma EmptiedCount(l: Layout, fs: Fs, i: nat, disk: Disk)
    requires FsOK(l, fs, {}) && i < |fs.inodes| && FsOK(l, Emptied(fs, i, disk), {})
    requires forall j :: 0 <= j < |fs.inodes| && j != i ==> Undisturbed(fs, Emptied(fs, i, disk), j)
    ensures l.Valid() && |fs.disk| == |disk| == l.size
    ensures Filled(Emptied(fs, i, disk), i) == {}
    ensures FreeCount(l, disk) == FreeCount(l, fs.disk) + |Filled(fs, i)|
  {
    var gs := Emptied(fs, i, disk);
    assert forall s :: 0 <= s < NSLOTS ==> Addr(gs, i, s) == 0;
    hide FsOK, Addr, FreeCount, ByteAt;
    VolumeShape(l, fs);
    VolumeShape(l, gs);
    assert Filled(gs, i) == {};
    forall j | 0 <= j < |fs.inodes| && j != i ensures Filled(fs, j) == Filled(gs, j) {
      SameFilled(fs, gs, j);
    }
    GainedCount(l, gs, fs, i, Filled(fs, i));
  }

  lemma SameFilled(fs: Fs, gs: Fs, j: nat)
    requires Undisturbed(fs, gs, j)
    ensures Filled(gs, j) == Filled(fs, j)
  {
    hide Addr, ByteAt;
  }

  class Volume {
    const l: Layout
    const disk: array<Sector>
    const inodes: array<Inode>

    ghost function Now(): Fs
      reads disk, inodes
    {
      Fs(disk[..], inodes[..])
    }

    /** A volume over a given image. */
    constructor (l: Layout, image: Disk, table: seq<Inode>)
      ensures this.l == l && fresh(disk) && fresh(inodes)
      ensures Now() == Fs(image, table)
    {
      this.l := l;
      disk := new Sector[|image|](i requires 0 <= i < |image| => image[i]);
      inodes := new Inode[|table|](i requires 0 <= i < |table| => table[i]);
    }

    /** The scan of balloc: the first block whose bit is clear. */
    method FindFree() returns (r: Option<nat>)
      requires l.Valid() && disk.Length == l.size
      ensures r.Some? ==> r.value < l.size && !InUse(l, disk[..], r.value)
      ensures r.Some? ==> forall c :: 0 <= c < r.value ==> InUse(l, disk[..], c)
      ensures r.None? ==> forall c :: 0 <= c < l.size ==> InUse(l, disk[..], c)
    {
      hide InUse, Bit;
      var b: nat := 0;
      while b < l.size
        invariant b % BPB == 0
        invariant forall c :: 0 <= c < b && c < l.size ==> InUse(l, disk[..], c)
      {
        ReadBit(l, disk[..], b, 0);
        var data := disk[l.MapBlock(b)];
        var bi: nat := 0;
        while bi < BPB && b + bi < l.size
          invariant bi <= BPB
          invariant forall c :: 0 <= c < b + bi && c < l.size ==> InUse(l, disk[..], c)
        {
          ReadBit(l, disk[..], b, bi);
          if !Bit(data[bi / 8], bi % 8) {
            return Some(b + bi);
          }
          bi := bi + 1;
        }
        b := b + BPB;
      }
      return None;
    }

    /** balloc: a zeroed block that was nobody's; None is "balloc: out of blocks". */
    method Balloc(ghost loose: set<nat>) returns (r: Option<nat>)
      requires FsOK(l, Now(), loose)
      modifies disk
      ensures r.None? ==> Now() == old(Now()) && forall c :: 0 <= c < l.size ==> InUse(l, disk[..], c)
      ensures r.Some? ==> l.nmeta <= r.value < l.size && !InUse(l, old(disk[..]), r.value)
      ensures r.Some? ==> forall c :: 0 <= c < r.value ==> InUse(l, old(disk[..]), c)
      ensures r.Some? ==> Now() == old(Now()).(disk := Allocated(l, old(disk[..]), r.value))
      ensures r.Some? ==>
        FsOK(l, Now(), loose + {r.value}) && SameBytes(old(Now()), Now()) && GrowsAt(old(Now()), Now(), 0, {})
    {
      r := FindFree();
      if r.Some? {
        assert l.nmeta <= r.value;
        AllocateKeeps(l, Now(), loose, r.value);
        AllocateBytes(l, Now(), loose, r.value);
        hide FsOK, InUse, SameBytes, GrowsAt, Allocated;
        Take(r.value);
      }
    }

    /** Marking a block in use and zeroing it. */
    method Take(b: nat)
      requires l.Valid() && disk.Length == l.size && l.nmeta <= b < l.size && !InUse(l, disk[..], b)
      modifies disk
      ensures disk[..] == Allocated(l, old(disk[..]), b)
    {
      hide InUse, Bit;
      ghost var was: Disk := disk[..];
      var mb := l.MapBlock(b);
      var bi := b % BPB;
      ReadBit(l, was, b - bi, bi);
      disk[mb] := disk[mb][bi / 8 := (disk[mb][bi / 8] as int + Pow2(bi % 8)) % 256];
      assert disk[..] == Mark(l, was, b);
      disk[b] := Zero();
    }

    /** bfree; false is "freeing free block". */
    method Bfree(b: nat) returns (ok: bool)
      requires l.Valid() && disk.Length == l.size && b < l.size
      modifies disk
      ensures ok <==> InUse(l, old(disk[..]), b)
      ensures !ok ==> disk[..] == old(disk[..])
      ensures ok ==> disk[..] == Clear(l, old(disk[..]), b)
    {
      hide Bit;
      ghost var was: Disk := disk[..];
      var mb := l.MapBlock(b);
      var bi := b % BPB;
      assert mb < l.size;
      ok := Bit(disk[mb][bi / 8], bi % 8);
      if ok {
        disk[mb] := disk[mb][bi / 8 := (disk[mb][bi / 8] as int - Pow2(bi % 8)) % 256];
        assert disk[..] == Clear(l, was, b);
      }
    }

    /** A fresh block entered into an empty slot: balloc plus the assignment that follows it. */
    method EnterFresh(i: nat, s: nat) returns (r: Option<nat>)
      requires FsOK(l, Now(), {}) && i < inodes.Length && s < NSLOTS && Addr(Now(), i, s) == 0
      requires s > NDIRECT ==> Addr(Now(), i, NDIRECT) != 0
      modifies disk, inodes
      ensures r.None? ==> Now() == old(Now()) && forall c :: 0 <= c < l.size ==> InUse(l, disk[..], c)
      ensures r.Some? ==> FsOK(l, Now(), {}) && SameBytes(old(Now()), Now()) && GrowsAt(old(Now()), Now(), i, {s})
      ensures r.Some? ==> 0 < r.value < l.size && Addr(Now(), i, s) == r.value && !InUse(l, old(disk[..]), r.value)
    {
      hide FsOK, InUse, SameBytes, Addr, Allocated;
      ghost var fs := Now();
      r := Balloc({});
      if r.None? { return; }
      var b := r.value;
      ghost var gs := Now();
      assert {} + {b} == {b};
      AfterBalloc(l, fs, gs, b, i, s);
      EnterKeeps(l, gs, {b}, i, s, b);
      assert {b} - {b} == {};
      EnterSplit(l, gs, i, s, b);
      var ip := inodes[i];
      if s <= NDIRECT {
        inodes[i] := ip.(addrs := ip.addrs[s := b]);
      } else {
        var ind := ip.addrs[NDIRECT];
        disk[ind] := SetWord(disk[ind], s - NDIRECT - 1, b);
      }
      assert Now() == Enter(gs, i, s, b);
      GrowsTrans(fs, gs, Now(), i, {}, {s});
    }

    /** The same, with what it takes from the free blocks. */
    method AllocInto(i: nat, s: nat) returns (r: Option<nat>)
      requires FsOK(l, Now(), {}) && i < inodes.Length && s < NSLOTS && Addr(Now(), i, s) == 0
      requires s > NDIRECT ==> Addr(Now(), i, NDIRECT) != 0
      modifies disk, inodes
      ensures FsOK(l, Now(), {})
      ensures r.Some? <==> FreeCount(l, old(disk[..])) > 0
      ensures r.None? ==> Now() == old(Now())
      ensures r.Some? ==> FreeCount(l, disk[..]) == FreeCount(l, old(disk[..])) - 1
      ensures r.Some? ==> SameBytes(old(Now()), Now()) && GrowsAt(old(Now()), Now(), i, {s})
      ensures r.Some? ==> 0 < r.value < l.size && Addr(Now(), i, s) == r.value
    {
      hide FsOK, InUse, SameBytes, GrowsAt, Addr, FreeCount;
      VolumeShape(l, Now());
      ghost var fs := Now();
      AllUsed(l, fs.disk);
      r := EnterFresh(i, s);
      if r.Some? {
        OneTaken(l, fs, Now(), i, s);
      }
    }

    /** bmap: the address of block bn of inode i, allocating what is missing.  No byte of any
        file changes; None means out of range or out of blocks. */
    method Bmap(i: nat, bn: nat) returns (r: Option<nat>)
      requires FsOK(l, Now(), {}) && i < inodes.Length
      modifies disk, inodes
      ensures r.Some? <==> bn < MAXFILE && |BmapSlots(bn) - Filled(old(Now()), i)| <= FreeCount(l, old(disk[..]))
      ensures bn >= MAXFILE ==> Now() == old(Now())
      ensures FsOK(l, Now(), {}) && SameBytes(old(Now()), Now())
      ensures GrowsAt(old(Now()), Now(), i, BmapSlots(bn))
      ensures r.None? && bn < MAXFILE ==> FreeCount(l, disk[..]) == 0
      ensures r.Some? ==> 0 < r.value < l.size == disk.Length && r.value == Addr(Now(), i, SlotOf(bn))
      ensures bn < MAXFILE && Addr(old(Now()), i, SlotOf(bn)) != 0 ==> r.Some? && Now() == old(Now())
    {
      hide FsOK, InUse, SameBytes, GrowsAt, Addr, WordAt, FreeCount, Filled, BmapSlots;
      VolumeShape(l, Now());
      ghost var fs := Now();
      SelfGrows(fs, i);
      SlotsMonotone(fs, fs, i, {}, BmapSlots(bn));
      InodeShape(l, fs, i, bn);
      if bn >= MAXFILE {
        return None;
      }
      MissingCount(fs, i, bn);
      BmapWay(bn);
      if bn < NDIRECT {
        var addr := inodes[i].addrs[bn];
        if addr == 0 {
          r := AllocInto(i, bn);
          return;
        }
        return Some(addr);
      }
      r := BmapIndirect(i, bn);
    }

    /** The second half of bmap: through the indirect block. */
    method BmapIndirect(i: nat, bn: nat) returns (r: Option<nat>)
      requires FsOK(l, Now(), {}) && i < inodes.Length && NDIRECT <= bn < MAXFILE
      modifies disk, inodes
      ensures r.Some? <==> Missing(old(Now()), i, bn) <= FreeCount(l, old(disk[..]))
      ensures FsOK(l, Now(), {}) && SameBytes(old(Now()), Now())
      ensures GrowsAt(old(Now()), Now(), i, BmapSlots(bn))
      ensures r.None? ==> FreeCount(l, disk[..]) == 0
      ensures r.Some? ==> 0 < r.value < l.size == disk.Length && r.value == Addr(Now(), i, SlotOf(bn))
      ensures Addr(old(Now()), i, SlotOf(bn)) != 0 ==> r.Some? && Now() == old(Now())
    {
      hide FsOK, InUse, SameBytes, GrowsAt, Addr, WordAt, FreeCount, Filled, BmapSlots;
      VolumeShape(l, Now());
      ghost var fs := Now();
      SelfGrows(fs, i);
      BmapWay(bn);
      SlotsMonotone(fs, fs, i, {}, {NDIRECT});
      SlotsMonotone(fs, fs, i, {}, BmapSlots(bn));
      InodeShape(l, fs, i, bn);
      if inodes[i].addrs[NDIRECT] == 0 {
        r := AllocInto(i, NDIRECT);
        if r.None? { return; }
      }
      ghost var gs := Now();
      SlotsMonotone(fs, gs, i, {NDIRECT}, BmapSlots(bn));
      SlotKept(fs, gs, i, {NDIRECT}, bn + 1);
      InodeShape(l, gs, i, bn);
      var addr := inodes[i].addrs[NDIRECT];
      var entry := WordAt(disk[addr], bn - NDIRECT);
      if entry == 0 {
        r := AllocInto(i, bn + 1);
        if r.None? { return; }
        GrowsTrans(fs, gs, Now(), i, {NDIRECT}, {bn + 1});
      } else {
        r := Some(entry);
      }
    }

    /** readi.  Reading a hole fills it, so that the disk changes exactly if there is one in the
        range; what any file reads as does not. */
    method Readi(i: nat, off: nat, n: nat) returns (r: ReadResult)
      requires FsOK(l, Now(), {}) && i < inodes.Length
      requires off < UINT_LIMIT && n < UINT_LIMIT
      modifies disk, inodes
      ensures r.BadRange? <==> (off > old(inodes[i].size) || off + n >= UINT_LIMIT)
      ensures r.BadRange? ==> Now() == old(Now())
      ensures r.NoBlock? <==> (!r.BadRange? && off < Min(off + n, old(inodes[i].size)) &&
        (Min(off + n, old(inodes[i].size)) > MAXBYTES ||
         Lacks(old(Now()), i, off, Min(off + n, old(inodes[i].size))) > FreeCount(l, old(disk[..]))))
      ensures r.NoBlock? ==>
        Min(off + n, old(inodes[i].size)) > MAXBYTES || forall c :: 0 <= c < l.size ==> InUse(l, disk[..], c)
      ensures r.NoBlock? ==> FsOK(l, Now(), {}) && SameBytes(old(Now()), Now()) && GrowsIn(old(Now()), Now(), i)
      ensures r.Bytes? ==> r.data == Content(old(Now()), i)[off..Min(off + n, old(inodes[i].size))]
      ensures r.Bytes? ==> FsOK(l, Now(), {}) && Grows(old(Now()), Now()) && SameBytes(old(Now()), Now())
      ensures r.Bytes? ==> forall j :: 0 <= j < inodes.Length && j != i ==> Undisturbed(old(Now()), Now(), j)
      ensures r.Bytes? ==> Counted(l, old(Now()), Now(), i, off, Min(off + n, old(inodes[i].size)))
      ensures r.Bytes? ==>
        (Now() == old(Now()) <==> Backed(old(Now()), i, off, Min(off + n, old(inodes[i].size))))
    {
      hide FsOK, Addr, SameBytes, GrowsAt, GrowsIn, ByteAt, Content, Backed, Undisturbed, InUse, Reading,
        Counted, Lacks, FreeCount, Filled, BmapSlots, SlotsFor;
      VolumeShape(l, Now());
      ghost var fs := Now();
      if off > inodes[i].size || off + n >= UINT_LIMIT {
        return BadRange;
      }
      var want := if off + n > inodes[i].size then inodes[i].size - off else n;
      var dst: seq<Byte> := [];
      ReadingStart(l, fs, i, off);
      CountedStart(l, fs, i, off);
      while |dst| < want
        invariant |dst| <= want && off + want <= fs.inodes[i].size && inodes.Length == |fs.inodes|
        invariant Reading(l, fs, Now(), i, off, dst) && Counted(l, fs, Now(), i, off, off + |dst|)
      {
        var more := ReadOne(fs, i, off, dst, want);
        if more.None? { return NoBlock; }
        dst := dst + more.value;
      }
      ReadDone(l, fs, Now(), i, off, dst);
      CountedFits(l, fs, Now(), i, off, off + |dst|);
      return Bytes(dst);
    }

    /** One turn of the loop of readi. */
    method ReadOne(ghost fs: Fs, i: nat, off: nat, dst: seq<Byte>, want: nat) returns (more: Option<seq<Byte>>)
      requires Reading(l, fs, Now(), i, off, dst) && Counted(l, fs, Now(), i, off, off + |dst|)
      requires |dst| < want && i < |fs.inodes| == inodes.Length && off + want <= fs.inodes[i].size
      modifies disk, inodes
      ensures more.Some? ==> 0 < |more.value| <= want - |dst|
      ensures more.Some? ==> Reading(l, fs, Now(), i, off, dst + more.value)
      ensures more.Some? ==> Counted(l, fs, Now(), i, off, off + |dst + more.value|)
      ensures more.None? ==> FsOK(l, Now(), {}) && SameBytes(fs, Now()) && GrowsIn(fs, Now(), i)
      ensures more.None? ==> l.Valid() && |fs.disk| == l.size
      ensures more.None? ==> off + want > MAXBYTES || Lacks(fs, i, off, off + want) > FreeCount(l, fs.disk)
      ensures more.None? ==> off + want > MAXBYTES || forall c :: 0 <= c < l.size ==> InUse(l, disk[..], c)
    {
      hide FsOK, Addr, SameBytes, GrowsAt, GrowsIn, ByteAt, Content, Backed, InUse, Reading,
        Counted, Lacks, FreeCount, Filled, BmapSlots, SlotsFor;
      CountedShape(l, fs, Now(), i, off, off + |dst|);
      var at := off + |dst|;
      var m := Min(want - |dst|, BSIZE - at % BSIZE);
      ghost var gs := Now();
      ReadingOK(l, fs, gs, i, off, dst);
      ChunkNeeds(l, fs, gs, i, off, at, m, off + want);
      var addr := Bmap(i, at / BSIZE);
      if addr.None? {
        ReadingStuck(l, fs, gs, Now(), i, off, dst);
        AllUsed(l, disk[..]);
        return None;
      }
      ReadingMore(l, fs, gs, Now(), i, off, dst, m);
      CountedMore(l, fs, gs, Now(), i, off, at, m);
      return Some(disk[addr.value][at % BSIZE..at % BSIZE + m]);
    }

    /** writei.  Error is the error return; Panic is out of blocks in the middle of the write. */
    method Writei(i: nat, src: seq<Byte>, off: nat) returns (r: WriteResult)
      requires FsOK(l, Now(), {}) && i < inodes.Length
      requires off < UINT_LIMIT && |src| < UINT_LIMIT
      modifies disk, inodes
      ensures r.Error? <==> (off > old(inodes[i].size) || off + |src| >= UINT_LIMIT || off + |src| > MAXBYTES)
      ensures r.Error? ==> Now() == old(Now())
      ensures r.Panic? <==> !r.Error? && Lacks(old(Now()), i, off, off + |src|) > FreeCount(l, old(disk[..]))
      ensures r.Panic? ==> forall c :: 0 <= c < l.size ==> InUse(l, disk[..], c)
      ensures r.Panic? ==> exists tot :: Spliced(l, old(Now()), Now(), i, off, src, tot)
      ensures r.Wrote? ==> Counted(l, old(Now()), Now(), i, off, off + |src|)
      ensures r.Wrote? ==> r.n == |src| && FsOK(l, Now(), {}) && (FileOK(old(Now()), i) ==> FileOK(Now(), i))
      ensures r.Wrote? ==> Content(Now(), i) == Splice(Content(old(Now()), i), off, src)
      ensures r.Wrote? ==> AddrsKept(old(Now()), Now(), i)
      ensures r.Wrote? ==> forall j :: 0 <= j < inodes.Length && j != i ==> Undisturbed(old(Now()), Now(), j)
    {
      hide FsOK, Addr, SameBytes, GrowsAt, ByteAt, FileOK, Spliced, Undisturbed, Content, InUse,
        Counted, Lacks, FreeCount, Filled, BmapSlots, SlotsFor, AddrsKept;
      VolumeShape(l, Now());
      ghost var fs := Now();
      var n := |src|;
      if off > inodes[i].size || off + n >= UINT_LIMIT || off + n > MAXBYTES {
        return Error;
      }
      SplicedStart(l, fs, i, off, src);
      CountedStart(l, fs, i, off);
      var tot: nat := 0;
      while tot < n
        invariant tot <= n && inodes.Length == |fs.inodes| && inodes[i].size == fs.inodes[i].size
        invariant Spliced(l, fs, Now(), i, off, src, tot) && Counted(l, fs, Now(), i, off, off + tot)
      {
        var m := WriteOne(fs, i, src, off, tot);
        if m.None? { return Panic; }
        tot := tot + m.value;
      }
      ghost var es := Now();
      CountedFits(l, fs, es, i, off, off + n);
      ResizedCounted(l, fs, es, i, off, src);
      WriteDone(l, fs, es, i, off, src);
      if n > 0 && off + n > inodes[i].size {
        inodes[i] := inodes[i].(size := off + n);
      }
      assert Now() == Resized(es, i, NewSize(fs, i, off, n));
      return Wrote(n);
    }

    /** One turn of the loop of writei. */
    method WriteOne(ghost fs: Fs, i: nat, src: seq<Byte>, off: nat, tot: nat) returns (r: Option<nat>)
      requires Spliced(l, fs, Now(), i, off, src, tot) && Counted(l, fs, Now(), i, off, off + tot)
      requires tot < |src| && off + |src| <= MAXBYTES && i < |fs.inodes| == inodes.Length
      modifies disk, inodes
      ensures inodes[i].size == old(inodes[i].size)
      ensures r.Some? ==> 0 < r.value <= |src| - tot
      ensures r.Some? ==> Spliced(l, fs, Now(), i, off, src, tot + r.value)
      ensures r.Some? ==> Counted(l, fs, Now(), i, off, off + (tot + r.value))
      ensures r.None? ==> Spliced(l, fs, Now(), i, off, src, tot) && l.Valid() && |fs.disk| == l.size
      ensures r.None? ==> Lacks(fs, i, off, off + |src|) > FreeCount(l, fs.disk)
      ensures r.None? ==> forall c :: 0 <= c < l.size ==> InUse(l, disk[..], c)
    {
      hide FsOK, Addr, SameBytes, GrowsAt, ByteAt, Spliced, InUse,
        Counted, Lacks, FreeCount, Filled, BmapSlots, SlotsFor;
      CountedShape(l, fs, Now(), i, off, off + tot);
      var at := off + tot;
      var m := Min(|src| - tot, BSIZE - at % BSIZE);
      ghost var gs := Now();
      SplicedOK(l, fs, gs, i, off, src, tot);
      ChunkNeeds(l, fs, gs, i, off, at, m, off + |src|);
      var addr := Bmap(i, at / BSIZE);
      ghost var hs := Now();
      SameSize(gs, hs, i, BmapSlots(at / BSIZE));
      if addr.None? {
        SplicedStuck(l, fs, gs, hs, i, off, src, tot);
        AllUsed(l, disk[..]);
        return None;
      }
      var a := addr.value;
      CountedMore(l, fs, gs, hs, i, off, at, m);
      ChunkCounted(l, fs, hs, i, off, at, m, Patch(hs.disk[a], at % BSIZE, src[tot..tot + m]));
      ChunkKeeps(l, fs, gs, hs, i, off, src, tot, m);
      disk[a] := Patch(disk[a], at % BSIZE, src[tot..tot + m]);
      assert Now() == Overwrite(hs, i, at / BSIZE, Patch(hs.disk[a], at % BSIZE, src[tot..tot + m]));
      return Some(m);
    }

    /** bfree of the block in slot s of inode i, if there is one. */
    method FreeSlot(ghost fs: Fs, i: nat, s: nat, a: nat, ghost done: set<nat>)
      requires FsOK(l, fs, {}) && Freed(l, fs, disk[..], i, done)
      requires i < |fs.inodes| && s < NSLOTS && s !in done && a == Addr(fs, i, s)
      modifies disk
      ensures Freed(l, fs, disk[..], i, done + {s})
    {
      hide FsOK, Addr, InUse, Clear;
      SlotStep(l, fs, disk[..], i, done, s);
      FreedShape(l, fs, disk[..], i, done);
      if a != 0 {
        var ok := Bfree(a);
      }
    }

    /** itrunc: exactly the blocks of inode i are freed, none of them twice. */
    method Itrunc(i: nat)
      requires FsOK(l, Now(), {}) && i < inodes.Length
      modifies disk, inodes
      ensures Now() == Emptied(old(Now()), i, disk[..]) && FsOK(l, Now(), {})
      ensures forall b :: 0 <= b < l.size ==>
        (InUse(l, disk[..], b) <==> InUse(l, old(disk[..]), b) && !(exists s :: Owns(old(Now()), i, s, b) && b != 0))
      ensures forall j :: 0 <= j < inodes.Length && j != i ==> Undisturbed(old(Now()), Now(), j)
      ensures disk.Length == l.size && l.Valid() && Filled(Now(), i) == {}
      ensures FreeCount(l, disk[..]) == FreeCount(l, old(disk[..])) + |Filled(old(Now()), i)|
    {
      hide FsOK, Addr, InUse, Undisturbed, Freed, WordAt, Emptied, FreeCount, Filled;
      VolumeShape(l, Now());
      ghost var fs, done := Now(), {};
      InodeShape(l, fs, i, 0);
      FreedStart(l, fs, i);
      var k := 0;
      while k < NDIRECT
        invariant 0 <= k <= NDIRECT && forall s :: s in done <==> 0 <= s < k
        invariant Freed(l, fs, disk[..], i, done)
        invariant inodes[..] == fs.inodes[i := inodes[i]] && |inodes[i].addrs| == NDIRECT + 1
        invariant forall s :: 0 <= s <= NDIRECT ==> inodes[i].addrs[s] == if s < k then 0 else fs.inodes[i].addrs[s]
      {
        InodeShape(l, fs, i, k);
        if inodes[i].addrs[k] != 0 {
          FreeSlot(fs, i, k, inodes[i].addrs[k], done);
          inodes[i] := inodes[i].(addrs := inodes[i].addrs[k := 0]);
        } else {
          FreeSlot(fs, i, k, 0, done);
        }
        done := done + {k};
        k := k + 1;
      }
      if inodes[i].addrs[NDIRECT] != 0 {
        done := FreeIndirect(fs, i, inodes[i].addrs[NDIRECT], done);
        inodes[i] := inodes[i].(addrs := inodes[i].addrs[NDIRECT := 0]);
      } else {
        NoIndirect(fs, i);
      }
      inodes[i] := inodes[i].(size := 0);
      FreedAll(l, fs, disk[..], i, done);
      assert inodes[i] == Inode(0, seq(NDIRECT + 1, _ => 0));
      assert Now() == Emptied(fs, i, disk[..]) by { EmptiedIs(fs, i, Now()); }
      EmptiedCount(l, fs, i, disk[..]);
    }

    /** The second half of itrunc: the entries of the indirect block, then the block itself. */
    method FreeIndirect(ghost fs: Fs, i: nat, ind: nat, ghost before: set<nat>) returns (ghost done: set<nat>)
      requires FsOK(l, fs, {}) && Freed(l, fs, disk[..], i, before) && i < |fs.inodes|
      requires ind == Addr(fs, i, NDIRECT) != 0
      requires forall s :: s in before <==> 0 <= s < NDIRECT
      modifies disk
      ensures Freed(l, fs, disk[..], i, done) && forall s :: s in done <==> 0 <= s < NSLOTS
    {
      hide FsOK, Addr, InUse, Freed, WordAt;
      done := before;
      FreedShape(l, fs, disk[..], i, done);
      InodeShape(l, fs, i, 0);
      FreedData(l, fs, disk[..], i, done, ind);
      var data := disk[ind];
      var j := 0;
      while j < NINDIRECT
        invariant 0 <= j <= NINDIRECT && Freed(l, fs, disk[..], i, done)
        invariant forall s :: s in done <==> 0 <= s < NDIRECT || NDIRECT < s <= NDIRECT + j
      {
        InodeShape(l, fs, i, NDIRECT + j);
        FreeSlot(fs, i, NDIRECT + 1 + j, WordAt(data, j), done);
        done := done + {NDIRECT + 1 + j};
        j := j + 1;
      }
      FreeSlot(fs, i, NDIRECT, ind, done);
      done := done + {NDIRECT};
    }
  }
}
