/** Which block belongs to which slot of which inode, and what every allocation keeps:
    the set bits of the free map are the metadata plus the blocks of the inodes, each
    owned once. */
module InodeBlocks {
  import opened Machine
  import opened Sectors
  import opened FreeMap

  const NDIRECT: nat := 12
  const MAXFILE: nat := NDIRECT + NINDIRECT
  const NSLOTS: nat := NDIRECT + 1 + NINDIRECT

  datatype Inode = Inode(size: nat, addrs: seq<nat>)
  datatype Fs = Fs(disk: Disk, inodes: seq<Inode>)

  /** Slots of an inode: the direct addresses, the indirect block, then its entries. */
  function Addr(fs: Fs, i: nat, s: nat): nat {
    if i >= |fs.inodes| || |fs.inodes[i].addrs| != NDIRECT + 1 then 0
    else if s <= NDIRECT then fs.inodes[i].addrs[s]
    else
      var ind := fs.inodes[i].addrs[NDIRECT];
      if ind == 0 || ind >= |fs.disk| || s >= NSLOTS then 0 else WordAt(fs.disk[ind], s - NDIRECT - 1)
  }

  /** The slot that holds the address of file block bn. */
  function SlotOf(bn: nat): nat {
    if bn < NDIRECT then bn else bn + 1
  }

  ghost predicate Owns(fs: Fs, i: nat, s: nat, b: nat) {
    i < |fs.inodes| && s < NSLOTS && Addr(fs, i, s) == b
  }

  ghost predicate Owned(fs: Fs, b: nat) {
    exists i, s :: Owns(fs, i, s, b)
  }

  ghost predicate Shape(l: Layout, fs: Fs) {
    && l.Valid() && |fs.disk| == l.size
    && (forall i :: 0 <= i < |fs.inodes| ==> |fs.inodes[i].addrs| == NDIRECT + 1)
    && (forall i, s :: 0 <= i < |fs.inodes| && 0 <= s < NSLOTS ==>
          Addr(fs, i, s) == 0 || l.nmeta <= Addr(fs, i, s) < l.size)
  }

  ghost predicate OnceEach(fs: Fs) {
    forall i, s, j, t ::
      (0 <= i < |fs.inodes| && 0 <= s < NSLOTS && 0 <= j < |fs.inodes| && 0 <= t < NSLOTS &&
       Addr(fs, i, s) != 0 && Addr(fs, i, s) == Addr(fs, j, t)) ==> i == j && s == t
  }

  /** `loose` are blocks just taken from the map and not yet entered anywhere. */
  ghost predicate Conserved(l: Layout, fs: Fs, loose: set<nat>)
    requires Shape(l, fs)
  {
    && (forall b :: b in loose ==> l.nmeta <= b < l.size && !Owned(fs, b))
    && (forall b :: 0 <= b < l.size ==>
          (InUse(l, fs.disk, b) <==> b < l.nmeta || Owned(fs, b) || b in loose))
  }

  ghost predicate FsOK(l: Layout, fs: Fs, loose: set<nat>) {
    Shape(l, fs) && OnceEach(fs) && Conserved(l, fs, loose)
  }

  // ----- frames

  /** Same inodes, same indirect blocks: same addresses. */
  lemma AddrFrame(fs: Fs, disk: Disk, i: nat, s: nat)
    requires |disk| == |fs.disk|
    requires i < |fs.inodes| && |fs.inodes[i].addrs| == NDIRECT + 1 ==>
      var ind := fs.inodes[i].addrs[NDIRECT];
      ind != 0 && ind < |disk| ==> disk[ind] == fs.disk[ind]
    ensures Addr(fs.(disk := disk), i, s) == Addr(fs, i, s)
  {
  }

  /** If no address changes, ownership does not. */
  lemma SameAddrs(l: Layout, fs: Fs, gs: Fs)
    requires |gs.inodes| == |fs.inodes|
    requires forall i, s :: 0 <= i < |fs.inodes| && 0 <= s < NSLOTS ==> Addr(gs, i, s) == Addr(fs, i, s)
    ensures forall b :: Owned(gs, b) <==> Owned(fs, b)
  {
    forall b ensures Owned(gs, b) <==> Owned(fs, b) {
      if Owned(gs, b) {
        var i, s :| Owns(gs, i, s, b);
        assert Owns(fs, i, s, b);
      }
      if Owned(fs, b) {
        var i, s :| Owns(fs, i, s, b);
        assert Owns(gs, i, s, b);
      }
    }
  }

  /** Taking block b from the map: its bit set, its contents zeroed. */
  function Allocated(l: Layout, disk: Disk, b: nat): (r: Disk)
    requires l.Valid() && |disk| == l.size && l.nmeta <= b < l.size && !InUse(l, disk, b)
  {
    var marked := Mark(l, disk, b);
    marked[b := Zero()]
  }

  lemma AllocatedBit(l: Layout, disk: Disk, b: nat, c: nat)
    requires l.Valid() && |disk| == l.size && l.nmeta <= b < l.size && !InUse(l, disk, b) && c < l.size
    ensures InUse(l, Allocated(l, disk, b), c) == (c == b || InUse(l, disk, c))
  {
    MarkOne(l, disk, b, c);
    OtherBlock(l, Mark(l, disk, b), b, Zero(), c);
  }

  lemma AllocateAddr(l: Layout, fs: Fs, loose: set<nat>, b: nat, i: nat, s: nat)
    requires FsOK(l, fs, loose) && l.nmeta <= b < l.size && !InUse(l, fs.disk, b)
    requires i < |fs.inodes| && s < NSLOTS
    ensures Addr(fs.(disk := Allocated(l, fs.disk, b)), i, s) == Addr(fs, i, s)
  {
    var ind := Addr(fs, i, NDIRECT);
    assert Owns(fs, i, NDIRECT, ind);
    AddrFrame(fs, Allocated(l, fs.disk, b), i, s);
  }

  /** balloc: a free block becomes loose and nothing else changes hands. */
  lemma AllocateKeeps(l: Layout, fs: Fs, loose: set<nat>, b: nat)
    requires FsOK(l, fs, loose) && l.nmeta <= b < l.size && !InUse(l, fs.disk, b)
    ensures FsOK(l, fs.(disk := Allocated(l, fs.disk, b)), loose + {b})
  {
    var gs := fs.(disk := Allocated(l, fs.disk, b));
    forall i, s | 0 <= i < |fs.inodes| && 0 <= s < NSLOTS ensures Addr(gs, i, s) == Addr(fs, i, s) {
      AllocateAddr(l, fs, loose, b, i, s);
    }
    SameAddrs(l, fs, gs);
    forall c | 0 <= c < l.size ensures InUse(l, gs.disk, c) == (c == b || InUse(l, fs.disk, c)) {
      AllocatedBit(l, fs.disk, b, c);
    }
  }

  /** Entering a loose block into a slot that was empty. */
  lemma AttachKeeps(l: Layout, fs: Fs, gs: Fs, loose: set<nat>, b: nat, i: nat, s: nat)
    requires FsOK(l, fs, loose) && b in loose && i < |fs.inodes| && s < NSLOTS && Addr(fs, i, s) == 0
    requires |gs.disk| == l.size && |gs.inodes| == |fs.inodes|
    requires forall j :: 0 <= j < |gs.inodes| ==> |gs.inodes[j].addrs| == NDIRECT + 1
    requires forall j, t :: 0 <= j < |fs.inodes| && 0 <= t < NSLOTS ==>
      Addr(gs, j, t) == if j == i && t == s then b else Addr(fs, j, t)
    requires forall c :: 0 <= c < l.size ==> InUse(l, gs.disk, c) == InUse(l, fs.disk, c)
    ensures FsOK(l, gs, loose - {b})
  {
    assert Shape(l, gs);
    assert OnceEach(gs) by {
      assert forall j, t :: 0 <= j < |fs.inodes| && 0 <= t < NSLOTS && Addr(fs, j, t) == b ==> Owns(fs, j, t, b);
    }
    forall c | c != 0 ensures Owned(gs, c) <==> c == b || Owned(fs, c) {
      AttachOwned(fs, gs, b, i, s, c);
    }
  }

  lemma AttachOwned(fs: Fs, gs: Fs, b: nat, i: nat, s: nat, c: nat)
    requires i < |fs.inodes| && s < NSLOTS && Addr(fs, i, s) == 0 && |gs.inodes| == |fs.inodes| && c != 0
    requires forall j, t :: 0 <= j < |fs.inodes| && 0 <= t < NSLOTS ==>
      Addr(gs, j, t) == if j == i && t == s then b else Addr(fs, j, t)
    ensures Owned(gs, c) <==> c == b || Owned(fs, c)
  {
    assert Owns(gs, i, s, b);
    if Owned(gs, c) {
      var j, t :| Owns(gs, j, t, c);
      assert (j == i && t == s) || Owns(fs, j, t, c);
    }
    if Owned(fs, c) {
      var j, t :| Owns(fs, j, t, c);
      assert Owns(gs, j, t, c);
    }
  }

  // ----- contents

  /** Byte k of inode i; a block that is not there reads as zeros. */
  function ByteAt(fs: Fs, i: nat, k: nat): Byte {
    var a := Addr(fs, i, SlotOf(k / BSIZE));
    if a == 0 || a >= |fs.disk| then 0 else fs.disk[a][k % BSIZE]
  }

  const MAXBYTES: nat := MAXFILE * BSIZE

  ghost predicate SameBytes(fs: Fs, gs: Fs) {
    forall i, k :: 0 <= i < |fs.inodes| && 0 <= k < MAXBYTES ==> ByteAt(gs, i, k) == ByteAt(fs, i, k)
  }

  /** An address once entered stays. */
  ghost predicate Grows(fs: Fs, gs: Fs) {
    && |gs.inodes| == |fs.inodes| && |gs.disk| == |fs.disk|
    && (forall i :: 0 <= i < |fs.inodes| ==> gs.inodes[i].size == fs.inodes[i].size)
    && (forall i, s :: 0 <= i < |fs.inodes| && 0 <= s < NSLOTS && Addr(fs, i, s) != 0 ==>
          Addr(gs, i, s) == Addr(fs, i, s))
  }

  /** Growing, and only slots in `slots` of inode i gained a block. */
  ghost predicate GrowsAt(fs: Fs, gs: Fs, i: nat, slots: set<nat>) {
    && Grows(fs, gs)
    && forall j, s :: 0 <= j < |fs.inodes| && 0 <= s < NSLOTS && Addr(gs, j, s) != Addr(fs, j, s) ==>
          j == i && s in slots
  }

  lemma SlotBound(k: nat)
    requires k < MAXBYTES
    ensures SlotOf(k / BSIZE) < NSLOTS && SlotOf(k / BSIZE) != NDIRECT
  {
  }

  lemma AllocateBytes(l: Layout, fs: Fs, loose: set<nat>, b: nat)
    requires FsOK(l, fs, loose) && l.nmeta <= b < l.size && !InUse(l, fs.disk, b)
    ensures var gs := fs.(disk := Allocated(l, fs.disk, b));
      SameBytes(fs, gs) && GrowsAt(fs, gs, 0, {}) && gs.disk[b] == Zero()
  {
    var gs := fs.(disk := Allocated(l, fs.disk, b));
    forall i, s | 0 <= i < |fs.inodes| && 0 <= s < NSLOTS ensures Addr(gs, i, s) == Addr(fs, i, s) {
      AllocateAddr(l, fs, loose, b, i, s);
    }
    forall i, k | 0 <= i < |fs.inodes| && 0 <= k < MAXBYTES ensures ByteAt(gs, i, k) == ByteAt(fs, i, k) {
      SlotBound(k);
      assert Owns(fs, i, SlotOf(k / BSIZE), Addr(fs, i, SlotOf(k / BSIZE)));
    }
  }

  /** The two ways of entering block b: into the inode itself, or into its indirect block. */
  function Enter(fs: Fs, i: nat, s: nat, b: nat): Fs
    requires i < |fs.inodes| && |fs.inodes[i].addrs| == NDIRECT + 1 && s < NSLOTS && b < UINT_LIMIT
    requires s > NDIRECT ==> fs.inodes[i].addrs[NDIRECT] < |fs.disk|
  {
    var ip := fs.inodes[i];
    if s <= NDIRECT then fs.(inodes := fs.inodes[i := ip.(addrs := ip.addrs[s := b])])
    else
      var ind := ip.addrs[NDIRECT];
      fs.(disk := fs.disk[ind := SetWord(fs.disk[ind], s - NDIRECT - 1, b)])
  }

  lemma EnterAddr(l: Layout, fs: Fs, loose: set<nat>, i: nat, s: nat, b: nat, j: nat, t: nat)
    requires FsOK(l, fs, loose) && i < |fs.inodes| && s < NSLOTS && Addr(fs, i, s) == 0
    requires b in loose && fs.disk[b] == Zero() && (s > NDIRECT ==> Addr(fs, i, NDIRECT) != 0)
    requires j < |fs.inodes| && t < NSLOTS
    ensures b < l.size && Addr(Enter(fs, i, s, b), j, t) == if j == i && t == s then b else Addr(fs, j, t)
  {
    hide SetWord, WordAt;
    if s == NDIRECT && t > NDIRECT {
      ZeroWord(t - NDIRECT - 1);
    }
    if s > NDIRECT && t > NDIRECT {
      var ind := fs.inodes[i].addrs[NDIRECT];
      assert Addr(fs, i, NDIRECT) == ind;
      if j == i {
        WordSetWord(fs.disk[ind], s - NDIRECT - 1, b, t - NDIRECT - 1);
      } else {
        assert Addr(fs, j, NDIRECT) != ind;
      }
    }
  }

  lemma EnterBits(l: Layout, fs: Fs, loose: set<nat>, i: nat, s: nat, b: nat, c: nat)
    requires FsOK(l, fs, loose) && i < |fs.inodes| && s < NSLOTS && b < l.size && c < l.size
    requires s > NDIRECT ==> Addr(fs, i, NDIRECT) != 0
    ensures InUse(l, Enter(fs, i, s, b).disk, c) == InUse(l, fs.disk, c)
  {
    hide InUse, SetWord;
    if s > NDIRECT {
      var ind := fs.inodes[i].addrs[NDIRECT];
      assert Addr(fs, i, NDIRECT) == ind;
      OtherBlock(l, fs.disk, ind, SetWord(fs.disk[ind], s - NDIRECT - 1, b), c);
    }
  }

  lemma EnterByte(l: Layout, fs: Fs, loose: set<nat>, i: nat, s: nat, b: nat, j: nat, k: nat)
    requires FsOK(l, fs, loose) && i < |fs.inodes| && s < NSLOTS && Addr(fs, i, s) == 0
    requires b in loose && fs.disk[b] == Zero() && (s > NDIRECT ==> Addr(fs, i, NDIRECT) != 0)
    requires j < |fs.inodes| && k < MAXBYTES
    ensures b < l.size && ByteAt(Enter(fs, i, s, b), j, k) == ByteAt(fs, j, k)
  {
    SlotBound(k);
    var t := SlotOf(k / BSIZE);
    EnterAddr(l, fs, loose, i, s, b, j, t);
    hide Addr, SetWord, WordAt, SlotOf;
    var gs := Enter(fs, i, s, b);
    if s > NDIRECT {
      var ind := fs.inodes[i].addrs[NDIRECT];
      assert ind == Addr(fs, i, NDIRECT) by { AddrInode(fs, i); }
      assert Owns(fs, i, NDIRECT, ind);
      assert ind != b;
      assert Addr(fs, j, t) != ind;
    }
  }

  lemma AddrInode(fs: Fs, i: nat)
    requires i < |fs.inodes| && |fs.inodes[i].addrs| == NDIRECT + 1
    ensures Addr(fs, i, NDIRECT) == fs.inodes[i].addrs[NDIRECT]
  {
  }

  /** Entering a zeroed loose block keeps the books and changes no byte of any file. */
  lemma EnterKeeps(l: Layout, fs: Fs, loose: set<nat>, i: nat, s: nat, b: nat)
    requires FsOK(l, fs, loose) && i < |fs.inodes| && s < NSLOTS && Addr(fs, i, s) == 0
    requires b in loose && fs.disk[b] == Zero() && (s > NDIRECT ==> Addr(fs, i, NDIRECT) != 0)
    ensures b < l.size
    ensures var gs := Enter(fs, i, s, b);
      FsOK(l, gs, loose - {b}) && SameBytes(fs, gs) && GrowsAt(fs, gs, i, {s}) && Addr(gs, i, s) == b
  {
    var gs := Enter(fs, i, s, b);
    EnterAddr(l, fs, loose, i, s, b, i, s);
    assert |gs.disk| == l.size && forall j :: 0 <= j < |gs.inodes| ==> |gs.inodes[j].addrs| == NDIRECT + 1;
    assert forall j :: 0 <= j < |gs.inodes| ==> gs.inodes[j].size == fs.inodes[j].size;
    hide Addr, InUse, ByteAt;
    forall j, t | 0 <= j < |fs.inodes| && 0 <= t < NSLOTS
      ensures Addr(gs, j, t) == if j == i && t == s then b else Addr(fs, j, t)
    {
      EnterAddr(l, fs, loose, i, s, b, j, t);
    }
    forall c | 0 <= c < l.size ensures InUse(l, gs.disk, c) == InUse(l, fs.disk, c) {
      EnterBits(l, fs, loose, i, s, b, c);
    }
    forall j, k | 0 <= j < |fs.inodes| && 0 <= k < MAXBYTES ensures ByteAt(gs, j, k) == ByteAt(fs, j, k) {
      EnterByte(l, fs, loose, i, s, b, j, k);
    }
    AttachKeeps(l, fs, gs, loose, b, i, s);
  }

  // ----- writing data

  /** The file system after the data block bn of inode i has been overwritten. */
  function Overwrite(fs: Fs, i: nat, bn: nat, d: Sector): Fs
    requires Addr(fs, i, SlotOf(bn)) < |fs.disk|
  {
    fs.(disk := fs.disk[Addr(fs, i, SlotOf(bn)) := d])
  }

  lemma OverwriteAddr(l: Layout, fs: Fs, i: nat, bn: nat, d: Sector, j: nat, t: nat)
    requires FsOK(l, fs, {}) && i < |fs.inodes| && bn < MAXFILE && Addr(fs, i, SlotOf(bn)) != 0
    requires j < |fs.inodes| && t < NSLOTS
    ensures Addr(fs, i, SlotOf(bn)) < |fs.disk| && Addr(Overwrite(fs, i, bn, d), j, t) == Addr(fs, j, t)
  {
    var x := Addr(fs, i, SlotOf(bn));
    var ind := fs.inodes[j].addrs[NDIRECT];
    AddrInode(fs, j);
    assert SlotOf(bn) < NSLOTS && SlotOf(bn) != NDIRECT;
    assert ind != x;
    AddrFrame(fs, fs.disk[x := d], j, t);
  }

  lemma OverwriteByte(l: Layout, fs: Fs, i: nat, bn: nat, d: Sector, j: nat, k: nat)
    requires FsOK(l, fs, {}) && i < |fs.inodes| && bn < MAXFILE && Addr(fs, i, SlotOf(bn)) != 0
    requires j < |fs.inodes| && k < MAXBYTES
    ensures Addr(fs, i, SlotOf(bn)) < |fs.disk|
    ensures ByteAt(Overwrite(fs, i, bn, d), j, k) ==
      if j == i && k / BSIZE == bn then d[k % BSIZE] else ByteAt(fs, j, k)
  {
    SlotBound(k);
    OverwriteAddr(l, fs, i, bn, d, j, SlotOf(k / BSIZE));
    assert SlotOf(bn) < NSLOTS;
    hide Addr;
  }

  /** Overwriting one data block changes the bytes of that block of that file only. */
  lemma OverwriteKeeps(l: Layout, fs: Fs, i: nat, bn: nat, d: Sector)
    requires FsOK(l, fs, {}) && i < |fs.inodes| && bn < MAXFILE && Addr(fs, i, SlotOf(bn)) != 0
    ensures Addr(fs, i, SlotOf(bn)) < |fs.disk|
    ensures var gs := Overwrite(fs, i, bn, d);
      && FsOK(l, gs, {}) && GrowsAt(fs, gs, i, {})
      && forall j, k :: 0 <= j < |fs.inodes| && 0 <= k < MAXBYTES ==>
           ByteAt(gs, j, k) == if j == i && k / BSIZE == bn then d[k % BSIZE] else ByteAt(fs, j, k)
  {
    OverwriteAddr(l, fs, i, bn, d, i, 0);
    var gs := Overwrite(fs, i, bn, d);
    var x := Addr(fs, i, SlotOf(bn));
    assert SlotOf(bn) < NSLOTS;
    hide Addr, InUse, ByteAt, SlotOf;
    forall j, t | 0 <= j < |fs.inodes| && 0 <= t < NSLOTS ensures Addr(gs, j, t) == Addr(fs, j, t) {
      OverwriteAddr(l, fs, i, bn, d, j, t);
    }
    forall j, k | 0 <= j < |fs.inodes| && 0 <= k < MAXBYTES
      ensures ByteAt(gs, j, k) == if j == i && k / BSIZE == bn then d[k % BSIZE] else ByteAt(fs, j, k)
    {
      OverwriteByte(l, fs, i, bn, d, j, k);
    }
    SameAddrs(l, fs, gs);
    forall c | 0 <= c < l.size ensures InUse(l, gs.disk, c) == InUse(l, fs.disk, c) {
      OtherBlock(l, fs.disk, x, d, c);
    }
  }

  // ----- truncation

  /** Inode i with its blocks given up. */
  function Emptied(fs: Fs, i: nat, disk: Disk): Fs
    requires i < |fs.inodes|
  {
    Fs(disk, fs.inodes[i := Inode(0, seq(NDIRECT + 1, _ => 0))])
  }

  lemma EmptiedAddr(l: Layout, fs: Fs, i: nat, disk: Disk, j: nat, t: nat)
    requires FsOK(l, fs, {}) && i < |fs.inodes| && |disk| == l.size && j < |fs.inodes| && t < NSLOTS
    requires forall x :: l.nmeta <= x < l.size ==> disk[x] == fs.disk[x]
    ensures Addr(Emptied(fs, i, disk), j, t) == if j == i then 0 else Addr(fs, j, t)
  {
    AddrInode(fs, j);
    if j != i {
      assert Emptied(fs, i, disk).inodes[j] == fs.inodes[j];
    }
  }

  /** Clearing the bits of exactly the blocks of inode i, and its addresses, frees it. */
  lemma EmptiedKeeps(l: Layout, fs: Fs, i: nat, disk: Disk)
    requires FsOK(l, fs, {}) && i < |fs.inodes| && |disk| == l.size
    requires forall x :: l.nmeta <= x < l.size ==> disk[x] == fs.disk[x]
    requires forall b :: 0 <= b < l.size ==>
      (InUse(l, disk, b) <==> InUse(l, fs.disk, b) && !(exists s :: Owns(fs, i, s, b) && b != 0))
    ensures FsOK(l, Emptied(fs, i, disk), {})
    ensures forall j, k :: 0 <= j < |fs.inodes| && 0 <= k < MAXBYTES ==>
      ByteAt(Emptied(fs, i, disk), j, k) == if j == i then 0 else ByteAt(fs, j, k)
  {
    var gs := Emptied(fs, i, disk);
    assert forall j :: 0 <= j < |gs.inodes| ==> |gs.inodes[j].addrs| == NDIRECT + 1;
    hide Addr, InUse;
    forall j, t | 0 <= j < |fs.inodes| && 0 <= t < NSLOTS
      ensures Addr(gs, j, t) == if j == i then 0 else Addr(fs, j, t)
    {
      EmptiedAddr(l, fs, i, disk, j, t);
    }
    forall b | 0 < b < l.size ensures Owned(gs, b) <==> Owned(fs, b) && !(exists s :: Owns(fs, i, s, b)) {
      EmptiedOwned(fs, gs, i, b);
    }
    forall j, k | 0 <= j < |fs.inodes| && 0 <= k < MAXBYTES
      ensures ByteAt(gs, j, k) == if j == i then 0 else ByteAt(fs, j, k)
    {
      SlotBound(k);
    }
  }

  lemma EmptiedOwned(fs: Fs, gs: Fs, i: nat, b: nat)
    requires OnceEach(fs) && i < |fs.inodes| && |gs.inodes| == |fs.inodes| && b != 0
    requires forall j, t :: 0 <= j < |fs.inodes| && 0 <= t < NSLOTS ==>
      Addr(gs, j, t) == if j == i then 0 else Addr(fs, j, t)
    ensures Owned(gs, b) <==> Owned(fs, b) && !(exists s :: Owns(fs, i, s, b))
  {
    if Owned(gs, b) {
      var j, t :| Owns(gs, j, t, b);
      assert Owns(fs, j, t, b) && j != i;
    }
    if Owned(fs, b) && !(exists s :: Owns(fs, i, s, b)) {
      var j, t :| Owns(fs, j, t, b);
      assert Owns(gs, j, t, b);
    }
  }
}
