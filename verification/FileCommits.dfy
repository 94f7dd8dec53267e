/** The block writes of a call on a file: what log_write has recorded of it when its operation ends,
    and when that is all of it. */
module FileCommits {
  import opened Machine
  import opened Blocks
  import Wal
  import opened Sectors
  import opened FreeMap
  import opened InodeBlocks
  import opened BlockCounts
  import opened FileSystem
  import opened FileRuns
  import opened CrashFiles

  /** Whether the call ends in iupdate. */
  predicate Iupdates(c: seq<seq<Byte>>, call: Call)
    requires call.i < |c|
  {
    match call
    case Write(i, src, off) => WriteFits(c[i], src, off) && off + |src| > |c[i]|
    case Read(_, _, _) => false
    case Truncate(_) => true
  }

  /** The inode, or the indirect block, records every block the call has taken. */
  predicate Recorded(c: seq<seq<Byte>>, u: Usage, call: Call)
    requires call.i < |c| == |u.slots|
  {
    Iupdates(c, call) || forall s :: s in Wants(c, u, call) ==> s > NDIRECT
  }

  /** A call on a file without holes is recorded. */
  lemma NoHolesRecorded(l: Layout, fs: Fs, call: Call)
    requires Sound(l, fs) && l.Valid() && |fs.disk| == l.size && call.i < |fs.inodes| && FileOK(fs, call.i)
    ensures Recorded(Files(fs), UsageOf(l, fs), call)
  {
    hide Addr, FsOK, FreeCount;
    var c, u := Files(fs), UsageOf(l, fs);
    if !Iupdates(c, call) {
      var size := fs.inodes[call.i].size;
      NoHoles(fs, call.i, call.off, Min(if call.Write? then call.off + |call.src| else call.off + call.n, size));
      assert Wants(c, u, call) == {};
    }
  }

  lemma {:induction false} NoHoles(fs: Fs, i: nat, lo: nat, hi: nat)
    requires FileOK(fs, i) && hi <= fs.inodes[i].size
    ensures SlotsFor(lo, hi) <= Filled(fs, i)
  {
    hide Addr, BmapSlots;
    if lo < hi {
      NoHoles(fs, i, lo, hi - 1);
      SlotsThere(fs, i, (hi - 1) / BSIZE);
    }
  }

  // ----- blocks and sectors

  /** The words of a sector. */
  function BlockOf(s: Sector): Block {
    seq(WORDS, k requires 0 <= k < WORDS => WordAt(s, k))
  }

  lemma WordBytes(s: Sector, k: nat, i: nat)
    requires k < NINDIRECT && i < 4
    ensures ByteOf(WordAt(s, k), i) == s[4 * k + i]
  {
    var a: int, b: int, c: int, d: int := s[4 * k], s[4 * k + 1], s[4 * k + 2], s[4 * k + 3];
    var w := WordAt(s, k);
    assert w == a + 0x100 * (b + 0x100 * (c + 0x100 * d));
    assert w / 0x100 == b + 0x100 * (c + 0x100 * d);
    assert w / 0x1_0000 == c + 0x100 * d;
    assert w / 0x100_0000 == d;
  }

  lemma SectorRound(s: Sector)
    ensures SectorOf(BlockOf(s)) == s
  {
    hide WordAt, ByteOf;
    var r := SectorOf(BlockOf(s));
    forall k | 0 <= k < BSIZE ensures r[k] == s[k] {
      WordBytes(s, k / 4, k % 4);
    }
  }

  predicate Storable(ip: Inode) {
    ip.size < UINT_LIMIT && |ip.addrs| == NDIRECT + 1 && forall s :: 0 <= s <= NDIRECT ==> ip.addrs[s] < UINT_LIMIT
  }

  /** iupdate: the inode's words in its block. */
  function PutInode(b: Block, slot: nat, ip: Inode): Block
    requires slot < IPB && Storable(ip)
  {
    seq(WORDS, k requires 0 <= k < WORDS =>
      if k / DINODE != slot || k % DINODE < 2 then b[k]
      else if k % DINODE == 2 then ip.size
      else ip.addrs[k % DINODE - 3])
  }

  /** The disk that a call leaves: its sectors, and the inode if it has been updated. */
  function OnDisk(pl: Place, d: seq<Block>, gs: Fs, i: nat, updated: bool): (r: seq<Block>)
    requires pl.Valid() && |d| == pl.l.size == |gs.disk| && i < pl.ninodes == |gs.inodes| && Storable(gs.inodes[i])
    ensures |r| == |d|
  {
    seq(|d|, b requires 0 <= b < |d| =>
      if b >= pl.l.bmapstart then BlockOf(gs.disk[b])
      else if updated && b == InodeBlock(pl, i) then PutInode(d[b], i % IPB, gs.inodes[i])
      else d[b])
  }

  lemma PutInodeAt(b: Block, slot: nat, ip: Inode, other: nat)
    requires slot < IPB && Storable(ip) && other < IPB
    ensures var r, w := PutInode(b, slot, ip), other * DINODE;
      Inode(r[w + 2], r[w + 3..w + DINODE]) ==
      if other == slot then ip else Inode(b[w + 2], b[w + 3..w + DINODE])
  {
    var r, w := PutInode(b, slot, ip), other * DINODE;
    forall x | w + 2 <= x < w + DINODE
      ensures r[x] == if other != slot then b[x] else if x == w + 2 then ip.size else ip.addrs[x - w - 3]
    {
      assert x / DINODE == other && x % DINODE == x - w;
    }
    if other == slot {
      assert r[w + 3..w + DINODE] == ip.addrs;
    } else {
      assert r[w + 3..w + DINODE] == b[w + 3..w + DINODE];
    }
  }

  lemma OnDiskInode(pl: Place, d: seq<Block>, gs: Fs, i: nat, updated: bool, j: nat)
    requires pl.Valid() && |d| == pl.l.size == |gs.disk| && i < pl.ninodes == |gs.inodes| && Storable(gs.inodes[i])
    requires j < pl.ninodes
    ensures InodeAt(pl, OnDisk(pl, d, gs, i, updated), j) ==
      if updated && j == i then gs.inodes[i] else InodeAt(pl, d, j)
  {
    hide PutInode, BlockOf;
    var n := InodeBlock(pl, j);
    assert n < pl.l.bmapstart;
    if updated && n == InodeBlock(pl, i) {
      PutInodeAt(d[n], i % IPB, gs.inodes[i], j % IPB);
      assert j % IPB == i % IPB ==> j == i;
    }
  }

  /** What the disk shows afterwards. */
  lemma OnDiskVolume(pl: Place, d: seq<Block>, gs: Fs, i: nat, updated: bool)
    requires pl.Valid() && |d| == pl.l.size == |gs.disk| && i < pl.ninodes == |gs.inodes| && Storable(gs.inodes[i])
    requires forall j :: 0 <= j < pl.ninodes && j != i ==> gs.inodes[j] == VolumeOf(pl, d).inodes[j]
    ensures var vs := VolumeOf(pl, OnDisk(pl, d, gs, i, updated));
      && vs.inodes == (if updated then gs.inodes else gs.inodes[i := VolumeOf(pl, d).inodes[i]])
      && forall b :: pl.l.bmapstart <= b < pl.l.size ==> vs.disk[b] == gs.disk[b]
  {
    hide InodeAt, BlockOf, SectorOf, PutInode;
    var e := OnDisk(pl, d, gs, i, updated);
    var vs := VolumeOf(pl, e);
    forall j | 0 <= j < pl.ninodes
      ensures vs.inodes[j] == if updated || j != i then gs.inodes[j] else VolumeOf(pl, d).inodes[i]
    {
      OnDiskInode(pl, d, gs, i, updated, j);
    }
    forall b | pl.l.bmapstart <= b < pl.l.size ensures vs.disk[b] == gs.disk[b] {
      SectorRound(gs.disk[b]);
    }
  }

  // ----- what the books depend on

  /** From the bitmap on the two volumes are the same. */
  ghost predicate SameFrom(l: Layout, gs: Fs, vs: Fs) {
    && l.Valid() && |gs.disk| == |vs.disk| == l.size
    && forall b :: l.bmapstart <= b < l.size ==> vs.disk[b] == gs.disk[b]
  }

  lemma SameBit(l: Layout, gs: Fs, vs: Fs, b: nat)
    requires SameFrom(l, gs, vs) && b < l.size
    ensures InUse(l, vs.disk, b) == InUse(l, gs.disk, b)
  {
    assert b / BPB <= l.size / BPB;
  }

  lemma SameSlot(l: Layout, gs: Fs, vs: Fs, i: nat, s: nat)
    requires SameFrom(l, gs, vs) && Shape(l, gs) && i < |gs.inodes| && s < NSLOTS && i < |vs.inodes|
    requires vs.inodes[i] == gs.inodes[i]
    ensures Addr(vs, i, s) == Addr(gs, i, s)
  {
    var ind := Addr(gs, i, NDIRECT);
    assert ind == 0 || l.nmeta <= ind < l.size;
  }

  lemma SameByte(l: Layout, gs: Fs, vs: Fs, i: nat, k: nat)
    requires SameFrom(l, gs, vs) && Shape(l, gs) && i < |gs.inodes| && i < |vs.inodes| && k < MAXBYTES
    requires vs.inodes[i] == gs.inodes[i]
    ensures ByteAt(vs, i, k) == ByteAt(gs, i, k)
  {
    hide Addr;
    SlotBound(k);
    SameSlot(l, gs, vs, i, SlotOf(k / BSIZE));
  }

  /** The books and the files need the inodes and the sectors from the bitmap on. */
  lemma SameBooks(l: Layout, gs: Fs, vs: Fs)
    requires SameFrom(l, gs, vs) && vs.inodes == gs.inodes && Sound(l, gs)
    ensures Sound(l, vs) && Files(vs) == Files(gs)
  {
    hide Addr, InUse, ByteAt;
    forall i, s | 0 <= i < |gs.inodes| && 0 <= s < NSLOTS ensures Addr(vs, i, s) == Addr(gs, i, s) {
      SameSlot(l, gs, vs, i, s);
    }
    SameAddrs(l, gs, vs);
    forall b | 0 <= b < l.size ensures InUse(l, vs.disk, b) == InUse(l, gs.disk, b) {
      SameBit(l, gs, vs, b);
    }
    forall i | 0 <= i < |gs.inodes| ensures Content(vs, i) == Content(gs, i) {
      forall k | 0 <= k < gs.inodes[i].size ensures ByteAt(vs, i, k) == ByteAt(gs, i, k) {
        SameByte(l, gs, vs, i, k);
      }
    }
  }

  lemma SameUsage(l: Layout, gs: Fs, vs: Fs)
    requires SameFrom(l, gs, vs) && vs.inodes == gs.inodes && Sound(l, gs)
    ensures UsageOf(l, vs) == UsageOf(l, gs)
  {
    hide Addr, InUse, OnceEach, Conserved;
    forall i | 0 <= i < |gs.inodes| ensures Filled(vs, i) == Filled(gs, i) {
      forall s | 0 <= s < NSLOTS ensures Addr(vs, i, s) == Addr(gs, i, s) {
        SameSlot(l, gs, vs, i, s);
      }
    }
    forall b | 0 <= b < l.size ensures InUse(l, vs.disk, b) == InUse(l, gs.disk, b) {
      SameBit(l, gs, vs, b);
    }
    assert FreeSet(l, vs.disk) == FreeSet(l, gs.disk);
    assert UsageOf(l, vs).slots == UsageOf(l, gs).slots;
  }

  // ----- one call

  /** What Serve tells of the volume it leaves. */
  ghost predicate Served(l: Layout, fs: Fs, call: Call, gs: Fs) {
    && Sound(l, fs) && Sound(l, gs) && l.Valid() && |fs.disk| == |gs.disk| == l.size
    && call.i < |fs.inodes| == |gs.inodes|
    && Files(gs) == After(Files(fs), call)
    && UsageOf(l, gs) == Spent(Files(fs), UsageOf(l, fs), call)
    && (forall j :: 0 <= j < |fs.inodes| && j != call.i ==> Undisturbed(fs, gs, j))
    && (!call.Truncate? ==> AddrsKept(fs, gs, call.i))
  }

  lemma SoundStorable(l: Layout, fs: Fs, i: nat)
    requires Sound(l, fs) && i < |fs.inodes|
    ensures Storable(fs.inodes[i])
  {
    forall s | 0 <= s <= NDIRECT ensures fs.inodes[i].addrs[s] < UINT_LIMIT {
      assert Addr(fs, i, s) == 0 || l.nmeta <= Addr(fs, i, s) < l.size;
    }
  }

  /** A call that does not end in iupdate, and takes no block for the inode itself, leaves the
      inode as it was. */
  lemma SameInodeIf(l: Layout, fs: Fs, call: Call, gs: Fs)
    requires Served(l, fs, call, gs) && Affords(Files(fs), UsageOf(l, fs), call)
    requires !Iupdates(Files(fs), call) && Recorded(Files(fs), UsageOf(l, fs), call)
    ensures gs.inodes[call.i] == fs.inodes[call.i]
  {
    hide Addr, FreeCount, Splice, Undisturbed, FsOK;
    var i := call.i;
    var c, u := Files(fs), UsageOf(l, fs);
    SizeKept(c, call);
    assert |Files(gs)[i]| == |c[i]|;
    forall s | 0 <= s <= NDIRECT ensures Addr(gs, i, s) == Addr(fs, i, s) {
      assert UsageOf(l, gs).slots[i] == u.slots[i] + Wants(c, u, call);
      assert s in Filled(gs, i) <==> s in Filled(fs, i);
    }
    InodeIsSlots(l, fs, gs, i);
  }

  lemma SizeKept(c: seq<seq<Byte>>, call: Call)
    requires call.i < |c| && !Iupdates(c, call)
    ensures |After(c, call)[call.i]| == |c[call.i]|
  {
  }

  lemma InodeIsSlots(l: Layout, fs: Fs, gs: Fs, i: nat)
    requires Sound(l, fs) && Sound(l, gs) && i < |fs.inodes| == |gs.inodes|
    requires gs.inodes[i].size == fs.inodes[i].size
    requires forall s :: 0 <= s <= NDIRECT ==> Addr(gs, i, s) == Addr(fs, i, s)
    ensures gs.inodes[i] == fs.inodes[i]
  {
    forall s | 0 <= s <= NDIRECT ensures gs.inodes[i].addrs[s] == fs.inodes[i].addrs[s] {
      assert Addr(gs, i, s) == Addr(fs, i, s);
    }
  }

  /** With the call recorded, the disk holds the files as the call leaves them. */
  lemma RecordedHolds(pl: Place, d: seq<Block>, call: Call, gs: Fs)
    requires pl.Valid() && |d| == pl.l.size && Served(pl.l, VolumeOf(pl, d), call, gs)
    requires Storable(gs.inodes[call.i])
    requires var fs := VolumeOf(pl, d); var u := UsageOf(pl.l, fs);
      Affords(Files(fs), u, call) && Recorded(Files(fs), u, call)
    ensures var c := Files(VolumeOf(pl, d));
      var e := OnDisk(pl, d, gs, call.i, Iupdates(c, call));
      && Holds(pl, e, After(c, call))
      && UsageOf(pl.l, VolumeOf(pl, e)) == Spent(c, UsageOf(pl.l, VolumeOf(pl, d)), call)
  {
    hide Sound, Files, Affords, Recorded, Iupdates, OnDisk, VolumeOf, UsageOf, Spent, After, AddrsKept;
    var fs := VolumeOf(pl, d);
    var updated := Iupdates(Files(fs), call);
    OthersSame(pl.l, fs, call, gs);
    if !updated {
      SameInodeIf(pl.l, fs, call, gs);
    }
    OnDiskVolume(pl, d, gs, call.i, updated);
    SameBooks(pl.l, gs, VolumeOf(pl, OnDisk(pl, d, gs, call.i, updated)));
    SameUsage(pl.l, gs, VolumeOf(pl, OnDisk(pl, d, gs, call.i, updated)));
  }

  lemma OthersSame(l: Layout, fs: Fs, call: Call, gs: Fs)
    requires Served(l, fs, call, gs)
    ensures forall j :: 0 <= j < |fs.inodes| && j != call.i ==> gs.inodes[j] == fs.inodes[j]
  {
    hide Addr, ByteAt, Sound;
    forall j | 0 <= j < |fs.inodes| && j != call.i ensures gs.inodes[j] == fs.inodes[j] {
      assert Undisturbed(fs, gs, j);
    }
  }

  /** Without it, a block is marked in the bitmap that no inode on the disk has. */
  lemma LostBlock(l: Layout, fs: Fs, call: Call, gs: Fs, vs: Fs, s: nat)
    requires Served(l, fs, call, gs) && !call.Truncate? && s <= NDIRECT && s in Filled(gs, call.i) - Filled(fs, call.i)
    requires SameFrom(l, gs, vs) && vs.inodes == gs.inodes[call.i := fs.inodes[call.i]]
    ensures !FsOK(l, vs, {})
  {
    hide InUse, Undisturbed, Files, UsageOf;
    var i := call.i;
    var b := Addr(gs, i, s);
    assert Owns(gs, i, s, b) && Owned(gs, b) && InUse(l, gs.disk, b);
    SameBit(l, gs, vs, b);
    if FsOK(l, vs, {}) {
      assert Owned(vs, b);
      var j, t :| Owns(vs, j, t, b);
      StillThere(l, fs, call, gs, vs, j, t);
      assert false;
    }
  }

  /** Every block the inodes on the disk have, they have in memory. */
  lemma StillThere(l: Layout, fs: Fs, call: Call, gs: Fs, vs: Fs, j: nat, t: nat)
    requires Served(l, fs, call, gs) && !call.Truncate?
    requires SameFrom(l, gs, vs) && vs.inodes == gs.inodes[call.i := fs.inodes[call.i]]
    requires j < |vs.inodes| && t < NSLOTS && Addr(vs, j, t) != 0
    ensures Addr(gs, j, t) == Addr(vs, j, t)
    ensures j == call.i && t <= NDIRECT ==> Addr(fs, j, t) != 0
  {
    hide InUse, Undisturbed, Files, UsageOf;
    if j != call.i {
      SameSlot(l, gs, vs, j, t);
    } else if t > NDIRECT {
      var ind := Addr(fs, j, NDIRECT);
      assert Addr(gs, j, NDIRECT) == ind;
    } else {
      assert Addr(vs, j, t) == Addr(fs, j, t);
    }
  }

  lemma UnrecordedBreaks(pl: Place, d: seq<Block>, call: Call, gs: Fs)
    requires pl.Valid() && |d| == pl.l.size && Served(pl.l, VolumeOf(pl, d), call, gs)
    requires Storable(gs.inodes[call.i])
    requires var fs := VolumeOf(pl, d); var u := UsageOf(pl.l, fs);
      Affords(Files(fs), u, call) && !Recorded(Files(fs), u, call)
    ensures var vs := VolumeOf(pl, OnDisk(pl, d, gs, call.i, false)); !FsOK(pl.l, vs, {})
  {
    hide Sound, Files, Iupdates, OnDisk, VolumeOf, After, AddrsKept, FsOK, Filled, FreeCount, SlotsFor;
    var fs := VolumeOf(pl, d);
    var c, u := Files(fs), UsageOf(pl.l, fs);
    OthersSame(pl.l, fs, call, gs);
    OnDiskVolume(pl, d, gs, call.i, false);
    var s :| s in Wants(c, u, call) && s <= NDIRECT;
    assert UsageOf(pl.l, gs).slots[call.i] == u.slots[call.i] + Wants(c, u, call);
    assert s in Filled(gs, call.i) - Filled(fs, call.i);
    LostBlock(pl.l, fs, call, gs, VolumeOf(pl, OnDisk(pl, d, gs, call.i, false)), s);
  }

  /** What the log holds of a call carries it out exactly if the call is recorded. */
  lemma CarriedOut(pl: Place, d: seq<Block>, call: Call, gs: Fs)
    requires pl.Valid() && |d| == pl.l.size && Served(pl.l, VolumeOf(pl, d), call, gs)
    requires Affords(Files(VolumeOf(pl, d)), UsageOf(pl.l, VolumeOf(pl, d)), call)
    ensures Storable(gs.inodes[call.i])
    ensures var fs := VolumeOf(pl, d); var c, u := Files(fs), UsageOf(pl.l, fs);
      var e := OnDisk(pl, d, gs, call.i, Iupdates(c, call));
      && (Holds(pl, e, After(c, call)) <==> Recorded(c, u, call))
      && (Recorded(c, u, call) ==> UsageOf(pl.l, VolumeOf(pl, e)) == Spent(c, u, call))
  {
    hide Served, Affords, Sound, OnDisk, Spent, VolumeOf, After, Files, UsageOf, Wants, FsOK;
    ServedSound(pl.l, VolumeOf(pl, d), call, gs);
    SoundStorable(pl.l, gs, call.i);
    var fs := VolumeOf(pl, d);
    var c, u := Files(fs), UsageOf(pl.l, fs);
    if Recorded(c, u, call) {
      RecordedHolds(pl, d, call, gs);
    } else {
      UnrecordedBreaks(pl, d, call, gs);
      NotSound(pl.l, VolumeOf(pl, OnDisk(pl, d, gs, call.i, false)));
    }
  }

  lemma ServedSound(l: Layout, fs: Fs, call: Call, gs: Fs)
    requires Served(l, fs, call, gs)
    ensures Sound(l, gs) && call.i < |gs.inodes| == |fs.inodes| && |gs.disk| == |fs.disk|
  {
  }

  lemma NotSound(l: Layout, fs: Fs)
    requires !FsOK(l, fs, {})
    ensures !Sound(l, fs)
  {
  }

  // ----- the group that is committed

  /** What log_write has collected: the changed blocks, each once, with their last contents. */
  method Changes(op: nat, a: seq<Block>, b: seq<Block>) returns (ws: seq<Wal.Write>)
    requires |a| == |b|
    ensures Wal.Replay(a, ws) == b
    ensures forall k :: 0 <= k < |ws| ==> ws[k].op == op && ws[k].block < |a| && a[ws[k].block] != ws[k].data
    ensures forall k, m :: 0 <= k < m < |ws| ==> ws[k].block < ws[m].block
  {
    hide Wal.Replay;
    ws := [];
    NoReplay(a);
    for n := 0 to |a|
      invariant forall k :: 0 <= k < |ws| ==> ws[k].op == op && ws[k].block < n && a[ws[k].block] != ws[k].data
      invariant forall k, m :: 0 <= k < m < |ws| ==> ws[k].block < ws[m].block
      invariant Wal.Replay(a, ws) == b[..n] + a[n..]
    {
      Halfway(a, b, n);
      if a[n] != b[n] {
        ReplayOne(a, ws, Wal.Write(op, n, b[n]));
        ws := ws + [Wal.Write(op, n, b[n])];
      }
    }
  }

  lemma NoReplay(d: seq<Block>)
    ensures Wal.Replay(d, []) == d
  {
  }

  lemma ReplayOne(d: seq<Block>, ws: seq<Wal.Write>, w: Wal.Write)
    requires w.block < |d|
    ensures Wal.Replay(d, ws + [w]) == Wal.Replay(d, ws)[w.block := w.data]
  {
    assert (ws + [w])[..|ws|] == ws;
  }

  lemma Halfway(a: seq<Block>, b: seq<Block>, n: nat)
    requires n < |a| == |b|
    ensures (b[..n] + a[n..])[n := b[n]] == b[..n + 1] + a[n + 1..]
    ensures a[n] == b[n] ==> b[..n] + a[n..] == b[..n + 1] + a[n + 1..]
  {
    var h, k := b[..n] + a[n..], b[..n + 1] + a[n + 1..];
    assert forall i :: 0 <= i < |a| ==> h[n := b[n]][i] == k[i];
    if a[n] == b[n] {
      assert forall i :: 0 <= i < |a| ==> h[i] == k[i];
    }
  }

  lemma ChangedHome(pl: Place, d: seq<Block>, gs: Fs, i: nat, updated: bool, b: nat)
    requires pl.Valid() && |d| == pl.l.size == |gs.disk| && i < pl.ninodes == |gs.inodes| && Storable(gs.inodes[i])
    requires b < |d| && OnDisk(pl, d, gs, i, updated)[b] != d[b]
    ensures pl.g.Home(b)
  {
  }

  /** One call inside an operation: the reply, and the writes that its operation will commit.
      They carry the call out exactly if it is recorded. */
  method LoggedCall(pl: Place, d: seq<Block>, op: nat, call: Call) returns (r: Option<Reply>, ws: seq<Wal.Write>)
    requires pl.Valid() && |d| == pl.l.size && Sound(pl.l, VolumeOf(pl, d)) && call.i < pl.ninodes
    ensures var fs := VolumeOf(pl, d); var c, u := Files(fs), UsageOf(pl.l, fs);
      && (r.Some? <==> Affords(c, u, call))
      && (r.Some? ==> r.value == Answer(c, call))
      && (r.Some? ==> (Holds(pl, Wal.Replay(d, ws), After(c, call)) <==> Recorded(c, u, call)))
      && (r.Some? && Recorded(c, u, call) ==>
            UsageOf(pl.l, VolumeOf(pl, Wal.Replay(d, ws))) == Spent(c, u, call))
    ensures forall k :: 0 <= k < |ws| ==> ws[k].op == op && pl.g.Home(ws[k].block)
  {
    hide Sound, Files, Affords, Recorded, OnDisk, VolumeOf, UsageOf, Spent, After, Answer, AddrsKept,
      Undisturbed, Holds, FsOK, InUse;
    var fs := VolumeOf(pl, d);
    SoundShape(pl.l, fs);
    var v := new Volume(pl.l, fs.disk, fs.inodes);
    r := Serve(v, call);
    if r.None? {
      return None, [];
    }
    ghost var gs := v.Now();
    assert Served(pl.l, fs, call, gs);
    CarriedOut(pl, d, call, gs);
    var updated := Updates(fs, call);
    var e := OnDisk(pl, d, Fs(v.disk[..], v.inodes[..]), call.i, updated);
    ws := Changes(op, d, e);
    forall k | 0 <= k < |ws| ensures pl.g.Home(ws[k].block) {
      assert e[ws[k].block] == ws[k].data by { ReplayAt(d, ws, k); }
      ChangedHome(pl, d, gs, call.i, updated, ws[k].block);
    }
  }

  /** The test for iupdate, on the sizes. */
  method Updates(fs: Fs, call: Call) returns (yes: bool)
    requires call.i < |fs.inodes|
    ensures yes == Iupdates(Files(fs), call)
  {
    match call {
      case Write(i, src, off) =>
        yes := off <= fs.inodes[i].size && off + |src| < UINT_LIMIT && off + |src| <= MAXBYTES &&
          off + |src| > fs.inodes[i].size;
      case Read(_, _, _) => yes := false;
      case Truncate(_) => yes := true;
    }
  }

  lemma {:induction false} ReplayAt(d: seq<Block>, ws: seq<Wal.Write>, k: nat)
    requires k < |ws| && forall k :: 0 <= k < |ws| ==> ws[k].block < |d|
    requires forall k, m :: 0 <= k < m < |ws| ==> ws[k].block < ws[m].block
    ensures Wal.Replay(d, ws)[ws[k].block] == ws[k].data
  {
    if k < |ws| - 1 {
      ReplayAt(d, ws[..|ws| - 1], k);
    }
  }

  lemma {:induction false} ReplayMore(d: seq<Block>, a: seq<Wal.Write>, b: seq<Wal.Write>)
    ensures Wal.Replay(d, a + b) == Wal.Replay(Wal.Replay(d, a), b)
  {
    if b == [] {
      assert a + b == a;
    } else {
      var n := |b| - 1;
      ReplayMore(d, a, b[..n]);
      assert (a + b)[..|a| + n] == a + b[..n];
    }
  }

  /** Call k of a run is recorded and finds its blocks. */
  predicate GoesThrough(c: seq<seq<Byte>>, u: Usage, calls: seq<Call>, k: nat)
    requires |c| == |u.slots| && k < |calls| && forall k :: 0 <= k < |calls| ==> calls[k].i < |c|
  {
    AffordsAt(c, u, calls, k) && Recorded(AfterAll(c, calls[..k]), SpentAll(c, u, calls[..k]), calls[k])
  }

  predicate AllGoThrough(c: seq<seq<Byte>>, u: Usage, calls: seq<Call>) {
    && |c| == |u.slots|
    && (forall k :: 0 <= k < |calls| ==> calls[k].i < |c|)
    && forall k :: 0 <= k < |calls| ==> GoesThrough(c, u, calls, k)
  }

  /** So does every group, one after the other. */
  predicate GroupsGoThrough(c: seq<seq<Byte>>, u: Usage, groups: seq<seq<Call>>)
    decreases |groups|
  {
    if groups == [] then true
    else
      AllGoThrough(c, u, groups[0]) &&
      GroupsGoThrough(AfterAll(c, groups[0]), SpentAll(c, u, groups[0]), groups[1..])
  }

  /** The calls of one operation, and the writes they commit together. */
  method LoggedCalls(pl: Place, d: seq<Block>, op: nat, calls: seq<Call>) returns (ws: seq<Wal.Write>)
    requires pl.Valid() && |d| == pl.l.size && Sound(pl.l, VolumeOf(pl, d))
    requires AllGoThrough(Files(VolumeOf(pl, d)), UsageOf(pl.l, VolumeOf(pl, d)), calls)
    ensures var c, u := Files(VolumeOf(pl, d)), UsageOf(pl.l, VolumeOf(pl, d));
      && Holds(pl, Wal.Replay(d, ws), AfterAll(c, calls))
      && UsageOf(pl.l, VolumeOf(pl, Wal.Replay(d, ws))) == SpentAll(c, u, calls)
    ensures forall k :: 0 <= k < |ws| ==> ws[k].op == op && pl.g.Home(ws[k].block)
  {
    hide Sound, Files, Affords, Recorded, VolumeOf, UsageOf, Spent, After, Wal.Replay, AfterAll, SpentAll, Answer;
    ghost var c, u := Files(VolumeOf(pl, d)), UsageOf(pl.l, VolumeOf(pl, d));
    ws := [];
    NoReplay(d);
    NoCalls(c);
    NoneSpent(c, u);
    for k := 0 to |calls|
      invariant forall m :: 0 <= m < |ws| ==> ws[m].op == op && pl.g.Home(ws[m].block)
      invariant Holds(pl, Wal.Replay(d, ws), AfterAll(c, calls[..k]))
      invariant UsageOf(pl.l, VolumeOf(pl, Wal.Replay(d, ws))) == SpentAll(c, u, calls[..k])
    {
      assert GoesThrough(c, u, calls, k);
      var r, more := LoggedCall(pl, Wal.Replay(d, ws), op, calls[k]);
      ReplayMore(d, ws, more);
      OneMoreCall(c, calls, k);
      OneMoreSpent(c, u, calls, k);
      ws := ws + more;
    }
    assert calls[..|calls|] == calls;
  }

  /** Operations that commit one after the other. */
  method CommitGroups(pl: Place, d: seq<Block>, groups: seq<seq<Call>>) returns (hist: seq<seq<Wal.Write>>)
    requires pl.Valid() && |d| == pl.l.size && Sound(pl.l, VolumeOf(pl, d))
    requires GroupsGoThrough(Files(VolumeOf(pl, d)), UsageOf(pl.l, VolumeOf(pl, d)), groups)
    ensures |hist| == |groups| && forall i :: 0 <= i < |hist| ==> CarriesOut(pl, d, hist, i, groups[i])
    ensures forall i, k :: 0 <= i < |hist| && 0 <= k < |hist[i]| ==> pl.g.Home(hist[i][k].block)
  {
    hide Sound, Files, VolumeOf, UsageOf, AllGoThrough, GroupsGoThrough, Wal.Replay, Wal.ReplayAll, AfterAll, SpentAll,
      CarriesOut;
    hist := [];
    var now := d;
    NoGroups(d, groups);
    for i := 0 to |groups|
      invariant |hist| == i && now == Wal.ReplayAll(d, hist) && |now| == |d| && Sound(pl.l, VolumeOf(pl, now))
      invariant GroupsGoThrough(Files(VolumeOf(pl, now)), UsageOf(pl.l, VolumeOf(pl, now)), groups[i..])
      invariant forall j :: 0 <= j < i ==> CarriesOut(pl, d, hist, j, groups[j])
      invariant forall j, k :: 0 <= j < i && 0 <= k < |hist[j]| ==> pl.g.Home(hist[j][k].block)
    {
      FirstGoes(Files(VolumeOf(pl, now)), UsageOf(pl.l, VolumeOf(pl, now)), groups, i);
      var ws := LoggedCalls(pl, now, i, groups[i]);
      OneMoreGroup(pl, d, hist, ws, groups);
      hist := hist + [ws];
      now := Wal.Replay(now, ws);
    }
  }

  lemma NoGroups(d: seq<Block>, groups: seq<seq<Call>>)
    ensures Wal.ReplayAll(d, []) == d && groups[0..] == groups
  {
  }

  lemma FirstGoes(c: seq<seq<Byte>>, u: Usage, groups: seq<seq<Call>>, i: nat)
    requires i < |groups| && GroupsGoThrough(c, u, groups[i..])
    ensures AllGoThrough(c, u, groups[i])
    ensures GroupsGoThrough(AfterAll(c, groups[i]), SpentAll(c, u, groups[i]), groups[i + 1..])
  {
    assert groups[i..][0] == groups[i] && groups[i..][1..] == groups[i + 1..];
  }

  /** The group that has just been committed meets the hypothesis of FilesSurviveCrash. */
  lemma OneMoreGroup(pl: Place, d: seq<Block>, hist: seq<seq<Wal.Write>>, ws: seq<Wal.Write>, groups: seq<seq<Call>>)
    requires pl.Valid() && |d| == pl.l.size && |hist| < |groups|
    requires var now := Wal.ReplayAll(d, hist);
      Holds(pl, Wal.Replay(now, ws), AfterAll(Files(VolumeOf(pl, now)), groups[|hist|]))
    requires forall j :: 0 <= j < |hist| ==> CarriesOut(pl, d, hist, j, groups[j])
    ensures Wal.ReplayAll(d, hist + [ws]) == Wal.Replay(Wal.ReplayAll(d, hist), ws)
    ensures forall j :: 0 <= j <= |hist| ==> CarriesOut(pl, d, hist + [ws], j, groups[j])
  {
    hide Sound, Files, VolumeOf, Wal.Replay;
    var more := hist + [ws];
    forall j | 0 <= j <= |hist| ensures CarriesOut(pl, d, more, j, groups[j]) {
      assert more[..j] == hist[..j];
      if j == |hist| {
        assert hist[..j] == hist;
      } else {
        assert CarriesOut(pl, d, hist, j, groups[j]);
      }
    }
    assert more[..|hist|] == hist;
  }

  /** Calls made in operations whose groups are committed in this order: after any crash and
      recovery the files are what the calls of the groups committed so far make of them. */
  lemma CallsSurviveCrash(pl: Place, d: Wal.Disk, ls: seq<Wal.Label>, c: seq<seq<Byte>>, hist: seq<seq<Wal.Write>>,
        groups: seq<seq<Call>>)
    requires Wal.CleanDisk(pl.g, d) && Holds(pl, d.blocks, c) && |groups| == |hist|
    requires forall i :: 0 <= i < |hist| ==> CarriesOut(pl, d.blocks, hist, i, groups[i])
    requires Wal.Exec(pl.g, Wal.Boot(d), ls).hist <= hist
    ensures var s := Wal.Exec(pl.g, Wal.Boot(d), ls);
      && Wal.Recoverable(pl.g, s.disk)
      && Holds(pl, Wal.Recover(pl.g, s.disk).blocks, AfterGroups(c, groups[..|s.hist|]))
  {
    hide Holds, Wal.Exec, AfterAll, Wal.Replay, Wal.ReplayAll;
    var done := Wal.Exec(pl.g, Wal.Boot(d), ls).hist;
    forall i | 0 <= i < |done| ensures CarriesOut(pl, d.blocks, done, i, groups[..|done|][i]) {
      assert CarriesOut(pl, d.blocks, hist, i, groups[i]);
      assert done[..i] == hist[..i] && done[i] == hist[i];
    }
    FilesSurviveCrash(pl, d, ls, c, groups[..|done|]);
  }
}
