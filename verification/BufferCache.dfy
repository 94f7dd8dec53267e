/** The buffer cache of bio.c over the memory disk of memide.c.

    Through the cache the disk looks like one flat map of blocks, whatever has been
    cached, modified, written back or evicted.  A method result that is None or false
    is a kernel panic. */
module BufferCache {
  import opened Machine
  import opened Blocks
  import opened Lru

  const NBUF: nat := 30
  const ROOTDEV: nat := 1

  datatype Buf = Buf(dev: nat, blockno: nat, valid: bool, dirty: bool, locked: bool, refcnt: nat, data: Block)

  // ----- the flat view

  predicate Holds(b: Buf, n: nat) {
    b.valid && b.dev == ROOTDEV && b.blockno == n
  }

  predicate Caches(b: Buf, dev: nat, n: nat) {
    b.dev == dev && b.blockno == n
  }

  predicate Recyclable(b: Buf) {
    b.refcnt == 0 && !b.dirty
  }

  /** What one buffer promises: an unlocked clean one agrees with the disk. */
  ghost predicate Sound(b: Buf, disk: seq<Block>) {
    && (b.locked ==> b.refcnt > 0)
    && (b.dirty ==> b.valid)
    && (b.valid ==> b.dev == ROOTDEV && b.blockno < |disk|)
    && (b.valid && !b.dirty && !b.locked ==> b.data == disk[b.blockno])
  }

  /** No block of a real device has two buffers. */
  ghost predicate Unique(bufs: seq<Buf>) {
    forall i, j :: 0 <= i < |bufs| && 0 <= j < |bufs| && i != j && bufs[i].dev != 0 ==>
      !Caches(bufs[j], bufs[i].dev, bufs[i].blockno)
  }

  ghost predicate Coherent(bufs: seq<Buf>, disk: seq<Block>) {
    Unique(bufs) && forall i :: 0 <= i < |bufs| ==> Sound(bufs[i], disk)
  }

  /** The contents of block n as the rest of the kernel sees them. */
  ghost function ViewAt(bufs: seq<Buf>, disk: seq<Block>, n: nat): Block
    requires n < |disk|
  {
    if exists i :: 0 <= i < |bufs| && Holds(bufs[i], n) then
      var i :| 0 <= i < |bufs| && Holds(bufs[i], n);
      bufs[i].data
    else disk[n]
  }

  ghost function ViewOf(bufs: seq<Buf>, disk: seq<Block>): seq<Block> {
    seq(|disk|, n requires 0 <= n < |disk| => ViewAt(bufs, disk, n))
  }

  lemma Hit(bufs: seq<Buf>, disk: seq<Block>, i: nat, n: nat)
    requires Unique(bufs) && n < |disk| && i < |bufs| && Holds(bufs[i], n)
    ensures ViewAt(bufs, disk, n) == bufs[i].data
  {
  }

  /** Replacing buffer i changes the view at most at the blocks it held and holds. */
  lemma ReplaceElsewhere(bufs: seq<Buf>, disk: seq<Block>, i: nat, b: Buf, n: nat)
    requires i < |bufs| && n < |disk| && Unique(bufs) && Unique(bufs[i := b])
    requires !Holds(bufs[i], n) && !Holds(b, n)
    ensures ViewAt(bufs[i := b], disk, n) == ViewAt(bufs, disk, n)
  {
    var c := bufs[i := b];
    if exists j :: 0 <= j < |bufs| && Holds(bufs[j], n) {
      var j :| 0 <= j < |bufs| && Holds(bufs[j], n);
      Hit(bufs, disk, j, n);
      assert Holds(c[j], n);
      Hit(c, disk, j, n);
    } else {
      assert forall j :: 0 <= j < |c| ==> c[j] == b || c[j] == bufs[j];
    }
  }

  /** Replacing buffer i by one for the same block, or by one that holds nothing,
      without hiding different contents. */
  lemma ReplaceKeepsView(bufs: seq<Buf>, disk: seq<Block>, i: nat, b: Buf)
    requires i < |bufs| && Coherent(bufs, disk) && Coherent(bufs[i := b], disk)
    requires forall n :: 0 <= n < |disk| && Holds(bufs[i], n) ==>
      if Holds(b, n) then b.data == bufs[i].data else disk[n] == bufs[i].data
    requires forall n :: 0 <= n < |disk| && Holds(b, n) && !Holds(bufs[i], n) ==> b.data == disk[n]
    requires forall n :: 0 <= n < |disk| && Holds(b, n) ==> bufs[i].blockno == n && bufs[i].dev == ROOTDEV
    ensures ViewOf(bufs[i := b], disk) == ViewOf(bufs, disk)
  {
    var c := bufs[i := b];
    forall n | 0 <= n < |disk| ensures ViewAt(c, disk, n) == ViewAt(bufs, disk, n) {
      if Holds(bufs[i], n) {
        Hit(bufs, disk, i, n);
        if Holds(b, n) { Hit(c, disk, i, n); }
      } else if Holds(b, n) {
        Hit(c, disk, i, n);
        assert forall j :: 0 <= j < |bufs| ==> !Holds(bufs[j], n);
      } else {
        ReplaceElsewhere(bufs, disk, i, b, n);
      }
    }
  }

  /** Counting references or taking the lock shows nothing new. */
  lemma TouchKeeps(bufs: seq<Buf>, disk: seq<Block>, i: nat, b: Buf)
    requires i < |bufs| && Coherent(bufs, disk) && Sound(b, disk)
    requires Caches(b, bufs[i].dev, bufs[i].blockno) && b.valid == bufs[i].valid && b.data == bufs[i].data
    ensures Coherent(bufs[i := b], disk)
    ensures ViewOf(bufs[i := b], disk) == ViewOf(bufs, disk)
  {
    assert Unique(bufs[i := b]);
    ReplaceKeepsView(bufs, disk, i, b);
  }

  function Recycled(b: Buf, dev: nat, blockno: nat): Buf {
    b.(dev := dev, blockno := blockno, valid := false, dirty := false, refcnt := 1)
  }

  /** Evicting an unreferenced clean buffer loses nothing: the disk has its contents. */
  lemma RecycleKeeps(bufs: seq<Buf>, disk: seq<Block>, i: nat, dev: nat, blockno: nat)
    requires i < |bufs| && Coherent(bufs, disk) && Recyclable(bufs[i])
    requires forall j :: 0 <= j < |bufs| ==> !Caches(bufs[j], dev, blockno)
    ensures var b := Recycled(bufs[i], dev, blockno);
      Coherent(bufs[i := b], disk) && ViewOf(bufs[i := b], disk) == ViewOf(bufs, disk)
  {
    var b := Recycled(bufs[i], dev, blockno);
    assert Unique(bufs[i := b]);
    ReplaceKeepsView(bufs, disk, i, b);
  }

  /** iderw reading: the buffer now holds what the disk holds. */
  lemma FillKeeps(bufs: seq<Buf>, disk: seq<Block>, i: nat)
    requires i < |bufs| && Coherent(bufs, disk)
    requires !bufs[i].valid && bufs[i].dev == ROOTDEV && bufs[i].blockno < |disk|
    ensures var b := bufs[i].(valid := true, data := disk[bufs[i].blockno]);
      Coherent(bufs[i := b], disk) && ViewOf(bufs[i := b], disk) == ViewOf(bufs, disk)
  {
    var b := bufs[i].(valid := true, data := disk[bufs[i].blockno]);
    assert Unique(bufs[i := b]);
    ReplaceKeepsView(bufs, disk, i, b);
  }

  /** iderw writing: the disk catches up with the buffer. */
  lemma WriteBackKeeps(bufs: seq<Buf>, disk: seq<Block>, i: nat)
    requires i < |bufs| && Coherent(bufs, disk) && bufs[i].dirty
    ensures var b := bufs[i].(dirty := false);
      var d := disk[b.blockno := b.data];
      Coherent(bufs[i := b], d) && ViewOf(bufs[i := b], d) == ViewOf(bufs, disk)
  {
    var b := bufs[i].(dirty := false);
    var d := disk[b.blockno := b.data];
    var c := bufs[i := b];
    assert Unique(c);
    forall j | 0 <= j < |c| ensures Sound(c[j], d) {
      assert j != i ==> Sound(bufs[j], disk) && !Caches(bufs[j], ROOTDEV, b.blockno);
    }
    forall n | 0 <= n < |d| ensures ViewAt(c, d, n) == ViewAt(bufs, disk, n) {
      if n == b.blockno {
        Hit(bufs, disk, i, n);
        Hit(c, d, i, n);
      } else {
        ReplaceElsewhere(bufs, disk, i, b, n);
        assert d[n] == disk[n];
        if exists j :: 0 <= j < |c| && Holds(c[j], n) {
          var j :| 0 <= j < |c| && Holds(c[j], n);
          Hit(c, d, j, n);
          Hit(c, disk, j, n);
        }
      }
    }
  }

  /** The holder of a locked buffer overwriting its data changes the view there and only there. */
  lemma StoreChanges(bufs: seq<Buf>, disk: seq<Block>, i: nat, data: Block)
    requires i < |bufs| && Coherent(bufs, disk) && bufs[i].locked && bufs[i].valid
    ensures var b := bufs[i].(data := data);
      Coherent(bufs[i := b], disk) && ViewOf(bufs[i := b], disk) == ViewOf(bufs, disk)[b.blockno := data]
  {
    var b := bufs[i].(data := data);
    var c := bufs[i := b];
    assert Unique(c);
    forall n | 0 <= n < |disk| ensures ViewAt(c, disk, n) == if n == b.blockno then data else ViewAt(bufs, disk, n) {
      if n == b.blockno {
        Hit(c, disk, i, n);
      } else {
        ReplaceElsewhere(bufs, disk, i, b, n);
      }
    }
  }

  // ----- the cache

  /** Every index up to n appears in the ring, behind the head n. */
  ghost predicate Covers(ring: seq<nat>, n: nat) {
    |ring| == n + 1 && ring[0] == n && forall i :: 0 <= i <= n ==> i in ring
  }

  lemma MoveToFrontCovers(ring: seq<nat>, n: nat, k: nat)
    requires Covers(ring, n) && Distinct(ring) && 0 < k < |ring|
    ensures Covers(MoveToFront(ring, k), n)
  {
    var r := MoveToFront(ring, k);
    WithoutAt(ring, k);
    forall i | 0 <= i <= n ensures i in r {
      assert i in ring;
      var j :| 0 <= j < |ring| && ring[j] == i;
      var w := Without(ring, k);
      if j == k {
        assert r[1] == i;
      } else {
        var m := if j < k then j else j - 1;
        assert w[m] == i;
        assert r[if m == 0 then 0 else m + 1] == i;
      }
    }
  }

  /** i is the member nearest the tail of the list that may be recycled. */
  ghost predicate LeastRecent(bufs: seq<Buf>, ring: seq<nat>, i: nat) {
    exists k :: 1 <= k < |ring| && ring[k] == i && i < |bufs| && Recyclable(bufs[i]) &&
      forall m :: k < m < |ring| ==> ring[m] < |bufs| && !Recyclable(bufs[ring[m]])
  }

  ghost predicate AllBusy(bufs: seq<Buf>) {
    forall i :: 0 <= i < |bufs| ==> !Recyclable(bufs[i])
  }

  ghost predicate Cached(bufs: seq<Buf>, dev: nat, blockno: nat) {
    exists i :: 0 <= i < |bufs| && Caches(bufs[i], dev, blockno)
  }

  class Cache {
    const disk: array<Block>   // memdisk
    const bufs: array<Buf>     // bcache.buf
    const next: array<nat>     // index NBUF stands for bcache.head
    const prev: array<nat>
    ghost var ring: seq<nat>   // the list from the head on; ring[1] was used last

    /** The list of buffers is whole. */
    ghost predicate Ordered()
      reads this, next, prev
    {
      && bufs.Length == NBUF && next.Length == NBUF + 1 && prev.Length == NBUF + 1 && next != prev
      && Linked(next[..], prev[..], ring)
      && Covers(ring, NBUF)
    }

    ghost predicate Valid()
      reads this, disk, bufs, next, prev
    {
      Ordered() && Coherent(bufs[..], disk[..])
    }

    ghost function View(): seq<Block>
      reads disk, bufs
    {
      ViewOf(bufs[..], disk[..])
    }

    /** binit, over a given disk image. */
    constructor (image: seq<Block>)
      ensures Valid() && fresh(disk) && fresh(bufs) && fresh(next) && fresh(prev)
      ensures disk[..] == image && View() == image
      ensures forall i :: 0 <= i < NBUF ==> bufs[i].refcnt == 0 && !bufs[i].valid && bufs[i].dev == 0
    {
      disk := new Block[|image|](i requires 0 <= i < |image| => image[i]);
      bufs := new Buf[NBUF](_ => Buf(0, 0, false, false, false, 0, seq(WORDS, _ => 0)));
      next := new nat[NBUF + 1](_ => NBUF);
      prev := new nat[NBUF + 1](_ => NBUF);
      ring := [NBUF];
      new;
      hide Coherent, Sound;
      var b: nat := 0;
      while b < NBUF
        invariant 0 <= b <= NBUF
        invariant disk[..] == image
        invariant forall i :: 0 <= i < NBUF ==> bufs[i] == Buf(0, 0, false, false, false, 0, seq(WORDS, _ => 0))
        invariant |ring| == b + 1 && ring[0] == NBUF
        invariant forall i :: 1 <= i <= b ==> ring[i] == b - i
        invariant Linked(next[..], prev[..], ring)
      {
        LinkFront(b, ring);
        ring := InsertFront(ring, b);
        b := b + 1;
      }
      forall i | 0 <= i <= NBUF ensures i in ring {
        assert i < NBUF ==> ring[NBUF - i] == i;
      }
      assert forall n :: 0 <= n < |image| ==> ViewAt(bufs[..], disk[..], n) == image[n];
    }

    /** The forward scan of bget: the buffer caching a block, or the head. */
    method FindCached(dev: nat, blockno: nat) returns (b: nat)
      requires Valid()
      ensures b < NBUF ==> Caches(bufs[b], dev, blockno)
      ensures b >= NBUF ==> forall i :: 0 <= i < NBUF ==> !Caches(bufs[i], dev, blockno)
    {
      b := next[NBUF];
      ghost var k: nat := 1;
      while b != NBUF
        invariant 1 <= k <= NBUF + 1
        invariant b == if k <= NBUF then ring[k] else NBUF
        invariant forall m :: 1 <= m < k ==> ring[m] < NBUF && !Caches(bufs[ring[m]], dev, blockno)
        decreases NBUF + 1 - k
      {
        if bufs[b].dev == dev && bufs[b].blockno == blockno {
          return;
        }
        b := next[b];
        k := k + 1;
      }
      forall i | 0 <= i < NBUF ensures !Caches(bufs[i], dev, blockno) {
        assert i in ring;
      }
    }

    /** The backward scan of bget: the least recently used buffer that is neither
        referenced nor dirty, or the head. */
    method FindVictim() returns (b: nat)
      requires Valid()
      ensures b < NBUF ==> LeastRecent(bufs[..], ring, b)
      ensures b >= NBUF ==> forall i :: 0 <= i < NBUF ==> !Recyclable(bufs[i])
    {
      b := prev[NBUF];
      ghost var k: nat := NBUF;
      while b != NBUF
        invariant 0 <= k <= NBUF
        invariant b == ring[k]
        invariant forall m :: k < m <= NBUF ==> ring[m] < NBUF && !Recyclable(bufs[ring[m]])
        decreases k
      {
        if bufs[b].refcnt == 0 && !bufs[b].dirty {
          return;
        }
        b := prev[b];
        k := k - 1;
      }
      forall i | 0 <= i < NBUF ensures !Recyclable(bufs[i]) {
        assert i in ring;
      }
    }

    /** bget up to the point where bcache.lock is released; None is "bget: no buffers". */
    method Bget(dev: nat, blockno: nat) returns (r: Option<nat>)
      requires Valid()
      modifies bufs
      ensures Valid() && View() == old(View())
      ensures r.None? <==> (!Cached(old(bufs[..]), dev, blockno) && AllBusy(old(bufs[..])))
      ensures r.None? ==> bufs[..] == old(bufs[..])
      ensures r.Some? ==> r.value < NBUF
      ensures r.Some? && Cached(old(bufs[..]), dev, blockno) ==>
        var b := old(bufs[..])[r.value];
        Caches(b, dev, blockno) && bufs[..] == old(bufs[..])[r.value := b.(refcnt := b.refcnt + 1)]
      ensures r.Some? && !Cached(old(bufs[..]), dev, blockno) ==>
        && LeastRecent(old(bufs[..]), ring, r.value)
        && bufs[..] == old(bufs[..])[r.value := Recycled(old(bufs[..])[r.value], dev, blockno)]
    {
      ghost var was: seq<Buf> := bufs[..];
      var b := FindCached(dev, blockno);
      if b < NBUF {
        TouchKeeps(was, disk[..], b, was[b].(refcnt := was[b].refcnt + 1));
        bufs[b] := bufs[b].(refcnt := bufs[b].refcnt + 1);
        assert bufs[..] == was[b := was[b].(refcnt := was[b].refcnt + 1)];
        return Some(b);
      }
      b := FindVictim();
      if b >= NBUF {
        return None;
      }
      RecycleKeeps(was, disk[..], b, dev, blockno);
      bufs[b] := Recycled(bufs[b], dev, blockno);
      assert bufs[..] == was[b := Recycled(was[b], dev, blockno)];
      return Some(b);
    }

    /** iderw on the memory disk; false is one of its panics. */
    method Iderw(i: nat) returns (ok: bool)
      requires Valid() && i < NBUF
      modifies disk, bufs
      ensures ok <==> (var b := old(bufs[i]);
        b.locked && (b.dirty || !b.valid) && b.dev == ROOTDEV && b.blockno < disk.Length)
      ensures !ok ==> disk[..] == old(disk[..]) && bufs[..] == old(bufs[..])
      ensures ok ==> Valid() && View() == old(View())
      ensures ok && old(bufs[i].dirty) ==>
        && disk[..] == old(disk[..])[old(bufs[i].blockno) := old(bufs[i].data)]
        && bufs[..] == old(bufs[..])[i := old(bufs[i]).(dirty := false)]
      ensures ok && !old(bufs[i].dirty) ==>
        && disk[..] == old(disk[..])
        && bufs[..] == old(bufs[..])[i := old(bufs[i]).(valid := true, data := old(disk[..])[old(bufs[i].blockno)])]
    {
      var b := bufs[i];
      ok := b.locked && (b.dirty || !b.valid) && b.dev == ROOTDEV && b.blockno < disk.Length;
      if ok {
        ghost var was: seq<Buf>, d: seq<Block> := bufs[..], disk[..];
        if b.dirty {
          WriteBackKeeps(was, d, i);
          disk[b.blockno] := b.data;
          bufs[i] := b.(dirty := false);
          assert disk[..] == d[b.blockno := b.data];
          assert bufs[..] == was[i := b.(dirty := false)];
        } else {
          FillKeeps(was, d, i);
          bufs[i] := b.(valid := true, data := disk[b.blockno]);
          assert bufs[..] == was[i := b.(valid := true, data := d[b.blockno])];
        }
      }
    }

    /** bread, once the sleep lock of the buffer is free; None is a panic. */
    method Bread(dev: nat, blockno: nat) returns (r: Option<nat>)
      requires Valid()
      requires forall i :: 0 <= i < NBUF && Caches(bufs[i], dev, blockno) ==> !bufs[i].locked
      modifies disk, bufs
      ensures disk[..] == old(disk[..])
      ensures r.Some? <==> ((Cached(old(bufs[..]), dev, blockno) || !AllBusy(old(bufs[..]))) &&
                            dev == ROOTDEV && blockno < disk.Length)
      ensures r.Some? ==> Valid() && View() == old(View()) && r.value < NBUF
      ensures r.Some? ==>
        var was := old(bufs[..])[r.value];
        if Caches(was, dev, blockno) then
          bufs[..] == old(bufs[..])[r.value :=
            Buf(dev, blockno, true, was.dirty, true, was.refcnt + 1, old(View())[blockno])]
        else
          && !Cached(old(bufs[..]), dev, blockno)
          && LeastRecent(old(bufs[..]), ring, r.value)
          && bufs[..] == old(bufs[..])[r.value :=
               Buf(dev, blockno, true, false, true, 1, old(View())[blockno])]
    {
      ghost var was: seq<Buf>, d: seq<Block> := bufs[..], disk[..];
      r := Bget(dev, blockno);
      if r.None? {
        return;
      }
      var ok := Take(r.value);
      if !ok {
        return None;
      }
    }

    /** The rest of bread, when the sleep lock of the buffer is free: take it and read the block
        from the disk if that has not been done; false is a panic. */
    method Take(i: nat) returns (ok: bool)
      requires Valid() && i < NBUF && !bufs[i].locked && bufs[i].refcnt > 0
      modifies disk, bufs
      ensures disk[..] == old(disk[..])
      ensures ok <==> old(bufs[i].valid) || (old(bufs[i].dev) == ROOTDEV && old(bufs[i].blockno) < disk.Length)
      ensures ok ==> Valid() && View() == old(View()) && old(bufs[i].blockno) < disk.Length
      ensures ok ==> bufs[..] == old(bufs[..])[i :=
        old(bufs[i]).(valid := true, locked := true, data := old(View())[old(bufs[i].blockno)])]
    {
      ghost var was: seq<Buf>, d: seq<Block> := bufs[..], disk[..];
      assert Sound(was[i], d);
      TouchKeeps(was, d, i, was[i].(locked := true));
      bufs[i] := bufs[i].(locked := true);
      assert bufs[..] == was[i := was[i].(locked := true)];
      ok := true;
      if !bufs[i].valid {
        ok := Iderw(i);
      }
      if ok {
        Hit(bufs[..], d, i, bufs[i].blockno);
      }
    }

    /** bwrite of a buffer obtained from bread: the only way a block reaches the disk. */
    method Bwrite(i: nat) returns (ok: bool)
      requires Valid() && i < NBUF && bufs[i].valid
      modifies disk, bufs
      ensures ok <==> old(bufs[i].locked)
      ensures !ok ==> disk[..] == old(disk[..])
      ensures ok ==> Valid() && View() == old(View())
      ensures ok ==> disk[..] == old(disk[..])[old(bufs[i].blockno) := old(bufs[i].data)]
      ensures ok ==> bufs[..] == old(bufs[..])[i := old(bufs[i]).(dirty := false)]
    {
      if !bufs[i].locked {
        return false;
      }
      ghost var was: seq<Buf> := bufs[..];
      TouchKeeps(was, disk[..], i, was[i].(dirty := true));
      bufs[i] := bufs[i].(dirty := true);
      assert bufs[..] == was[i := was[i].(dirty := true)];
      ok := Iderw(i);
    }

    /** The holder of a buffer storing into its data. */
    method Store(i: nat, data: Block)
      requires Valid() && i < NBUF && bufs[i].locked && bufs[i].valid
      modifies bufs
      ensures Valid() && View() == old(View())[old(bufs[i].blockno) := data]
      ensures bufs[..] == old(bufs[..])[i := old(bufs[i]).(data := data)]
    {
      ghost var was: seq<Buf> := bufs[..];
      StoreChanges(was, disk[..], i, data);
      bufs[i] := bufs[i].(data := data);
      assert bufs[..] == was[i := was[i].(data := data)];
    }

    /** Setting B_DIRTY, as log_write does: the buffer can no longer be recycled. */
    method Pin(i: nat)
      requires Valid() && i < NBUF && bufs[i].valid
      modifies bufs
      ensures Valid() && View() == old(View())
      ensures bufs[..] == old(bufs[..])[i := old(bufs[i]).(dirty := true)]
    {
      ghost var was: seq<Buf> := bufs[..];
      TouchKeeps(was, disk[..], i, was[i].(dirty := true));
      bufs[i] := bufs[i].(dirty := true);
      assert bufs[..] == was[i := was[i].(dirty := true)];
    }

    /** A buffer whose changes, if any, were written or pinned. */
    ghost predicate Settled(i: nat)
      requires i < bufs.Length
      reads bufs, disk
    {
      bufs[i].valid && !bufs[i].dirty && bufs[i].blockno < disk.Length ==> bufs[i].data == disk[bufs[i].blockno]
    }

    /** brelse.  The cache stays coherent exactly if the buffer was settled. */
    method Brelse(i: nat) returns (ok: bool)
      requires Valid() && i < NBUF
      modifies this, bufs, next, prev
      ensures ok <==> old(bufs[i].locked)
      ensures !ok ==> bufs[..] == old(bufs[..]) && ring == old(ring)
      ensures Ordered() && (Valid() <==> !ok || old(Settled(i)))
      ensures !ok || old(Settled(i)) ==> View() == old(View())
      ensures ok ==> bufs[..] == old(bufs[..])[i := old(bufs[i]).(locked := false, refcnt := old(bufs[i].refcnt) - 1)]
      ensures ok && bufs[i].refcnt > 0 ==> ring == old(ring)
      ensures ok && bufs[i].refcnt == 0 ==>
        exists k :: 0 < k < |old(ring)| && old(ring)[k] == i && ring == MoveToFront(old(ring), k)
    {
      if !bufs[i].locked {
        return false;
      }
      ghost var was: seq<Buf> := bufs[..];
      assert Sound(was[i], disk[..]);
      var b := bufs[i].(locked := false, refcnt := bufs[i].refcnt - 1);
      if Settled(i) {
        TouchKeeps(was, disk[..], i, b);
      } else {
        assert !Sound(was[i := b][i], disk[..]);
      }
      hide Coherent, Sound;
      bufs[i] := b;
      assert bufs[..] == was[i := b];
      if b.refcnt == 0 {
        MoveFront(i);
      }
      ok := true;
    }

    /** The relinking at the end of brelse. */
    method MoveFront(b: nat)
      requires Ordered() && b < NBUF
      modifies this, next, prev
      ensures Ordered()
      ensures exists k :: 0 < k < |old(ring)| && old(ring)[k] == b && ring == MoveToFront(old(ring), k)
    {
      hide Coherent, Linked, InsertFront;
      assert b in ring;
      ghost var k :| 0 <= k < |ring| && ring[k] == b;
      RingDistinct(next[..], prev[..], ring);
      WithoutAt(ring, k);
      MoveToFrontCovers(ring, NBUF, k);
      Detach(b, k);
      LinkFront(b, Without(ring, k));
      ring := MoveToFront(ring, k);
    }

    /** The two assignments that take a buffer out of the list. */
    method Detach(b: nat, ghost k: nat)
      requires next.Length == prev.Length == NBUF + 1 && next != prev
      requires Linked(next[..], prev[..], ring) && 0 < k < |ring| && ring[k] == b < NBUF
      modifies next, prev
      ensures Linked(next[..], prev[..], Without(ring, k))
    {
      ghost var next0: seq<nat>, prev0: seq<nat> := next[..], prev[..];
      UnlinkKeeps(next0, prev0, ring, k);
      hide Linked, Without;
      prev[next[b]] := prev[b];
      next[prev[b]] := next[b];
      assert next[..] == next0[prev0[b] := next0[b]] && prev[..] == prev0[next0[b] := prev0[b]];
    }

    /** The four assignments that put a buffer behind the head. */
    method LinkFront(b: nat, ghost r: seq<nat>)
      requires next.Length == prev.Length == NBUF + 1 && next != prev
      requires Linked(next[..], prev[..], r) && r[0] == NBUF && b !in r && b < NBUF
      modifies next, prev
      ensures Linked(next[..], prev[..], InsertFront(r, b))
    {
      ghost var next0: seq<nat>, prev0: seq<nat> := next[..], prev[..];
      InsertFrontKeeps(next0, prev0, r, b);
      hide Linked, InsertFront;
      next[b] := next[NBUF];
      prev[b] := NBUF;
      prev[next[NBUF]] := b;
      next[NBUF] := b;
      assert next[..] == next0[b := next0[NBUF]][NBUF := b];
      assert prev[..] == prev0[b := NBUF][next0[NBUF] := b];
    }
  }
}
