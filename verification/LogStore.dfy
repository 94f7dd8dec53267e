/** log.c over the buffer cache, refining the step machine of Wal: every block write of
    commit and of recovery is one machine step. */
module LogStore {
  import opened Machine
  import opened Blocks
  import opened Wal
  import opened CrashSafety
  import opened BufferCache
  import GroupCommit

  /** The machine's disk and the real one agree; the header block is kept decoded. */
  ghost predicate SameDisk(g: Geometry, m: State, disk: seq<Block>) {
    && g.Valid() && |disk| == g.nblocks && |m.disk.blocks| == g.nblocks
    && GoodHead(disk[g.start])
    && m.disk.head == HeadOf(disk[g.start])
    && forall b :: 0 <= b < g.nblocks && b != g.start ==> m.disk.blocks[b] == disk[b]
  }

  ghost predicate SameView(g: Geometry, m: State, view: seq<Block>) {
    |view| == g.nblocks && |m.view| == g.nblocks &&
    forall b :: 0 <= b < g.nblocks && g.Home(b) ==> m.view[b] == view[b]
  }

  /** Some dirty buffer holds block b. */
  ghost predicate Pinned(bufs: seq<Buf>, b: nat) {
    exists j :: 0 <= j < |bufs| && bufs[j].dirty && bufs[j].blockno == b
  }

  /** Exactly the buffers in `held` are locked and referenced, and exactly the blocks in `pinned`
      are dirty. */
  ghost predicate Busy(bufs: seq<Buf>, held: set<nat>, pinned: set<nat>) {
    && (forall j :: j in held ==> j < |bufs|)
    && (forall j :: 0 <= j < |bufs| ==>
      && (bufs[j].locked <==> j in held)
      && bufs[j].refcnt == (if j in held then 1 else 0)
      && (j in held ==> bufs[j].valid)
      && (bufs[j].dirty ==> bufs[j].blockno in pinned))
    && forall b :: b in pinned ==> Pinned(bufs, b)
  }

  // ----- when bget finds a buffer

  /** The blocks of the buffers that are held. */
  ghost function HeldBlocks(bufs: seq<Buf>, held: set<nat>): set<nat> {
    set j | j in held && j < |bufs| :: bufs[j].blockno
  }

  /** A set without repetition of blocks has as many buffers as blocks. */
  lemma {:induction false} SameCount(bufs: seq<Buf>, js: set<nat>)
    requires forall j :: j in js ==> j < |bufs|
    requires forall i, j :: i in js && j in js && i != j ==> bufs[i].blockno != bufs[j].blockno
    ensures |HeldBlocks(bufs, js)| == |js|
  {
    if js == {} {
      assert HeldBlocks(bufs, js) == {};
    } else {
      var j :| j in js;
      SameCount(bufs, js - {j});
      assert HeldBlocks(bufs, js) == HeldBlocks(bufs, js - {j}) + {bufs[j].blockno};
    }
  }

  ghost function UpTo(n: nat): (js: set<nat>)
    ensures |js| == n && forall j: nat :: j in js <==> j < n
  {
    if n == 0 then {} else UpTo(n - 1) + {n - 1}
  }

  /** The buffers that cannot be recycled. */
  ghost function InUse(bufs: seq<Buf>): set<nat> {
    set j: nat | j < |bufs| && !Recyclable(bufs[j])
  }

  lemma InUseBlocks(bufs: seq<Buf>, held: set<nat>, pinned: set<nat>)
    requires Busy(bufs, held, pinned)
    ensures HeldBlocks(bufs, InUse(bufs)) == pinned + HeldBlocks(bufs, held)
  {
    forall b | b in pinned ensures b in HeldBlocks(bufs, InUse(bufs)) {
      assert Pinned(bufs, b);
      var j: nat :| j < |bufs| && bufs[j].dirty && bufs[j].blockno == b;
      assert j in InUse(bufs);
    }
    forall b | b in HeldBlocks(bufs, held) ensures b in HeldBlocks(bufs, InUse(bufs)) {
      var j :| j in held && j < |bufs| && bufs[j].blockno == b;
      assert j in InUse(bufs);
    }
  }

  lemma InUseDistinct(bufs: seq<Buf>, disk: seq<Block>, held: set<nat>, pinned: set<nat>, i: nat, j: nat)
    requires Coherent(bufs, disk) && Busy(bufs, held, pinned)
    requires i in InUse(bufs) && j in InUse(bufs) && i != j
    ensures bufs[i].blockno != bufs[j].blockno
  {
    assert Sound(bufs[i], disk) && Sound(bufs[j], disk);
    assert !Caches(bufs[j], bufs[i].dev, bufs[i].blockno);
  }

  /** No buffer can be recycled exactly if pinned and held blocks fill the cache. */
  lemma BusyCount(bufs: seq<Buf>, disk: seq<Block>, held: set<nat>, pinned: set<nat>)
    requires Coherent(bufs, disk) && Busy(bufs, held, pinned)
    ensures |pinned + HeldBlocks(bufs, held)| <= |bufs|
    ensures AllBusy(bufs) <==> |pinned + HeldBlocks(bufs, held)| == |bufs|
  {
    hide Coherent, Busy, HeldBlocks, InUse, AllBusy;
    InUseBlocks(bufs, held, pinned);
    InUseInside(bufs);
    forall i, j | i in InUse(bufs) && j in InUse(bufs) && i != j ensures bufs[i].blockno != bufs[j].blockno {
      InUseDistinct(bufs, disk, held, pinned, i, j);
    }
    SameCount(bufs, InUse(bufs));
    AllInUse(bufs);
  }

  lemma InUseInside(bufs: seq<Buf>)
    ensures forall j :: j in InUse(bufs) ==> j < |bufs|
  {
  }

  lemma AllInUse(bufs: seq<Buf>)
    ensures |InUse(bufs)| <= |bufs| && (AllBusy(bufs) <==> |InUse(bufs)| == |bufs|)
  {
    hide Recyclable;
    var js, all := InUse(bufs), UpTo(|bufs|);
    Subset(js, all);
    if AllBusy(bufs) {
      forall j | j in all ensures j in js {
        assert !Recyclable(bufs[j]);
      }
      assert js == all;
    }
    if |js| == |bufs| {
      forall j | 0 <= j < |bufs| ensures !Recyclable(bufs[j]) {
        assert j in all;
      }
    }
  }

  lemma {:induction false} Subset(a: set<nat>, b: set<nat>)
    requires a <= b
    ensures |a| <= |b|
    ensures |a| == |b| ==> a == b
  {
    if a == {} {
      assert b != {} ==> |b| > 0;
    } else {
      var x :| x in a;
      Subset(a - {x}, b - {x});
    }
  }

  /** A block is cached by a dirty buffer, or by one nobody holds, or a buffer can be recycled. */
  lemma Available(bufs: seq<Buf>, disk: seq<Block>, held: set<nat>, pinned: set<nat>, b: nat)
    requires Coherent(bufs, disk) && Busy(bufs, held, pinned)
    requires forall j :: j in held ==> bufs[j].blockno != b
    ensures (Cached(bufs, ROOTDEV, b) || !AllBusy(bufs)) <==>
      (b in pinned || |pinned + HeldBlocks(bufs, held)| < |bufs|)
  {
    BusyCount(bufs, disk, held, pinned);
    if b in pinned {
      assert Pinned(bufs, b);
      var j: nat :| j < |bufs| && bufs[j].dirty && bufs[j].blockno == b;
      assert Sound(bufs[j], disk);
      assert Caches(bufs[j], ROOTDEV, b);
    } else if Cached(bufs, ROOTDEV, b) {
      var j: nat :| j < |bufs| && Caches(bufs[j], ROOTDEV, b);
      assert Recyclable(bufs[j]);
    }
  }

  lemma PinsKept(bufs: seq<Buf>, i: nat, b: Buf, pinned: set<nat>)
    requires i < |bufs| && forall n :: n in pinned ==> Pinned(bufs, n)
    requires bufs[i].dirty ==> b.dirty && b.blockno == bufs[i].blockno
    ensures forall n :: n in pinned ==> Pinned(bufs[i := b], n)
  {
    forall n | n in pinned ensures Pinned(bufs[i := b], n) {
      assert Pinned(bufs, n);
      var j: nat :| j < |bufs| && bufs[j].dirty && bufs[j].blockno == n;
      assert bufs[i := b][j].dirty && bufs[i := b][j].blockno == n;
    }
  }

  lemma Unpinned(bufs: seq<Buf>, disk: seq<Block>, i: nat, b: Buf, pinned: set<nat>)
    requires i < |bufs| && Coherent(bufs, disk) && bufs[i].valid
    requires forall n :: n in pinned ==> Pinned(bufs, n)
    ensures forall n :: n in pinned - {bufs[i].blockno} ==> Pinned(bufs[i := b], n)
    ensures forall j :: 0 <= j < |bufs| && j != i && bufs[j].dirty ==> bufs[j].blockno != bufs[i].blockno
  {
    assert Sound(bufs[i], disk);
    forall j | 0 <= j < |bufs| && j != i && bufs[j].dirty ensures bufs[j].blockno != bufs[i].blockno {
      assert Sound(bufs[j], disk) && !Caches(bufs[j], bufs[i].dev, bufs[i].blockno);
    }
    forall n | n in pinned - {bufs[i].blockno} ensures Pinned(bufs[i := b], n) {
      assert Pinned(bufs, n);
      var j: nat :| j < |bufs| && bufs[j].dirty && bufs[j].blockno == n;
      assert bufs[i := b][j].dirty && bufs[i := b][j].blockno == n;
    }
  }

  lemma CleanView(bufs: seq<Buf>, disk: seq<Block>, held: set<nat>, pinned: set<nat>, n: nat)
    requires Coherent(bufs, disk) && Busy(bufs, held, pinned) && n < |disk| && n !in pinned
    requires forall j :: j in held ==> bufs[j].blockno != n
    ensures ViewAt(bufs, disk, n) == disk[n]
  {
  }

  /** What bread leaves in a buffer. */
  ghost predicate Obtained(was: seq<Buf>, now: seq<Buf>, ring: seq<nat>, i: nat, b: nat, data: Block) {
    && i < |was|
    && if Caches(was[i], ROOTDEV, b)
       then now == was[i := Buf(ROOTDEV, b, true, was[i].dirty, true, was[i].refcnt + 1, data)]
       else
         && !Cached(was, ROOTDEV, b) && LeastRecent(was, ring, i)
         && now == was[i := Buf(ROOTDEV, b, true, false, true, 1, data)]
  }

  lemma ObtainedBusy(was: seq<Buf>, disk: seq<Block>, now: seq<Buf>, ring: seq<nat>, i: nat, b: nat, data: Block,
        held: set<nat>, pinned: set<nat>)
    requires Coherent(was, disk) && Busy(was, held, pinned) && forall j :: j in held ==> was[j].blockno != b
    requires Obtained(was, now, ring, i, b, data)
    ensures i !in held && Busy(now, held + {i}, pinned) && forall j :: j in held ==> now[j] == was[j]
    ensures b in pinned ==> now[i].dirty
  {
    hide Coherent;
    PinsKept(was, i, now[i], pinned);
    if b in pinned {
      PinnedHere(was, disk, i, b, ring, now, data);
    }
  }

  /** A pinned block is found in the buffer that pins it. */
  lemma PinnedHere(was: seq<Buf>, disk: seq<Block>, i: nat, b: nat, ring: seq<nat>, now: seq<Buf>, data: Block)
    requires Coherent(was, disk) && Pinned(was, b) && Obtained(was, now, ring, i, b, data)
    ensures now[i].dirty
  {
    var j: nat :| j < |was| && was[j].dirty && was[j].blockno == b;
    assert Sound(was[j], disk) && Caches(was[j], ROOTDEV, b);
    assert Cached(was, ROOTDEV, b);
  }

  lemma HeldInside(bufs: seq<Buf>, held: set<nat>, pinned: set<nat>)
    requires Busy(bufs, held, pinned)
    ensures forall j :: j in held ==> j < |bufs|
  {
  }

  lemma NoneLocked(bufs: seq<Buf>, held: set<nat>, pinned: set<nat>, b: nat)
    requires Busy(bufs, held, pinned) && forall j :: j in held ==> bufs[j].blockno != b
    ensures forall j :: 0 <= j < |bufs| && Caches(bufs[j], ROOTDEV, b) ==> !bufs[j].locked
  {
  }

  ghost predicate Ready(c: Cache, held: set<nat>, pinned: set<nat>)
    reads c, c.disk, c.bufs, c.next, c.prev
  {
    c.Valid() && Busy(c.bufs[..], held, pinned)
  }

  /** Blocks that are not pinned read as they are on disk. */
  lemma ReadyView(c: Cache, held: set<nat>, pinned: set<nat>, n: nat)
    requires Ready(c, held, pinned) && n < c.disk.Length && n !in pinned
    requires forall j :: j in held ==> c.bufs[j].blockno != n
    ensures |c.View()| == c.disk.Length && c.View()[n] == c.disk[n]
  {
    CleanView(c.bufs[..], c.disk[..], held, pinned, n);
  }

  /** bread of a block nobody holds; None is a panic. */
  method Fetch(c: Cache, b: nat, ghost held: set<nat>, ghost pinned: set<nat>) returns (r: Option<nat>)
    requires Ready(c, held, pinned)
    requires forall j :: j in held ==> c.bufs[j].blockno != b
    modifies c.disk, c.bufs
    ensures c.disk[..] == old(c.disk[..])
    ensures r.Some? <==> b < c.disk.Length && (b in pinned || Spare(pinned, HeldBlocks(old(c.bufs[..]), held)))
    ensures r.Some? ==> r.value < NBUF == c.bufs.Length && r.value !in held
    ensures r.Some? ==> Ready(c, held + {r.value}, pinned) && c.View() == old(c.View())
    ensures r.Some? ==> c.bufs[r.value].blockno == b && c.bufs[r.value].data == c.View()[b]
    ensures r.Some? ==> c.bufs[r.value].dirty || c.bufs[r.value].data == c.disk[b]
    ensures r.Some? ==> forall j :: j in held ==> c.bufs[j] == old(c.bufs[j])
  {
    hide Busy, Coherent, ViewAt, HeldBlocks;
    ghost var was: seq<Buf> := c.bufs[..];
    HeldInside(was, held, pinned);
    Available(was, c.disk[..], held, pinned, b);
    NoneLocked(was, held, pinned, b);
    if b < c.disk.Length && b !in pinned {
      CleanView(was, c.disk[..], held, pinned, b);
    }
    r := c.Bread(ROOTDEV, b);
    if r.Some? {
      ObtainedBusy(was, c.disk[..], c.bufs[..], c.ring, r.value, b, c.bufs[r.value].data, held, pinned);
      assert held <= held + {r.value};
    }
  }

  /** Store into a held buffer and bwrite it. */
  method WriteOut(c: Cache, i: nat, data: Block, ghost held: set<nat>, ghost pinned: set<nat>)
    requires Ready(c, held, pinned) && i in held
    modifies c.disk, c.bufs
    ensures Ready(c, held, pinned - {old(c.bufs[i].blockno)})
    ensures c.disk[..] == old(c.disk[..])[old(c.bufs[i].blockno) := data]
    ensures c.View() == old(c.View())[old(c.bufs[i].blockno) := data]
    ensures c.bufs[..] == old(c.bufs[..])[i := old(c.bufs[i]).(data := data, dirty := false)]
  {
    Unpinned(c.bufs[..], c.disk[..], i, c.bufs[i].(data := data, dirty := false), pinned);
    c.Store(i, data);
    var ok := c.Bwrite(i);
  }

  /** brelse of a held buffer that agrees with the disk or is pinned. */
  method Drop(c: Cache, i: nat, ghost held: set<nat>, ghost pinned: set<nat>)
    requires Ready(c, held, pinned) && i in held
    requires c.bufs[i].dirty || c.bufs[i].data == c.disk[c.bufs[i].blockno]
    modifies c, c.bufs, c.next, c.prev
    ensures Ready(c, held - {i}, pinned) && c.View() == old(c.View())
    ensures forall j :: j in held && j != i ==> c.bufs[j] == old(c.bufs[j])
  {
    PinsKept(c.bufs[..], i, c.bufs[i].(locked := false, refcnt := 0), pinned);
    var ok := c.Brelse(i);
  }

  /** Pinned blocks and held ones leave a buffer. */
  ghost predicate Spare(pinned: set<nat>, taken: set<nat>) {
    |pinned + taken| < NBUF
  }

  /** With the blocks in `taken` held, there is a buffer for one block and then, while that is
      held too, for another. */
  ghost predicate Room(pinned: set<nat>, taken: set<nat>, first: nat, second: nat) {
    && (first in pinned || Spare(pinned, taken))
    && (second in pinned || Spare(pinned, taken + {first}))
  }

  lemma HeldMore(was: seq<Buf>, now: seq<Buf>, held: set<nat>, i: nat)
    requires |was| == |now| && i < |now| && forall j :: j in held ==> j < |was| && now[j] == was[j]
    ensures HeldBlocks(now, held + {i}) == HeldBlocks(was, held) + {now[i].blockno}
  {
  }

  lemma HeldSame(was: seq<Buf>, now: seq<Buf>, held: set<nat>)
    requires |was| == |now| && forall j :: j in held ==> j < |was| && now[j] == was[j]
    ensures HeldBlocks(now, held) == HeldBlocks(was, held)
  {
  }

  /** The loop body write_log and install_trans share: bread a log block and a home block,
      memmove one into the other, bwrite it, brelse both.  The buffers in `held` belong to other
      processes.  false is a panic. */
  method CopyBlock(c: Cache, logb: nat, home: nat, toLog: bool, ghost held: set<nat>, ghost taken: set<nat>,
        ghost pinned: set<nat>)
    returns (ok: bool)
    requires Shared(c, held, taken, pinned) && logb != home && logb !in taken && home !in taken
    modifies c, c.disk, c.bufs, c.next, c.prev
    ensures ok <==> (logb < c.disk.Length && home < c.disk.Length &&
                     Room(pinned, taken, logb, home))
    ensures !ok ==> c.disk[..] == old(c.disk[..])
    ensures ok && toLog ==>
      && Shared(c, held, taken, pinned - {logb})
      && c.disk[..] == old(c.disk[..])[logb := old(c.View())[home]]
      && c.View() == old(c.View())[logb := old(c.View())[home]]
    ensures ok && !toLog ==>
      && Shared(c, held, taken, pinned - {home})
      && c.disk[..] == old(c.disk[..])[home := old(c.View())[logb]]
      && c.View() == old(c.View())[home := old(c.View())[logb]]
  {
    hide Shared, Ready, Busy, Coherent, ViewAt, ViewOf, HeldBlocks, Reading;
    OpenShared(c, held, taken, pinned);
    ghost var was: seq<Buf>, disk: seq<Block> := c.bufs[..], c.disk[..];
    var lb := Fetch(c, logb, held, pinned);
    if lb.None? { return false; }
    HeldMore(was, c.bufs[..], held, lb.value);
    var hb := Fetch(c, home, held + {lb.value}, pinned);
    if hb.None? { return false; }
    assert held + {lb.value} + {hb.value} == held + {hb.value, lb.value} == held + {lb.value, hb.value};
    if toLog {
      WriteAndDrop(c, lb.value, hb.value, held, pinned);
      CloseShared(was, disk, c, held, taken, pinned - {logb}, logb, c.disk[logb]);
    } else {
      WriteAndDrop(c, hb.value, lb.value, held, pinned);
      CloseShared(was, disk, c, held, taken, pinned - {home}, home, c.disk[home]);
    }
    ok := true;
  }

  lemma HeldLess(c: Cache, held: set<nat>, pinned: set<nat>, i: nat)
    requires Ready(c, held, pinned) && i in held
    ensures HeldBlocks(c.bufs[..], held - {i}) == HeldBlocks(c.bufs[..], held) - {c.bufs[i].blockno}
  {
    var bufs: seq<Buf> := c.bufs[..];
    forall j | j in held && j != i ensures bufs[j].blockno != bufs[i].blockno {
      assert j in InUse(bufs) && i in InUse(bufs);
      InUseDistinct(bufs, c.disk[..], held, pinned, i, j);
    }
  }

  lemma HeldIndices(c: Cache, held: set<nat>, pinned: set<nat>)
    requires Ready(c, held, pinned)
    ensures forall j :: j in held ==> j < NBUF == c.bufs.Length
  {
  }

  /** memmove from one buffer to another, bwrite, brelse of both. */
  method WriteAndDrop(c: Cache, dst: nat, src: nat, ghost held: set<nat>, ghost pinned: set<nat>)
    requires Ready(c, held + {dst, src}, pinned) && dst != src && dst !in held && src !in held
    requires c.bufs[dst].blockno != c.bufs[src].blockno
    requires c.bufs[src].dirty || c.bufs[src].data == c.disk[c.bufs[src].blockno]
    modifies c, c.disk, c.bufs, c.next, c.prev
    ensures Ready(c, held, pinned - {old(c.bufs[dst].blockno)})
    ensures c.disk[..] == old(c.disk[..])[old(c.bufs[dst].blockno) := old(c.bufs[src].data)]
    ensures c.View() == old(c.View())[old(c.bufs[dst].blockno) := old(c.bufs[src].data)]
    ensures forall j :: j in held ==> c.bufs[j] == old(c.bufs[j])
  {
    ghost var dirty := pinned - {c.bufs[dst].blockno};
    WriteOut(c, dst, c.bufs[src].data, held + {dst, src}, pinned);
    Drop(c, src, held + {dst, src}, dirty);
    assert held + {dst, src} - {src} == held + {dst};
    Drop(c, dst, held + {dst}, dirty);
    assert held + {dst} - {dst} == held;
  }

  /** The buffers in `held` are being read: they show what is pinned or on the disk. */
  ghost predicate Reading(bufs: seq<Buf>, disk: seq<Block>, held: set<nat>) {
    forall j :: j in held ==>
      && j < |bufs| && bufs[j].blockno < |disk|
      && (bufs[j].dirty || bufs[j].data == disk[bufs[j].blockno])
  }

  /** Other processes hold the buffers in `held`, whose blocks are `taken`, for reading. */
  ghost predicate Shared(c: Cache, held: set<nat>, taken: set<nat>, pinned: set<nat>)
    reads c, c.disk, c.bufs, c.next, c.prev
  {
    Ready(c, held, pinned) && Reading(c.bufs[..], c.disk[..], held) && HeldBlocks(c.bufs[..], held) == taken
  }

  lemma OpenShared(c: Cache, held: set<nat>, taken: set<nat>, pinned: set<nat>)
    requires Shared(c, held, taken, pinned)
    ensures Ready(c, held, pinned) && Reading(c.bufs[..], c.disk[..], held) && HeldBlocks(c.bufs[..], held) == taken
    ensures c.Valid() && forall j :: j in held ==> j < NBUF == c.bufs.Length && c.bufs[j].blockno in taken
  {
  }

  /** After a write to a block that they do not hold, readers read what they read before. */
  lemma CloseShared(was: seq<Buf>, disk: seq<Block>, c: Cache, held: set<nat>, taken: set<nat>, pinned: set<nat>,
        b: nat, data: Block)
    requires Reading(was, disk, held) && HeldBlocks(was, held) == taken && b < |disk| && b !in taken
    requires Ready(c, held, pinned) && |was| == c.bufs.Length && c.disk[..] == disk[b := data]
    requires forall j :: j in held ==> c.bufs[j] == was[j]
    ensures Shared(c, held, taken, pinned)
  {
    HeldSame(was, c.bufs[..], held);
    forall j | j in held ensures was[j].blockno != b {
      assert was[j].blockno in HeldBlocks(was, held);
    }
  }

  /** Blocks that are neither pinned nor held read as they are on disk. */
  lemma SharedView(c: Cache, held: set<nat>, taken: set<nat>, pinned: set<nat>, n: nat)
    requires Shared(c, held, taken, pinned) && n < c.disk.Length && n !in pinned && n !in taken
    ensures |c.View()| == c.disk.Length && c.View()[n] == c.disk[n]
  {
    OpenShared(c, held, taken, pinned);
    CleanView(c.bufs[..], c.disk[..], held, pinned, n);
  }

  lemma OneMoreReader(was: seq<Buf>, c: Cache, held: set<nat>, taken: set<nat>, pinned: set<nat>, i: nat)
    requires Reading(was, c.disk[..], held) && HeldBlocks(was, held) == taken
    requires Ready(c, held + {i}, pinned) && |was| == c.bufs.Length && i < c.bufs.Length
    requires forall j :: j in held ==> c.bufs[j] == was[j]
    requires c.bufs[i].blockno < c.disk.Length
    requires c.bufs[i].dirty || c.bufs[i].data == c.disk[c.bufs[i].blockno]
    ensures Shared(c, held + {i}, taken + {c.bufs[i].blockno}, pinned)
  {
    HeldMore(was, c.bufs[..], held, i);
  }

  lemma OneLessReader(was: seq<Buf>, c: Cache, held: set<nat>, pinned: set<nat>, i: nat)
    requires Reading(was, c.disk[..], held) && |was| == c.bufs.Length
    requires Ready(c, held - {i}, pinned) && forall j :: j in held && j != i ==> c.bufs[j] == was[j]
    ensures Shared(c, held - {i}, HeldBlocks(was, held - {i}), pinned)
  {
    HeldSame(was, c.bufs[..], held - {i});
  }

  lemma AloneShared(c: Cache, pinned: set<nat>)
    requires Ready(c, {}, pinned)
    ensures Shared(c, {}, {}, pinned)
  {
  }

  // ----- each block write is a machine step

  function Listed(lh: seq<nat>): set<nat> {
    set x | x in lh
  }

  lemma StepShape(g: Geometry, m: State)
    requires WellFormed(g, m)
    ensures g.Valid() && Entries(g, m.lh) && |m.view| == g.nblocks
    ensures m.pc.CopyLog? ==> m.pc.tail < |m.lh|
  {
  }

  lemma CopyLogRefines(g: Geometry, m: State, t: nat, disk: seq<Block>, view: seq<Block>)
    requires WellFormed(g, m) && m.pc == CopyLog(t) && SameDisk(g, m, disk) && SameView(g, m, view)
    ensures var data := view[m.lh[t]];
      && SameDisk(g, DoCommitStep(g, m), disk[g.start + 1 + t := data])
      && SameView(g, DoCommitStep(g, m), view[g.start + 1 + t := data])
    ensures var r := DoCommitStep(g, m);
      r.lh == m.lh && r.ops == m.ops && Committing(r) && Committing(m)
  {
    assert g.Home(m.lh[t]);
  }

  lemma HeadRefines(g: Geometry, m: State, disk: seq<Block>, view: seq<Block>)
    requires WellFormed(g, m) && SameDisk(g, m, disk) && SameView(g, m, view)
    requires m.pc.Head? || m.pc.Clear?
    ensures var lh := if m.pc.Head? then m.lh else [];
      var hb := PutHead(disk[g.start], lh);
      && SameDisk(g, DoCommitStep(g, m), disk[g.start := hb])
      && SameView(g, DoCommitStep(g, m), view[g.start := hb])
  {
  }

  lemma InstallRefines(g: Geometry, m: State, t: nat, disk: seq<Block>, view: seq<Block>)
    requires Inv(g, m) && m.pc == Install(t) && SameDisk(g, m, disk) && SameView(g, m, view)
    ensures var data := disk[g.start + 1 + t];
      && SameDisk(g, DoCommitStep(g, m), disk[m.lh[t] := data])
      && SameView(g, DoCommitStep(g, m), view[m.lh[t] := data])
  {
    assert g.Home(m.lh[t]);
    assert m.view[m.lh[t]] == Committed(m)[m.lh[t]];
  }

  lemma RecInstallRefines(g: Geometry, m: State, t: nat, disk: seq<Block>)
    requires WellFormed(g, m) && m.pc == RecInstall(t) && SameDisk(g, m, disk)
    ensures SameDisk(g, DoRecoverStep(g, m), disk[m.lh[t] := disk[g.start + 1 + t]])
  {
    assert g.Home(m.lh[t]);
  }

  lemma RecClearRefines(g: Geometry, m: State, disk: seq<Block>)
    requires WellFormed(g, m) && m.pc.RecClear? && SameDisk(g, m, disk)
    ensures var d := disk[g.start := PutHead(disk[g.start], [])];
      SameDisk(g, DoRecoverStep(g, m), d) && SameView(g, DoRecoverStep(g, m), d)
  {
  }

  lemma RestShrinks(g: Geometry, lh: seq<nat>, t: nat)
    requires g.Valid() && Entries(g, lh) && t < |lh|
    ensures Listed(lh[t..]) - {lh[t]} == Listed(lh[t + 1..])
    ensures g.start + 1 + t != lh[t]
  {
    assert lh[t..] == [lh[t]] + lh[t + 1..];
    assert g.Home(lh[t]);
  }

  lemma {:induction false} DistinctCount(lh: seq<nat>)
    requires forall i, j :: 0 <= i < j < |lh| ==> lh[i] != lh[j]
    ensures |Listed(lh)| == |lh|
  {
    if lh == [] {
      assert Listed(lh) == {};
    } else {
      var n := |lh| - 1;
      DistinctCount(lh[..n]);
      assert lh == lh[..n] + [lh[n]];
      assert Listed(lh) == Listed(lh[..n]) + {lh[n]};
      assert lh[n] !in Listed(lh[..n]);
    }
  }

  ghost predicate Outside(g: Geometry, lh: seq<nat>, taken: set<nat>) {
    forall b :: b in taken ==> g.Home(b) && b !in lh
  }

  /** With the entries from t on pinned, entry t can be copied exactly if they and the blocks
      that others hold leave a buffer. */
  lemma RestRoom(g: Geometry, lh: seq<nat>, t: nat, taken: set<nat>)
    requires g.Valid() && Entries(g, lh) && t < |lh| && Outside(g, lh, taken)
    ensures Room(Listed(lh[t..]), taken, g.start + 1 + t, lh[t]) <==> Spare(Listed(lh[t..]), taken)
    ensures |Listed(lh[t..]) + taken| <= |Listed(lh) + taken|
    ensures lh[t] < g.nblocks && g.start + 1 + t < g.nblocks
    ensures g.start + 1 + t !in taken && lh[t] !in taken && g.start + 1 + t != lh[t]
  {
    assert forall i :: 0 <= i < |lh| ==> g.Home(lh[i]);
    assert lh[t] == lh[t..][0];
    Subset(Listed(lh[t..]) + taken, Listed(lh) + taken);
  }

  /** A log slot is not listed. */
  lemma SlotFree(g: Geometry, lh: seq<nat>, t: nat)
    requires g.Valid() && Entries(g, lh) && t < |lh|
    ensures g.start + 1 + t !in Listed(lh[t..]) && !g.Home(g.start + 1 + t) && g.start + 1 + t < g.nblocks
  {
    assert forall i :: 0 <= i < |lh| ==> g.Home(lh[i]);
  }

  lemma ListedRoom(g: Geometry, lh: seq<nat>, t: nat, taken: set<nat>)
    requires g.Valid() && Entries(g, lh) && t < |lh| && Outside(g, lh, taken)
    ensures Room(Listed(lh), taken, g.start + 1 + t, lh[t]) <==> Spare(Listed(lh), taken)
    ensures lh[t] < g.nblocks && g.start + 1 + t < g.nblocks
    ensures g.start + 1 + t !in taken && lh[t] !in taken && g.start + 1 + t != lh[t]
    ensures Listed(lh) - {g.start + 1 + t} == Listed(lh)
  {
    assert forall i :: 0 <= i < |lh| ==> g.Home(lh[i]);
  }

  lemma RoomAtFirst(g: Geometry, lh: seq<nat>, t: nat)
    requires g.Valid() && Entries(g, lh) && t < |lh|
    ensures Room({}, {}, g.start + 1 + t, lh[t]) && lh[t] < g.nblocks && g.start + 1 + t < g.nblocks
  {
    assert g.Home(lh[t]);
  }

  lemma EntriesFit(g: Geometry, lh: seq<nat>)
    requires g.Valid() && Entries(g, lh)
    ensures g.start !in Listed(lh) && |Listed(lh)| == |lh|
    ensures forall i :: 0 <= i < |lh| ==> lh[i] < UINT_LIMIT
    ensures forall taken: set<nat> :: Outside(g, lh, taken) ==> g.start !in taken
  {
    DistinctCount(lh);
    assert forall i :: 0 <= i < |lh| ==> g.Home(lh[i]);
  }

  lemma SameDiskFields(g: Geometry, m: State, r: State, disk: seq<Block>, view: seq<Block>)
    requires SameDisk(g, m, disk) && SameView(g, m, view)
    requires r.disk == m.disk && r.view == m.view
    ensures SameDisk(g, r, disk) && SameView(g, r, view)
  {
  }

  lemma LeaveCount(ops: map<nat, set<nat>>, op: nat)
    requires op in ops
    ensures |ops - {op}| == |ops| - 1
    ensures |ops| == 1 <==> ops - {op} == map[]
  {
    assert ops.Keys == (ops - {op}).Keys + {op};
  }

  lemma OpsBegun(g: Geometry, d: Disk, ls: seq<Label>, op: nat)
    requires CleanDisk(g, d)
    ensures op in Exec(g, Boot(d), ls).ops ==> op in Exec(g, Boot(d), ls).begun
  {
    GroupCommit.RunOps(g, d, ls);
  }

  lemma LogWriteRefines(g: Geometry, m: State, op: nat, b: nat, data: Block, disk: seq<Block>, view: seq<Block>)
    requires WellFormed(g, m) && SameDisk(g, m, disk) && SameView(g, m, view)
    requires m.pc.Idle? && op in m.ops && g.Home(b)
    ensures SameDisk(g, DoLogWrite(g, m, op, b, data), disk)
    ensures |m.lh| < g.Capacity() ==> SameView(g, DoLogWrite(g, m, op, b, data), view[b := data])
    ensures Listed(Absorb(m.lh, b)) == Listed(m.lh) + {b} && (b in Listed(m.lh) <==> b in m.lh)
    ensures |m.ops[op := m.ops[op] + {b}]| == |m.ops|
    ensures |m.lh| < g.Capacity() ==>
      var r := DoLogWrite(g, m, op, b, data);
      r.lh == Absorb(m.lh, b) && |r.ops| == |m.ops| && r.pc == m.pc
  {
    assert m.ops[op := m.ops[op] + {b}].Keys == m.ops.Keys;
  }

  /** Store into a buffer, set B_DIRTY, brelse. */
  method KeepPinned(c: Cache, i: nat, data: Block, ghost held: set<nat>, ghost pinned: set<nat>)
    requires Ready(c, held + {i}, pinned) && i !in held
    modifies c, c.disk, c.bufs, c.next, c.prev
    ensures c.disk[..] == old(c.disk[..])
    ensures Ready(c, held, pinned + {old(c.bufs[i].blockno)})
    ensures c.View() == old(c.View())[old(c.bufs[i].blockno) := data]
    ensures forall j :: j in held ==> c.bufs[j] == old(c.bufs[j])
  {
    hide Coherent, ViewAt, ViewOf, Sound, Busy, Cache.Ordered;
    HeldIndices(c, held + {i}, pinned);
    HeldLocked(c.bufs[..], held + {i}, pinned, i);
    NowPinned(c.bufs[..], i, data, held, pinned);
    ghost var was: seq<Buf> := c.bufs[..];
    c.Store(i, data);
    c.Pin(i);
    var ok := c.Brelse(i);
    assert c.bufs[..] == was[i := was[i].(data := data, dirty := true, locked := false, refcnt := 0)];
  }

  lemma HeldLocked(bufs: seq<Buf>, held: set<nat>, pinned: set<nat>, i: nat)
    requires Busy(bufs, held, pinned) && i in held
    ensures i < |bufs| && bufs[i].locked && bufs[i].valid && bufs[i].refcnt == 1
  {
  }

  lemma NowPinned(bufs: seq<Buf>, i: nat, data: Block, held: set<nat>, pinned: set<nat>)
    requires i < |bufs| && Busy(bufs, held + {i}, pinned) && i !in held
    ensures Busy(bufs[i := bufs[i].(data := data, dirty := true, locked := false, refcnt := 0)], held,
      pinned + {bufs[i].blockno})
  {
    var b := bufs[i].(data := data, dirty := true, locked := false, refcnt := 0);
    PinsKept(bufs, i, b, pinned);
    assert bufs[i := b][i].dirty;
    assert Pinned(bufs[i := b], bufs[i].blockno);
    assert forall j :: j in held ==> j in held + {i};
  }

  lemma AllClean(c: Cache)
    requires Ready(c, {}, {})
    ensures c.View() == c.disk[..]
  {
    var bufs: seq<Buf>, disk: seq<Block> := c.bufs[..], c.disk[..];
    forall n | 0 <= n < |disk| ensures ViewAt(bufs, disk, n) == disk[n] {
      CleanView(bufs, disk, {}, {}, n);
    }
  }

  class Log {
    const cache: Cache
    const start: nat
    const size: nat
    const block: array<nat>    // log.lh.block
    var n: nat                 // log.lh.n
    var outstanding: nat
    var committing: bool
    ghost const boot: Disk     // the disk the run started from
    ghost var trace: seq<Label>
    ghost var m: State         // the machine state the trace leads to
    ghost var others: set<nat> // the buffers that processes hold outside the log
    ghost var taken: set<nat>  // the blocks in them

    ghost function Geo(): Geometry {
      Geometry(start, size, cache.disk.Length)
    }

    /** initlog before recovery: the in-memory log is zeroed.  The machine has crashed or has
        just been switched on. */
    constructor (c: Cache, start: nat, size: nat, ghost b: Disk, ghost ls: seq<Label>)
      requires c.Valid()
      requires var g := Geometry(start, size, c.disk.Length);
        && g.Valid() && CleanDisk(g, b)
        && var s := Exec(g, Boot(b), ls);
           s.pc.Down? && SameDisk(g, s, c.disk[..])
      ensures cache == c && this.start == start && this.size == size && boot == b && trace == ls
      ensures Running() && m.pc.Down? && n == 0 && outstanding == 0 && !committing
      ensures block.Length == LOGSIZE && fresh(block) && others == {} && taken == {}
    {
      cache := c;
      this.start := start;
      this.size := size;
      block := new nat[LOGSIZE](_ => 0);
      n := 0;
      outstanding := 0;
      committing := false;
      boot := b;
      trace := ls;
      others, taken := {}, {};
      m := Exec(Geometry(start, size, c.disk.Length), Boot(b), ls);
    }

    /** The machine has run along and its disk is the real disk; true also after a panic. */
    ghost predicate Running()
      reads this, cache.disk
    {
      && Geo().Valid()
      && CleanDisk(Geo(), boot)
      && m == Exec(Geo(), Boot(boot), trace)
      && WellFormed(Geo(), m)
      && SameDisk(Geo(), m, cache.disk[..])
    }

    /** The in-memory log agrees with the machine, `pinned` being the dirty blocks. */
    ghost predicate Matches(pinned: set<nat>)
      reads this, cache, cache.disk, cache.bufs, cache.next, cache.prev, block
    {
      && Shared(cache, others, taken, pinned)
      && block.Length == LOGSIZE && block != cache.next && block != cache.prev
      && n <= LOGSIZE && m.lh == block[..n]
      && |m.ops| == outstanding
      && committing == Committing(m)
    }

    ghost predicate Live(pinned: set<nat>)
      reads this, cache, cache.disk, cache.bufs, cache.next, cache.prev, block
    {
      Running() && Matches(pinned) && SameView(Geo(), m, cache.View())
    }

    ghost predicate Valid()
      reads this, cache, cache.disk, cache.bufs, cache.next, cache.prev, block
    {
      Live(Listed(m.lh)) && m.pc.Idle?
    }

    /** Others hold none of the blocks that a commit uses, so it does not wait for them. */
    ghost predicate Apart()
      reads this
    {
      Outside(Geo(), m.lh, taken)
    }

    /** Let the machine take the step that the code has just taken. */
    ghost method Step(l: Label)
      requires Geo().Valid() && CleanDisk(Geo(), boot)
      requires m == Exec(Geo(), Boot(boot), trace) && WellFormed(Geo(), m)
      requires SameDisk(Geo(), Apply(Geo(), m, l), cache.disk[..])
      modifies this`m, this`trace
      ensures m == Apply(Geo(), old(m), l) && trace == old(trace) + [l]
      ensures Running()
    {
      ExecSplit(Geo(), Boot(boot), trace, [l]);
      m := Apply(Geo(), m, l);
      trace := trace + [l];
    }

    /** The copying loop of write_head. */
    method FillHead(b: Block) returns (r: Block)
      requires block.Length == LOGSIZE && n <= LOGSIZE
      requires forall i :: 0 <= i < n ==> block[i] < UINT_LIMIT
      ensures r == PutHead(b, block[..n])
    {
      r := b[0 := n];
      for i := 0 to n
        invariant r[0] == n
        invariant forall j :: 0 <= j < i ==> r[j + 1] == block[j]
        invariant forall j :: i < j < WORDS ==> r[j] == b[j]
      {
        r := r[i + 1 := block[i]];
      }
      assert forall j :: 0 <= j < WORDS ==> r[j] == PutHead(b, block[..n])[j];
    }

    /** write_head; false is a panic. */
    method WriteHead(ghost pinned: set<nat>) returns (ok: bool)
      requires Shared(cache, others, taken, pinned) && start !in pinned + taken && start < cache.disk.Length
      requires block.Length == LOGSIZE && n <= LOGSIZE && block != cache.next && block != cache.prev
      requires forall i :: 0 <= i < n ==> block[i] < UINT_LIMIT
      modifies cache, cache.disk, cache.bufs, cache.next, cache.prev
      ensures ok <==> Spare(pinned, taken)
      ensures !ok ==> cache.disk[..] == old(cache.disk[..])
      ensures ok ==> Shared(cache, others, taken, pinned)
      ensures ok ==> cache.disk[..] == old(cache.disk[..])[start := PutHead(old(cache.disk[start]), block[..n])]
      ensures ok ==> cache.View() == old(cache.View())[start := PutHead(old(cache.disk[start]), block[..n])]
    {
      hide Shared, Ready, Busy, Coherent, ViewAt, ViewOf, PutHead, HeldBlocks, Reading;
      OpenShared(cache, others, taken, pinned);
      SharedView(cache, others, taken, pinned, start);
      ghost var was: seq<Buf>, disk: seq<Block> := cache.bufs[..], cache.disk[..];
      var hb := Fetch(cache, start, others, pinned);
      if hb.None? { return false; }
      var data := FillHead(cache.bufs[hb.value].data);
      WriteOut(cache, hb.value, data, others + {hb.value}, pinned);
      assert pinned - {start} == pinned;
      Drop(cache, hb.value, others + {hb.value}, pinned);
      assert others + {hb.value} - {hb.value} == others;
      CloseShared(was, disk, cache, others, taken, pinned, start, data);
      ok := true;
    }

    /** One round of write_log. */
    method CopyOne(t: nat) returns (ok: bool)
      requires Live(Listed(m.lh)) && Apart() && m.pc == CopyLog(t)
      modifies this`m, this`trace, cache, cache.disk, cache.bufs, cache.next, cache.prev
      ensures Running()
      ensures ok <==> Spare(Listed(old(m.lh)), taken)
      ensures !ok ==> m == old(m) && trace == old(trace)
      ensures ok ==> Live(Listed(m.lh)) && m == DoCommitStep(Geo(), old(m))
    {
      hide Inv, Exec, SameDisk, SameView, Listed, Room, Ready, Busy, Coherent, ViewAt, ViewOf, Shared, Outside, Entries,
        DoCommitStep, CleanDisk, WellFormed, Committing, Spare;
      StepShape(Geo(), m);
      ListedRoom(Geo(), m.lh, t, taken);
      CopyLogRefines(Geo(), m, t, cache.disk[..], cache.View());
      ghost var pins := Listed(m.lh);
      assert pins - {start + 1 + t} == pins;
      ok := CopyBlock(cache, start + 1 + t, block[t], true, others, taken, pins);
      if ok {
        Step(CommitStep);
      }
    }

    /** write_log; false is a panic, at which point the machine is wherever the disk is. */
    method WriteLog() returns (ok: bool)
      requires Live(Listed(m.lh)) && Apart() && m.pc == CopyLog(0)
      modifies this`m, this`trace, cache, cache.disk, cache.bufs, cache.next, cache.prev
      ensures Running()
      ensures ok <==> Spare(Listed(m.lh), taken)
      ensures !ok ==> m == old(m) && trace == old(trace)
      ensures ok ==> Live(Listed(m.lh)) && m.pc.Head?
      ensures m.lh == old(m.lh) && m.ops == old(m.ops) && m.hist == old(m.hist) && m.group == old(m.group)
    {
      hide Inv, Exec, Ready, Busy, Coherent, ViewAt, ViewOf, Shared, Listed, Outside, Entries, Spare;
      ok := true;
      for tail := 0 to n
        invariant Live(Listed(m.lh)) && ok
        invariant m.pc == if tail < n then CopyLog(tail) else Head
        invariant if tail == 0 then m == old(m) && trace == old(trace) else Spare(Listed(m.lh), taken)
        invariant m.lh == old(m.lh) && m.ops == old(m.ops) && m.hist == old(m.hist) && m.group == old(m.group)
      {
        ok := CopyOne(tail);
        if !ok { return; }
      }
    }

    /** One round of install_trans during a commit; entries t and on are still pinned. */
    method InstallOne(t: nat) returns (ok: bool)
      requires m.pc == Install(t) && t < |m.lh| && Live(Listed(m.lh[t..])) && Apart()
      modifies this`m, this`trace, cache, cache.disk, cache.bufs, cache.next, cache.prev
      ensures Running()
      ensures ok <==> Spare(old(Listed(m.lh[t..])), taken)
      ensures !ok ==> m == old(m)
      ensures ok ==> m == DoCommitStep(Geo(), old(m)) && m.lh == old(m.lh) && Live(Listed(m.lh[t + 1..]))
    {
      hide Inv, Exec, SameDisk, SameView, Listed, Room, Ready, Busy, Coherent, ViewAt, ViewOf, Shared, Outside,
        Entries, Spare;
      RestRoom(Geo(), m.lh, t, taken);
      SlotFree(Geo(), m.lh, t);
      SharedView(cache, others, taken, Listed(m.lh[t..]), start + 1 + t);
      RestShrinks(Geo(), m.lh, t);
      RunInv(Geo(), boot, trace);
      InstallRefines(Geo(), m, t, cache.disk[..], cache.View());
      ok := CopyBlock(cache, start + 1 + t, block[t], false, others, taken, Listed(m.lh[t..]));
      if ok {
        Step(CommitStep);
      }
    }

    /** install_trans during a commit. */
    method InstallTrans() returns (ok: bool)
      requires Live(Listed(m.lh)) && Apart() && m.pc == Install(0) && m.lh != []
      modifies this`m, this`trace, cache, cache.disk, cache.bufs, cache.next, cache.prev
      ensures Running()
      ensures ok <==> Spare(Listed(m.lh), taken)
      ensures ok ==> Live({}) && m.pc.Clear?
      ensures m.lh == old(m.lh) && m.ops == old(m.ops) && m.hist == old(m.hist)
    {
      hide Inv, Exec, SameDisk, SameView, Ready, Busy, Coherent, ViewAt, ViewOf, Entries, Reading, HeldBlocks, Outside;
      ok := true;
      assert m.lh[0..] == m.lh;
      for tail := 0 to n
        invariant tail <= |m.lh| && Live(Listed(m.lh[tail..])) && ok
        invariant m.pc == if tail < n then Install(tail) else Clear
        invariant tail > 0 ==> Spare(Listed(m.lh), taken)
        invariant m.lh == old(m.lh) && m.ops == old(m.ops) && m.hist == old(m.hist)
      {
        RestRoom(Geo(), m.lh, tail, taken);
        ok := InstallOne(tail);
        if !ok { return; }
      }
      assert m.lh[n..] == [] && Listed([]) == {};
    }

    /** commit(): the group becomes durable at the header write, all of it at once.  false is a
        panic before the first write: the listed blocks, all of them pinned, and those that others
        are reading leave no buffer for the log block. */
    method Commit() returns (ok: bool)
      requires Live(Listed(m.lh)) && Apart() && (m.pc == CopyLog(0) || (m.pc.Finish? && m.lh == []))
      modifies this`m, this`trace, this`n, cache, cache.disk, cache.bufs, cache.next, cache.prev
      ensures Running()
      ensures ok <==> old(m.lh) == [] || Spare(Listed(old(m.lh)), taken)
      ensures !ok ==> m == old(m) && trace == old(trace)
      ensures ok ==> Live({}) && m.pc.Finish? && m.lh == [] && m.ops == old(m.ops)
      ensures ok ==> m.hist == if old(m.lh) == [] then old(m.hist) else old(m.hist) + [old(m.group)]
    {
      hide Inv, Exec, SameDisk, SameView, Ready, Busy, Coherent, ViewAt, ViewOf, Shared, Outside, Entries;
      if n == 0 {
        assert Listed(m.lh) == {};
        return true;
      }
      ok := WriteLog();
      if !ok { return; }
      ok := CommitHead();
      if !ok { return; }
      ok := InstallTrans();
      if !ok { return; }
      Subset(taken, Listed(m.lh) + taken);
      ok := ClearHead();
    }

    /** The header write that commits. */
    method CommitHead() returns (ok: bool)
      requires Live(Listed(m.lh)) && Apart() && m.pc.Head? && m.lh != []
      modifies this`m, this`trace, cache, cache.disk, cache.bufs, cache.next, cache.prev
      ensures Running()
      ensures ok <==> Spare(Listed(old(m.lh)), taken)
      ensures !ok ==> m == old(m)
      ensures ok ==> m == DoCommitStep(Geo(), old(m)) && Live(Listed(m.lh)) && m.pc == Install(0)
    {
      hide Inv, Exec, SameDisk, SameView, Entries, Listed, PutHead, Ready, Busy, Coherent, ViewAt, ViewOf, Shared,
        Outside, Spare;
      EntriesFit(Geo(), m.lh);
      HeadRefines(Geo(), m, cache.disk[..], cache.View());
      ok := WriteHead(Listed(m.lh));
      if ok {
        Step(CommitStep);
      }
    }

    /** Setting log.lh.n to zero and writing the header once more. */
    method ClearHead() returns (ok: bool)
      requires Live({}) && Apart() && m.pc.Clear?
      modifies this`m, this`trace, this`n, cache, cache.disk, cache.bufs, cache.next, cache.prev
      ensures Running()
      ensures ok <==> |taken| < NBUF
      ensures ok ==> m == DoCommitStep(Geo(), old(m)) && Live({}) && m.pc.Finish?
    {
      hide Inv, Exec, SameDisk, SameView, Listed, PutHead, Ready, Busy, Coherent, ViewAt, ViewOf, Shared;
      HeadRefines(Geo(), m, cache.disk[..], cache.View());
      n := 0;
      assert block[..n] == [] && {} + taken == taken;
      ok := WriteHead({});
      if ok {
        Step(CommitStep);
      }
    }

    /** begin_op; false means the caller goes to sleep and tries again. */
    method BeginOp(ghost op: nat) returns (admitted: bool)
      requires Valid() && op !in m.begun
      modifies this`outstanding, this`m, this`trace
      ensures Valid()
      ensures admitted <==> n + (old(outstanding) + 1) * MAXOPBLOCKS <= LOGSIZE
      ensures admitted ==> outstanding == old(outstanding) + 1 && op in m.ops
      ensures m == Wal.BeginOp(old(m), op)
      ensures admitted ==> trace == old(trace) + [Begin(op)]
    {
      hide Inv, Exec, SameDisk, SameView, Listed, Ready, Busy, Coherent, ViewAt, ViewOf;
      admitted := n + (outstanding + 1) * MAXOPBLOCKS <= LOGSIZE;
      if admitted {
        SameDiskFields(Geo(), m, Wal.BeginOp(m, op), cache.disk[..], cache.View());
        assert op in m.ops ==> op in m.begun by { OpsBegun(Geo(), boot, trace, op); }
        outstanding := outstanding + 1;
        Step(Begin(op));
      }
    }

    /** end_op up to the release of log.lock: who leaves last starts the commit. */
    method Leave(ghost op: nat) returns (last: bool)
      requires Valid() && op in m.ops
      modifies this`outstanding, this`committing, this`m, this`trace
      ensures m == Wal.EndOp(old(m), op) && Live(Listed(m.lh))
      ensures trace == old(trace) + [End(op)]
      ensures last <==> m.ops == map[]
    {
      hide Inv, Exec, SameDisk, SameView, Listed, Ready, Busy, Coherent, ViewAt, ViewOf;
      SameDiskFields(Geo(), m, Wal.EndOp(m, op), cache.disk[..], cache.View());
      LeaveCount(m.ops, op);
      outstanding := outstanding - 1;
      last := outstanding == 0;
      if last {
        committing := true;
      }
      Step(End(op));
    }

    /** end_op after the commit: begin_op may admit operations again. */
    method Reopen()
      requires Live({}) && m.pc.Finish? && m.lh == []
      modifies this`committing, this`m, this`trace
      ensures Valid() && m == DoCommitStep(Geo(), old(m))
    {
      assert Listed(m.lh) == {};
      hide Inv, Exec, SameDisk, SameView, Listed, Ready, Busy, Coherent, ViewAt, ViewOf;
      SameDiskFields(Geo(), m, DoCommitStep(Geo(), m), cache.disk[..], cache.View());
      committing := false;
      Step(CommitStep);
    }

    /** end_op; the last operation out commits the whole group.  false is a panic. */
    method EndOp(ghost op: nat) returns (ok: bool)
      requires Valid() && op in m.ops && (m.ops - {op} == map[] ==> Apart())
      modifies this`outstanding, this`committing, this`n, this`m, this`trace,
        cache, cache.disk, cache.bufs, cache.next, cache.prev
      ensures Running()
      ensures ok <==> (old(m.ops) - {op} != map[] || old(m.lh) == [] ||
                       Spare(Listed(old(m.lh)), taken))
      ensures !ok || m.ops != map[] ==> m == Wal.EndOp(old(m), op) && trace == old(trace) + [End(op)]
      ensures ok ==> Valid() && m.ops == old(m.ops) - {op}
      ensures ok ==> m.hist == if old(m.ops) - {op} == map[] && old(m.lh) != []
        then old(m.hist) + [old(m.group)] else old(m.hist)
    {
      hide Inv, Exec, SameDisk, SameView, Listed, Matches, Ready, Busy, Coherent, ViewAt, ViewOf, Shared, Outside,
        Entries, Spare;
      var last := Leave(op);
      if !last {
        return true;
      }
      ok := Commit();
      if ok {
        Reopen();
      }
    }

    /** The search and insertion of log_write: a block already listed is absorbed. */
    method Enlist(b: nat)
      requires block.Length == LOGSIZE && n < LOGSIZE
      modifies block, this`n
      ensures n <= LOGSIZE && block[..n] == Absorb(old(block[..n]), b)
    {
      var i := 0;
      while i < n && block[i] != b
        invariant 0 <= i <= n
        invariant forall j :: 0 <= j < i ==> block[j] != b
      {
        i := i + 1;
      }
      ghost var was: seq<nat> := block[..n];
      if i == n {
        assert b !in was;
        block[i] := b;
        n := n + 1;
        assert block[..n] == was + [b];
      } else {
        assert was[i] == b;
        block[i] := b;
        assert block[..n] == was;
      }
    }

    /** The use log_write is made for: bread a home block, modify it, log_write it, brelse it.
        false is a panic: no buffer, or too big a transaction. */
    method Update(b: nat, data: Block, ghost op: nat) returns (ok: bool)
      requires Valid() && op in m.ops && Geo().Home(b) && b !in taken
      modifies this`n, this`m, this`trace, block, cache, cache.disk, cache.bufs, cache.next, cache.prev
      ensures Running()
      ensures var found := b in old(m.lh) || Spare(Listed(old(m.lh)), taken);
        && (ok <==> found && old(n) < Geo().Capacity())
        && (if found then trace == old(trace) + [LogWrite(op, b, data)] else m == old(m) && trace == old(trace))
      ensures ok ==> Valid() && cache.disk[..] == old(cache.disk[..])
      ensures ok ==> m == DoLogWrite(Geo(), old(m), op, b, data)
      ensures ok ==> cache.View() == old(cache.View())[b := data]
    {
      hide Inv, Exec, SameDisk, SameView, Ready, Busy, Coherent, ViewAt, ViewOf, Shared, Spare, Listed, HeldBlocks,
        Reading,
        Cache.Ordered, DoLogWrite, Absorb, CleanDisk;
      ghost var was: seq<Buf> := cache.bufs[..];
      LogWriteRefines(Geo(), m, op, b, data, cache.disk[..], cache.View());
      OpenShared(cache, others, taken, Listed(m.lh));
      var r := Fetch(cache, b, others, Listed(m.lh));
      if r.None? {
        return false;
      }
      if n >= LOGSIZE || n >= size - 1 {
        Step(LogWrite(op, b, data));
        return false;
      }
      Enlist(b);
      KeepPinned(cache, r.value, data, others, Listed(m.lh));
      CloseShared(was, cache.disk[..], cache, others, taken, Listed(m.lh) + {b}, b, cache.disk[b]);
      Step(LogWrite(op, b, data));
      ok := true;
    }

    /** bread outside every operation, as readi does for fileread; None is a panic.  The reader
        sees what operations have logged, committed or not. */
    method Hold(b: nat) returns (r: Option<nat>)
      requires Valid() && b !in taken
      modifies this`others, this`taken, cache.disk, cache.bufs
      ensures Running() && cache.disk[..] == old(cache.disk[..])
      ensures r.Some? <==> b < cache.disk.Length && (b in m.lh || Spare(Listed(m.lh), old(taken)))
      ensures r.Some? ==> Valid() && cache.View() == old(cache.View()) && r.value < NBUF && r.value !in old(others)
      ensures r.Some? ==> others == old(others) + {r.value} && taken == old(taken) + {b}
      ensures r.Some? ==> cache.bufs[r.value].blockno == b && cache.bufs[r.value].data == cache.View()[b]
      ensures r.Some? && Geo().Home(b) ==> cache.bufs[r.value].data == m.view[b]
    {
      hide Inv, Exec, SameDisk, Ready, Busy, Coherent, ViewAt, ViewOf, HeldBlocks, Shared, Spare, Reading;
      OpenShared(cache, others, taken, Listed(m.lh));
      ghost var was: seq<Buf> := cache.bufs[..];
      r := Fetch(cache, b, others, Listed(m.lh));
      if r.Some? {
        OneMoreReader(was, cache, others, taken, Listed(m.lh), r.value);
        others, taken := others + {r.value}, taken + {b};
      }
    }

    /** brelse by such a reader. */
    method Release(i: nat)
      requires Valid() && i in others
      modifies this`others, this`taken, cache, cache.bufs, cache.next, cache.prev
      ensures Valid() && cache.View() == old(cache.View()) && others == old(others) - {i}
      ensures taken == old(taken) - {old(cache.bufs[i].blockno)}
    {
      hide Inv, Exec, SameDisk, SameView, Ready, Busy, Coherent, ViewAt, ViewOf, HeldBlocks, Listed, Shared;
      OpenShared(cache, others, taken, Listed(m.lh));
      HeldLess(cache, others, Listed(m.lh), i);
      ghost var was: seq<Buf> := cache.bufs[..];
      Drop(cache, i, others, Listed(m.lh));
      OneLessReader(was, cache, others, Listed(m.lh), i);
      others, taken := others - {i}, taken - {was[i].blockno};
    }

    /** What holds between the steps of recovery: nothing is pinned and the machine is at `pc`. */
    ghost predicate Recovering(pc: Pc)
      reads this, cache, cache.disk, cache.bufs, cache.next, cache.prev, block
    {
      && Running() && m.pc == pc && m.ops == map[]
      && Shared(cache, {}, {}, {})
      && block.Length == LOGSIZE && block != cache.next && block != cache.prev
      && outstanding == 0 && !committing && others == {} && taken == {}
      && n <= LOGSIZE && (pc.Down? || m.lh == block[..n])
    }

    /** The copying loop of read_head. */
    method LoadHead(head: Block)
      requires block.Length == LOGSIZE && GoodHead(head)
      modifies block, this`n
      ensures n <= LOGSIZE && block[..n] == HeadOf(head)
    {
      n := head[0];
      for i := 0 to n
        invariant n == head[0]
        invariant forall j :: 0 <= j < i ==> block[j] == head[j + 1]
      {
        block[i] := head[i + 1];
      }
    }

    /** read_head. */
    method ReadHead() returns (ok: bool)
      requires Recovering(Down) && Recoverable(Geo(), m.disk)
      modifies this`n, this`m, this`trace, block, cache, cache.disk, cache.bufs, cache.next, cache.prev
      ensures ok && Running()
      ensures m == DoRecoverStep(Geo(), old(m)) && m.lh == old(m.disk.head)
      ensures trace == old(trace) + [RecoverStep]
      ensures Recovering(if m.lh == [] then RecClear else RecInstall(0))
    {
      hide Exec, Inv, ViewAt, ViewOf, Ready, Busy, Coherent;
      ReadyView(cache, {}, {}, start);
      var hb := Fetch(cache, start, {}, {});
      if hb.None? { return false; }
      LoadHead(cache.bufs[hb.value].data);
      assert {} + {hb.value} == {hb.value};
      Drop(cache, hb.value, {hb.value}, {});
      assert {hb.value} - {hb.value} == {};
      Step(RecoverStep);
      ok := true;
    }

    /** One round of install_trans during recovery. */
    method RecoverOne(t: nat) returns (ok: bool)
      requires t < |m.lh| && Recovering(RecInstall(t))
      modifies this`m, this`trace, cache, cache.disk, cache.bufs, cache.next, cache.prev
      ensures ok && Running()
      ensures m == DoRecoverStep(Geo(), old(m))
      ensures trace == old(trace) + [RecoverStep]
      ensures Recovering(if t + 1 < |m.lh| then RecInstall(t + 1) else RecClear)
    {
      hide Inv, Exec, SameDisk, Ready, Busy, Coherent, ViewAt, ViewOf, Room, Entries;
      RoomAtFirst(Geo(), m.lh, t);
      ReadyView(cache, {}, {}, start + 1 + t);
      RestShrinks(Geo(), m.lh, t);
      RecInstallRefines(Geo(), m, t, cache.disk[..]);
      ok := CopyBlock(cache, start + 1 + t, block[t], false, {}, {}, {});
      if ok {
        assert {} - {block[t]} == {};
        Step(RecoverStep);
      }
    }

    /** The last two lines of recover_from_log: clear the log and open for business. */
    method RecoverClear() returns (ok: bool)
      requires Recovering(RecClear)
      modifies this`n, this`m, this`trace, cache, cache.disk, cache.bufs, cache.next, cache.prev
      ensures ok && Running()
      ensures m == DoRecoverStep(Geo(), old(m)) && Valid()
      ensures trace == old(trace) + [RecoverStep]
    {
      hide Inv, Exec, SameDisk, SameView, PutHead, Ready, Busy, Coherent, ViewAt, ViewOf;
      RecClearRefines(Geo(), m, cache.disk[..]);
      n := 0;
      ok := WriteHead({});
      if ok {
        Step(RecoverStep);
        assert block[..n] == [] && Listed(m.lh) == {};
        AllClean(cache);
      }
    }

    /** recover_from_log: the disk becomes what Recover says, and the log is empty again.
        None of its panics can happen. */
    method RecoverFromLog() returns (ok: bool)
      requires Recovering(Down)
      modifies this`n, this`m, this`trace, block, cache, cache.disk, cache.bufs, cache.next, cache.prev
      ensures ok && Running()
      ensures Valid() && m.ops == map[] && m.lh == [] && m.begun == old(m.begun)
      ensures trace == old(trace) + RecoverSteps(|old(m.disk.head)| + 2)
      ensures Recoverable(Geo(), old(m.disk)) && m.disk == Recover(Geo(), old(m.disk))
    {
      hide Exec, SameDisk, SameView, Ready, Busy, Coherent, ViewAt, ViewOf;
      RunInv(Geo(), boot, trace);
      ghost var d := m.disk;
      assert Recoverable(Geo(), d);
      hide Inv, Ready, Busy, Coherent, ViewAt, ViewOf, RecoverSteps;
      ok := ReadHead();
      if !ok { return; }
      ok := RecoverInstall(d);
      if !ok { return; }
      ok := RecoverClear();
      assert trace == old(trace) + RecoverSteps(|d.head| + 2);
    }

    /** install_trans during recovery. */
    method RecoverInstall(ghost d: Disk) returns (ok: bool)
      requires Recoverable(Geo(), d) && RecoveredUpTo(Geo(), d, 0, m) && Recovering(m.pc)
      modifies this`m, this`trace, cache, cache.disk, cache.bufs, cache.next, cache.prev
      ensures ok && Running()
      ensures RecoveredUpTo(Geo(), d, |d.head|, m) && Recovering(RecClear)
      ensures m.begun == old(m.begun) && trace == old(trace) + RecoverSteps(|d.head|)
    {
      hide Inv, Exec, SameDisk, SameView, Ready, Busy, Coherent, ViewAt, ViewOf;
      ok := true;
      for tail := 0 to n
        invariant n == |d.head| && ok
        invariant tail <= |d.head| && RecoveredUpTo(Geo(), d, tail, m)
        invariant Recovering(m.pc)
        invariant m.begun == old(m.begun) && trace == old(trace) + RecoverSteps(tail)
      {
        InstallOneMore(Geo(), d, tail, m);
        ok := RecoverOne(tail);
        if !ok { return; }
      }
    }
  }
}
