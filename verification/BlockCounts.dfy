/** How many blocks are free: what the books of a volume say about numbers. */
module BlockCounts {
  import opened Machine
  import opened Sectors
  import opened FreeMap
  import opened InodeBlocks

  // ----- sets and their sizes

  ghost function UpTo(n: nat): (s: set<nat>)
    ensures |s| == n && forall b: nat :: b in s <==> b < n
  {
    if n == 0 then {} else UpTo(n - 1) + {n - 1}
  }

  lemma UnionCount(a: set<nat>, b: set<nat>)
    requires a !! b
    ensures |a + b| == |a| + |b|
  {
  }

  /** What b adds to a, counted outside f. */
  lemma MoreOutside(a: set<nat>, b: set<nat>, f: set<nat>)
    ensures |(a + b) - f| == |a - f| + |b - (f + a)|
  {
    assert (a + b) - f == (a - f) + (b - (f + a));
    UnionCount(a - f, b - (f + a));
  }

  lemma {:induction false} SubsetCount(a: set<nat>, b: set<nat>)
    requires a <= b
    ensures |a| <= |b|
  {
    if a != {} {
      var x :| x in a;
      SubsetCount(a - {x}, b - {x});
    }
  }

  // ----- free blocks and filled slots

  ghost function FreeSet(l: Layout, disk: Disk): set<nat>
    requires l.Valid() && |disk| == l.size
  {
    set b: nat | b < l.size && !InUse(l, disk, b)
  }

  /** The number of free blocks. */
  ghost function FreeCount(l: Layout, disk: Disk): nat
    requires l.Valid() && |disk| == l.size
  {
    |FreeSet(l, disk)|
  }

  /** The slots of inode i that hold a block. */
  function Filled(fs: Fs, i: nat): set<nat> {
    set s: nat | s < NSLOTS && Addr(fs, i, s) != 0
  }

  /** All of them, over all inodes. */
  function Taken(fs: Fs): set<(nat, nat)> {
    set i: nat, s: nat | i < |fs.inodes| && s < NSLOTS && Addr(fs, i, s) != 0 :: (i, s)
  }

  lemma TakenIs(fs: Fs, i: nat, s: nat)
    ensures (i, s) in Taken(fs) <==> i < |fs.inodes| && s in Filled(fs, i)
  {
  }

  ghost function BlocksOf(fs: Fs, pairs: set<(nat, nat)>): set<nat> {
    set p | p in pairs :: Addr(fs, p.0, p.1)
  }

  /** One owner each: as many blocks as slots. */
  lemma {:induction false} OneBlockEach(fs: Fs, pairs: set<(nat, nat)>)
    requires OnceEach(fs) && pairs <= Taken(fs)
    ensures |BlocksOf(fs, pairs)| == |pairs|
    decreases pairs
  {
    hide Addr, Taken;
    if pairs == {} {
      assert BlocksOf(fs, pairs) == {};
    } else {
      var p :| p in pairs;
      OneBlockEach(fs, pairs - {p});
      assert BlocksOf(fs, pairs) == BlocksOf(fs, pairs - {p}) + {Addr(fs, p.0, p.1)};
      forall q | q in pairs - {p} ensures Addr(fs, q.0, q.1) != Addr(fs, p.0, p.1) {
        TakenIs(fs, p.0, p.1);
        TakenIs(fs, q.0, q.1);
      }
    }
  }

  /** A block is metadata, free, or in a slot, and only one of these. */
  lemma OneOfThree(l: Layout, fs: Fs, b: nat)
    requires FsOK(l, fs, {})
    ensures var free, owned := b in FreeSet(l, fs.disk), b in BlocksOf(fs, Taken(fs));
      && (b < l.size <==> b < l.nmeta || free || owned)
      && !(b < l.nmeta && free) && !(b < l.nmeta && owned) && !(free && owned)
  {
    hide Addr, InUse, Taken, BlocksOf, OnceEach;
    OwnedTaken(fs, b);
    if b != 0 && Owned(fs, b) {
      OwnedInside(l, fs, b);
    }
  }

  /** Conservation: the three kinds of blocks add up. */
  lemma BlocksAdd(l: Layout, fs: Fs)
    requires FsOK(l, fs, {})
    ensures FreeCount(l, fs.disk) + l.nmeta + |Taken(fs)| == l.size
  {
    hide Addr, Taken, BlocksOf, FreeSet, Conserved, OnceEach;
    OneBlockEach(fs, Taken(fs));
    var free, owned, meta := FreeSet(l, fs.disk), BlocksOf(fs, Taken(fs)), UpTo(l.nmeta);
    forall b: nat
      ensures b in UpTo(l.size) <==> b in meta || b in free || b in owned
      ensures !(b in meta && b in free) && !(b in meta && b in owned) && !(b in free && b in owned)
    {
      OneOfThree(l, fs, b);
    }
    ThreeParts(UpTo(l.size), free, meta, owned);
  }

  lemma ThreeParts(all: set<nat>, a: set<nat>, b: set<nat>, c: set<nat>)
    requires forall x :: x in all <==> x in b || x in a || x in c
    requires forall x :: !(x in b && x in a) && !(x in b && x in c) && !(x in a && x in c)
    ensures |all| == |a| + |b| + |c|
  {
    assert all == a + b + c;
    UnionCount(a, b);
    UnionCount(a + b, c);
  }

  lemma OwnedTaken(fs: Fs, b: nat)
    ensures b in BlocksOf(fs, Taken(fs)) <==> b != 0 && Owned(fs, b)
  {
    hide Addr;
    if b in BlocksOf(fs, Taken(fs)) {
      var p :| p in Taken(fs) && Addr(fs, p.0, p.1) == b;
      assert Owns(fs, p.0, p.1, b);
    }
    if b != 0 && Owned(fs, b) {
      var i, s :| Owns(fs, i, s, b);
      TakenIs(fs, i, s);
    }
  }

  lemma OwnedInside(l: Layout, fs: Fs, b: nat)
    requires FsOK(l, fs, {}) && b != 0 && Owned(fs, b)
    ensures l.nmeta <= b < l.size && InUse(l, fs.disk, b)
  {
    hide Addr, InUse;
  }

  /** Inode i has gained exactly the slots in `more`, and nobody else anything. */
  ghost predicate Gained(fs: Fs, gs: Fs, i: nat, more: set<nat>) {
    && |gs.inodes| == |fs.inodes| && i < |fs.inodes|
    && Filled(gs, i) == Filled(fs, i) + more && more !! Filled(fs, i)
    && forall j :: 0 <= j < |fs.inodes| && j != i ==> Filled(gs, j) == Filled(fs, j)
  }

  lemma GainedCount(l: Layout, fs: Fs, gs: Fs, i: nat, more: set<nat>)
    requires FsOK(l, fs, {}) && FsOK(l, gs, {}) && Gained(fs, gs, i, more)
    ensures FreeCount(l, gs.disk) + |more| == FreeCount(l, fs.disk)
  {
    hide FsOK, Filled, FreeCount;
    BlocksAdd(l, fs);
    BlocksAdd(l, gs);
    var pairs := PairsOf(i, more);
    PairsCount(i, more);
    forall p: (nat, nat) ensures p in Taken(gs) <==> p in Taken(fs) || p in pairs {
      TakenIs(fs, p.0, p.1);
      TakenIs(gs, p.0, p.1);
    }
    assert Taken(gs) == Taken(fs) + pairs;
    forall p | p in pairs ensures p !in Taken(fs) {
      TakenIs(fs, p.0, p.1);
    }
  }

  ghost function PairsOf(i: nat, slots: set<nat>): set<(nat, nat)> {
    set s | s in slots :: (i, s)
  }

  lemma {:induction false} PairsCount(i: nat, slots: set<nat>)
    ensures |PairsOf(i, slots)| == |slots|
  {
    if slots == {} {
      assert PairsOf(i, slots) == {};
    } else {
      var s :| s in slots;
      PairsCount(i, slots - {s});
      assert PairsOf(i, slots) == PairsOf(i, slots - {s}) + {(i, s)};
    }
  }

  // ----- the slots a range of bytes needs

  /** The slots bmap may fill on the way to file block bn. */
  function BmapSlots(bn: nat): set<nat> {
    if bn < NDIRECT then {bn} else {NDIRECT, bn + 1}
  }

  /** The blocks that reaching file block bn of inode i would allocate. */
  function Missing(fs: Fs, i: nat, bn: nat): nat {
    (if bn >= NDIRECT && Addr(fs, i, NDIRECT) == 0 then 1 else 0) + (if Addr(fs, i, SlotOf(bn)) == 0 then 1 else 0)
  }

  lemma OneLacking(s: nat, there: set<nat>)
    ensures |{s} - there| == if s in there then 0 else 1
  {
    assert {s} - there == if s in there then {} else {s};
  }

  lemma MissingCount(fs: Fs, i: nat, bn: nat)
    requires bn < MAXFILE
    ensures |BmapSlots(bn) - Filled(fs, i)| == Missing(fs, i, bn)
  {
    hide Addr, Filled;
    var s, there := SlotOf(bn), Filled(fs, i);
    FilledAt(fs, i, s);
    FilledAt(fs, i, NDIRECT);
    OneLacking(s, there);
    if bn >= NDIRECT {
      OneLacking(NDIRECT, there);
      assert BmapSlots(bn) - there == ({NDIRECT} - there) + ({s} - there);
      UnionCount({NDIRECT} - there, {s} - there);
    }
  }

  lemma FilledAt(fs: Fs, i: nat, s: nat)
    requires s < NSLOTS
    ensures s in Filled(fs, i) <==> Addr(fs, i, s) != 0
  {
    hide Addr;
  }

  /** The slots behind the bytes from lo up to hi, the indirect block included. */
  function SlotsFor(lo: nat, hi: nat): set<nat> {
    if hi <= lo then {} else SlotsFor(lo, hi - 1) + BmapSlots((hi - 1) / BSIZE)
  }

  lemma {:induction false} SlotsChunk(lo: nat, at: nat, m: nat)
    requires lo <= at && 0 < m && at % BSIZE + m <= BSIZE
    ensures SlotsFor(lo, at + m) == SlotsFor(lo, at) + BmapSlots(at / BSIZE)
  {
    hide BmapSlots;
    assert (at + m - 1) / BSIZE == at / BSIZE;
    if m > 1 {
      SlotsChunk(lo, at, m - 1);
      assert at + m - 1 == at + (m - 1);
    }
  }

  lemma {:induction false} SlotsGrow(lo: nat, at: nat, hi: nat)
    requires lo <= at <= hi
    ensures SlotsFor(lo, at) <= SlotsFor(lo, hi)
    decreases hi
  {
    hide BmapSlots;
    if at < hi {
      SlotsGrow(lo, at, hi - 1);
    }
  }
}
