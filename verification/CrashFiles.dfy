/** Files over the log: the volume that the home blocks of a logged disk hold, and what a crash
    leaves of the calls that wrote it. */
module CrashFiles {
  import opened Machine
  import opened Blocks
  import Wal
  import CrashSafety
  import GroupCommit
  import opened Sectors
  import opened FreeMap
  import opened InodeBlocks
  import opened FileRuns

  /** Words of a dinode: two of type, device and links, the size, then the addresses. */
  const DINODE: nat := 16
  const IPB: nat := 8

  /** A disk with a log: the layout of its volume, where the inodes are, and the log area, which
      lies before all of that. */
  datatype Place = Place(l: Layout, inodestart: nat, ninodes: nat, g: Wal.Geometry) {
    predicate Valid() {
      && l.Valid() && g.Valid() && g.nblocks == l.size
      && g.start + g.size <= inodestart && inodestart + ninodes / IPB < l.bmapstart
    }
  }

  /** The bytes of a block. */
  function SectorOf(b: Block): Sector {
    seq(BSIZE, k requires 0 <= k < BSIZE => ByteOf(b[k / 4], k % 4))
  }

  /** IBLOCK: the block that holds inode i. */
  function InodeBlock(pl: Place, i: nat): (n: nat)
    requires pl.Valid() && i < pl.ninodes
    ensures pl.g.start + pl.g.size <= n < pl.l.size
  {
    assert i / 8 <= pl.ninodes / 8;
    pl.inodestart + i / IPB
  }

  /** Inode i as its inode block holds it. */
  function InodeAt(pl: Place, d: seq<Block>, i: nat): Inode
    requires pl.Valid() && |d| == pl.l.size && i < pl.ninodes
  {
    var b := d[InodeBlock(pl, i)];
    var w := i % IPB * DINODE;
    Inode(b[w + 2], b[w + 3..w + DINODE])
  }

  /** The volume on the disk; the log's own blocks are no part of it. */
  function VolumeOf(pl: Place, d: seq<Block>): (fs: Fs)
    requires pl.Valid() && |d| == pl.l.size
    ensures |fs.disk| == |d| && |fs.inodes| == pl.ninodes
  {
    Fs(seq(|d|, b requires 0 <= b < |d| => if pl.g.Home(b) then SectorOf(d[b]) else Zero()),
       seq(pl.ninodes, i requires 0 <= i < pl.ninodes => InodeAt(pl, d, i)))
  }

  /** Only home blocks matter. */
  lemma SameVolume(pl: Place, a: seq<Block>, b: seq<Block>)
    requires pl.Valid() && Wal.SameHome(pl.g, a, b)
    ensures VolumeOf(pl, a) == VolumeOf(pl, b)
  {
    hide SectorOf, InodeAt;
    forall i | 0 <= i < pl.ninodes ensures InodeAt(pl, a, i) == InodeAt(pl, b, i) {
      SameInode(pl, a, b, i);
    }
    assert VolumeOf(pl, a).disk == VolumeOf(pl, b).disk;
    assert VolumeOf(pl, a).inodes == VolumeOf(pl, b).inodes;
  }

  lemma SameInode(pl: Place, a: seq<Block>, b: seq<Block>, i: nat)
    requires pl.Valid() && Wal.SameHome(pl.g, a, b) && i < pl.ninodes
    ensures InodeAt(pl, a, i) == InodeAt(pl, b, i)
  {
    var n := InodeBlock(pl, i);
    assert pl.g.Home(n) && a[n] == b[n];
  }

  /** The volume on d is in order and its files are c. */
  ghost predicate Holds(pl: Place, d: seq<Block>, c: seq<seq<Byte>>) {
    && pl.Valid() && |d| == pl.l.size
    && Sound(pl.l, VolumeOf(pl, d)) && Files(VolumeOf(pl, d)) == c
  }

  /** The writes of group i, made where they were committed, carry out the calls. */
  ghost predicate CarriesOut(pl: Place, d: seq<Block>, hist: seq<seq<Wal.Write>>, i: nat, calls: seq<Call>)
    requires i < |hist|
  {
    forall c :: Holds(pl, Wal.ReplayAll(d, hist[..i]), c) ==>
      Holds(pl, Wal.Replay(Wal.ReplayAll(d, hist[..i]), hist[i]), AfterAll(c, calls))
  }

  function AfterGroups(c: seq<seq<Byte>>, groups: seq<seq<Call>>): seq<seq<Byte>> {
    if groups == [] then c else AfterAll(AfterGroups(c, groups[..|groups| - 1]), groups[|groups| - 1])
  }

  lemma {:induction false} GroupsHold(pl: Place, d: seq<Block>, c: seq<seq<Byte>>, hist: seq<seq<Wal.Write>>,
        groups: seq<seq<Call>>, n: nat)
    requires Holds(pl, d, c) && |groups| == |hist| && n <= |hist|
    requires forall i :: 0 <= i < |hist| ==> CarriesOut(pl, d, hist, i, groups[i])
    ensures Holds(pl, Wal.ReplayAll(d, hist[..n]), AfterGroups(c, groups[..n]))
  {
    hide Holds, AfterAll;
    if n > 0 {
      GroupsHold(pl, d, c, hist, groups, n - 1);
      assert CarriesOut(pl, d, hist, n - 1, groups[n - 1]);
      assert hist[..n][..n - 1] == hist[..n - 1] && groups[..n][..n - 1] == groups[..n - 1];
    }
  }

  /** The books of the volume survive every crash if every committed group keeps them. */
  lemma BooksSurviveCrash(pl: Place, d: Wal.Disk, ls: seq<Wal.Label>)
    requires pl.Valid() && Wal.CleanDisk(pl.g, d) && FsOK(pl.l, VolumeOf(pl, d.blocks), {})
    requires var hist := Wal.Exec(pl.g, Wal.Boot(d), ls).hist;
      forall i :: 0 <= i < |hist| ==> GroupCommit.Keeps(BooksOK(pl), d.blocks, hist, i)
    ensures var s := Wal.Exec(pl.g, Wal.Boot(d), ls);
      && Wal.Recoverable(pl.g, s.disk)
      && FsOK(pl.l, VolumeOf(pl, Wal.Recover(pl.g, s.disk).blocks), {})
  {
    hide Wal.Exec, FsOK, VolumeOf;
    forall a, b | Wal.SameHome(pl.g, a, b) && BooksOK(pl)(b) ensures BooksOK(pl)(a) {
      SameVolume(pl, a, b);
    }
    GroupCommit.InvariantSurvivesCrash(pl.g, d, ls, BooksOK(pl));
  }

  ghost function BooksOK(pl: Place): seq<Block> -> bool
    requires pl.Valid()
  {
    d => |d| == pl.l.size && FsOK(pl.l, VolumeOf(pl, d), {})
  }

  /** After any crash and recovery the files are exactly what the calls of the committed groups
      make of the first ones, in order: no call is lost once committed, none is half done. */
  lemma FilesSurviveCrash(pl: Place, d: Wal.Disk, ls: seq<Wal.Label>, c: seq<seq<Byte>>, groups: seq<seq<Call>>)
    requires Wal.CleanDisk(pl.g, d) && Holds(pl, d.blocks, c)
    requires |groups| == |Wal.Exec(pl.g, Wal.Boot(d), ls).hist|
    requires var hist := Wal.Exec(pl.g, Wal.Boot(d), ls).hist;
      forall i :: 0 <= i < |hist| ==> CarriesOut(pl, d.blocks, hist, i, groups[i])
    ensures var s := Wal.Exec(pl.g, Wal.Boot(d), ls);
      Wal.Recoverable(pl.g, s.disk) && Holds(pl, Wal.Recover(pl.g, s.disk).blocks, AfterGroups(c, groups))
  {
    hide Wal.Exec, Wal.Recover, Wal.ReplayAll, CarriesOut, Sound, VolumeOf, AfterGroups;
    var s := Wal.Exec(pl.g, Wal.Boot(d), ls);
    GroupsHold(pl, d.blocks, c, s.hist, groups, |s.hist|);
    assert s.hist[..|s.hist|] == s.hist && groups[..|s.hist|] == groups;
    CrashSafety.CrashAtomicity(pl.g, d, ls);
    SameVolume(pl, Wal.Recover(pl.g, s.disk).blocks, Wal.ReplayAll(d.blocks, s.hist));
  }
}
