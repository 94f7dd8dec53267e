/** The on-disk free map of fs.c: one bit per block, read and written through its bytes. */
module FreeMap {
  import opened Machine
  import opened Sectors

  type Disk = seq<Sector>

  /** The superblock fields the allocator uses, and the end of the metadata. */
  datatype Layout = Layout(size: nat, bmapstart: nat, nmeta: nat) {
    predicate Valid() {
      bmapstart + size / BPB < nmeta <= size < UINT_LIMIT
    }

    /** BBLOCK: the block of the map that holds the bit of block b. */
    function MapBlock(b: nat): nat {
      b / BPB + bmapstart
    }
  }

  predicate InUse(l: Layout, disk: Disk, b: nat)
    requires l.Valid() && |disk| == l.size && b < l.size
  {
    Bit(disk[l.MapBlock(b)][b % BPB / 8], b % BPB % 8)
  }

  /** The disk after the bit of block b, which was clear, has been set. */
  function Mark(l: Layout, disk: Disk, b: nat): (r: Disk)
    requires l.Valid() && |disk| == l.size && b < l.size && !InUse(l, disk, b)
    ensures |r| == |disk|
    ensures forall x :: 0 <= x < l.size && x != l.MapBlock(b) ==> r[x] == disk[x]
  {
    var s := disk[l.MapBlock(b)];
    var i := b % BPB / 8;
    disk[l.MapBlock(b) := s[i := (s[i] as int + Pow2(b % BPB % 8)) % 256]]
  }

  /** The disk after the bit of block b, which was set, has been cleared. */
  function Clear(l: Layout, disk: Disk, b: nat): (r: Disk)
    requires l.Valid() && |disk| == l.size && b < l.size && InUse(l, disk, b)
    ensures |r| == |disk|
    ensures forall x :: 0 <= x < l.size && x != l.MapBlock(b) ==> r[x] == disk[x]
  {
    var s := disk[l.MapBlock(b)];
    var i := b % BPB / 8;
    disk[l.MapBlock(b) := s[i := (s[i] as int - Pow2(b % BPB % 8)) % 256]]
  }

  /** Different blocks have different bits. */
  lemma BitPosition(b: nat, c: nat)
    requires b / BPB == c / BPB && b % BPB / 8 == c % BPB / 8 && b % BPB % 8 == c % BPB % 8
    ensures b == c
  {
  }

  lemma EightBits()
    ensures Pow2(8) == 256
  {
  }

  lemma MarkOne(l: Layout, disk: Disk, b: nat, c: nat)
    requires l.Valid() && |disk| == l.size && b < l.size && c < l.size && !InUse(l, disk, b)
    ensures InUse(l, Mark(l, disk, b), c) == (c == b || InUse(l, disk, c))
  {
    hide Bit, Pow2;
    if l.MapBlock(b) == l.MapBlock(c) && b % BPB / 8 == c % BPB / 8 {
      EightBits();
      SetBit(disk[l.MapBlock(b)][b % BPB / 8], b % BPB % 8, c % BPB % 8, 8);
      if b % BPB % 8 == c % BPB % 8 { BitPosition(b, c); }
    }
  }

  lemma ClearOne(l: Layout, disk: Disk, b: nat, c: nat)
    requires l.Valid() && |disk| == l.size && b < l.size && c < l.size && InUse(l, disk, b)
    ensures InUse(l, Clear(l, disk, b), c) == (c != b && InUse(l, disk, c))
  {
    if l.MapBlock(b) == l.MapBlock(c) && b % BPB / 8 == c % BPB / 8 {
      ClearBit(disk[l.MapBlock(b)][b % BPB / 8], b % BPB % 8, c % BPB % 8);
      if b % BPB % 8 == c % BPB % 8 { BitPosition(b, c); }
    }
  }

  /** A write outside the map leaves every bit alone. */
  lemma OtherBlock(l: Layout, disk: Disk, x: nat, s: Sector, c: nat)
    requires l.Valid() && |disk| == l.size && l.nmeta <= x < l.size && c < l.size
    ensures InUse(l, disk[x := s], c) == InUse(l, disk, c)
  {
    assert c / BPB <= l.size / BPB;
  }
}
