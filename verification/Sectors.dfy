/** Disk sectors as bytes, the 32-bit words of index blocks and the bits of the free map. */
module Sectors {
  import opened Machine

  const BSIZE: nat := 512
  const BPB: nat := 4096          // bitmap bits per block
  const NINDIRECT: nat := 128

  type Sector = b: seq<Byte> | |b| == BSIZE witness seq(BSIZE, _ => 0)

  /** A sector as bzero leaves it. */
  function Zero(): (z: Sector)
    ensures forall i :: 0 <= i < BSIZE ==> z[i] == 0
  {
    seq(BSIZE, _ => 0)
  }

  /** Word k of a sector, little-endian. */
  function WordAt(b: Sector, k: nat): (w: nat)
    requires k < NINDIRECT
  {
    b[4 * k] as int + 0x100 * (b[4 * k + 1] as int) +
    0x1_0000 * (b[4 * k + 2] as int) + 0x100_0000 * (b[4 * k + 3] as int)
  }

  /** Byte i of a word. */
  function ByteOf(w: nat, i: nat): (x: Byte)
    requires i < 4
  {
    (if i == 0 then w else if i == 1 then w / 0x100 else if i == 2 then w / 0x1_0000 else w / 0x100_0000) % 0x100
  }

  lemma ByteOfSum(w: nat)
    requires w < UINT_LIMIT
    ensures ByteOf(w, 0) as int + 0x100 * (ByteOf(w, 1) as int) +
            0x1_0000 * (ByteOf(w, 2) as int) + 0x100_0000 * (ByteOf(w, 3) as int) == w
  {
    var a := w / 0x100;
    var b := a / 0x100;
    assert w / 0x1_0000 == b;
    assert w / 0x100_0000 == b / 0x100;
  }

  /** The sector after word k has been set to w. */
  function SetWord(b: Sector, k: nat, w: nat): (r: Sector)
    requires k < NINDIRECT && w < UINT_LIMIT
    ensures forall i {:trigger r[i]} :: 0 <= i < BSIZE ==>
      r[i] == if 4 * k <= i < 4 * k + 4 then ByteOf(w, i - 4 * k) else b[i]
  {
    b[..4 * k] + [ByteOf(w, 0), ByteOf(w, 1), ByteOf(w, 2), ByteOf(w, 3)] + b[4 * k + 4..]
  }

  lemma WordSetWord(b: Sector, k: nat, w: nat, j: nat)
    requires k < NINDIRECT && w < UINT_LIMIT && j < NINDIRECT
    ensures WordAt(SetWord(b, k, w), j) == if j == k then w else WordAt(b, j)
  {
    hide SetWord, ByteOf;
    if j == k {
      ByteOfSum(w);
    }
  }

  lemma ZeroWord(k: nat)
    requires k < NINDIRECT
    ensures WordAt(Zero(), k) == 0
  {
  }

  // ----- bits

  function Pow2(k: nat): (p: nat)
    ensures 0 < p
  {
    if k == 0 then 1 else 2 * Pow2(k - 1)
  }

  /** Whether x & (1 << k) is not zero. */
  predicate Bit(x: nat, k: nat) {
    if k == 0 then x % 2 == 1 else Bit(x / 2, k - 1)
  }

  /** Setting a clear bit, x | (1 << k), changes that bit only and stays within n bits. */
  lemma {:induction false} SetBit(x: nat, k: nat, j: nat, n: nat)
    requires k < n && j < n && !Bit(x, k) && x < Pow2(n)
    ensures x + Pow2(k) < Pow2(n)
    ensures Bit(x + Pow2(k), j) == (j == k || Bit(x, j))
  {
    if k > 0 {
      SetBit(x / 2, k - 1, if j > 0 then j - 1 else 0, n - 1);
      assert (x + Pow2(k)) / 2 == x / 2 + Pow2(k - 1);
    } else {
      assert (x + 1) / 2 == x / 2;
      Even(x, n);
    }
  }

  lemma Even(x: nat, n: nat)
    requires 0 < n && x < Pow2(n) && x % 2 == 0
    ensures x + 1 < Pow2(n)
  {
  }

  /** Clearing a set bit, x & ~(1 << k), changes that bit only. */
  lemma {:induction false} ClearBit(x: nat, k: nat, j: nat)
    requires Bit(x, k)
    ensures Pow2(k) <= x
    ensures Bit(x - Pow2(k), j) == (j != k && Bit(x, j))
  {
    if k > 0 {
      ClearBit(x / 2, k - 1, if j > 0 then j - 1 else 0);
      assert (x - Pow2(k)) / 2 == x / 2 - Pow2(k - 1);
    } else {
      assert (x - 1) / 2 == x / 2;
    }
  }
}
