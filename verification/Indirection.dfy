/** The file layouts with a second and a third level of index blocks.  An index block has k
    entries that lead to a further level, at its end, and NINDIRECT - k that lead to data.  A
    path is the slot taken in the inode followed by the slots taken in the index blocks. */
module Indirection {
  const NDIRECT: nat := 12
  const NINDIRECT: nat := 128

  type Fanout = k: nat | k <= NINDIRECT

  type Path = seq<nat>

  // ----- arithmetic with a variable divisor

  function Scale(q: nat, n: nat): nat {
    q * n
  }

  function Entry(b: nat, n: nat): nat
    requires n > 0
  {
    b / n
  }

  function Within(b: nat, n: nat): nat
    requires n > 0
  {
    b % n
  }

  lemma AtLeastOnce(c: int, n: nat)
    requires c >= 1
    ensures c * n >= n
  {
  }

  lemma Difference(a: int, b: int, n: int)
    ensures (a - b) * n == a * n - b * n
  {
  }

  lemma Quotient(x: nat, n: nat)
    requires n > 0
    ensures x == (x / n) * n + x % n && x % n < n && x / n >= 0
  {
  }

  lemma Unique(n: nat, a: nat, m: nat, q: nat, r: nat)
    requires m < n && r < n && a * n + m == q * n + r
    ensures a == q && m == r
  {
    Difference(a, q, n);
    Difference(q, a, n);
    if a > q {
      AtLeastOnce(a - q, n);
    }
    if q > a {
      AtLeastOnce(q - a, n);
    }
  }

  lemma DivUnique(n: nat, q: nat, r: nat)
    requires r < n
    ensures Entry(Scale(q, n) + r, n) == q && Within(Scale(q, n) + r, n) == r
  {
    var x := q * n + r;
    Quotient(x, n);
    Unique(n, x / n, x % n, q, r);
  }

  lemma ScaleBelow(q: nat, k: nat, n: nat, r: nat)
    requires q < k && r < n
    ensures Scale(q, n) + r < Scale(k, n)
  {
    Difference(k, q, n);
    AtLeastOnce(k - q, n);
  }

  lemma DivBelow(x: nat, k: nat, n: nat)
    requires n > 0 && x < k * n
    ensures x / n < k
  {
    Quotient(x, n);
    Difference(x / n, k, n);
    if x / n > k {
      AtLeastOnce(x / n - k, n);
    }
  }

  // ----- two levels

  function DoubleMax(k: Fanout): nat {
    k * NINDIRECT + (NINDIRECT - k) + NDIRECT
  }

  /** The slots bmap looks in. */
  function DoublePath(k: Fanout, bn: nat): Path {
    if bn < NDIRECT then [bn]
    else
      var b := bn - NDIRECT;
      var ndirectib := NINDIRECT - k;
      if b < ndirectib then [NDIRECT, b]
      else [NDIRECT, ndirectib + (b - ndirectib) / NINDIRECT, (b - ndirectib) % NINDIRECT]
  }

  /** The places where the tree has room for the address of a data block. */
  predicate DoubleLeaf(k: Fanout, p: Path) {
    var d := NINDIRECT - k;
    || (|p| == 1 && p[0] < NDIRECT)
    || (|p| == 2 && p[0] == NDIRECT && p[1] < d)
    || (|p| == 3 && p[0] == NDIRECT && d <= p[1] < NINDIRECT && p[2] < NINDIRECT)
  }

  function DoubleBlock(k: Fanout, p: Path): nat
    requires DoubleLeaf(k, p)
  {
    var d := NINDIRECT - k;
    if |p| == 1 then p[0]
    else if |p| == 2 then NDIRECT + p[1]
    else NDIRECT + d + (p[1] - d) * NINDIRECT + p[2]
  }

  /** File blocks below the limit and leaf slots correspond one to one. */
  lemma DoubleBijection(k: Fanout)
    ensures forall bn :: 0 <= bn < DoubleMax(k) ==>
      DoubleLeaf(k, DoublePath(k, bn)) && DoubleBlock(k, DoublePath(k, bn)) == bn
    ensures forall p :: DoubleLeaf(k, p) ==>
      DoubleBlock(k, p) < DoubleMax(k) && DoublePath(k, DoubleBlock(k, p)) == p
  {
    forall bn | 0 <= bn < DoubleMax(k)
      ensures DoubleLeaf(k, DoublePath(k, bn)) && DoubleBlock(k, DoublePath(k, bn)) == bn
    {
      DoubleThere(k, bn);
    }
    forall p | DoubleLeaf(k, p)
      ensures DoubleBlock(k, p) < DoubleMax(k) && DoublePath(k, DoubleBlock(k, p)) == p
    {
      DoubleBack(k, p);
    }
  }

  lemma DoubleThere(k: Fanout, bn: nat)
    requires bn < DoubleMax(k)
    ensures DoubleLeaf(k, DoublePath(k, bn)) && DoubleBlock(k, DoublePath(k, bn)) == bn
  {
  }

  lemma DoubleBack(k: Fanout, p: Path)
    requires DoubleLeaf(k, p)
    ensures DoubleBlock(k, p) < DoubleMax(k) && DoublePath(k, DoubleBlock(k, p)) == p
  {
  }

  // ----- three levels

  /** How many data blocks hang below one entry of the first level. */
  function Subtree(k: Fanout): (n: nat)
    ensures n >= NINDIRECT
  {
    NINDIRECT * k + (NINDIRECT - k)
  }

  function TripleMax(k: Fanout): nat {
    (k * k) * NINDIRECT + (NINDIRECT - k) * k + (NINDIRECT - k) + NDIRECT
  }

  /** The last slot is the remainder of the whole offset, not of what follows the direct entries. */
  function TriplePath(k: Fanout, bn: nat): Path {
    if bn < NDIRECT then [bn]
    else
      var b := bn - NDIRECT;
      var ndirectib := NINDIRECT - k;
      if b < ndirectib then [NDIRECT, b]
      else
        var index := Entry(b - ndirectib, Subtree(k));
        var offset := Within(b - ndirectib, Subtree(k));
        if offset < ndirectib then [NDIRECT, ndirectib + index, offset]
        else
          [NDIRECT, ndirectib + index, ndirectib + (offset - ndirectib) / NINDIRECT, offset % NINDIRECT]
  }

  predicate TripleLeaf(k: Fanout, p: Path) {
    var d := NINDIRECT - k;
    || (|p| == 1 && p[0] < NDIRECT)
    || (|p| == 2 && p[0] == NDIRECT && p[1] < d)
    || (|p| == 3 && p[0] == NDIRECT && d <= p[1] < NINDIRECT && p[2] < d)
    || (|p| == 4 && p[0] == NDIRECT && d <= p[1] < NINDIRECT && d <= p[2] < NINDIRECT && p[3] < NINDIRECT)
  }

  /** The offset below one entry of the first level that leads to a path. */
  function TripleOffset(k: Fanout, p: Path): nat
    requires TripleLeaf(k, p) && |p| >= 3
  {
    var d := NINDIRECT - k;
    if |p| == 3 then p[2] else d + (p[2] - d) * NINDIRECT + (p[3] - d) % NINDIRECT
  }

  function TripleBlock(k: Fanout, p: Path): nat
    requires TripleLeaf(k, p)
  {
    var d := NINDIRECT - k;
    if |p| == 1 then p[0]
    else if |p| == 2 then NDIRECT + p[1]
    else NDIRECT + d + Scale(p[1] - d, Subtree(k)) + TripleOffset(k, p)
  }

  lemma TripleSize(k: Fanout)
    ensures TripleMax(k) == Scale(k, Subtree(k)) + (NINDIRECT - k) + NDIRECT
    ensures TripleMax(k) < 0x1_0000_0000
  {
    Difference(NINDIRECT, k, k);
    SquareBound(k);
    calc {
      Scale(k, Subtree(k));
      k * (NINDIRECT * k + (NINDIRECT - k));
      k * (NINDIRECT * k) + k * (NINDIRECT - k);
      (k * k) * NINDIRECT + (NINDIRECT - k) * k;
    }
  }

  lemma SquareBound(k: Fanout)
    ensures k * k <= NINDIRECT * NINDIRECT && (NINDIRECT - k) * k <= NINDIRECT * NINDIRECT
  {
    assert k * k <= NINDIRECT * k <= NINDIRECT * NINDIRECT;
    assert (NINDIRECT - k) * k <= NINDIRECT * k;
  }

  /** File blocks below the limit and leaf slots correspond one to one, the rotated last slot
      included. */
  lemma TripleBijection(k: Fanout)
    ensures forall bn :: 0 <= bn < TripleMax(k) ==>
      TripleLeaf(k, TriplePath(k, bn)) && TripleBlock(k, TriplePath(k, bn)) == bn
    ensures forall p :: TripleLeaf(k, p) ==>
      TripleBlock(k, p) < TripleMax(k) && TriplePath(k, TripleBlock(k, p)) == p
  {
    forall bn | 0 <= bn < TripleMax(k)
      ensures TripleLeaf(k, TriplePath(k, bn)) && TripleBlock(k, TriplePath(k, bn)) == bn
    {
      TripleThere(k, bn);
    }
    forall p | TripleLeaf(k, p)
      ensures TripleBlock(k, p) < TripleMax(k) && TriplePath(k, TripleBlock(k, p)) == p
    {
      TripleBack(k, p);
    }
  }

  /** The part below one entry of the first level, in both directions. */
  lemma OffsetThere(k: Fanout, offset: nat)
    requires NINDIRECT - k <= offset < Subtree(k)
    ensures var d := NINDIRECT - k;
      var j, o := (offset - d) / NINDIRECT, offset % NINDIRECT;
      j < k && offset == d + j * NINDIRECT + (o - d) % NINDIRECT
  {
    var d := NINDIRECT - k;
    var j, r := (offset - d) / NINDIRECT, (offset - d) % NINDIRECT;
    assert (offset % NINDIRECT - d) % NINDIRECT == r by {
      Rotate(j, d, r);
    }
  }

  /** Rotating by d and back. */
  lemma Rotate(j: nat, d: nat, r: nat)
    requires d <= NINDIRECT && r < NINDIRECT
    ensures ((d + j * NINDIRECT + r) % NINDIRECT - d) % NINDIRECT == r
  {
    var x := d + r;
    var o := if x < NINDIRECT then x else x - NINDIRECT;
    assert o < NINDIRECT;
    assert (d + j * NINDIRECT + r) % NINDIRECT == o;
  }

  lemma OffsetBack(k: Fanout, j: nat, o: nat)
    requires j < k && o < NINDIRECT
    ensures var d := NINDIRECT - k;
      var offset := d + j * NINDIRECT + (o - d) % NINDIRECT;
      d <= offset < Subtree(k) && (offset - d) / NINDIRECT == j && offset % NINDIRECT == o
  {
  }

  lemma FirstLevel(k: Fanout, b: nat) returns (index: nat, offset: nat)
    requires NDIRECT + (NINDIRECT - k) + b < TripleMax(k)
    ensures index == Entry(b, Subtree(k)) < k && offset == Within(b, Subtree(k)) < Subtree(k)
    ensures b == Scale(index, Subtree(k)) + offset
  {
    hide Subtree;
    TripleSize(k);
    Quotient(b, Subtree(k));
    DivBelow(b, k, Subtree(k));
    index, offset := b / Subtree(k), b % Subtree(k);
  }

  lemma TripleThere(k: Fanout, bn: nat)
    requires bn < TripleMax(k)
    ensures TripleLeaf(k, TriplePath(k, bn)) && TripleBlock(k, TriplePath(k, bn)) == bn
  {
    hide Subtree, Scale, Entry, Within, TripleMax;
    var d := NINDIRECT - k;
    if NDIRECT + d <= bn {
      var b := bn - NDIRECT - d;
      var index, offset := FirstLevel(k, b);
      if d <= offset {
        OffsetThere(k, offset);
      }
    }
  }

  lemma TripleBack(k: Fanout, p: Path)
    requires TripleLeaf(k, p)
    ensures TripleBlock(k, p) < TripleMax(k) && TriplePath(k, TripleBlock(k, p)) == p
  {
    hide Subtree, Scale, Entry, Within, TripleMax;
    var d := NINDIRECT - k;
    TripleSize(k);
    if |p| >= 3 {
      var index := p[1] - d;
      if |p| == 4 {
        OffsetBack(k, p[2] - d, p[3]);
      } else {
        DirectBelow(k, p[2]);
      }
      var offset := TripleOffset(k, p);
      ScaleBelow(index, k, Subtree(k), offset);
      DivUnique(Subtree(k), index, offset);
    }
  }

  lemma DirectBelow(k: Fanout, s: nat)
    requires s < NINDIRECT - k
    ensures s < Subtree(k)
  {
  }
}
