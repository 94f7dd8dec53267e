/** The K&R allocator of umalloc.c.  Addresses count header-sized units; unit 0 is `base`.
    A ghost colouring says of every unit below the break whose it is. */
module Umalloc {
  import opened Machine

  const MIN_GRANT := 4096

  datatype Header = Header(ptr: nat, size: nat)

  /** A free block: its address and its length in units, header included. */
  datatype Blk = Blk(at: nat, size: nat) {
    function End(): nat { at + size }
    predicate Has(u: int) { at <= u < at + size }
  }

  /** Foreign: not obtained by malloc.  Used(a): part of the live block with header at a. */
  datatype Color = Foreign | Free | Used(header: nat)

  /** The colouring after units lo up to hi have been given colour c. */
  function Paint(color: seq<Color>, lo: nat, hi: nat, c: Color): (r: seq<Color>)
    requires lo <= hi <= |color|
    ensures |r| == |color|
    ensures forall u :: 0 <= u < |color| ==> r[u] == if lo <= u < hi then c else color[u]
  {
    color[..lo] + seq(hi - lo, _ => c) + color[hi..]
  }

  // ----- the invariant

  ghost predicate Live(color: seq<Color>, a: int) {
    0 <= a < |color| && color[a] == Used(a)
  }

  /** The free list in address order: base, then separate non-empty blocks.  A block reaches
      up to a later one only if its index is in `touch`. */
  ghost predicate Ordered(fl: seq<Blk>, touch: set<int>) {
    && 0 < |fl| && fl[0] == Blk(0, 0)
    && (forall i :: 1 <= i < |fl| ==> 0 < fl[i].size)
    && (forall i, j :: 0 <= i < j < |fl| ==> fl[i].at < fl[j].at && fl[i].End() <= fl[j].at)
    && (forall i, j :: 1 <= i < j < |fl| && i !in touch ==> fl[i].End() != fl[j].at)
  }

  function NextAt(fl: seq<Blk>, i: nat): nat
    requires i < |fl|
  {
    if i + 1 < |fl| then fl[i + 1].at else 0
  }

  /** The header of entry i holds its size and the address of its successor around the ring. */
  ghost predicate HeaderAt(mem: seq<Header>, fl: seq<Blk>, i: nat) {
    i < |fl| && fl[i].at < |mem| && mem[fl[i].at] == Header(NextAt(fl, i), fl[i].size)
  }

  ghost predicate Circular(mem: seq<Header>, fl: seq<Blk>) {
    forall i :: 0 <= i < |fl| ==> HeaderAt(mem, fl, i)
  }

  ghost predicate AllFree(color: seq<Color>, b: Blk) {
    b.End() <= |color| && forall u :: b.Has(u) ==> color[u] == Free
  }

  /** The Free units are exactly those of the listed blocks. */
  ghost predicate FreeColored(fl: seq<Blk>, color: seq<Color>) {
    && (forall i :: 0 <= i < |fl| ==> AllFree(color, fl[i]))
    && (forall u :: 0 <= u < |color| && color[u] == Free ==> exists i :: 0 <= i < |fl| && fl[i].Has(u))
  }

  /** Every used unit belongs to a live block, whose header holds its extent. */
  ghost predicate LiveColored(mem: seq<Header>, color: seq<Color>) {
    && (forall u :: 0 <= u < |color| && color[u].Used? ==> Live(color, color[u].header))
    && (forall a :: Live(color, a) ==> a < |mem| && 0 < mem[a].size && a + mem[a].size <= |color|)
    && (forall a, u :: Live(color, a) && 0 <= u < |color| ==>
          (color[u] == Used(a) <==> a <= u < a + mem[a].size))
  }

  ghost predicate HeapOK(mem: seq<Header>, fl: seq<Blk>, color: seq<Color>, touch: set<int>) {
    && 0 < |color| <= |mem| && color[0] == Foreign
    && Ordered(fl, touch)
    && Circular(mem, fl)
    && FreeColored(fl, color)
    && LiveColored(mem, color)
  }

  // ----- free

  /** The place free's search looks for: bp lies behind entry j and before the next one. */
  ghost predicate Place(fl: seq<Blk>, j: nat, bp: nat) {
    && j < |fl| && fl[j].at < bp
    && forall i :: j < i < |fl| ==> bp < fl[i].at
  }

  /** A live block and a listed one do not overlap. */
  lemma LiveApart(mem: seq<Header>, fl: seq<Blk>, color: seq<Color>, bp: nat, i: int)
    requires HeapOK(mem, fl, color, {}) && Live(color, bp) && 0 <= i < |fl|
    ensures fl[i].End() <= bp || bp + mem[bp].size <= fl[i].at
  {
    assert AllFree(color, fl[i]);
    if fl[i].Has(bp) || bp < fl[i].at < bp + mem[bp].size {
      assert i > 0;
      assert fl[i].Has(fl[i].at);
    }
  }

  function InsertAt(fl: seq<Blk>, j: nat, b: Blk): (r: seq<Blk>)
    requires j < |fl|
    ensures |r| == |fl| + 1
    ensures forall i {:trigger r[i]} :: 0 <= i < |r| ==>
      r[i] == if i <= j then fl[i] else if i == j + 1 then b else fl[i - 1]
  {
    fl[..j + 1] + [b] + fl[j + 1..]
  }

  function Inserted(mem: seq<Header>, p: nat, bp: nat, next: nat): seq<Header>
    requires p < |mem| && bp < |mem|
  {
    mem[bp := Header(next, mem[bp].size)][p := Header(bp, mem[p].size)]
  }

  ghost predicate Fits(fl: seq<Blk>, j: nat, b: Blk) {
    && j < |fl| && 0 < b.size && fl[j].at < b.at
    && forall i :: 0 <= i < |fl| ==> if i <= j then fl[i].End() <= b.at else b.End() <= fl[i].at
  }

  lemma InsertPair(fl: seq<Blk>, j: nat, b: Blk, i: nat, k: nat)
    requires Ordered(fl, {}) && Fits(fl, j, b) && i < k <= |fl|
    ensures var gl := InsertAt(fl, j, b);
      && gl[i].at < gl[k].at && gl[i].End() <= gl[k].at
      && (1 <= i && i != j && i != j + 1 ==> gl[i].End() != gl[k].at)
  {
    hide InsertAt;
  }

  lemma OrderedInsert(fl: seq<Blk>, j: nat, b: Blk)
    requires Ordered(fl, {}) && Fits(fl, j, b)
    ensures Ordered(InsertAt(fl, j, b), {j, j + 1})
  {
    hide InsertAt;
    var gl := InsertAt(fl, j, b);
    forall i, k | 0 <= i < k < |gl|
      ensures gl[i].at < gl[k].at && gl[i].End() <= gl[k].at
      ensures 1 <= i && i != j && i != j + 1 ==> gl[i].End() != gl[k].at
    {
      InsertPair(fl, j, b, i, k);
    }
  }

  lemma InsertOrdered(mem: seq<Header>, fl: seq<Blk>, color: seq<Color>, j: nat, bp: nat)
    requires HeapOK(mem, fl, color, {}) && Live(color, bp) && Place(fl, j, bp)
    ensures Ordered(InsertAt(fl, j, Blk(bp, mem[bp].size)), {j, j + 1})
  {
    forall i | 0 <= i < |fl| ensures fl[i].End() <= bp || bp + mem[bp].size <= fl[i].at {
      LiveApart(mem, fl, color, bp, i);
    }
    OrderedInsert(fl, j, Blk(bp, mem[bp].size));
  }

  lemma InsertHeader(mem: seq<Header>, fl: seq<Blk>, color: seq<Color>, j: nat, bp: nat, i: nat)
    requires HeapOK(mem, fl, color, {}) && Live(color, bp) && Place(fl, j, bp) && i <= |fl|
    requires HeaderAt(mem, fl, j)
    requires forall k :: 0 <= k < |fl| ==> fl[k].at != bp
    ensures HeaderAt(Inserted(mem, fl[j].at, bp, NextAt(fl, j)), InsertAt(fl, j, Blk(bp, mem[bp].size)), i)
  {
    hide InsertAt, LiveColored, FreeColored;
    if i <= j { assert HeaderAt(mem, fl, i); }
    if i > j + 1 { assert HeaderAt(mem, fl, i - 1); }
  }

  lemma InsertCircular(mem: seq<Header>, fl: seq<Blk>, color: seq<Color>, j: nat, bp: nat)
    requires HeapOK(mem, fl, color, {}) && Live(color, bp) && Place(fl, j, bp)
    ensures HeaderAt(mem, fl, j)
    ensures Circular(Inserted(mem, fl[j].at, bp, NextAt(fl, j)), InsertAt(fl, j, Blk(bp, mem[bp].size)))
  {
    hide InsertAt;
    assert HeaderAt(mem, fl, j);
    forall k | 0 <= k < |fl| ensures fl[k].at != bp {
      LiveApart(mem, fl, color, bp, k);
    }
    forall i | 0 <= i <= |fl|
      ensures HeaderAt(Inserted(mem, fl[j].at, bp, NextAt(fl, j)), InsertAt(fl, j, Blk(bp, mem[bp].size)), i)
    {
      InsertHeader(mem, fl, color, j, bp, i);
    }
  }

  lemma InsertFree(fl: seq<Blk>, color: seq<Color>, j: nat, b: Blk)
    requires FreeColored(fl, color) && j < |fl| && b.End() <= |color|
    ensures FreeColored(InsertAt(fl, j, b), Paint(color, b.at, b.End(), Free))
  {
    hide InsertAt, Paint;
    var gl := InsertAt(fl, j, b);
    var c := Paint(color, b.at, b.End(), Free);
    forall i | 0 <= i < |gl| ensures AllFree(c, gl[i]) {
      if i <= j { assert AllFree(color, fl[i]); }
      if i > j + 1 { assert AllFree(color, fl[i - 1]); }
    }
    forall u | 0 <= u < |c| && c[u] == Free ensures exists i :: 0 <= i < |gl| && gl[i].Has(u) {
      if b.Has(u) {
        assert gl[j + 1].Has(u);
      } else {
        var i :| 0 <= i < |fl| && fl[i].Has(u);
        assert gl[if i <= j then i else i + 1].Has(u);
      }
    }
  }

  /** Freeing one live block leaves the other live blocks alone. */
  lemma FreeLive(mem: seq<Header>, r: seq<Header>, color: seq<Color>, bp: nat)
    requires LiveColored(mem, color) && Live(color, bp) && |r| == |mem|
    requires forall a :: Live(color, a) && a != bp ==> r[a].size == mem[a].size
    ensures LiveColored(r, Paint(color, bp, bp + mem[bp].size, Free))
  {
    var c := Paint(color, bp, bp + mem[bp].size, Free);
    assert forall a :: Live(c, a) ==> Live(color, a) && a != bp;
  }

  /** Linking a block that was live into its place frees its units and nothing else. */
  lemma InsertKeeps(mem: seq<Header>, fl: seq<Blk>, color: seq<Color>, j: nat, bp: nat)
    requires HeapOK(mem, fl, color, {}) && Live(color, bp) && Place(fl, j, bp)
    ensures HeaderAt(mem, fl, j)
    ensures HeapOK(Inserted(mem, fl[j].at, bp, NextAt(fl, j)), InsertAt(fl, j, Blk(bp, mem[bp].size)),
                   Paint(color, bp, bp + mem[bp].size, Free), {j, j + 1})
  {
    InsertOrdered(mem, fl, color, j, bp);
    InsertCircular(mem, fl, color, j, bp);
    InsertFree(fl, color, j, Blk(bp, mem[bp].size));
    FreeLive(mem, Inserted(mem, fl[j].at, bp, NextAt(fl, j)), color, bp);
  }

  function RemoveAt(fl: seq<Blk>, i: nat): (r: seq<Blk>)
    requires i < |fl|
    ensures |r| == |fl| - 1
    ensures forall k {:trigger r[k]} :: 0 <= k < |r| ==> r[k] == if k < i then fl[k] else fl[k + 1]
  {
    fl[..i] + fl[i + 1..]
  }

  /** The list after entry i has swallowed entry i + 1. */
  function MergeAt(fl: seq<Blk>, i: nat): (r: seq<Blk>)
    requires i + 1 < |fl|
    ensures |r| == |fl| - 1
    ensures forall k {:trigger r[k]} :: 0 <= k < |r| ==>
      r[k] == if k < i then fl[k] else if k == i then Blk(fl[i].at, fl[i].size + fl[i + 1].size) else fl[k + 1]
  {
    RemoveAt(fl, i + 1)[i := Blk(fl[i].at, fl[i].size + fl[i + 1].size)]
  }

  function Merged(mem: seq<Header>, p: nat, q: nat): seq<Header>
    requires p < |mem| && q < |mem|
  {
    mem[p := Header(mem[q].ptr, mem[p].size + mem[q].size)]
  }

  lemma MergePair(fl: seq<Blk>, i: nat, touch: set<int>, a: nat, b: nat)
    requires Ordered(fl, touch) && touch <= {i - 1, i} && 1 <= i < |fl| - 1 && fl[i].End() == fl[i + 1].at
    requires a < b < |fl| - 1
    ensures var gl := MergeAt(fl, i);
      && gl[a].at < gl[b].at && gl[a].End() <= gl[b].at
      && (1 <= a && a !in touch - {i} ==> gl[a].End() != gl[b].at)
  {
    hide MergeAt;
  }

  lemma MergeHeader(mem: seq<Header>, fl: seq<Blk>, i: nat, k: nat)
    requires Ordered(fl, {i - 1, i}) && Circular(mem, fl) && 1 <= i < |fl| - 1 && k < |fl| - 1
    requires HeaderAt(mem, fl, i) && HeaderAt(mem, fl, i + 1)
    ensures HeaderAt(Merged(mem, fl[i].at, fl[i + 1].at), MergeAt(fl, i), k)
  {
    hide MergeAt;
    if k < i { assert HeaderAt(mem, fl, k); }
    if k > i { assert HeaderAt(mem, fl, k + 1); }
  }

  lemma MergedBlockFree(fl: seq<Blk>, color: seq<Color>, i: nat)
    requires FreeColored(fl, color) && i + 1 < |fl| && fl[i].End() == fl[i + 1].at
    ensures AllFree(color, Blk(fl[i].at, fl[i].size + fl[i + 1].size))
  {
    assert AllFree(color, fl[i]) && AllFree(color, fl[i + 1]);
    forall u | Blk(fl[i].at, fl[i].size + fl[i + 1].size).Has(u) ensures color[u] == Free {
      assert fl[i].Has(u) || fl[i + 1].Has(u);
    }
  }

  lemma MergeFree(fl: seq<Blk>, color: seq<Color>, i: nat)
    requires FreeColored(fl, color) && i + 1 < |fl| && fl[i].End() == fl[i + 1].at
    ensures FreeColored(MergeAt(fl, i), color)
  {
    hide MergeAt, AllFree;
    var gl := MergeAt(fl, i);
    MergedBlockFree(fl, color, i);
    forall k | 0 <= k < |gl| ensures AllFree(color, gl[k]) {
      assert k < i ==> gl[k] == fl[k];
      assert k > i ==> gl[k] == fl[k + 1];
    }
    forall u | 0 <= u < |color| && color[u] == Free ensures exists k :: 0 <= k < |gl| && gl[k].Has(u) {
      var k :| 0 <= k < |fl| && fl[k].Has(u);
      assert gl[if k <= i then k else k - 1].Has(u);
    }
  }

  /** Rewriting the header of a free block does not touch a live one. */
  lemma FreeHeaderLive(mem: seq<Header>, color: seq<Color>, p: nat, h: Header)
    requires LiveColored(mem, color) && p < |mem| && (p < |color| ==> !color[p].Used?)
    ensures LiveColored(mem[p := h], color)
  {
  }

  lemma MergeOrdered(fl: seq<Blk>, i: nat, touch: set<int>)
    requires Ordered(fl, touch) && touch <= {i - 1, i} && 1 <= i < |fl| - 1 && fl[i].End() == fl[i + 1].at
    ensures Ordered(MergeAt(fl, i), touch - {i})
  {
    hide MergeAt;
    var gl := MergeAt(fl, i);
    forall a, b | 0 <= a < b < |gl|
      ensures gl[a].at < gl[b].at && gl[a].End() <= gl[b].at
      ensures 1 <= a && a !in touch - {i} ==> gl[a].End() != gl[b].at
    {
      MergePair(fl, i, touch, a, b);
    }
  }

  /** Two free blocks that touch become one; no unit changes hands. */
  lemma MergeKeeps(mem: seq<Header>, fl: seq<Blk>, color: seq<Color>, i: nat, touch: set<int>)
    requires HeapOK(mem, fl, color, touch) && touch <= {i - 1, i}
    requires 1 <= i < |fl| - 1 && fl[i].End() == fl[i + 1].at
    ensures HeaderAt(mem, fl, i) && HeaderAt(mem, fl, i + 1)
    ensures HeapOK(Merged(mem, fl[i].at, fl[i + 1].at), MergeAt(fl, i), color, touch - {i})
  {
    assert HeaderAt(mem, fl, i) && HeaderAt(mem, fl, i + 1);
    assert AllFree(color, fl[i]) && fl[i].Has(fl[i].at);
    assert Ordered(fl, {i - 1, i});
    hide MergeAt, LiveColored, FreeColored, Ordered;
    var r, gl := Merged(mem, fl[i].at, fl[i + 1].at), MergeAt(fl, i);
    forall k | 0 <= k < |fl| - 1 ensures HeaderAt(r, gl, k) {
      MergeHeader(mem, fl, i, k);
    }
    MergeOrdered(fl, i, touch);
    MergeFree(fl, color, i);
    FreeHeaderLive(mem, color, fl[i].at, Merged(mem, fl[i].at, fl[i + 1].at)[fl[i].at]);
  }

  lemma NoTouchHere(mem: seq<Header>, fl: seq<Blk>, color: seq<Color>, touch: set<int>, i: nat)
    requires HeapOK(mem, fl, color, touch)
    requires forall j :: i < j < |fl| && 1 <= i ==> fl[i].End() != fl[j].at
    ensures HeapOK(mem, fl, color, touch - {i})
  {
  }

  /** The header free first gives bp: linked to `next`, or merged with it if they touch. */
  function UpHeader(mem: seq<Header>, bp: nat, next: nat): Header
    requires bp < |mem| && next < |mem|
  {
    if bp + mem[bp].size == next
    then Header(mem[next].ptr, mem[bp].size + mem[next].size)
    else Header(next, mem[bp].size)
  }

  /** The headers after free has relinked bp behind p. */
  function FreedMem(mem: seq<Header>, p: nat, bp: nat): (r: seq<Header>)
    requires p < |mem| && bp < |mem| && mem[p].ptr < |mem|
    ensures |r| == |mem| && forall u :: 0 <= u < |mem| && u != p && u != bp ==> r[u] == mem[u]
  {
    var up := UpHeader(mem, bp, mem[p].ptr);
    if p + mem[p].size == bp
    then mem[bp := up][p := Header(up.ptr, mem[p].size + up.size)]
    else mem[bp := up][p := Header(bp, mem[p].size)]
  }

  /** What holds after bp has been linked in and merged upwards: list gl has bp behind entry j. */
  ghost predicate LinkedUp(mem: seq<Header>, fl: seq<Blk>, color: seq<Color>, j: nat, bp: nat, gl: seq<Blk>) {
    && HeaderAt(mem, fl, j) && bp < |mem| && bp != fl[j].at && NextAt(fl, j) < |mem|
    && bp + mem[bp].size <= |color|
    && j + 1 < |gl| && gl[j] == fl[j] && gl[j + 1].at == bp
    && HeapOK(mem[bp := UpHeader(mem, bp, NextAt(fl, j))][fl[j].at := Header(bp, fl[j].size)], gl,
              Paint(color, bp, bp + mem[bp].size, Free), {j})
  }

  lemma MergedInserted(mem: seq<Header>, p: nat, bp: nat, next: nat)
    requires p < |mem| && bp < |mem| && next < |mem| && p != bp && p != next && bp != next
    requires bp + mem[bp].size == next
    ensures Merged(Inserted(mem, p, bp, next), bp, next) ==
      mem[bp := UpHeader(mem, bp, next)][p := Header(bp, mem[p].size)]
  {
  }

  lemma MergeInserted(m: seq<Header>, fl: seq<Blk>, c: seq<Color>, j: nat, b: Blk) returns (gl: seq<Blk>)
    requires j + 1 < |fl| && b.End() == fl[j + 1].at && HeapOK(m, InsertAt(fl, j, b), c, {j, j + 1})
    ensures j + 1 < |gl| && gl[j] == fl[j] && gl[j + 1].at == b.at
    ensures b.at < |m| && fl[j + 1].at < |m| && HeapOK(Merged(m, b.at, fl[j + 1].at), gl, c, {j})
  {
    hide InsertAt, MergeAt, LiveColored, FreeColored, Ordered, Circular;
    var il := InsertAt(fl, j, b);
    assert il[j] == fl[j] && il[j + 1] == b && il[j + 2] == fl[j + 1];
    MergeKeeps(m, il, c, j + 1, {j, j + 1});
    gl := MergeAt(il, j + 1);
    assert {j, j + 1} - {j + 1} == {j};
  }

  lemma LinkTouching(mem: seq<Header>, fl: seq<Blk>, color: seq<Color>, j: nat, bp: nat) returns (gl: seq<Blk>)
    requires HeapOK(mem, fl, color, {}) && Live(color, bp) && Place(fl, j, bp)
    requires j + 1 < |fl| && bp + mem[bp].size == fl[j + 1].at
    ensures LinkedUp(mem, fl, color, j, bp, gl)
  {
    assert bp + mem[bp].size <= |color|;
    assert HeaderAt(mem, fl, j + 1) && HeaderAt(mem, fl, j);
    assert fl[j].at < fl[j + 1].at && bp != fl[j + 1].at;
    hide InsertAt, Paint, LiveColored, FreeColored, Ordered, Circular;
    InsertKeeps(mem, fl, color, j, bp);
    var painted := Paint(color, bp, bp + mem[bp].size, Free);
    gl := MergeInserted(Inserted(mem, fl[j].at, bp, NextAt(fl, j)), fl, painted, j, Blk(bp, mem[bp].size));
    MergedInserted(mem, fl[j].at, bp, fl[j + 1].at);
  }

  lemma NotTouching(fl: seq<Blk>, gl: seq<Blk>, j: nat, b: Blk)
    requires j < |fl| && gl == InsertAt(fl, j, b) && Ordered(gl, {j, j + 1})
    requires b.End() != NextAt(fl, j)
    ensures forall k :: j + 1 < k < |gl| ==> b.End() != gl[k].at
  {
    hide InsertAt;
    forall k | j + 1 < k < |gl| ensures b.End() != gl[k].at {
      assert gl[k] == fl[k - 1] && gl[j + 2] == fl[j + 1] && gl[j + 1] == b;
      assert k > j + 2 ==> gl[j + 2].at < gl[k].at;
    }
  }

  lemma DropInserted(m: seq<Header>, fl: seq<Blk>, c: seq<Color>, j: nat, b: Blk)
    requires j < |fl| && b.End() != NextAt(fl, j) && HeapOK(m, InsertAt(fl, j, b), c, {j, j + 1})
    ensures var gl := InsertAt(fl, j, b);
      gl[j] == fl[j] && gl[j + 1] == b && HeapOK(m, gl, c, {j})
  {
    hide InsertAt, LiveColored, FreeColored, Ordered, Circular;
    var gl := InsertAt(fl, j, b);
    assert gl[j + 1] == b;
    NotTouching(fl, gl, j, b);
    NoTouchHere(m, gl, c, {j, j + 1}, j + 1);
    assert {j, j + 1} - {j + 1} == {j};
  }

  lemma LinkApart(mem: seq<Header>, fl: seq<Blk>, color: seq<Color>, j: nat, bp: nat) returns (gl: seq<Blk>)
    requires HeapOK(mem, fl, color, {}) && Live(color, bp) && Place(fl, j, bp)
    requires bp + mem[bp].size != NextAt(fl, j)
    ensures LinkedUp(mem, fl, color, j, bp, gl)
  {
    assert bp + mem[bp].size <= |color|;
    assert HeaderAt(mem, fl, j);
    assert j + 1 < |fl| ==> HeaderAt(mem, fl, j + 1);
    hide InsertAt, Paint, LiveColored, FreeColored, Ordered, Circular;
    InsertKeeps(mem, fl, color, j, bp);
    gl := InsertAt(fl, j, Blk(bp, mem[bp].size));
    var painted := Paint(color, bp, bp + mem[bp].size, Free);
    DropInserted(Inserted(mem, fl[j].at, bp, NextAt(fl, j)), fl, painted, j, Blk(bp, mem[bp].size));
  }

  /** free's relinking turns the units of bp Free, keeps everything else and leaves p listed. */
  lemma FreeKeeps(mem: seq<Header>, fl: seq<Blk>, color: seq<Color>, j: nat, bp: nat) returns (gl: seq<Blk>)
    requires HeapOK(mem, fl, color, {}) && Live(color, bp) && Place(fl, j, bp)
    ensures HeaderAt(mem, fl, j) && NextAt(fl, j) < |mem|
    ensures HeapOK(FreedMem(mem, fl[j].at, bp), gl, Paint(color, bp, bp + mem[bp].size, Free), {})
    ensures j < |gl| && gl[j].at == fl[j].at
  {
    if bp + mem[bp].size == NextAt(fl, j) {
      gl := LinkTouching(mem, fl, color, j, bp);
    } else {
      gl := LinkApart(mem, fl, color, j, bp);
    }
    gl := FreeDown(mem, fl, color, j, bp, gl);
  }

  lemma FreeDown(mem: seq<Header>, fl: seq<Blk>, color: seq<Color>, j: nat, bp: nat,
        up: seq<Blk>) returns (gl: seq<Blk>)
    requires LinkedUp(mem, fl, color, j, bp, up)
    ensures HeapOK(FreedMem(mem, fl[j].at, bp), gl, Paint(color, bp, bp + mem[bp].size, Free), {})
    ensures j < |gl| && gl[j].at == fl[j].at
  {
    hide MergeAt, Paint, LiveColored, FreeColored;
    gl := up;
    var m := mem[bp := UpHeader(mem, bp, NextAt(fl, j))][fl[j].at := Header(bp, fl[j].size)];
    var c := Paint(color, bp, bp + mem[bp].size, Free);
    assert {j} - {j} == {};
    if fl[j].End() == bp {
      MergeKeeps(m, gl, c, j, {j});
      gl := MergeAt(gl, j);
      assert Merged(m, fl[j].at, bp) == FreedMem(mem, fl[j].at, bp);
    } else {
      NoTouchHere(m, gl, c, {j}, j);
      assert m == FreedMem(mem, fl[j].at, bp);
    }
  }

  // ----- malloc

  /** Handing out Free units [a, a+n) as one block with its length in its header. */
  lemma AllocLive(mem: seq<Header>, r: seq<Header>, color: seq<Color>, a: nat, n: nat)
    requires LiveColored(mem, color) && |r| == |mem| && |color| <= |mem|
    requires 0 < n && AllFree(color, Blk(a, n)) && r[a].size == n
    requires forall b :: Live(color, b) ==> r[b].size == mem[b].size
    ensures LiveColored(r, Paint(color, a, a + n, Used(a)))
  {
    var c := Paint(color, a, a + n, Used(a));
    assert Blk(a, n).Has(a);
    assert forall b :: Live(c, b) ==> b == a || Live(color, b);
    assert forall u :: 0 <= u < |color| && a <= u < a + n ==> Blk(a, n).Has(u);
  }

  lemma RemoveOrdered(fl: seq<Blk>, i: nat)
    requires Ordered(fl, {}) && 1 <= i < |fl|
    ensures Ordered(RemoveAt(fl, i), {})
  {
    hide RemoveAt;
    var gl := RemoveAt(fl, i);
    forall a, b | 0 <= a < b < |gl|
      ensures gl[a].at < gl[b].at && gl[a].End() <= gl[b].at
      ensures 1 <= a ==> gl[a].End() != gl[b].at
    {
      var a0, b0 := if a < i then a else a + 1, if b < i then b else b + 1;
      assert gl[a] == fl[a0] && gl[b] == fl[b0];
    }
  }

  lemma RemoveHeader(mem: seq<Header>, fl: seq<Blk>, i: nat, k: nat)
    requires Ordered(fl, {}) && Circular(mem, fl) && 1 <= i < |fl| && k < |fl| - 1
    requires HeaderAt(mem, fl, i - 1)
    ensures HeaderAt(mem[fl[i - 1].at := Header(NextAt(fl, i), fl[i - 1].size)], RemoveAt(fl, i), k)
  {
    hide RemoveAt;
    assert HeaderAt(mem, fl, if k < i then k else k + 1);
  }

  lemma RemoveCircular(mem: seq<Header>, fl: seq<Blk>, i: nat)
    requires Ordered(fl, {}) && Circular(mem, fl) && 1 <= i < |fl| && HeaderAt(mem, fl, i - 1)
    ensures Circular(mem[fl[i - 1].at := Header(NextAt(fl, i), fl[i - 1].size)], RemoveAt(fl, i))
  {
    hide RemoveAt;
    var r, gl := mem[fl[i - 1].at := Header(NextAt(fl, i), fl[i - 1].size)], RemoveAt(fl, i);
    forall k | 0 <= k < |gl| ensures HeaderAt(r, gl, k) {
      RemoveHeader(mem, fl, i, k);
    }
  }

  /** Painting units of entry i alone leaves the other entries Free. */
  lemma KeptFree(fl: seq<Blk>, color: seq<Color>, i: nat, k: nat, lo: nat, c: Color)
    requires Ordered(fl, {}) && FreeColored(fl, color) && i < |fl| && k < |fl| && i != k
    requires fl[i].at <= lo <= fl[i].End() <= |color|
    ensures AllFree(Paint(color, lo, fl[i].End(), c), fl[k])
  {
    hide Paint;
    assert AllFree(color, fl[k]);
    assert i < k ==> fl[i].End() <= fl[k].at;
    assert k < i ==> fl[k].End() <= fl[i].at;
  }

  lemma RemoveFree(fl: seq<Blk>, color: seq<Color>, i: nat)
    requires Ordered(fl, {}) && FreeColored(fl, color) && 1 <= i < |fl| && AllFree(color, fl[i])
    ensures FreeColored(RemoveAt(fl, i), Paint(color, fl[i].at, fl[i].End(), Used(fl[i].at)))
  {
    hide RemoveAt, Paint, Ordered;
    var gl := RemoveAt(fl, i);
    var c := Paint(color, fl[i].at, fl[i].End(), Used(fl[i].at));
    forall k | 0 <= k < |gl| ensures AllFree(c, gl[k]) {
      KeptFree(fl, color, i, if k < i then k else k + 1, fl[i].at, Used(fl[i].at));
    }
    forall u | 0 <= u < |c| && c[u] == Free ensures exists k :: 0 <= k < |gl| && gl[k].Has(u) {
      var k :| 0 <= k < |fl| && fl[k].Has(u);
      assert gl[if k < i then k else k - 1].Has(u);
    }
  }

  lemma EntryFacts(mem: seq<Header>, fl: seq<Blk>, color: seq<Color>, i: nat)
    requires HeapOK(mem, fl, color, {}) && i < |fl|
    ensures HeaderAt(mem, fl, i) && AllFree(color, fl[i]) && !Live(color, fl[i].at)
    ensures 0 < i ==> fl[i].size > 0 && fl[i].Has(fl[i].at)
    ensures 0 < i ==> HeaderAt(mem, fl, i - 1) && fl[i - 1].at < fl[i].at && !Live(color, fl[i - 1].at)
  {
    assert HeaderAt(mem, fl, i) && AllFree(color, fl[i]);
    if 0 < i {
      assert HeaderAt(mem, fl, i - 1) && AllFree(color, fl[i - 1]);
      assert i > 1 ==> fl[i - 1].Has(fl[i - 1].at);
      assert fl[i].Has(fl[i].at);
    }
  }

  /** A listed block of exactly the right size leaves the list and becomes live. */
  lemma TakeWhole(mem: seq<Header>, fl: seq<Blk>, color: seq<Color>, i: nat)
    requires HeapOK(mem, fl, color, {}) && 1 <= i < |fl|
    ensures HeaderAt(mem, fl, i - 1) && HeaderAt(mem, fl, i) && AllFree(color, fl[i])
    ensures HeapOK(mem[fl[i - 1].at := Header(NextAt(fl, i), fl[i - 1].size)], RemoveAt(fl, i),
                   Paint(color, fl[i].at, fl[i].End(), Used(fl[i].at)), {})
  {
    hide RemoveAt, Paint, Ordered, FreeColored, Circular, LiveColored;
    EntryFacts(mem, fl, color, i);
    RemoveOrdered(fl, i);
    RemoveFree(fl, color, i);
    RemoveCircular(mem, fl, i);
    AllocLive(mem, mem[fl[i - 1].at := Header(NextAt(fl, i), fl[i - 1].size)], color, fl[i].at, fl[i].size);
    BaseForeign(fl[i], color);
  }

  lemma BaseForeign(b: Blk, color: seq<Color>)
    requires 0 < |color| && color[0] == Foreign && AllFree(color, b) && b.size > 0
    ensures 0 < b.at
  {
    assert b.Has(b.at);
  }

  function TailMem(mem: seq<Header>, b: Blk, n: nat): seq<Header>
    requires 0 < n < b.size && b.End() <= |mem|
  {
    var q := b.End() - n;
    mem[b.at := Header(mem[b.at].ptr, b.size - n)][q := Header(mem[q].ptr, n)]
  }

  /** A larger block gives up its tail of n units, which become live. */
  lemma TakeTail(mem: seq<Header>, fl: seq<Blk>, color: seq<Color>, i: nat, n: nat)
    requires HeapOK(mem, fl, color, {}) && 1 <= i < |fl| && 0 < n < fl[i].size
    ensures HeaderAt(mem, fl, i) && AllFree(color, fl[i])
    ensures var q := fl[i].End() - n;
      HeapOK(TailMem(mem, fl[i], n), fl[i := Blk(fl[i].at, fl[i].size - n)], Paint(color, q, q + n, Used(q)), {})
  {
    hide Paint, Ordered, FreeColored, Circular, LiveColored;
    EntryFacts(mem, fl, color, i);
    var q := fl[i].End() - n;
    TailOrdered(fl, i, n);
    TailHeaders(mem, fl, i, n);
    TailFree(fl, color, i, n);
    TailIsFree(color, fl[i], n);
    AllocLive(mem, TailMem(mem, fl[i], n), color, q, n);
    BaseForeign(fl[i], color);
  }

  lemma TailIsFree(color: seq<Color>, b: Blk, n: nat)
    requires AllFree(color, b) && 0 < n < b.size
    ensures AllFree(color, Blk(b.End() - n, n)) && !Live(color, b.End() - n)
  {
    assert forall u :: Blk(b.End() - n, n).Has(u) ==> b.Has(u);
    assert b.Has(b.End() - n);
  }

  lemma TailOrdered(fl: seq<Blk>, i: nat, n: nat)
    requires Ordered(fl, {}) && 1 <= i < |fl| && 0 < n < fl[i].size
    ensures Ordered(fl[i := Blk(fl[i].at, fl[i].size - n)], {})
  {
  }

  lemma TailHeader(mem: seq<Header>, fl: seq<Blk>, i: nat, n: nat, k: nat)
    requires Ordered(fl, {}) && 1 <= i < |fl| && 0 < n < fl[i].size && fl[i].End() <= |mem| && k < |fl|
    requires HeaderAt(mem, fl, k)
    ensures HeaderAt(TailMem(mem, fl[i], n), fl[i := Blk(fl[i].at, fl[i].size - n)], k)
  {
    hide Ordered;
    InOrder(fl, i, k);
  }

  lemma InOrder(fl: seq<Blk>, i: nat, k: nat)
    requires Ordered(fl, {}) && i < |fl| && k < |fl|
    ensures (k < i ==> fl[k].at < fl[i].at) && (i < k ==> fl[i].End() <= fl[k].at && fl[i].at < fl[k].at)
  {
  }

  lemma TailHeaders(mem: seq<Header>, fl: seq<Blk>, i: nat, n: nat)
    requires Ordered(fl, {}) && Circular(mem, fl) && 1 <= i < |fl| && 0 < n < fl[i].size && fl[i].End() <= |mem|
    ensures Circular(TailMem(mem, fl[i], n), fl[i := Blk(fl[i].at, fl[i].size - n)])
  {
    hide Ordered, HeaderAt, TailMem;
    var r := TailMem(mem, fl[i], n);
    var gl := fl[i := Blk(fl[i].at, fl[i].size - n)];
    forall k | 0 <= k < |gl| ensures HeaderAt(r, gl, k) {
      TailHeader(mem, fl, i, n, k);
    }
  }

  lemma TailFree(fl: seq<Blk>, color: seq<Color>, i: nat, n: nat)
    requires Ordered(fl, {}) && FreeColored(fl, color) && 1 <= i < |fl| && 0 < n < fl[i].size && AllFree(color, fl[i])
    ensures var q := fl[i].End() - n;
      FreeColored(fl[i := Blk(fl[i].at, fl[i].size - n)], Paint(color, q, q + n, Used(q)))
  {
    hide Paint, Ordered;
    var q := fl[i].End() - n;
    var gl, c := fl[i := Blk(fl[i].at, fl[i].size - n)], Paint(color, q, q + n, Used(q));
    forall k | 0 <= k < |gl| ensures AllFree(c, gl[k]) {
      if k == i {
        assert forall u :: gl[i].Has(u) ==> fl[i].Has(u);
      } else {
        KeptFree(fl, color, i, k, q, Used(q));
      }
    }
    forall u | 0 <= u < |c| && c[u] == Free ensures exists k :: 0 <= k < |gl| && gl[k].Has(u) {
      var k :| 0 <= k < |fl| && fl[k].Has(u);
      assert gl[k].Has(u);
    }
  }

  /** The number of units malloc asks for, with the wrap-around of its unsigned sum. */
  function NUnits(nbytes: nat): (n: nat)
    requires nbytes < UINT_LIMIT
    ensures 0 < n
    ensures nbytes <= 8 * (n - 1) <==> nbytes <= UINT_LIMIT - 8
  {
    (nbytes + 7) % UINT_LIMIT / 8 + 1
  }

  function GrantSize(n: nat): nat {
    if n < MIN_GRANT then MIN_GRANT else n
  }

  /** The colouring after sbrk has granted units [at, at+n), as one live block. */
  function Extend(color: seq<Color>, at: nat, n: nat, c: Color): (r: seq<Color>)
    requires |color| <= at
    ensures |r| == at + n
    ensures forall u :: 0 <= u < |r| ==> r[u] == if u < |color| then color[u] else if u < at then Foreign else c
  {
    color + seq(at - |color|, _ => Foreign) + seq(n, _ => c)
  }

  lemma ExtendKeeps(mem: seq<Header>, fl: seq<Blk>, color: seq<Color>, at: nat, n: nat)
    requires HeapOK(mem, fl, color, {}) && |color| <= at && at + n <= |mem| && 0 < n
    ensures HeapOK(mem[at := Header(mem[at].ptr, n)], fl, Extend(color, at, n, Used(at)), {})
    ensures Live(Extend(color, at, n, Used(at)), at)
  {
    hide Extend, Ordered;
    var r, c := mem[at := Header(mem[at].ptr, n)], Extend(color, at, n, Used(at));
    forall i | 0 <= i < |fl| ensures AllFree(c, fl[i]) && HeaderAt(r, fl, i) {
      assert AllFree(color, fl[i]) && HeaderAt(mem, fl, i);
      assert fl[i].at < |color| by { EntryInside(fl, color, i); }
    }
    assert forall a :: Live(c, a) ==> a == at || Live(color, a);
  }

  lemma EntryInside(fl: seq<Blk>, color: seq<Color>, i: nat)
    requires Ordered(fl, {}) && FreeColored(fl, color) && i < |fl| && 0 < |color|
    ensures fl[i].at < |color|
  {
    assert AllFree(color, fl[i]);
  }

  /** The two ways the for loop of free stops at p with successor next. */
  predicate StopTest(p: nat, next: nat, bp: nat) {
    p < bp < next || (p >= next && (bp > p || bp < next))
  }

  lemma StopsAtPlace(fl: seq<Blk>, j: nat, k: nat, bp: nat)
    requires Ordered(fl, {}) && Place(fl, j, bp) && k < |fl|
    ensures k == j <==> StopTest(fl[k].at, NextAt(fl, k), bp)
  {
    assert k + 1 < |fl| ==> fl[k].at < fl[k + 1].at;
    assert k < j ==> fl[k].at < fl[j].at && (k + 1 < j ==> fl[k + 1].at < fl[j].at);
  }

  lemma AtEntry(mem: seq<Header>, fl: seq<Blk>, color: seq<Color>, j: nat, k: nat, bp: nat)
    requires HeapOK(mem, fl, color, {}) && Place(fl, j, bp) && k < |fl|
    ensures fl[0].at == 0 && fl[k].at < |mem| && mem[fl[k].at].ptr == NextAt(fl, k)
    ensures k == j <==> StopTest(fl[k].at, NextAt(fl, k), bp)
  {
    hide Ordered, FreeColored, LiveColored, StopTest, Place;
    assert HeaderAt(mem, fl, k);
    StopsAtPlace(fl, j, k, bp);
    BaseFirst(fl);
  }

  lemma PlaceInside(fl: seq<Blk>, j: nat, bp: nat)
    requires Place(fl, j, bp)
    ensures j < |fl|
  {
  }

  lemma BaseFirst(fl: seq<Blk>)
    requires Ordered(fl, {})
    ensures 0 < |fl| && fl[0] == Blk(0, 0)
  {
  }

  /** How many steps along the ring lead from entry `start` to entry k, at least one. */
  function Steps(start: nat, k: nat, len: nat): int {
    if k > start then k - start else k + len - start
  }

  lemma HeaderFact(mem: seq<Header>, fl: seq<Blk>, color: seq<Color>, i: nat)
    requires HeapOK(mem, fl, color, {}) && i < |fl|
    ensures HeaderAt(mem, fl, i) && fl[0] == Blk(0, 0)
  {
  }

  lemma LiveInside(mem: seq<Header>, fl: seq<Blk>, color: seq<Color>, bp: nat)
    requires HeapOK(mem, fl, color, {}) && Live(color, bp)
    ensures bp + mem[bp].size <= |color| <= |mem|
  {
  }

  lemma NotUsed(mem: seq<Header>, fl: seq<Blk>, color: seq<Color>, i: nat)
    requires HeapOK(mem, fl, color, {}) && i < |fl|
    ensures fl[i].at < |color| <= |mem| && !color[fl[i].at].Used?
  {
    assert AllFree(color, fl[i]);
    assert 0 < i ==> fl[i].Has(fl[i].at);
  }

  /** A run of Free units lies within one listed block, since listed blocks never touch. */
  lemma {:induction false} RunInOneBlock(mem: seq<Header>, fl: seq<Blk>, color: seq<Color>, at: nat, n: nat, i: nat)
    requires HeapOK(mem, fl, color, {}) && 0 < n && AllFree(color, Blk(at, n))
    requires i < |fl| && fl[i].Has(at)
    ensures at + n <= fl[i].End()
  {
    assert fl[i].End() < at + n ==> Blk(at, n).Has(fl[i].End());
  }

  lemma GrantListed(mem: seq<Header>, fl: seq<Blk>, color: seq<Color>, at: nat, n: nat)
    requires HeapOK(mem, fl, color, {}) && 0 < n && at + n <= |color|
    requires forall u :: at <= u < at + n ==> color[u] == Free
    ensures exists i :: 1 <= i < |fl| && n <= fl[i].size
  {
    assert color[at] == Free;
    var i :| 0 <= i < |fl| && fl[i].Has(at);
    RunInOneBlock(mem, fl, color, at, n, i);
    assert 1 <= i;
  }

  lemma EmptyHeap(mem: seq<Header>, color: seq<Color>)
    requires 0 < |color| <= |mem| && mem[0] == Header(0, 0)
    requires forall u :: 0 <= u < |color| ==> color[u] == Foreign
    ensures HeapOK(mem, [Blk(0, 0)], color, {})
  {
    assert HeaderAt(mem, [Blk(0, 0)], 0);
    assert forall a :: !Live(color, a);
  }

  lemma SameAddress(mem: seq<Header>, fl: seq<Blk>, color: seq<Color>, i: nat, k: nat)
    requires HeapOK(mem, fl, color, {}) && i < |fl| && k < |fl| && fl[i].at == fl[k].at
    ensures i == k
  {
  }

  lemma FreeData(mem: seq<Header>, fl: seq<Blk>, color: seq<Color>, j: nat, bp: nat)
    requires HeapOK(mem, fl, color, {}) && Live(color, bp) && Place(fl, j, bp)
    requires HeaderAt(mem, fl, j) && NextAt(fl, j) < |mem|
    ensures var c := Paint(color, bp, bp + mem[bp].size, Free);
      forall u :: 0 <= u < |mem| && (|c| <= u || c[u].Used?) ==> FreedMem(mem, fl[j].at, bp)[u] == mem[u]
  {
    EntryFacts(mem, fl, color, j);
    EntryInside(fl, color, j);
  }

  /** Colouring d is c with n Free units handed out as the block at q. */
  ghost predicate Gives(c: seq<Color>, q: nat, n: nat, d: seq<Color>) {
    && q + n <= |c|
    && (forall u :: q <= u < q + n ==> c[u] == Free)
    && d == Paint(c, q, q + n, Used(q))
  }

  /** The same, after sbrk's grant if it was needed. */
  ghost predicate Serves(c: seq<Color>, grant: Option<nat>, n: nat, q: nat, d: seq<Color>) {
    || Gives(c, q, n, d)
    || (grant.Some? && |c| <= grant.value && Gives(Extend(c, grant.value, GrantSize(n), Free), q, n, d))
  }

  /** The units malloc has ever obtained from sbrk. */
  function Owned(color: seq<Color>): set<nat> {
    set u | 0 <= u < |color| && color[u] != Foreign
  }

  /** Conservation: malloc owns exactly what it owned before, plus the grant if it took one;
      the block handed out was free before and every other unit keeps its owner. */
  lemma MallocConserves(c: seq<Color>, grant: Option<nat>, n: nat, q: nat, d: seq<Color>)
    requires Serves(c, grant, n, q, d)
    ensures Owned(d) == Owned(c) ||
      (grant.Some? && forall u :: u in Owned(d) <==> u in Owned(c) || grant.value <= u < grant.value + GrantSize(n))
    ensures forall u :: 0 <= u < |c| && !(q <= u < q + n) ==> d[u] == c[u]
    ensures forall u :: 0 <= u < |c| && c[u].Used? ==> d[u] == c[u]
  {
    hide Paint, Extend;
    if Gives(c, q, n, d) {
      assert Owned(d) == Owned(c);
    } else {
      var e := Extend(c, grant.value, GrantSize(n), Free);
      assert Owned(d) == Owned(e);
      assert forall u :: u in Owned(e) <==> u in Owned(c) || grant.value <= u < grant.value + GrantSize(n);
    }
  }

  /** Conservation: free returns the units of the block to the free ones and owns no less. */
  lemma FreeConserves(mem: seq<Header>, color: seq<Color>, bp: nat)
    requires LiveColored(mem, color) && Live(color, bp)
    ensures var d := Paint(color, bp, bp + mem[bp].size, Free);
      && Owned(d) == Owned(color)
      && (forall u :: 0 <= u < |color| && color[u] == Used(bp) ==> d[u] == Free)
      && (forall u :: 0 <= u < |color| && color[u] != Used(bp) ==> d[u] == color[u])
  {
  }

  class Heap {
    const mem: array<Header>
    var freep: int             // -1 stands for a null pointer
    ghost var fl: seq<Blk>
    ghost var color: seq<Color>

    /** Used once the list exists. */
    ghost predicate Listed()
      reads this, mem
    {
      && HeapOK(mem[..], fl, color, {})
      && exists k :: 0 <= k < |fl| && fl[k].at == freep
    }

    ghost predicate Valid()
      reads this, mem
    {
      && 0 < |color| <= mem.Length
      && if freep == -1 then forall u :: 0 <= u < |color| ==> color[u] == Foreign else Listed()
    }

    /** A process before its first malloc, with its break at unit brk. */
    constructor (units: nat, brk: nat)
      requires 0 < brk <= units
      ensures Valid() && fresh(mem) && mem.Length == units
      ensures freep == -1 && color == seq(brk, _ => Foreign)
    {
      mem := new Header[units](_ => Header(0, 0));
      freep := -1;
      fl := [];
      color := seq(brk, _ => Foreign);
    }

    /** The index behind which bp belongs. */
    static ghost function Slot(fl: seq<Blk>, bp: nat): (t: nat)
      requires Ordered(fl, {}) && 0 < bp && forall i :: 0 <= i < |fl| ==> fl[i].at != bp
      ensures Place(fl, t, bp)
    {
      SlotExists(fl, bp, |fl| - 1)
    }

    static ghost function SlotExists(fl: seq<Blk>, bp: nat, i: nat): (t: nat)
      requires Ordered(fl, {}) && 0 < bp && i < |fl| && forall k :: 0 <= k < |fl| ==> fl[k].at != bp
      requires forall k :: i < k < |fl| ==> bp < fl[k].at
      ensures Place(fl, t, bp)
    {
      if fl[i].at < bp then i else SlotExists(fl, bp, i - 1)
    }

    /** The circular search of free: where bp belongs in the list. */
    method FindPlace(bp: nat) returns (p: nat, ghost j: nat)
      requires Listed() && Live(color, bp)
      ensures Place(fl, j, bp) && fl[j].at == p && p < mem.Length
    {
      hide Ordered, FreeColored, LiveColored, Circular, Place;
      ApartFromAll(bp);
      j := Slot(fl, bp);
      p := WalkTo(bp, j);
    }

    method WalkTo(bp: nat, ghost j: nat) returns (p: nat)
      requires Listed() && Place(fl, j, bp)
      ensures p == fl[j].at < mem.Length
    {
      hide HeapOK, Place, HeaderAt;
      PlaceInside(fl, j, bp);
      ghost var n := |fl|;
      ghost var k: nat :| k < n && fl[k].at == freep;
      p := freep;
      AtEntry(mem[..], fl, color, j, k, bp);
      while !(p < bp < mem[p].ptr)
        invariant k < n == |fl| && p == fl[k].at < mem.Length && mem[p].ptr == NextAt(fl, k) && fl[0].at == 0
        invariant k == j <==> StopTest(p, NextAt(fl, k), bp)
        decreases if k <= j then j - k else n - k + j
      {
        if p >= mem[p].ptr && (bp > p || bp < mem[p].ptr) {
          break;
        }
        p := mem[p].ptr;
        k := if k + 1 < n then k + 1 else 0;
        AtEntry(mem[..], fl, color, j, k, bp);
      }
    }

    lemma ApartFromAll(bp: nat)
      requires Listed() && Live(color, bp)
      ensures 0 < bp && forall i :: 0 <= i < |fl| ==> fl[i].at != bp
    {
      forall i | 0 <= i < |fl| ensures fl[i].at != bp {
        LiveApart(mem[..], fl, color, bp, i);
      }
    }

    /** The relinking at the end of free. */
    method Relink(p: nat, bp: nat)
      requires p < mem.Length && bp < mem.Length && p != bp && mem[p].ptr < mem.Length
      modifies mem
      ensures mem[..] == FreedMem(old(mem[..]), p, bp)
    {
      var next := mem[p].ptr;
      if bp + mem[bp].size == next {
        mem[bp] := Header(mem[bp].ptr, mem[bp].size + mem[next].size);
        mem[bp] := Header(mem[next].ptr, mem[bp].size);
      } else {
        mem[bp] := Header(next, mem[bp].size);
      }
      if p + mem[p].size == bp {
        mem[p] := Header(mem[p].ptr, mem[p].size + mem[bp].size);
        mem[p] := Header(mem[bp].ptr, mem[p].size);
      } else {
        mem[p] := Header(bp, mem[p].size);
      }
    }

    /** free of a pointer that malloc returned: its units, and no others, become Free. */
    method Free(ap: nat)
      requires Listed() && 0 < ap && Live(color, ap - 1)
      modifies mem, this
      ensures Listed()
      ensures color == Paint(old(color), ap - 1, ap - 1 + old(mem[ap - 1].size), Color.Free)
      ensures forall u :: 0 <= u < mem.Length && (|color| <= u || color[u].Used?) ==> mem[u] == old(mem[u])
    {
      hide HeapOK, Paint, FreedMem;
      var bp := ap - 1;
      LiveInside(mem[..], fl, color, bp);
      var p, j := FindPlace(bp);
      ghost var gl := FreeKeeps(mem[..], fl, color, j, bp);
      FreeData(mem[..], fl, color, j, bp);
      ghost var c := Paint(color, bp, bp + mem[bp].size, Color.Free);
      Relink(p, bp);
      freep := p;
      color := c;
      fl := gl;
    }

    /** The circular first-fit search of malloc, once around from freep: the block found and
        its predecessor.  Not found means that no listed block is large enough. */
    method Search(n: nat) returns (found: bool, prevp: nat, p: nat, ghost i: nat)
      requires Listed() && 0 < n
      ensures found ==> 1 <= i < |fl| && p == fl[i].at && prevp == fl[i - 1].at && n <= fl[i].size
      ensures !found ==> forall k :: 0 <= k < |fl| ==> fl[k].size < n
    {
      hide HeapOK;
      ghost var start: nat :| start < |fl| && fl[start].at == freep;
      ghost var len, s := |fl|, 1;
      prevp := freep;
      HeaderFact(mem[..], fl, color, start);
      p := mem[prevp].ptr;
      i := if start + 1 < len then start + 1 else 0;
      found := true;
      while true
        invariant i < len == |fl| && Steps(start, i, len) == s && p == fl[i].at
        invariant prevp == fl[if i == 0 then len - 1 else i - 1].at
        invariant forall k :: 0 <= k < len && Steps(start, k, len) < s ==> fl[k].size < n
        decreases len - s
      {
        HeaderFact(mem[..], fl, color, i);
        if mem[p].size >= n {
          return;
        }
        if p == freep {
          SameAddress(mem[..], fl, color, start, i);
          found := false;
          return;
        }
        prevp, p := p, mem[p].ptr;
        s := s + 1;
        i := if i + 1 < len then i + 1 else 0;
      }
    }

    /** What malloc owes its caller: n units that were Free are now block q, and no word of
        any other live block has changed. */
    twostate predicate HandedOut(q: nat, n: nat)
      reads this, mem
    {
      && q + n <= |old(color)| <= mem.Length && 0 < n
      && color == Paint(old(color), q, q + n, Used(q)) && mem[q].size == n
      && (forall u :: q <= u < q + n ==> old(color)[u] == Color.Free)
      && (forall u :: 0 <= u < |old(color)| && old(color)[u].Used? ==> mem[u] == old(mem[u]))
    }

    /** malloc taking a block that fits exactly. */
    method CarveWhole(prevp: nat, p: nat, ghost i: nat)
      requires Listed() && 1 <= i < |fl| && p == fl[i].at && prevp == fl[i - 1].at
      modifies mem, this
      ensures Listed() && HandedOut(p, old(fl)[i].size)
    {
      hide HeapOK, Paint;
      EntryFacts(mem[..], fl, color, i);
      NotUsed(mem[..], fl, color, i);
      NotUsed(mem[..], fl, color, i - 1);
      TakeWhole(mem[..], fl, color, i);
      ghost var was: seq<Header> := mem[..];
      assert forall u :: p <= u < p + fl[i].size ==> fl[i].Has(u);
      mem[prevp] := Header(mem[p].ptr, mem[prevp].size);
      assert mem[..] == was[fl[i - 1].at := Header(NextAt(fl, i), fl[i - 1].size)];
      color := Paint(color, p, p + fl[i].size, Used(p));
      fl := RemoveAt(fl, i);
      freep := prevp;
      assert fl[i - 1].at == freep;
    }

    /** malloc taking the tail of a larger block. */
    method CarveTail(n: nat, prevp: nat, p: nat, ghost i: nat) returns (q: nat)
      requires Listed() && 1 <= i < |fl| && p == fl[i].at && prevp == fl[i - 1].at && 0 < n < fl[i].size
      modifies mem, this
      ensures Listed() && HandedOut(q, n)
    {
      hide HeapOK, Paint;
      EntryFacts(mem[..], fl, color, i);
      NotUsed(mem[..], fl, color, i);
      TakeTail(mem[..], fl, color, i, n);
      ghost var was: seq<Header> := mem[..];
      assert forall u :: p <= u < p + fl[i].size ==> fl[i].Has(u);
      mem[p] := Header(mem[p].ptr, mem[p].size - n);
      q := p + mem[p].size;
      mem[q] := Header(mem[q].ptr, n);
      assert mem[..] == TailMem(was, fl[i], n);
      color := Paint(color, q, q + n, Used(q));
      fl := fl[i := Blk(p, fl[i].size - n)];
      freep := prevp;
      assert fl[i - 1].at == freep;
    }

    /** malloc taking n units of the block that its search found. */
    method Carve(n: nat, prevp: nat, p: nat, ghost i: nat) returns (q: nat)
      requires Listed() && 1 <= i < |fl| && p == fl[i].at && prevp == fl[i - 1].at && 0 < n <= fl[i].size
      modifies mem, this
      ensures Listed() && Gives(old(color), q, n, color) && q < mem.Length && mem[q].size == n
      ensures forall u :: 0 <= u < |old(color)| && old(color)[u].Used? ==> mem[u] == old(mem[u])
    {
      hide HeapOK, Paint;
      EntryFacts(mem[..], fl, color, i);
      q := p;
      if mem[p].size == n {
        CarveWhole(prevp, p, i);
      } else {
        q := CarveTail(n, prevp, p, i);
      }
    }

    /** morecore, given the address sbrk returned: the new units join the free list. */
    method Morecore(n: nat, at: nat)
      requires Listed() && 0 < n && |color| <= at && at + GrantSize(n) <= mem.Length
      modifies mem, this
      ensures Listed() && color == Extend(old(color), at, GrantSize(n), Color.Free)
      ensures forall u :: 0 <= u < |old(color)| && old(color)[u].Used? ==> mem[u] == old(mem[u])
      ensures exists i :: 1 <= i < |fl| && n <= fl[i].size
    {
      hide HeapOK, Paint, Extend;
      var nu := if n < MIN_GRANT then MIN_GRANT else n;
      ExtendKeeps(mem[..], fl, color, at, nu);
      ghost var was: seq<Header>, c := mem[..], color;
      mem[at] := Header(mem[at].ptr, nu);
      assert mem[..] == was[at := Header(was[at].ptr, nu)];
      color := Extend(color, at, nu, Used(at));
      Free(at + 1);
      assert color == Extend(c, at, nu, Color.Free);
      GrantListed(mem[..], fl, color, at, nu);
    }

    /** malloc's first call makes base the whole list. */
    method InitList()
      requires Valid()
      modifies mem, this
      ensures Listed() && color == old(color)
      ensures forall u :: 0 <= u < |color| && color[u].Used? ==> mem[u] == old(mem[u])
      ensures old(freep) != -1 ==> fl == old(fl)
    {
      if freep == -1 {
        freep := 0;
        mem[0] := Header(0, 0);
        fl := [Blk(0, 0)];
        EmptyHeap(mem[..], color);
      }
    }

    /** malloc.  `grant` is where sbrk puts the new units if it is called, None if it fails.
        The result points behind the header of a block of NUnits(nbytes) units. */
    method Malloc(nbytes: nat, grant: Option<nat>) returns (r: Option<nat>)
      requires Valid() && nbytes < UINT_LIMIT && 8 * NUnits(nbytes) < 0x8000_0000
      requires grant.Some? ==> |color| <= grant.value && grant.value + GrantSize(NUnits(nbytes)) <= mem.Length
      modifies mem, this
      ensures Listed()
      ensures r.None? ==> grant.None? && color == old(color)
      ensures r.None? ==> forall k :: 0 <= k < |fl| ==> fl[k].size < NUnits(nbytes)
      ensures r.Some? ==> 0 < r.value && Serves(old(color), grant, NUnits(nbytes), r.value - 1, color)
      ensures r.Some? ==> r.value <= mem.Length && mem[r.value - 1].size == NUnits(nbytes)
      ensures r.Some? && old(freep) != -1 && |color| != |old(color)| ==>
        forall k :: 0 <= k < |old(fl)| ==> old(fl)[k].size < NUnits(nbytes)
      ensures forall u :: 0 <= u < |old(color)| && old(color)[u].Used? ==> mem[u] == old(mem[u])
    {
      hide HeapOK, Paint, Extend, NUnits;
      var n := NUnits(nbytes);
      InitList();
      var found, prevp, p, i := Search(n);
      if !found {
        if grant.None? {
          return None;
        }
        Morecore(n, grant.value);
        found, prevp, p, i := Search(n);
      }
      var q := Carve(n, prevp, p, i);
      r := Some(q + 1);
    }
  }
}
