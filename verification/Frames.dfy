/** Physical memory in page frames, and kalloc.c: the free frames are a list threaded through
    the frames themselves.  Every frame has one owner, which is what conservation means here. */
module Frames {
  import opened Machine

  const NENTRIES: nat := 1024
  const PGSIZE: nat := 4096
  const KERNBASE: nat := 0x8000_0000
  /** Frames below this number have an address that fits a word together with KERNBASE. */
  const MAXFRAMES: nat := 0x8_0000

  /** A frame seen as words. */
  type Page = p: seq<Word> | |p| == NENTRIES witness seq(NENTRIES, _ => 0)

  function Blank(w: Word): (p: Page)
    ensures forall k :: 0 <= k < NENTRIES ==> p[k] == w
  {
    seq(NENTRIES, _ => w)
  }

  /** Who has a frame.  Loose is anything the kernel has got from kalloc and not put into an
      address space; Reserved is the kernel itself. */
  datatype Owner = Reserved | Free | Loose | Dir | Table(pd: nat, i: nat) | User(pd: nat, vpn: nat)

  /** The kernel virtual address of a frame; zero is the null pointer. */
  function Address(f: nat): Word
    requires f < MAXFRAMES
  {
    KERNBASE + f * PGSIZE
  }

  function FrameAt(a: Word): nat
    requires a >= KERNBASE
  {
    (a - KERNBASE) / PGSIZE
  }

  /** What the word before position k of the list must be. */
  function Link(free: seq<nat>, k: nat): Word {
    if k < |free| && free[k] < MAXFRAMES then Address(free[k]) else 0
  }

  /** The list holds the free frames, each once. */
  ghost predicate Listed(own: seq<Owner>, free: seq<nat>) {
    && (forall k :: 0 <= k < |free| ==> free[k] < |own| && own[free[k]] == Owner.Free)
    && (forall k, l :: 0 <= k < l < |free| ==> free[k] != free[l])
    && (forall f :: 0 <= f < |own| && own[f] == Owner.Free ==> f in free)
  }

  /** From the head on, each frame starts with the address of the next. */
  ghost predicate Linked(pages: seq<Page>, head: Word, free: seq<nat>) {
    && head == Link(free, 0)
    && forall k {:trigger free[k]} :: 0 <= k < |free| ==>
         free[k] < |pages| <= MAXFRAMES && pages[free[k]][0] == Link(free, k + 1)
  }

  ghost predicate Threaded(pages: seq<Page>, own: seq<Owner>, head: Word, free: seq<nat>) {
    |own| == |pages| <= MAXFRAMES && Listed(own, free) && Linked(pages, head, free)
  }

  lemma TakeListed(own: seq<Owner>, free: seq<nat>)
    requires Listed(own, free) && free != []
    ensures Listed(own[free[0] := Loose], free[1..])
  {
    var rest := free[1..];
    forall f | 0 <= f < |own| && f != free[0] && own[f] == Owner.Free ensures f in rest {
      assert f in free;
    }
  }

  lemma TakeKeeps(pages: seq<Page>, own: seq<Owner>, head: Word, free: seq<nat>)
    requires Threaded(pages, own, head, free) && free != []
    ensures free[0] < |pages| && Threaded(pages, own[free[0] := Loose], pages[free[0]][0], free[1..])
  {
    hide Listed, Address;
    TakeListed(own, free);
    var rest := free[1..];
    forall k | 0 <= k < |rest| ensures rest[k] < |pages| && pages[rest[k]][0] == Link(rest, k + 1) {
      assert rest[k] == free[k + 1];
    }
  }

  lemma GiveListed(own: seq<Owner>, free: seq<nat>, f: nat)
    requires Listed(own, free) && f < |own| && own[f] != Owner.Free
    ensures Listed(own[f := Owner.Free], [f] + free)
  {
    var all := [f] + free;
    forall g | 0 <= g < |own| && own[f := Owner.Free][g] == Owner.Free ensures g in all {
      if g != f {
        assert g in free;
      }
    }
  }

  lemma GiveKeeps(pages: seq<Page>, own: seq<Owner>, head: Word, free: seq<nat>, f: nat, p: Page)
    requires Threaded(pages, own, head, free) && f < |pages| && own[f] != Owner.Free && p[0] == head
    ensures Threaded(pages[f := p], own[f := Owner.Free], Address(f), [f] + free)
  {
    hide Address;
    GiveListed(own, free, f);
    var all := [f] + free;
    var now := pages[f := p];
    forall k | 0 <= k < |all| ensures all[k] < |now| && now[all[k]][0] == Link(all, k + 1) {
      if k > 0 {
        assert all[k] == free[k - 1] && free[k - 1] != f;
      }
    }
  }

  /** Other frames may change freely. */
  lemma OtherKeeps(pages: seq<Page>, own: seq<Owner>, head: Word, free: seq<nat>, now: seq<Page>, own': seq<Owner>)
    requires Threaded(pages, own, head, free) && |now| == |pages| && |own'| == |own|
    requires forall f :: 0 <= f < |own| ==> (own'[f] == Owner.Free <==> own[f] == Owner.Free)
    requires forall f :: 0 <= f < |own| && own[f] == Owner.Free ==> now[f] == pages[f]
    ensures Threaded(now, own', head, free)
  {
    hide Address;
  }

  class Memory {
    const pages: array<Page>
    var freelist: Word
    ghost var own: seq<Owner>
    ghost var free: seq<nat>

    ghost predicate Valid()
      reads this, pages
    {
      Threaded(pages[..], own, freelist, free)
    }

    /** kinit1 and kinit2: freerange over the frames from lo on. */
    constructor (nframes: nat, lo: nat)
      requires lo <= nframes <= MAXFRAMES
      ensures Valid() && fresh(pages) && pages.Length == nframes
      ensures forall f :: 0 <= f < nframes ==> own[f] == if f < lo then Reserved else Owner.Free
      ensures |own| == nframes && |free| == nframes - lo
    {
      pages := new Page[nframes](_ => Blank(0));
      freelist := 0;
      own := seq(nframes, _ => Reserved);
      free := [];
      new;
      FreeRange(lo);
    }

    /** freerange up to the end of memory. */
    method FreeRange(lo: nat)
      requires Valid() && lo <= pages.Length && free == []
      requires forall f :: 0 <= f < pages.Length ==> own[f] == Reserved
      modifies this, pages
      ensures Valid() && |own| == pages.Length && |free| == pages.Length - lo
      ensures forall f :: 0 <= f < pages.Length ==> own[f] == if f < lo then Reserved else Owner.Free
    {
      for f := lo to pages.Length
        invariant Valid() && |free| == f - lo
        invariant forall g :: 0 <= g < pages.Length ==> own[g] == if lo <= g < f then Owner.Free else Reserved
      {
        Kfree(f);
      }
    }

    /** kfree: the frame is filled with junk and put in front of the list. */
    method Kfree(f: nat)
      requires Valid() && f < pages.Length && own[f] != Owner.Free
      modifies this, pages
      ensures Valid() && own == old(own)[f := Owner.Free] && free == [f] + old(free)
      ensures forall g :: 0 <= g < pages.Length && g != f ==> pages[g] == old(pages[g])
    {
      hide Threaded;
      MemoryShape(pages[..], own, freelist, free);
      ghost var was: seq<Page> := pages[..];
      var junk: Page := Blank(0x01010101)[0 := freelist];
      GiveKeeps(was, own, freelist, free, f, junk);
      pages[f] := junk;
      freelist := Address(f);
      own, free := own[f := Owner.Free], [f] + free;
      assert pages[..] == was[f := junk];
    }

    /** kalloc: the first frame of the list, which is nobody's until now. */
    method Kalloc() returns (r: Option<nat>)
      requires Valid()
      modifies this
      ensures Valid()
      ensures r.None? <==> old(free) == []
      ensures r.None? ==> own == old(own) && free == old(free)
      ensures r.Some? ==> r.value < pages.Length && old(own)[r.value] == Owner.Free && own == old(own)[r.value := Loose]
      ensures r.Some? ==> old(free) == [r.value] + free
    {
      hide Threaded;
      MemoryShape(pages[..], own, freelist, free);
      if freelist == 0 {
        return None;
      }
      var f := FrameAt(freelist);
      TakeKeeps(pages[..], own, freelist, free);
      freelist := pages[f][0];
      own, free := own[f := Loose], free[1..];
      return Some(f);
    }

    /** Writing into a frame that is not free. */
    method Fill(f: nat, p: Page)
      requires Valid() && f < pages.Length && own[f] != Owner.Free
      modifies pages
      ensures Valid() && pages[..] == old(pages[..])[f := p]
    {
      ghost var was: seq<Page> := pages[..];
      pages[f] := p;
      assert pages[..] == was[f := p];
      OtherKeeps(was, own, freelist, free, pages[..], own);
    }

    /** Frames that are not free change hands. */
    ghost method Transfer(own': seq<Owner>)
      requires Valid() && |own'| == |own|
      requires forall f :: 0 <= f < |own| ==> (own'[f] == Owner.Free <==> own[f] == Owner.Free)
      modifies this`own
      ensures Valid() && own == own'
    {
      OtherKeeps(pages[..], own, freelist, free, pages[..], own');
      own := own';
    }
  }

  lemma MemoryShape(pages: seq<Page>, own: seq<Owner>, head: Word, free: seq<nat>)
    requires Threaded(pages, own, head, free)
    ensures |own| == |pages| <= MAXFRAMES && (head == 0 <==> free == [])
    ensures head != 0 ==> head >= KERNBASE && FrameAt(head) == free[0] < |pages| && own[free[0]] == Owner.Free
  {
  }
}
