/** vm.c: growing, shrinking, copying and freeing address spaces. */
module VirtualMemory {
  import opened Machine
  import opened Frames
  import opened Spaces

  ghost predicate Ready(m: Memory)
    reads m, m.pages
  {
    m.Valid() && |m.own| == m.pages.Length && SpacesOK(m.pages[..], m.own)
  }

  // ----- what an operation on one space may touch

  /** Frames that work on space pd may take, give back or rewrite: free ones, its tables, and its
      user frames for the pages from lo up to hi. */
  predicate Mine(o: Owner, pd: nat, lo: nat, hi: nat) {
    o.Free? || (o.Table? && o.pd == pd) || (o.User? && o.pd == pd && lo <= o.vpn < hi)
  }

  /** Everything else keeps its owner and its contents, the directory itself only its owner, and
      nothing else gains a frame.  ex names frames that are left out. */
  ghost predicate Within(pages: seq<Page>, own: seq<Owner>, now: seq<Page>, own': seq<Owner>, pd: nat, lo: nat,
        hi: nat, ex: set<nat>) {
    && |pages| == |own| == |now| == |own'|
    && (forall f {:trigger own'[f]} ::
          0 <= f < |own| && f !in ex && (!Mine(own[f], pd, lo, hi) || !Mine(own'[f], pd, lo, hi)) ==> own'[f] == own[f])
    && (forall f {:trigger now[f]} :: 0 <= f < |own| && f !in ex && !Mine(own[f], pd, lo, hi) && f != pd ==>
          now[f] == pages[f])
  }

  lemma WithinSelf(pages: seq<Page>, own: seq<Owner>, pd: nat, lo: nat, hi: nat, ex: set<nat>)
    requires |own| == |pages|
    ensures Within(pages, own, pages, own, pd, lo, hi, ex)
  {
  }

  lemma WithinTrans(p0: seq<Page>, o0: seq<Owner>, p1: seq<Page>, o1: seq<Owner>, p2: seq<Page>, o2: seq<Owner>,
                    pd: nat, lo: nat, hi: nat, ex: set<nat>)
    requires Within(p0, o0, p1, o1, pd, lo, hi, ex) && Within(p1, o1, p2, o2, pd, lo, hi, ex)
    ensures Within(p0, o0, p2, o2, pd, lo, hi, ex)
  {
    hide Mine;
    forall f | 0 <= f < |o0| && f !in ex
      ensures !Mine(o0[f], pd, lo, hi) || !Mine(o2[f], pd, lo, hi) ==> o2[f] == o0[f]
      ensures !Mine(o0[f], pd, lo, hi) && f != pd ==> p2[f] == p0[f]
    {
      assert o1[f] == o1[f] && p1[f] == p1[f] && o2[f] == o2[f] && p2[f] == p2[f];
    }
  }

  lemma WithinMore(p0: seq<Page>, o0: seq<Owner>, p1: seq<Page>, o1: seq<Owner>, pd: nat, lo: nat, hi: nat, lo': nat,
        hi': nat, ex: set<nat>, ex': set<nat>)
    requires Within(p0, o0, p1, o1, pd, lo, hi, ex) && ((lo' <= lo && hi <= hi') || lo >= hi) && ex <= ex'
    ensures Within(p0, o0, p1, o1, pd, lo', hi', ex')
  {
  }

  /** Other spaces see nothing of it. */
  lemma OtherSpace(pages: seq<Page>, own: seq<Owner>, now: seq<Page>, own': seq<Owner>, pd: nat, lo: nat, hi: nat,
        ex: set<nat>, q: nat, v: nat)
    requires SpacesOK(pages, own) && Within(pages, own, now, own', pd, lo, hi, ex)
    requires forall f :: f in ex && f < |own| ==> !Structural(own[f])
    requires q < |own| && own[q].Dir? && q != pd && v < NPAGES && pd < |own| && !own[pd].Table? && !own[pd].User?
    ensures own'[q].Dir? && Pte(now, q, v) == Pte(pages, q, v)
    ensures v < USERPAGES && Present(Pte(pages, q, v)) ==>
      var f := FrameOf(Pte(pages, q, v)); f < |own| && own'[f] == own[f] && now[f] == pages[f]
  {
    hide TableOK, UserOK;
    TableOwner(pages, own, q, v / NENTRIES);
    assert own'[q] == own[q] && now[q] == pages[q];
    var t := TableOf(pages, q, v / NENTRIES);
    if t.Some? {
      assert now[t.value] == pages[t.value];
    }
    if v < USERPAGES {
      assert LeafOK(pages, own, q, v);
      if Present(Pte(pages, q, v)) {
        var f := FrameOf(Pte(pages, q, v));
        assert own'[f] == own[f] && now[f] == pages[f];
      }
    }
  }

  /** No frame has become free. */
  ghost predicate NoneFreed(own: seq<Owner>, own': seq<Owner>) {
    |own'| == |own| && forall f {:trigger own'[f]} :: 0 <= f < |own| && own'[f].Free? ==> own[f].Free?
  }

  // ----- counting tables

  /** The slots of directory pd that lead to a table. */
  function Tabs(pages: seq<Page>, pd: nat): set<nat> {
    set i: nat | i < NENTRIES && TableOf(pages, pd, i).Some?
  }

  /** The slots that the pages lo up to hi need. */
  function Slots(lo: nat, hi: nat): set<nat> {
    if hi <= lo then {} else Slots(lo, hi - 1) + {(hi - 1) / NENTRIES}
  }

  lemma TabsSame(pages: seq<Page>, now: seq<Page>, pd: nat)
    requires pd < |pages| == |now| && now[pd] == pages[pd]
    ensures Tabs(now, pd) == Tabs(pages, pd)
  {
    assert forall i :: 0 <= i < NENTRIES ==> TableOf(now, pd, i) == TableOf(pages, pd, i);
  }

  lemma TabsMore(pages: seq<Page>, now: seq<Page>, pd: nat, i: nat, t: nat)
    requires pd < |pages| == |now| <= NPAGES && i < NENTRIES && t < |pages|
    requires now[pd] == pages[pd][i := MakePte(t, PTE_W + PTE_U)]
    ensures Tabs(now, pd) == Tabs(pages, pd) + {i}
  {
    hide MakePte;
    forall j | 0 <= j < NENTRIES ensures TableOf(now, pd, j).Some? <==> TableOf(pages, pd, j).Some? || j == i {
      assert j != i ==> now[pd][j] == pages[pd][j];
    }
  }

  /** Frames that mapping the pages lo up to hi takes for tables. */
  function TablesFor(tabs: set<nat>, lo: nat, hi: nat): nat {
    |Slots(lo, hi) - tabs|
  }

  lemma OneMoreTable(tabs: set<nat>, lo: nat, a: nat)
    requires lo <= a
    ensures tabs + Slots(lo, a) + {a / NENTRIES} == tabs + Slots(lo, a + 1)
    ensures TablesFor(tabs, lo, a + 1) ==
      TablesFor(tabs, lo, a) + if a / NENTRIES in tabs + Slots(lo, a) then 0 else 1
  {
    var s, i := Slots(lo, a) - tabs, a / NENTRIES;
    if i in tabs + Slots(lo, a) {
      assert Slots(lo, a + 1) - tabs == s;
    } else {
      assert Slots(lo, a + 1) - tabs == s + {i};
    }
  }

  lemma {:induction false} MoreTables(tabs: set<nat>, lo: nat, a: nat, hi: nat)
    requires lo <= a <= hi
    ensures TablesFor(tabs, lo, a) <= TablesFor(tabs, lo, hi)
    decreases hi - a
  {
    hide Slots, TablesFor;
    if a < hi {
      OneMoreTable(tabs, lo, a);
      MoreTables(tabs, lo, a + 1, hi);
    }
  }

  lemma NoSlots(tabs: set<nat>, a: nat)
    ensures tabs + Slots(a, a) == tabs && TablesFor(tabs, a, a) == 0
  {
    assert Slots(a, a) - tabs == {};
  }

  lemma OneTable(tabs: set<nat>, a: nat)
    ensures tabs + Slots(a, a + 1) == tabs + {a / NENTRIES}
    ensures TablesFor(tabs, a, a + 1) == if a / NENTRIES in tabs then 0 else 1
  {
    NoSlots(tabs, a);
    OneMoreTable(tabs, a, a);
  }

  // ----- walking

  /** walkpgdir: the table that holds the entry for page vpn.  With alloc a missing table is
      made; None is no table, or no memory for one. */
  method Walk(m: Memory, pd: nat, vpn: nat, alloc: bool) returns (r: Option<nat>)
    requires Ready(m) && pd < m.pages.Length && m.own[pd].Dir? && vpn < NPAGES
    modifies m, m.pages
    ensures Ready(m) && Within(old(m.pages[..]), old(m.own), m.pages[..], m.own, pd, 0, 0, {})
    ensures forall q, v :: 0 <= q < |m.own| && old(m.own)[q].Dir? && 0 <= v < NPAGES ==>
      Pte(m.pages[..], q, v) == Pte(old(m.pages[..]), q, v)
    ensures r.Some? ==> TableOf(m.pages[..], pd, vpn / NENTRIES) == r
    ensures r.Some? <==> vpn / NENTRIES in Tabs(old(m.pages[..]), pd) || (alloc && old(m.free) != [])
    ensures r.Some? ==> Tabs(m.pages[..], pd) == Tabs(old(m.pages[..]), pd) + {vpn / NENTRIES}
    ensures r.Some? ==>
      |m.free| + (if vpn / NENTRIES in Tabs(old(m.pages[..]), pd) then 0 else 1) == |old(m.free)|
    ensures r.None? ==> m.pages[..] == old(m.pages[..]) && m.own == old(m.own) && m.free == old(m.free)
    ensures r.None? ==> TableOf(m.pages[..], pd, vpn / NENTRIES).None? && (!alloc || m.free == [])
    ensures !alloc ==> m.pages[..] == old(m.pages[..]) && m.own == old(m.own) && m.free == old(m.free)
    ensures NoneFreed(old(m.own), m.own)
  {
    hide SpacesOK, Pte, Within, Threaded, Mine;
    ghost var p0: seq<Page>, o0 := m.pages[..], m.own;
    var i := vpn / NENTRIES;
    TableOwner(p0, o0, pd, i);
    TabsSame(p0, p0, pd);
    WithinSelf(p0, o0, pd, 0, 0, {});
    var pde := m.pages[pd][i];
    if Present(pde) {
      return Some(FrameOf(pde));
    }
    if !alloc {
      return None;
    }
    var t := m.Kalloc();
    if t.None? {
      return None;
    }
    assert m.own[t.value := Owner.Free] == o0;
    GrowTable(m, pd, i, t.value);
    return t;
  }

  /** A fresh table for slot i of the directory. */
  method GrowTable(m: Memory, pd: nat, i: nat, t: nat)
    requires m.Valid() && t < m.pages.Length && m.own[t].Loose? && pd < m.pages.Length && i < NENTRIES
    requires |m.own| == m.pages.Length && SpacesOK(m.pages[..], m.own[t := Owner.Free]) && m.own[pd].Dir?
    requires !Present(m.pages[pd][i])
    modifies m, m.pages
    ensures Ready(m) && Within(old(m.pages[..]), old(m.own)[t := Owner.Free], m.pages[..], m.own, pd, 0, 0, {})
    ensures forall q, v :: 0 <= q < |m.own| && old(m.own)[q].Dir? && 0 <= v < NPAGES ==>
      Pte(m.pages[..], q, v) == Pte(old(m.pages[..]), q, v)
    ensures TableOf(m.pages[..], pd, i) == Some(t) && NoneFreed(old(m.own), m.own)
    ensures Tabs(m.pages[..], pd) == Tabs(old(m.pages[..]), pd) + {i} && m.free == old(m.free)
  {
    hide SpacesOK, Pte, Threaded, TableOf, Within, MakePte, Tabs;
    ghost var p0: seq<Page>, o1 := m.pages[..], m.own;
    ghost var o0 := o1[t := Owner.Free];
    m.Fill(t, Blank(0));
    ghost var p1: seq<Page> := m.pages[..];
    LooseFill(p0, o0, t, Blank(0));
    assert o0[t := Loose] == o1;
    WithTableKeeps(p1, o1, pd, i, t);
    SpaceShape(p1, o1);
    m.Fill(pd, m.pages[pd][i := MakePte(t, PTE_W + PTE_U)]);
    m.Transfer(o1[t := Table(pd, i)]);
    assert m.pages[..] == WithTable(p1, pd, i, t);
    TabsMore(p0, m.pages[..], pd, i, t);
    GrowWithin(p0, o0, pd, i, t, m.pages[pd]);
    assert o0[t := Table(pd, i)] == m.own;
  }

  lemma SpaceShape(pages: seq<Page>, own: seq<Owner>)
    requires SpacesOK(pages, own)
    ensures |own| == |pages| <= MAXFRAMES && 0 < |own| && own[0] == Reserved
  {
  }

  /** A frame taken from the free list and filled. */
  lemma LooseFill(pages: seq<Page>, own: seq<Owner>, f: nat, p: Page)
    requires SpacesOK(pages, own) && f < |own| && (own[f].Free? || own[f].Loose?)
    ensures SpacesOK(pages[f := p], own[f := Loose]) && SpacesOK(pages[f := p], own)
    ensures forall q, v :: 0 <= q < |own| && own[q].Dir? && 0 <= v < NPAGES ==>
      Pte(pages[f := p], q, v) == Pte(pages, q, v)
  {
    hide Pte, TableOK, UserOK, LeafOK, DirsOK;
    SameKeeps(pages, own, pages[f := p], own[f := Loose]);
    SameKeeps(pages, own, pages[f := p], own);
  }

  lemma GrowWithin(pages: seq<Page>, own: seq<Owner>, pd: nat, i: nat, t: nat, dir: Page)
    requires |own| == |pages| && t < |own| && own[t].Free? && pd < |own| && pd != t
    ensures Within(pages, own, pages[t := Blank(0)][pd := dir], own[t := Table(pd, i)], pd, 0, 0, {})
  {
  }

  // ----- mapping

  /** The frame a new user entry takes over; kernel entries take over nothing. */
  function Taken(vpn: nat, f: nat): set<nat> {
    if vpn < USERPAGES then {f} else {}
  }

  predicate CanMap(pages: seq<Page>, own: seq<Owner>, pd: nat, vpn: nat, f: nat, perm: nat) {
    && |own| == |pages| && pd < |own| && own[pd].Dir? && vpn < NPAGES && f < NPAGES && perm < PGSIZE
    && !Present(Pte(pages, pd, vpn)) && (vpn < USERPAGES ==> 0 < f < |own| && own[f].Loose?)
  }

  /** One turn of the loop of mappages: find or make the table, then write the entry. */
  method MapOne(m: Memory, pd: nat, vpn: nat, f: nat, perm: nat) returns (ok: bool)
    requires Ready(m) && CanMap(m.pages[..], m.own, pd, vpn, f, perm)
    modifies m, m.pages
    ensures Ready(m) && Within(old(m.pages[..]), old(m.own), m.pages[..], m.own, pd, 0, 0, Taken(vpn, f))
    ensures !ok ==> m.pages[..] == old(m.pages[..]) && m.own == old(m.own) && m.free == old(m.free) == []
    ensures ok ==> forall q, v :: 0 <= q < |m.own| && old(m.own)[q].Dir? && 0 <= v < NPAGES ==>
      Pte(m.pages[..], q, v) == if q == pd && v == vpn then MakePte(f, perm) else Pte(old(m.pages[..]), q, v)
    ensures ok && vpn < USERPAGES ==> f < m.pages.Length && m.own[f] == User(pd, vpn) && m.pages[f] == old(m.pages[f])
    ensures NoneFreed(old(m.own), m.own)
    ensures ok <==> vpn / NENTRIES in Tabs(old(m.pages[..]), pd) || old(m.free) != []
    ensures ok ==> Tabs(m.pages[..], pd) == Tabs(old(m.pages[..]), pd) + {vpn / NENTRIES}
    ensures ok ==> |m.free| + (if vpn / NENTRIES in Tabs(old(m.pages[..]), pd) then 0 else 1) == |old(m.free)|
  {
    hide SpacesOK, Pte, Threaded, TableOf, Within, MakePte, Tabs;
    ghost var p0: seq<Page>, o0 := m.pages[..], m.own;
    var t := Walk(m, pd, vpn, true);
    WithinMore(p0, o0, m.pages[..], m.own, pd, 0, 0, 0, 0, {}, Taken(vpn, f));
    if t.None? {
      return false;
    }
    ghost var p1: seq<Page>, o1 := m.pages[..], m.own;
    DirsStay(p0, o0, p1, o1, pd, {});
    LooseStays(p0, o0, p1, o1, pd, vpn, f);
    ghost var w := MakePte(f, perm);
    ghost var o2 := if vpn < USERPAGES then o1[f := User(pd, vpn)] else o1;
    assert Entering(p1, o1, pd, vpn, t.value, w, o2);
    EnteringKeeps(p1, o1, pd, vpn, t.value, w, o2);
    m.Fill(t.value, m.pages[t.value][vpn % NENTRIES := MakePte(f, perm)]);
    m.Transfer(o2);
    assert m.pages[..] == WithEntry(p1, t.value, vpn % NENTRIES, w);
    TabsSame(p1, m.pages[..], pd);
    EntryWithin(p1, o1, pd, vpn, t.value, w, f, o2);
    WithinTrans(p0, o0, p1, o1, m.pages[..], m.own, pd, 0, 0, Taken(vpn, f));
    return true;
  }

  lemma LooseStays(p0: seq<Page>, o0: seq<Owner>, p1: seq<Page>, o1: seq<Owner>, pd: nat, vpn: nat, f: nat)
    requires Within(p0, o0, p1, o1, pd, 0, 0, {}) && pd < |o0| && o0[pd].Dir?
    ensures o1[pd].Dir? && (f < |o0| && o0[f].Loose? ==> o1[f].Loose? && p1[f] == p0[f])
  {
  }

  lemma EntryWithin(pages: seq<Page>, own: seq<Owner>, pd: nat, vpn: nat, t: nat, w: Word, f: nat, own': seq<Owner>)
    requires |own| == |pages| && t < |own| && own[t] == Table(pd, vpn / NENTRIES)
    requires own' == if vpn < USERPAGES && f < |own| then own[f := User(pd, vpn)] else own
    requires vpn < USERPAGES ==> f < |own|
    ensures Within(pages, own, WithEntry(pages, t, vpn % NENTRIES, w), own', pd, 0, 0, Taken(vpn, f))
    ensures f < |own| && own[f].Loose? ==> WithEntry(pages, t, vpn % NENTRIES, w)[f] == pages[f]
  {
  }

  /** Pages first up to first + n of space pd lead to the frames from f on; nothing else changed. */
  ghost predicate Mapped(pages: seq<Page>, own: seq<Owner>, now: seq<Page>, pd: nat, first: nat, n: nat, f: nat,
        perm: nat) {
    && f + n <= NPAGES && perm < PGSIZE
    && forall q, v {:trigger Pte(now, q, v)} :: 0 <= q < |own| && own[q].Dir? && 0 <= v < NPAGES ==>
         Pte(now, q, v) ==
           if q == pd && first <= v < first + n then MakePte(f + (v - first), perm) else Pte(pages, q, v)
  }

  /** What mappages demands: entries that are free and, for a user page, a frame nobody uses. */
  ghost predicate CanMapAll(pages: seq<Page>, own: seq<Owner>, pd: nat, first: nat, n: nat, f: nat, perm: nat) {
    && |own| == |pages| && pd < |own| && own[pd].Dir? && first + n <= NPAGES && f + n <= NPAGES && perm < PGSIZE
    && (first < USERPAGES ==> n == 1 && 0 < f < |own| && own[f].Loose?)
    && forall v :: first <= v < first + n ==> !Present(Pte(pages, pd, v))
  }

  /** mappages, for the pages that va and size touch.  Kernel regions may span pages; user pages
      are mapped one at a time.  On failure the pages before the one that failed stay mapped. */
  method MapPages(m: Memory, pd: nat, va: nat, size: nat, pa: nat, perm: nat, ghost first: nat, ghost n: nat,
        ghost f: nat)
    returns (ok: bool, ghost done: nat)
    requires Ready(m) && 0 < size && va + size <= UINT_LIMIT && pa == f * PGSIZE
    requires first == va / PGSIZE && first + n == (va + size - 1) / PGSIZE + 1
    requires CanMapAll(m.pages[..], m.own, pd, first, n, f, perm)
    modifies m, m.pages
    ensures Ready(m) && Within(old(m.pages[..]), old(m.own), m.pages[..], m.own, pd, 0, 0, Taken(first, f))
    ensures done <= n && (ok <==> done == n) && (!ok ==> m.free == [])
    ensures ok <==> TablesFor(Tabs(old(m.pages[..]), pd), first, first + n) <= |old(m.free)|
    ensures ok ==> Tabs(m.pages[..], pd) == Tabs(old(m.pages[..]), pd) + Slots(first, first + n)
    ensures ok ==> |m.free| + TablesFor(Tabs(old(m.pages[..]), pd), first, first + n) == |old(m.free)|
    ensures Mapped(old(m.pages[..]), old(m.own), m.pages[..], pd, first, done, f, perm)
    ensures first < USERPAGES && !ok ==> m.own == old(m.own) && m.pages[..] == old(m.pages[..])
    ensures first < USERPAGES && ok ==>
      f < m.pages.Length && m.own[f] == User(pd, first) && m.pages[f] == old(m.pages[f])
    ensures NoneFreed(old(m.own), m.own)
  {
    hide SpacesOK, Pte, Threaded, TableOf, Within, MakePte, Tabs, Slots, TablesFor;
    ghost var p0: seq<Page>, o0 := m.pages[..], m.own;
    var a, last, frame := va / PGSIZE, (va + size - 1) / PGSIZE, pa / PGSIZE;
    done := 0;
    ghost var tabs := Tabs(p0, pd);
    NoSlots(tabs, first);
    WithinSelf(p0, o0, pd, 0, 0, Taken(first, f));
    while true
      invariant first <= a <= last && frame == f + (a - first) && done == a - first
      invariant Ready(m) && |m.own| == |o0| && Within(p0, o0, m.pages[..], m.own, pd, 0, 0, Taken(first, f))
      invariant forall q :: 0 <= q < |o0| && o0[q].Dir? ==> m.own[q].Dir?
      invariant done == 0 ==> m.pages[..] == p0 && m.own == o0
      invariant NoneFreed(o0, m.own)
      invariant Mapped(p0, o0, m.pages[..], pd, first, done, f, perm)
      invariant Tabs(m.pages[..], pd) == tabs + Slots(first, a)
      invariant |m.free| + TablesFor(tabs, first, a) == |old(m.free)|
      decreases last - a
    {
      OneMoreTable(tabs, first, a);
      MoreTables(tabs, first, a + 1, first + n);
      ghost var p1: seq<Page>, o1 := m.pages[..], m.own;
      assert !Present(Pte(p1, pd, a));
      ok := MapOne(m, pd, a, frame, perm);
      if !ok {
        return;
      }
      WithinTrans(p0, o0, p1, o1, m.pages[..], m.own, pd, 0, 0, Taken(first, f));
      MappedMore(p0, o0, p1, o1, m.pages[..], pd, first, done, f, perm);
      done := done + 1;
      if a == last {
        return;
      }
      DirsStay(p1, o1, m.pages[..], m.own, pd, {});
      a := a + 1;
      frame := frame + 1;
    }
  }

  lemma MappedMore(p0: seq<Page>, o0: seq<Owner>, p1: seq<Page>, o1: seq<Owner>, p2: seq<Page>, pd: nat, first: nat,
        done: nat, f: nat, perm: nat)
    requires Mapped(p0, o0, p1, pd, first, done, f, perm) && |o1| == |o0| && f + done < NPAGES
    requires forall q :: 0 <= q < |o0| && o0[q].Dir? ==> o1[q].Dir?
    requires forall q, v :: 0 <= q < |o1| && o1[q].Dir? && 0 <= v < NPAGES ==>
      Pte(p2, q, v) == if q == pd && v == first + done then MakePte(f + done, perm) else Pte(p1, q, v)
    ensures Mapped(p0, o0, p2, pd, first, done + 1, f, perm)
  {
    hide Pte, MakePte;
  }

  lemma DirsStay(pages: seq<Page>, own: seq<Owner>, now: seq<Page>, own': seq<Owner>, pd: nat, ex: set<nat>)
    requires Within(pages, own, now, own', pd, 0, 0, ex)
    ensures forall q :: 0 <= q < |own| && q !in ex && own[q].Dir? ==> own'[q].Dir?
  {
  }

  // ----- shrinking

  /** The number of pages that hold sz bytes. */
  function Up(sz: nat): nat {
    (sz + PGSIZE - 1) / PGSIZE
  }

  /** The owners once the user frames of pages lo up to hi are free. */
  function Shrunk(own: seq<Owner>, pd: nat, lo: nat, hi: nat): (r: seq<Owner>)
    ensures |r| == |own|
    ensures forall f {:trigger r[f]} :: 0 <= f < |own| ==>
      r[f] == if own[f].User? && own[f].pd == pd && lo <= own[f].vpn < hi then Owner.Free else own[f]
  {
    seq(|own|, f requires 0 <= f < |own| =>
      if own[f].User? && own[f].pd == pd && lo <= own[f].vpn < hi then Owner.Free else own[f])
  }

  /** The entries of pages lo up to hi are gone; nothing else changed. */
  ghost predicate Unmapped(pages: seq<Page>, own: seq<Owner>, now: seq<Page>, pd: nat, lo: nat, hi: nat) {
    forall q, v {:trigger Pte(now, q, v)} :: 0 <= q < |own| && own[q].Dir? && 0 <= v < NPAGES ==>
      if q == pd && lo <= v < hi then !Present(Pte(now, q, v)) else Pte(now, q, v) == Pte(pages, q, v)
  }

  /** deallocuvm: exactly the user frames of the pages above newsz go back to the free list, and
      skipping a whole directory entry misses none of them. */
  method DeallocUvm(m: Memory, pd: nat, oldsz: nat, newsz: nat) returns (sz: nat)
    requires Ready(m) && pd < m.pages.Length && m.own[pd].Dir? && oldsz <= KERNBASE
    modifies m, m.pages
    ensures Ready(m) && sz == if newsz >= oldsz then oldsz else newsz
    ensures m.own == Shrunk(old(m.own), pd, Up(newsz), Up(oldsz))
    ensures Within(old(m.pages[..]), old(m.own), m.pages[..], m.own, pd, Up(newsz), Up(oldsz), {})
    ensures Unmapped(old(m.pages[..]), old(m.own), m.pages[..], pd, Up(newsz), Up(oldsz))
  {
    hide SpacesOK, Pte, Threaded, TableOf, Within, Unmapped;
    ghost var p0: seq<Page>, o0 := m.pages[..], m.own;
    var lo, hi := Up(newsz), Up(oldsz);
    ShrunkStart(p0, o0, pd, lo, hi);
    if newsz >= oldsz {
      return oldsz;
    }
    var a := lo;
    while a < hi
      invariant lo <= a && Shrinking(p0, o0, m.pages[..], m.own, pd, lo, if a < hi then a else hi, hi) && Ready(m)
      decreases hi - a
    {
      ghost var p1: seq<Page>, o1 := m.pages[..], m.own;
      ShrinkingDir(p0, o0, p1, o1, pd, lo, a, hi);
      var t := Walk(m, pd, a, false);
      if t.None? {
        var next := (a / NENTRIES + 1) * NENTRIES;
        ShrinkSkip(p0, o0, p1, o1, pd, lo, a, hi, if next < hi then next else hi);
        a := next;
      } else {
        ShrinkOne(m, p0, o0, pd, lo, a, hi, t.value);
        a := a + 1;
      }
    }
    return newsz;
  }

  /** Between two turns of the loop of deallocuvm: pages lo up to a are done. */
  ghost predicate Shrinking(p0: seq<Page>, o0: seq<Owner>, pages: seq<Page>, own: seq<Owner>, pd: nat, lo: nat,
        a: nat, hi: nat) {
    && own == Shrunk(o0, pd, lo, a) && a <= hi <= USERPAGES
    && Within(p0, o0, pages, own, pd, lo, hi, {}) && Unmapped(p0, o0, pages, pd, lo, a)
    && pd < |o0| && o0[pd].Dir?
  }

  lemma ShrunkStart(pages: seq<Page>, own: seq<Owner>, pd: nat, lo: nat, hi: nat)
    requires |own| == |pages| && pd < |own| && own[pd].Dir?
    ensures forall a: nat :: a <= lo ==> Shrunk(own, pd, lo, a) == own
    ensures Within(pages, own, pages, own, pd, lo, hi, {})
    ensures forall a: nat :: a <= lo ==> Unmapped(pages, own, pages, pd, lo, a)
  {
  }

  lemma ShrinkingDir(p0: seq<Page>, o0: seq<Owner>, pages: seq<Page>, own: seq<Owner>, pd: nat, lo: nat, a: nat,
        hi: nat)
    requires Shrinking(p0, o0, pages, own, pd, lo, a, hi)
    ensures pd < |own| == |o0| && own[pd].Dir? && a <= hi <= USERPAGES
    ensures forall q :: 0 <= q < |o0| ==> (o0[q].Dir? <==> own[q].Dir?)
  {
  }

  /** No table, no pages. */
  lemma ShrinkSkip(p0: seq<Page>, o0: seq<Owner>, pages: seq<Page>, own: seq<Owner>, pd: nat, lo: nat, a: nat,
        hi: nat, next: nat)
    requires Shrinking(p0, o0, pages, own, pd, lo, a, hi) && SpacesOK(pages, own)
    requires TableOf(pages, pd, a / NENTRIES).None?
    requires lo <= a < next <= hi && next <= (a / NENTRIES + 1) * NENTRIES
    ensures Shrinking(p0, o0, pages, own, pd, lo, next, hi)
  {
    hide TableOK, LeafOK, DirsOK, TableOf, Within;
    ShrinkingDir(p0, o0, pages, own, pd, lo, a, hi);
    forall v | a <= v < next ensures Pte(pages, pd, v) == 0 {
      assert v / NENTRIES == a / NENTRIES;
    }
    forall f | 0 <= f < |o0| ensures Shrunk(o0, pd, lo, next)[f] == own[f] {
      assert UserOK(pages, own, f);
    }
  }

  /** One page of deallocuvm, its table present. */
  method ShrinkOne(m: Memory, ghost p0: seq<Page>, ghost o0: seq<Owner>, pd: nat, ghost lo: nat, a: nat,
        ghost hi: nat, t: nat)
    requires Ready(m) && Shrinking(p0, o0, m.pages[..], m.own, pd, lo, a, hi) && lo <= a < hi
    requires TableOf(m.pages[..], pd, a / NENTRIES) == Some(t)
    modifies m, m.pages
    ensures Ready(m) && Shrinking(p0, o0, m.pages[..], m.own, pd, lo, a + 1, hi)
  {
    hide SpacesOK, Pte, Threaded, TableOf, Shrinking;
    ghost var p1: seq<Page>, o1 := m.pages[..], m.own;
    ShrinkingDir(p0, o0, p1, o1, pd, lo, a, hi);
    EntryAt(p1, o1, pd, a, t);
    var pte := m.pages[t][a % NENTRIES];
    if Present(pte) {
      var f := FrameOf(pte);
      UserFrame(p1, o1, pd, a);
      m.Kfree(f);
      ghost var junk: Page := m.pages[f];
      assert m.pages[..] == p1[f := junk];
      m.Fill(t, m.pages[t][a % NENTRIES := 0]);
      assert m.pages[..] == WithEntry(p1, t, a % NENTRIES, 0)[f := junk];
      FreedOne(p1, o1, pd, a, t, f, junk);
      ShrinkStep(p0, o0, p1, o1, m.pages[..], pd, lo, a, hi, f, t);
    } else {
      ShrinkAbsent(p0, o0, p1, o1, pd, lo, a, hi);
    }
  }

  lemma EntryAt(pages: seq<Page>, own: seq<Owner>, pd: nat, vpn: nat, t: nat)
    requires SpacesOK(pages, own) && pd < |own| && own[pd].Dir? && vpn < NPAGES
    requires TableOf(pages, pd, vpn / NENTRIES) == Some(t)
    ensures t < |pages| && own[t] == Table(pd, vpn / NENTRIES) && Pte(pages, pd, vpn) == pages[t][vpn % NENTRIES]
  {
    hide TableOK, UserOK, LeafOK;
    TableOwner(pages, own, pd, vpn / NENTRIES);
  }

  lemma UserFrame(pages: seq<Page>, own: seq<Owner>, pd: nat, vpn: nat)
    requires SpacesOK(pages, own) && pd < |own| && own[pd].Dir? && vpn < USERPAGES && Present(Pte(pages, pd, vpn))
    ensures var f := FrameOf(Pte(pages, pd, vpn)); 0 < f < |own| && own[f] == User(pd, vpn)
  {
    assert LeafOK(pages, own, pd, vpn);
  }

  /** Freeing the frame and clearing the entry, in whatever order. */
  lemma FreedOne(pages: seq<Page>, own: seq<Owner>, pd: nat, vpn: nat, t: nat, f: nat, junk: Page)
    requires SpacesOK(pages, own) && pd < |own| && own[pd].Dir? && vpn < USERPAGES
    requires TableOf(pages, pd, vpn / NENTRIES) == Some(t)
    requires Present(Pte(pages, pd, vpn)) && f == FrameOf(Pte(pages, pd, vpn)) && f < |own| && own[f] == User(pd, vpn)
    ensures t < |pages| && own[t] == Table(pd, vpn / NENTRIES)
    ensures var now := WithEntry(pages, t, vpn % NENTRIES, 0)[f := junk];
      && SpacesOK(now, own[f := Owner.Free])
      && forall q, v :: 0 <= q < |own| && own[q].Dir? && 0 <= v < NPAGES ==>
            Pte(now, q, v) == if q == pd && v == vpn then 0 else Pte(pages, q, v)
  {
    hide Pte, TableOf, SpacesOK;
    SpaceShape(pages, own);
    var o1 := own[f := Loose];
    EnteringKeeps(pages, own, pd, vpn, t, 0, o1);
    var p1 := WithEntry(pages, t, vpn % NENTRIES, 0);
    SpaceShape(p1, o1);
    SameKeeps(p1, o1, p1[f := junk], own[f := Owner.Free]);
  }

  lemma ShrinkStep(p0: seq<Page>, o0: seq<Owner>, p1: seq<Page>, o1: seq<Owner>, p2: seq<Page>, pd: nat, lo: nat,
        a: nat, hi: nat, f: nat, t: nat)
    requires Shrinking(p0, o0, p1, o1, pd, lo, a, hi) && SpacesOK(p1, o1) && lo <= a < hi && f < |o1|
    requires o1[f] == User(pd, a) && t < |o1| && o1[t].Table? && o1[t].pd == pd
    requires |p2| == |p1| && forall g :: 0 <= g < |p1| && g != f && g != t ==> p2[g] == p1[g]
    requires FrameOf(Pte(p1, pd, a)) == f
    requires forall q, v :: 0 <= q < |o1| && o1[q].Dir? && 0 <= v < NPAGES ==>
      Pte(p2, q, v) == if q == pd && v == a then 0 else Pte(p1, q, v)
    ensures Shrinking(p0, o0, p2, o1[f := Owner.Free], pd, lo, a + 1, hi)
  {
    hide Pte, TableOK, LeafOK, DirsOK, TableOf;
    ShrinkingDir(p0, o0, p1, o1, pd, lo, a, hi);
    var goal, o2 := Shrunk(o0, pd, lo, a + 1), o1[f := Owner.Free];
    forall g | 0 <= g < |o0| ensures goal[g] == o2[g] {
      assert UserOK(p1, o1, g);
    }
    assert Within(p1, o1, p2, o2, pd, lo, hi, {});
    WithinTrans(p0, o0, p1, o1, p2, o2, pd, lo, hi, {});
  }

  lemma ShrinkAbsent(p0: seq<Page>, o0: seq<Owner>, pages: seq<Page>, own: seq<Owner>, pd: nat, lo: nat, a: nat,
        hi: nat)
    requires Shrinking(p0, o0, pages, own, pd, lo, a, hi) && SpacesOK(pages, own) && lo <= a < hi
    requires !Present(Pte(pages, pd, a))
    ensures Shrinking(p0, o0, pages, own, pd, lo, a + 1, hi)
  {
    hide Pte, TableOK, LeafOK, DirsOK, TableOf, Within;
    ShrinkingDir(p0, o0, pages, own, pd, lo, a, hi);
    forall f | 0 <= f < |o0| ensures Shrunk(o0, pd, lo, a + 1)[f] == own[f] {
      assert UserOK(pages, own, f);
    }
  }

  // ----- growing

  /** Page v leads to a frame of its own that was free before and holds zeros. */
  ghost predicate NewPage(o0: seq<Owner>, pages: seq<Page>, own: seq<Owner>, pd: nat, v: nat) {
    var w := Pte(pages, pd, v);
    && Present(w) && FlagsOf(w) == 1 + PTE_W + PTE_U && FrameOf(w) < |own| == |o0| == |pages|
    && own[FrameOf(w)] == User(pd, v) && o0[FrameOf(w)].Free? && pages[FrameOf(w)] == Blank(0)
  }

  /** Pages lo up to a of space pd are new; every other entry of every space is as before, and
      within the range lo up to hi no frame outside the space is touched. */
  ghost predicate Grown(p0: seq<Page>, o0: seq<Owner>, pages: seq<Page>, own: seq<Owner>, pd: nat, lo: nat, a: nat,
        hi: nat, ex: set<nat>) {
    && Within(p0, o0, pages, own, pd, lo, hi, ex)
    && (forall v {:trigger NewPage(o0, pages, own, pd, v)} :: lo <= v < a ==> NewPage(o0, pages, own, pd, v))
    && (forall q, v {:trigger Pte(pages, q, v)} ::
          0 <= q < |o0| && o0[q].Dir? && 0 <= v < NPAGES && !(q == pd && lo <= v < a) ==>
          Pte(pages, q, v) == Pte(p0, q, v))
    && pd < |o0| && o0[pd].Dir? && lo <= a <= hi <= USERPAGES && pd !in ex && NoneFreed(o0, own)
  }

  /** The address space is as before: same entries, same user frames with the same contents; at
      most free frames have become tables. */
  ghost predicate Restored(p0: seq<Page>, o0: seq<Owner>, pages: seq<Page>, own: seq<Owner>, pd: nat) {
    && Within(p0, o0, pages, own, pd, 0, 0, {})
    && forall v {:trigger Pte(pages, pd, v)} ::
         0 <= v < NPAGES && (Present(Pte(pages, pd, v)) || Present(Pte(p0, pd, v))) ==>
         Pte(pages, pd, v) == Pte(p0, pd, v)
  }

  ghost predicate NoneBetween(pages: seq<Page>, pd: nat, lo: nat, hi: nat) {
    forall v :: lo <= v < hi && v < USERPAGES ==> !Present(Pte(pages, pd, v))
  }

  /** allocuvm.  ok is false for every return of zero that reports an error: the size reaches the
      kernel, or the free frames do not suffice for the pages and the missing tables. */
  method AllocUvm(m: Memory, pd: nat, oldsz: nat, newsz: nat) returns (ok: bool, sz: nat)
    requires Ready(m) && pd < m.pages.Length && m.own[pd].Dir? && newsz < UINT_LIMIT
    requires NoneBetween(m.pages[..], pd, Up(oldsz), Up(newsz))
    modifies m, m.pages
    ensures Ready(m)
    ensures newsz >= KERNBASE ==> !ok && sz == 0
    ensures newsz < KERNBASE && newsz < oldsz ==> ok && sz == oldsz
    ensures newsz >= KERNBASE || newsz < oldsz ==> m.pages[..] == old(m.pages[..]) && m.own == old(m.own)
    ensures oldsz <= newsz < KERNBASE ==> (ok <==>
      Up(newsz) - Up(oldsz) + TablesFor(Tabs(old(m.pages[..]), pd), Up(oldsz), Up(newsz)) <= |old(m.free)|)
    ensures oldsz <= newsz < KERNBASE && ok ==>
      |m.free| + Up(newsz) - Up(oldsz) + TablesFor(Tabs(old(m.pages[..]), pd), Up(oldsz), Up(newsz)) == |old(m.free)|
    ensures oldsz <= newsz < KERNBASE && ok ==> sz == newsz
    ensures oldsz <= newsz < KERNBASE && ok ==>
      Grown(old(m.pages[..]), old(m.own), m.pages[..], m.own, pd, Up(oldsz), Up(newsz), Up(newsz), {})
    ensures !ok ==> sz == 0 && Restored(old(m.pages[..]), old(m.own), m.pages[..], m.own, pd)
  {
    hide SpacesOK, Pte, Threaded, TableOf, Within, Grown, Restored, Unmapped, Tabs, Slots, TablesFor;
    ghost var p0: seq<Page>, o0 := m.pages[..], m.own;
    SelfRestored(p0, o0, pd);
    if newsz >= KERNBASE {
      return false, 0;
    }
    if newsz < oldsz {
      return true, oldsz;
    }
    var lo, hi := Up(oldsz), Up(newsz);
    GrownStart(p0, o0, pd, lo, hi);
    ghost var tabs := Tabs(p0, pd);
    NoSlots(tabs, lo);
    var a := lo;
    while a < hi
      invariant lo <= a <= hi && Ready(m) && Grown(p0, o0, m.pages[..], m.own, pd, lo, a, hi, {})
      invariant Tabs(m.pages[..], pd) == tabs + Slots(lo, a)
      invariant |m.free| + (a - lo) + TablesFor(tabs, lo, a) == |old(m.free)|
    {
      OneMoreTable(tabs, lo, a);
      MoreTables(tabs, lo, a + 1, hi);
      ghost var p1: seq<Page>, o1 := m.pages[..], m.own;
      GrownDir(p0, o0, p1, o1, pd, lo, a, hi, {});
      var mem := m.Kalloc();
      if mem.None? {
        var _ := DeallocUvm(m, pd, newsz, oldsz);
        Shrinks(p0, o0, p1, o1, m.pages[..], m.own, m.pages[..], m.own, pd, lo, a, hi, {}, 0);
        return false, 0;
      }
      m.Fill(mem.value, Blank(0));
      TabsSame(p1, m.pages[..], pd);
      GrownTake(p0, o0, p1, o1, pd, lo, a, hi, mem.value);
      ok := GrowOne(m, p0, o0, pd, lo, a, hi, mem.value);
      if !ok {
        ghost var p2: seq<Page>, o2 := m.pages[..], m.own;
        var _ := DeallocUvm(m, pd, newsz, oldsz);
        ghost var p3: seq<Page>, o3 := m.pages[..], m.own;
        ShrunkLoose(o2, pd, lo, hi, mem.value);
        m.Kfree(mem.value);
        Shrinks(p0, o0, p2, o2, p3, o3, m.pages[..], m.own, pd, lo, a, hi, {mem.value}, mem.value);
        return false, 0;
      }
      a := a + 1;
    }
    return true, newsz;
  }

  lemma SelfRestored(pages: seq<Page>, own: seq<Owner>, pd: nat)
    requires |own| == |pages|
    ensures Restored(pages, own, pages, own, pd)
  {
  }

  lemma GrownStart(pages: seq<Page>, own: seq<Owner>, pd: nat, lo: nat, hi: nat)
    requires |own| == |pages| && pd < |own| && own[pd].Dir? && lo <= hi <= USERPAGES
    ensures Grown(pages, own, pages, own, pd, lo, lo, hi, {})
  {
  }

  lemma GrownDir(p0: seq<Page>, o0: seq<Owner>, pages: seq<Page>, own: seq<Owner>, pd: nat, lo: nat, a: nat, hi: nat,
        ex: set<nat>)
    requires Grown(p0, o0, pages, own, pd, lo, a, hi, ex)
    ensures |own| == |o0| == |pages| == |p0| && pd < |own| && own[pd].Dir? && lo <= a <= hi <= USERPAGES
    ensures forall q :: 0 <= q < |o0| && q !in ex && o0[q].Dir? ==> own[q].Dir?
  {
  }

  /** A frame has been taken and cleared. */
  lemma GrownTake(p0: seq<Page>, o0: seq<Owner>, pages: seq<Page>, own: seq<Owner>, pd: nat, lo: nat, a: nat,
        hi: nat, f: nat)
    requires SpacesOK(pages, own) && Grown(p0, o0, pages, own, pd, lo, a, hi, {}) && f < |own| == |pages|
    requires own[f].Free?
    ensures SpacesOK(pages[f := Blank(0)], own[f := Loose])
    ensures Grown(p0, o0, pages[f := Blank(0)], own[f := Loose], pd, lo, a, hi, {f}) && o0[f].Free?
  {
    hide Pte, SpacesOK;
    var now, own' := pages[f := Blank(0)], own[f := Loose];
    SpaceShape(pages, own);
    LooseFill(pages, own, f, Blank(0));
    GrownDir(p0, o0, pages, own, pd, lo, a, hi, {});
    forall v | lo <= v < a ensures NewPage(o0, now, own', pd, v) {
      assert NewPage(o0, pages, own, pd, v);
      assert Pte(now, pd, v) == Pte(pages, pd, v);
    }
    forall q, v | 0 <= q < |o0| && o0[q].Dir? && 0 <= v < NPAGES && !(q == pd && lo <= v < a)
      ensures Pte(now, q, v) == Pte(p0, q, v)
    {
      assert Pte(pages, q, v) == Pte(p0, q, v);
    }
    forall g | 0 <= g < |o0| && g != f
      ensures own'[g] == own[g] && now[g] == pages[g]
    {
    }
    assert Within(p0, o0, now, own', pd, lo, hi, {f});
    assert NoneFreed(o0, own');
  }

  lemma ShrunkLoose(own: seq<Owner>, pd: nat, lo: nat, hi: nat, f: nat)
    requires f < |own| && own[f].Loose?
    ensures Shrunk(own, pd, lo, hi)[f].Loose?
  {
  }

  /** The call of mappages in allocuvm. */
  method GrowOne(m: Memory, ghost p0: seq<Page>, ghost o0: seq<Owner>, pd: nat, ghost lo: nat, a: nat, ghost hi: nat,
        f: nat) returns (ok: bool)
    requires Ready(m) && Grown(p0, o0, m.pages[..], m.own, pd, lo, a, hi, {f}) && lo <= a < hi
    requires NoneBetween(p0, pd, lo, hi)
    requires f < m.pages.Length && m.own[f].Loose? && m.pages[f] == Blank(0) && f < |o0| && o0[f].Free?
    modifies m, m.pages
    ensures Ready(m)
    ensures ok ==> Grown(p0, o0, m.pages[..], m.own, pd, lo, a + 1, hi, {})
    ensures !ok ==> m.pages[..] == old(m.pages[..]) && m.own == old(m.own)
    ensures ok <==> a / NENTRIES in Tabs(old(m.pages[..]), pd) || old(m.free) != []
    ensures ok ==> Tabs(m.pages[..], pd) == Tabs(old(m.pages[..]), pd) + {a / NENTRIES}
    ensures ok ==> |m.free| + (if a / NENTRIES in Tabs(old(m.pages[..]), pd) then 0 else 1) == |old(m.free)|
  {
    hide SpacesOK, Pte, Threaded, TableOf, Within, Mapped, MakePte, Tabs, Slots, TablesFor;
    OneTable(Tabs(m.pages[..], pd), a);
    ghost var p1: seq<Page>, o1 := m.pages[..], m.own;
    SpaceShape(p1, o1);
    GrownDir(p0, o0, p1, o1, pd, lo, a, hi, {f});
    assert Pte(p1, pd, a) == Pte(p0, pd, a);
    ghost var done;
    ok, done := MapPages(m, pd, a * PGSIZE, PGSIZE, f * PGSIZE, PTE_W + PTE_U, a, 1, f);
    if ok {
      GrownMore(p0, o0, p1, o1, m.pages[..], m.own, pd, lo, a, hi, f);
    }
  }

  lemma GrownMore(p0: seq<Page>, o0: seq<Owner>, p1: seq<Page>, o1: seq<Owner>, p2: seq<Page>, o2: seq<Owner>,
        pd: nat, lo: nat, a: nat, hi: nat, f: nat)
    requires Grown(p0, o0, p1, o1, pd, lo, a, hi, {f}) && lo <= a < hi && f < |o0| && o0[f].Free?
    requires Within(p1, o1, p2, o2, pd, 0, 0, {f}) && Mapped(p1, o1, p2, pd, a, 1, f, PTE_W + PTE_U)
    requires NoneFreed(o1, o2)
    requires SpacesOK(p1, o1) && o1[f].Loose? && p1[f] == Blank(0) && o2[f] == User(pd, a) && p2[f] == p1[f]
    ensures Grown(p0, o0, p2, o2, pd, lo, a + 1, hi, {})
  {
    hide Pte, SpacesOK;
    GrownDir(p0, o0, p1, o1, pd, lo, a, hi, {f});
    WithinMore(p1, o1, p2, o2, pd, 0, 0, lo, hi, {f}, {f});
    WithinTrans(p0, o0, p1, o1, p2, o2, pd, lo, hi, {f});
    forall v | lo <= v < a + 1 ensures NewPage(o0, p2, o2, pd, v) {
      assert Pte(p2, pd, v) == if v == a then MakePte(f, PTE_W + PTE_U) else Pte(p1, pd, v);
      if v < a {
        assert NewPage(o0, p1, o1, pd, v);
        var g := FrameOf(Pte(p1, pd, v));
        assert o2[g] == o1[g] && p2[g] == p1[g];
      }
    }
    assert Mine(o0[f], pd, lo, hi) && Mine(o2[f], pd, lo, hi);
  }

  /** After a failure: deallocuvm takes the new pages away again, and kfree the frame in hand. */
  lemma Shrinks(p0: seq<Page>, o0: seq<Owner>, p1: seq<Page>, o1: seq<Owner>, p2: seq<Page>, o2: seq<Owner>,
        p3: seq<Page>, o3: seq<Owner>,
                pd: nat, lo: nat, a: nat, hi: nat, ex: set<nat>, f: nat)
    requires SpacesOK(p0, o0) && NoneBetween(p0, pd, lo, hi) && Grown(p0, o0, p1, o1, pd, lo, a, hi, ex)
    requires SpacesOK(p2, o2) && o2 == Shrunk(o1, pd, lo, hi) && Within(p1, o1, p2, o2, pd, lo, hi, {})
    requires Unmapped(p1, o1, p2, pd, lo, hi)
    requires |p3| == |p2| && |o3| == |o2|
    requires if ex == {} then p3 == p2 && o3 == o2
             else
               && ex == {f} && f < |o2| && o2[f].Loose? && o0[f].Free? && o3 == o2[f := Owner.Free]
               && forall g :: 0 <= g < |p2| && g != f ==> p3[g] == p2[g]
    ensures Restored(p0, o0, p3, o3, pd) && SpacesOK(p3, o3)
  {
    hide Pte, SpacesOK;
    GrownDir(p0, o0, p1, o1, pd, lo, a, hi, ex);
    SpaceShape(p2, o2);
    SameKeeps(p2, o2, p3, o3);
    forall v | 0 <= v < NPAGES && (Present(Pte(p3, pd, v)) || Present(Pte(p0, pd, v)))
      ensures Pte(p3, pd, v) == Pte(p0, pd, v)
    {
      assert Pte(p2, pd, v) == Pte(p3, pd, v);
      assert Pte(p1, pd, v) == Pte(p1, pd, v);
    }
    forall g | 0 <= g < |o0|
      ensures !Mine(o0[g], pd, 0, 0) || !Mine(o3[g], pd, 0, 0) ==> o3[g] == o0[g]
      ensures !Mine(o0[g], pd, 0, 0) && g != pd ==> p3[g] == p0[g]
    {
      NoUserBetween(p0, o0, pd, lo, hi, g);
      ShrinkFrame(p0, o0, p1, o1, p2, o2, p3, o3, pd, lo, hi, ex, g);
    }
  }

  lemma NoUserBetween(pages: seq<Page>, own: seq<Owner>, pd: nat, lo: nat, hi: nat, g: nat)
    requires SpacesOK(pages, own) && NoneBetween(pages, pd, lo, hi) && g < |own|
    ensures !(own[g].User? && own[g].pd == pd && lo <= own[g].vpn < hi)
  {
    hide Pte;
    assert UserOK(pages, own, g);
  }

  lemma ShrinkFrame(p0: seq<Page>, o0: seq<Owner>, p1: seq<Page>, o1: seq<Owner>, p2: seq<Page>, o2: seq<Owner>,
        p3: seq<Page>, o3: seq<Owner>,
                    pd: nat, lo: nat, hi: nat, ex: set<nat>, g: nat)
    requires Within(p0, o0, p1, o1, pd, lo, hi, ex) && o2 == Shrunk(o1, pd, lo, hi)
    requires Within(p1, o1, p2, o2, pd, lo, hi, {})
    requires |p3| == |p2| && |o3| == |o2| && g < |o0| && !(o0[g].User? && o0[g].pd == pd && lo <= o0[g].vpn < hi)
    requires g !in ex ==> o3[g] == o2[g] && p3[g] == p2[g]
    requires g in ex ==> o0[g].Free? && o3[g].Free?
    ensures !Mine(o0[g], pd, 0, 0) || !Mine(o3[g], pd, 0, 0) ==> o3[g] == o0[g]
    ensures !Mine(o0[g], pd, 0, 0) && g != pd ==> p3[g] == p0[g]
  {
    assert o1[g] == o1[g] && p1[g] == p1[g] && p2[g] == p2[g];
  }

  // ----- freeing

  /** The owners once everything of space pd is free. */
  function Vanished(own: seq<Owner>, pd: nat): (r: seq<Owner>)
    ensures |r| == |own|
    ensures forall f {:trigger r[f]} :: 0 <= f < |own| ==> r[f] == if Belongs(own[f], f, pd) then Owner.Free else own[f]
  {
    seq(|own|, f requires 0 <= f < |own| => if Belongs(own[f], f, pd) then Owner.Free else own[f])
  }

  predicate Belongs(o: Owner, f: nat, pd: nat) {
    f == pd || (o.Table? && o.pd == pd) || (o.User? && o.pd == pd)
  }

  /** While freevm frees the tables: those below slot i are free, the rest is in hand. */
  function TablesFreed(own: seq<Owner>, pd: nat, i: nat): (r: seq<Owner>)
    ensures |r| == |own|
    ensures forall f {:trigger r[f]} :: 0 <= f < |own| ==>
      r[f] == if own[f].Table? && own[f].pd == pd && own[f].i < i then Owner.Free
              else if f == pd || (own[f].Table? && own[f].pd == pd) then Loose else own[f]
  {
    seq(|own|, f requires 0 <= f < |own| =>
      if own[f].Table? && own[f].pd == pd && own[f].i < i then Owner.Free
      else if f == pd || (own[f].Table? && own[f].pd == pd) then Loose else own[f])
  }

  /** freevm: every frame of the space goes back, each once; nothing else is touched. */
  method FreeVm(m: Memory, pd: nat)
    requires Ready(m) && pd < m.pages.Length && m.own[pd].Dir?
    modifies m, m.pages
    ensures Ready(m) && m.own == Vanished(old(m.own), pd)
    ensures Foreign(old(m.pages[..]), old(m.own), m.pages[..], pd)
  {
    hide SpacesOK, Pte, Threaded, TableOf, Unmapped, DirsOK, Within, Dissolved;
    ghost var p0: seq<Page>, o0 := m.pages[..], m.own;
    var _ := DeallocUvm(m, pd, KERNBASE, 0);
    ghost var p1: seq<Page>, o1 := m.pages[..], m.own;
    AllUnmapped(p0, o0, p1, o1, pd);
    DissolvedKeeps(p1, o1, pd);
    m.Transfer(Dissolved(o1, pd));
    assert m.own == TablesFreed(o1, pd, 0);
    for i := 0 to NENTRIES
      invariant Ready(m) && m.own == TablesFreed(o1, pd, i) && m.pages[pd] == p1[pd] && Foreign(p1, o1, m.pages[..], pd)
    {
      FreeTable(m, p1, o1, pd, i);
    }
    ghost var p3: seq<Page>, o3 := m.pages[..], m.own;
    SpaceShape(p3, o3);
    m.Kfree(pd);
    SameKeeps(p3, o3, m.pages[..], m.own);
    AllFreed(p1, o0, o1, pd);
    ForeignAll(p0, o0, p1, o1, m.pages[..], pd);
  }

  /** Frames that neither are free nor belong to the space keep their contents. */
  ghost predicate Foreign(pages: seq<Page>, own: seq<Owner>, now: seq<Page>, pd: nat) {
    && |own| == |pages| == |now|
    && forall f {:trigger now[f]} :: 0 <= f < |own| && !own[f].Free? && !Belongs(own[f], f, pd) ==> now[f] == pages[f]
  }

  lemma ForeignAll(p0: seq<Page>, o0: seq<Owner>, p1: seq<Page>, o1: seq<Owner>, now: seq<Page>, pd: nat)
    requires Within(p0, o0, p1, o1, pd, Up(0), Up(KERNBASE), {}) && Foreign(p1, o1, now, pd)
    ensures Foreign(p0, o0, now, pd)
  {
    forall f | 0 <= f < |o0| && !o0[f].Free? && !Belongs(o0[f], f, pd) ensures now[f] == p0[f] {
      assert o1[f] == o0[f] && p1[f] == p0[f];
    }
  }

  /** One turn of the loop of freevm. */
  method FreeTable(m: Memory, ghost p1: seq<Page>, ghost o1: seq<Owner>, pd: nat, i: nat)
    requires Ready(m) && SpacesOK(p1, o1) && |o1| == m.pages.Length == |p1| && pd < |o1| && o1[pd].Dir? && i < NENTRIES
    requires m.own == TablesFreed(o1, pd, i) && m.pages[pd] == p1[pd] && Foreign(p1, o1, m.pages[..], pd)
    modifies m, m.pages
    ensures Ready(m) && m.own == TablesFreed(o1, pd, i + 1) && m.pages[pd] == p1[pd] && Foreign(p1, o1, m.pages[..], pd)
  {
    hide SpacesOK, Pte, Threaded, TableOf;
    DirEntry(p1, o1, pd, i);
    ghost var p2: seq<Page>, o2 := m.pages[..], m.own;
    SpaceShape(p2, o2);
    if Present(m.pages[pd][i]) {
      var t := FrameOf(m.pages[pd][i]);
      m.Kfree(t);
      SameKeeps(p2, o2, m.pages[..], m.own);
      OneTableFreed(p1, o1, pd, i, t);
      forall f | 0 <= f < |o1| && !o1[f].Free? && !Belongs(o1[f], f, pd) ensures m.pages[f] == p1[f] {
        assert p2[f] == p1[f];
      }
    } else {
      NoTableFreed(p1, o1, pd, i);
    }
  }

  lemma AllUnmapped(p0: seq<Page>, o0: seq<Owner>, p1: seq<Page>, o1: seq<Owner>, pd: nat)
    requires |o0| == |p0| && pd < |o0| && o0[pd].Dir? && Unmapped(p0, o0, p1, pd, Up(0), Up(KERNBASE))
    requires o1 == Shrunk(o0, pd, Up(0), Up(KERNBASE))
    ensures o1[pd].Dir? && forall vpn :: 0 <= vpn < USERPAGES ==> !Present(Pte(p1, pd, vpn))
  {
    hide Pte;
  }

  lemma DirEntry(pages: seq<Page>, own: seq<Owner>, pd: nat, i: nat)
    requires SpacesOK(pages, own) && pd < |own| && own[pd].Dir? && i < NENTRIES
    ensures Present(pages[pd][i]) ==> FrameOf(pages[pd][i]) < |own| && own[FrameOf(pages[pd][i])] == Table(pd, i)
  {
    hide TableOK, LeafOK, UserOK;
  }

  lemma OneTableFreed(pages: seq<Page>, own: seq<Owner>, pd: nat, i: nat, t: nat)
    requires SpacesOK(pages, own) && pd < |own| && own[pd].Dir? && i < NENTRIES && t < |own| && own[t] == Table(pd, i)
    ensures TablesFreed(own, pd, i)[t := Owner.Free] == TablesFreed(own, pd, i + 1)
  {
    hide LeafOK, UserOK, Pte, DirsOK;
    var p, q := TablesFreed(own, pd, i)[t := Owner.Free], TablesFreed(own, pd, i + 1);
    forall f | 0 <= f < |own| ensures p[f] == q[f] {
      assert TableOK(pages, own, f) && TableOK(pages, own, t);
    }
  }

  lemma NoTableFreed(pages: seq<Page>, own: seq<Owner>, pd: nat, i: nat)
    requires SpacesOK(pages, own) && pd < |own| && own[pd].Dir? && i < NENTRIES && !Present(pages[pd][i])
    ensures TablesFreed(own, pd, i) == TablesFreed(own, pd, i + 1)
  {
    hide LeafOK, UserOK, Pte, DirsOK;
    var p, q := TablesFreed(own, pd, i), TablesFreed(own, pd, i + 1);
    forall f | 0 <= f < |own| ensures p[f] == q[f] {
      assert TableOK(pages, own, f);
    }
  }

  lemma AllFreed(pages: seq<Page>, o0: seq<Owner>, own: seq<Owner>, pd: nat)
    requires SpacesOK(pages, own) && pd < |own| && own[pd].Dir? && own == Shrunk(o0, pd, Up(0), Up(KERNBASE))
    ensures TablesFreed(own, pd, NENTRIES)[pd := Owner.Free] == Vanished(o0, pd)
  {
    hide LeafOK, Pte, DirsOK;
    var p, q := TablesFreed(own, pd, NENTRIES)[pd := Owner.Free], Vanished(o0, pd);
    forall f | 0 <= f < |own| ensures p[f] == q[f] {
      assert TableOK(pages, own, f) && UserOK(pages, own, f);
    }
  }
}
