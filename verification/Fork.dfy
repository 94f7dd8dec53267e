/** vm.c, setupkvm and copyuvm: a new address space, and the copy of one for a child. */
module Fork {
  import opened Machine
  import opened Frames
  import opened Spaces
  import opened VirtualMemory

  const EXTMEM: nat := 0x10_0000
  const DEVSPACE: nat := 0xFE00_0000

  // ----- the kernel part

  /** A line of kmap, its length as the unsigned difference of its two ends. */
  datatype Region = Region(va: nat, size: nat, pa: nat, perm: nat)

  predicate RegionOK(r: Region) {
    && KERNBASE <= r.va && 0 < r.size && r.va + r.size <= UINT_LIMIT && r.pa + r.size <= UINT_LIMIT && r.perm < PGSIZE
    && r.va % PGSIZE == 0 && r.size % PGSIZE == 0 && r.pa % PGSIZE == 0
  }

  /** Regions are in order and apart. */
  predicate KmapOK(kmap: seq<Region>) {
    && (forall j :: 0 <= j < |kmap| ==> RegionOK(kmap[j]))
    && (forall j, k :: 0 <= j < k < |kmap| ==> kmap[j].va + kmap[j].size <= kmap[k].va)
  }

  /** The table of the kernel, whose data segment starts at the given address. */
  function Kmap(data: nat, phystop: nat): seq<Region>
    requires KERNBASE + EXTMEM < data < KERNBASE + phystop <= DEVSPACE
  {
    var kernlink := KERNBASE + EXTMEM;
    [Region(KERNBASE, EXTMEM, 0, PTE_W),
     Region(kernlink, data - kernlink, kernlink - KERNBASE, 0),
     Region(data, phystop - (data - KERNBASE), data - KERNBASE, PTE_W),
     Region(DEVSPACE, UINT_LIMIT - DEVSPACE, DEVSPACE, PTE_W)]
  }

  lemma KernelMapFits(data: nat, phystop: nat)
    requires KERNBASE + EXTMEM < data < KERNBASE + phystop <= DEVSPACE && data % PGSIZE == 0 && phystop % PGSIZE == 0
    ensures KmapOK(Kmap(data, phystop))
  {
    var kmap := Kmap(data, phystop);
    hide RegionOK;
    forall j | 0 <= j < |kmap| ensures RegionOK(kmap[j]) {
      RegionFits(data, phystop, j);
    }
  }

  lemma RegionFits(data: nat, phystop: nat, j: nat)
    requires KERNBASE + EXTMEM < data < KERNBASE + phystop <= DEVSPACE && data % PGSIZE == 0 && phystop % PGSIZE == 0
    requires j < |Kmap(data, phystop)|
    ensures RegionOK(Kmap(data, phystop)[j])
  {
  }

  predicate InRegion(r: Region, v: nat) {
    r.va / PGSIZE <= v < (r.va + r.size) / PGSIZE
  }

  /** The entry the first n regions give page v. */
  function KernelPte(kmap: seq<Region>, n: nat, v: nat): Word
    requires KmapOK(kmap) && n <= |kmap|
  {
    if n == 0 then 0
    else
      var r := kmap[n - 1];
      assert RegionOK(r);
      if InRegion(r, v) then MakePte(r.pa / PGSIZE + (v - r.va / PGSIZE), r.perm) else KernelPte(kmap, n - 1, v)
  }

  lemma {:induction false} KernelOnly(kmap: seq<Region>, n: nat, v: nat)
    requires KmapOK(kmap) && n <= |kmap|
    ensures v < USERPAGES ==> KernelPte(kmap, n, v) == 0
    ensures n < |kmap| && InRegion(kmap[n], v) ==> KernelPte(kmap, n, v) == 0
  {
    if n > 0 {
      assert RegionOK(kmap[n - 1]);
      KernelOnly(kmap, n - 1, v);
      if n < |kmap| && InRegion(kmap[n], v) {
        NotBefore(kmap, n, v, n);
      }
    }
  }

  lemma {:induction false} NotBefore(kmap: seq<Region>, n: nat, v: nat, k: nat)
    requires KmapOK(kmap) && n < |kmap| && InRegion(kmap[n], v) && k <= n
    ensures KernelPte(kmap, k, v) == 0
  {
    if k > 0 {
      NotBefore(kmap, n, v, k - 1);
      var r, s := kmap[k - 1], kmap[n];
      assert RegionOK(r) && RegionOK(s) && r.va + r.size <= s.va;
      assert !InRegion(r, v);
    }
  }

  /** A fresh space with the first n regions mapped; nothing else in memory has changed. */
  ghost predicate Built(p0: seq<Page>, o0: seq<Owner>, pages: seq<Page>, own: seq<Owner>, d: nat, kmap: seq<Region>,
        n: nat) {
    && KmapOK(kmap) && n <= |kmap| && |own| == |o0| && d < |own| && o0[d].Free? && own[d].Dir?
    && Within(p0, o0, pages, own, d, 0, USERPAGES, {d}) && NoneFreed(o0, own)
    && forall v :: 0 <= v < NPAGES ==> Pte(pages, d, v) == KernelPte(kmap, n, v)
  }

  /** setupkvm.  Without memory every frame is back where it was. */
  method SetupKvm(m: Memory, kmap: seq<Region>) returns (r: Option<nat>)
    requires Ready(m) && KmapOK(kmap)
    modifies m, m.pages
    ensures Ready(m)
    ensures r.Some? <==> KvmFrames(kmap) <= |old(m.free)|
    ensures r.Some? ==> |m.free| + KvmFrames(kmap) == |old(m.free)|
    ensures r.Some? ==> Tabs(m.pages[..], r.value) == KernelSlots(kmap, |kmap|)
    ensures r.Some? ==> Built(old(m.pages[..]), old(m.own), m.pages[..], m.own, r.value, kmap, |kmap|)
    ensures r.None? ==> m.own == old(m.own) && Intact(old(m.pages[..]), old(m.own), m.pages[..])
  {
    hide SpacesOK, Pte, Threaded, TableOf, Within, MakePte, Built, KernelPte, Tabs, Slots, TablesFor, KmapOK;
    ghost var p0: seq<Page>, o0 := m.pages[..], m.own;
    KernelSlotsGrow(kmap, 0);
    var d := m.Kalloc();
    if d.None? {
      return None;
    }
    m.Fill(d.value, Blank(0));
    NewSpace(p0, o0, d.value, kmap);
    ghost var o2 := m.own[d.value := Dir];
    m.Transfer(o2);
    assert o0[d.value := Dir] == o2;
    for k := 0 to |kmap|
      invariant Ready(m) && Built(p0, o0, m.pages[..], m.own, d.value, kmap, k)
      invariant Tabs(m.pages[..], d.value) == KernelSlots(kmap, k)
      invariant |m.free| + 1 + |KernelSlots(kmap, k)| == |old(m.free)|
    {
      KernelSlotsGrow(kmap, k + 1);
      var ok := MapRegion(m, p0, o0, d.value, kmap, k);
      if !ok {
        ghost var p1: seq<Page>, o1 := m.pages[..], m.own;
        FreeVm(m, d.value);
        TakenBack(p0, o0, p1, o1, m.pages[..], d.value, {});
        assert m.own == o0;
        return None;
      }
    }
    return d;
  }

  /** Frames that were not free hold what they held. */
  ghost predicate Intact(p0: seq<Page>, o0: seq<Owner>, now: seq<Page>) {
    && |p0| == |o0| == |now|
    && forall f {:trigger now[f]} :: 0 <= f < |o0| && !o0[f].Free? ==> now[f] == p0[f]
  }

  lemma NewSpace(p0: seq<Page>, o0: seq<Owner>, d: nat, kmap: seq<Region>)
    requires SpacesOK(p0, o0) && |o0| == |p0| && d < |o0| && o0[d].Free? && KmapOK(kmap)
    ensures SpacesOK(p0[d := Blank(0)], o0[d := Dir])
    ensures Built(p0, o0, p0[d := Blank(0)], o0[d := Dir], d, kmap, 0)
    ensures Tabs(p0[d := Blank(0)], d) == {}
  {
    hide Pte, SpacesOK;
    LooseFill(p0, o0, d, Blank(0));
    NewDirKeeps(p0[d := Blank(0)], o0[d := Loose], d);
    assert o0[d := Loose][d := Dir] == o0[d := Dir];
  }

  /** A space that has grown out of free frames alone. */
  ghost predicate Growing(p0: seq<Page>, o0: seq<Owner>, pages: seq<Page>, own: seq<Owner>, d: nat, ex: set<nat>) {
    && |own| == |o0| && d < |own| && o0[d].Free? && own[d].Dir?
    && Within(p0, o0, pages, own, d, 0, USERPAGES, {d} + ex) && NoneFreed(o0, own)
  }

  /** One call of mappages in setupkvm. */
  method MapRegion(m: Memory, ghost p0: seq<Page>, ghost o0: seq<Owner>, d: nat, kmap: seq<Region>,
        k: nat) returns (ok: bool)
    requires Ready(m) && k < |kmap| && Built(p0, o0, m.pages[..], m.own, d, kmap, k)
    modifies m, m.pages
    ensures Ready(m) && Growing(p0, o0, m.pages[..], m.own, d, {})
    ensures ok ==> Built(p0, o0, m.pages[..], m.own, d, kmap, k + 1)
    ensures old(Tabs(m.pages[..], d)) == KernelSlots(kmap, k) ==>
      && (ok <==> |KernelSlots(kmap, k + 1)| - |KernelSlots(kmap, k)| <= |old(m.free)|)
      && (ok ==> Tabs(m.pages[..], d) == KernelSlots(kmap, k + 1))
      && (ok ==> |m.free| + |KernelSlots(kmap, k + 1)| - |KernelSlots(kmap, k)| == |old(m.free)|)
  {
    hide SpacesOK, Pte, Threaded, TableOf, Within, MakePte, Mapped, KernelPte, Tabs, Slots;
    UnionCount(KernelSlots(kmap, k), Slots(kmap[k].va / PGSIZE, kmap[k].va / PGSIZE + kmap[k].size / PGSIZE));
    ghost var p1: seq<Page>, o1 := m.pages[..], m.own;
    var r := kmap[k];
    assert RegionOK(r);
    ghost var first, n, f := r.va / PGSIZE, r.size / PGSIZE, r.pa / PGSIZE;
    RegionPages(r);
    forall v | first <= v < first + n ensures !Present(Pte(p1, d, v)) {
      KernelOnly(kmap, k, v);
    }
    ghost var done;
    ok, done := MapPages(m, d, r.va, r.size, r.pa, r.perm, first, n, f);
    assert {d} + {} == {d};
    GrowingMore(p0, o0, p1, o1, m.pages[..], m.own, d, {});
    if ok {
      BuiltMore(p0, o0, p1, o1, m.pages[..], m.own, d, kmap, k);
    }
  }

  lemma RegionPages(r: Region)
    requires RegionOK(r)
    ensures r.va / PGSIZE + r.size / PGSIZE == (r.va + r.size - 1) / PGSIZE + 1 == (r.va + r.size) / PGSIZE <= NPAGES
    ensures r.pa / PGSIZE + r.size / PGSIZE <= NPAGES && r.pa == r.pa / PGSIZE * PGSIZE && USERPAGES <= r.va / PGSIZE
  {
  }

  lemma GrowingMore(p0: seq<Page>, o0: seq<Owner>, p1: seq<Page>, o1: seq<Owner>, p2: seq<Page>, o2: seq<Owner>,
        d: nat, ex: set<nat>)
    requires Growing(p0, o0, p1, o1, d, ex) && Within(p1, o1, p2, o2, d, 0, 0, ex) && NoneFreed(o1, o2) && d !in ex
    ensures Growing(p0, o0, p2, o2, d, ex)
  {
    WithinMore(p1, o1, p2, o2, d, 0, 0, 0, USERPAGES, ex, {d} + ex);
    WithinTrans(p0, o0, p1, o1, p2, o2, d, 0, USERPAGES, {d} + ex);
    assert o2[d] == o1[d];
  }

  lemma BuiltMore(p0: seq<Page>, o0: seq<Owner>, p1: seq<Page>, o1: seq<Owner>, p2: seq<Page>, o2: seq<Owner>,
        d: nat, kmap: seq<Region>, k: nat)
    requires k < |kmap| && Built(p0, o0, p1, o1, d, kmap, k) && Growing(p0, o0, p2, o2, d, {}) && RegionOK(kmap[k])
    requires var r := kmap[k]; Mapped(p1, o1, p2, d, r.va / PGSIZE, r.size / PGSIZE, r.pa / PGSIZE, r.perm)
    ensures Built(p0, o0, p2, o2, d, kmap, k + 1)
  {
    hide Pte, MakePte, Within;
    var r := kmap[k];
    RegionPages(r);
    assert {d} + {} == {d};
    forall v | 0 <= v < NPAGES ensures Pte(p2, d, v) == KernelPte(kmap, k + 1, v) {
      assert Pte(p1, d, v) == KernelPte(kmap, k, v);
    }
  }

  /** Freeing such a space puts every frame back. */
  lemma TakenBack(p0: seq<Page>, o0: seq<Owner>, p1: seq<Page>, o1: seq<Owner>, now: seq<Page>, d: nat, ex: set<nat>)
    requires SpacesOK(p0, o0) && Growing(p0, o0, p1, o1, d, ex) && SpacesOK(p1, o1) && Foreign(p1, o1, now, d)
    ensures forall f :: 0 <= f < |o0| && f !in ex ==> Vanished(o1, d)[f] == o0[f] && (!o0[f].Free? ==> now[f] == p0[f])
    ensures ex == {} ==> Vanished(o1, d) == o0 && Intact(p0, o0, now)
  {
    hide Pte, LeafOK, DirsOK, TableOf;
    var back := Vanished(o1, d);
    forall f | 0 <= f < |o0| && f !in ex ensures back[f] == o0[f] && (!o0[f].Free? ==> now[f] == p0[f]) {
      assert TableOK(p0, o0, f) && UserOK(p0, o0, f) && UserOK(p1, o1, f);
      assert o1[f] == o1[f] && p1[f] == p1[f];
    }
  }

  // ----- the frames it takes

  /** The directory slots that the first n regions need. */
  function KernelSlots(kmap: seq<Region>, n: nat): set<nat>
    requires n <= |kmap|
  {
    if n == 0 then {}
    else
      KernelSlots(kmap, n - 1) +
      Slots(kmap[n - 1].va / PGSIZE, kmap[n - 1].va / PGSIZE + kmap[n - 1].size / PGSIZE)
  }

  /** The frames setupkvm takes: the directory and the kernel's tables. */
  function KvmFrames(kmap: seq<Region>): nat {
    1 + |KernelSlots(kmap, |kmap|)|
  }

  /** The frames copyuvm takes for n pages. */
  function CopyFrames(kmap: seq<Region>, n: nat): nat {
    KvmFrames(kmap) + n + (n + NENTRIES - 1) / NENTRIES
  }

  /** The number of free frames with which copyuvm of n pages loses one: memory runs out when
      mappages needs a table for a page that has just been copied, which is every NENTRIES pages. */
  predicate LosesFrame(free: nat, kmap: seq<Region>, n: nat) {
    var k := KvmFrames(kmap);
    k < free && (free - k) % (NENTRIES + 1) == 1 && (free - k) / (NENTRIES + 1) * NENTRIES < n
  }

  lemma UnionCount(a: set<nat>, b: set<nat>)
    ensures |a + b| == |a| + |b - a|
  {
    assert a + b == a + (b - a);
  }

  lemma {:induction false} SlotRange(lo: nat, hi: nat, i: nat)
    requires i in Slots(lo, hi)
    ensures lo / NENTRIES <= i && lo < hi && i <= (hi - 1) / NENTRIES
    decreases hi
  {
    if i != (hi - 1) / NENTRIES {
      SlotRange(lo, hi - 1, i);
    }
  }

  lemma {:induction false} KernelSlotRange(kmap: seq<Region>, n: nat, i: nat)
    requires KmapOK(kmap) && n <= |kmap| && i in KernelSlots(kmap, n)
    ensures USERPAGES / NENTRIES <= i < NENTRIES
  {
    if i in KernelSlots(kmap, n - 1) {
      KernelSlotRange(kmap, n - 1, i);
    } else {
      var r := kmap[n - 1];
      assert RegionOK(r);
      RegionPages(r);
      SlotRange(r.va / PGSIZE, r.va / PGSIZE + r.size / PGSIZE, i);
    }
  }

  lemma {:induction false} KernelSlotsGrow(kmap: seq<Region>, n: nat)
    requires n <= |kmap|
    ensures |KernelSlots(kmap, n)| <= |KernelSlots(kmap, |kmap|)|
    decreases |kmap| - n
  {
    if n < |kmap| {
      KernelSlotsGrow(kmap, n + 1);
      UnionCount(KernelSlots(kmap, n), Slots(kmap[n].va / PGSIZE, kmap[n].va / PGSIZE + kmap[n].size / PGSIZE));
    }
  }

  lemma {:induction false} SlotIn(hi: nat, i: nat)
    requires i < hi
    ensures i / NENTRIES in Slots(0, hi)
  {
    if i < hi - 1 {
      SlotIn(hi - 1, i);
    }
  }

  /** The child has a table for page i already unless i is the first page of its table. */
  lemma TableThere(kmap: seq<Region>, i: nat)
    requires KmapOK(kmap) && i < USERPAGES
    ensures i / NENTRIES in KernelSlots(kmap, |kmap|) + Slots(0, i) <==> i % NENTRIES != 0
  {
    var s := i / NENTRIES;
    if s in KernelSlots(kmap, |kmap|) {
      KernelSlotRange(kmap, |kmap|, s);
    }
    if s in Slots(0, i) {
      SlotRange(0, i, s);
    }
    if i % NENTRIES != 0 {
      SlotIn(i, i - 1);
    }
  }

  lemma NoFrames(free: nat, kmap: seq<Region>, n: nat)
    requires free < KvmFrames(kmap)
    ensures !LosesFrame(free, kmap, n) && free < CopyFrames(kmap, n)
  {
  }

  lemma NoFrameForPage(free: nat, kmap: seq<Region>, n: nat, i: nat)
    requires i < n && free == CopyFrames(kmap, i)
    ensures !LosesFrame(free, kmap, n) && free < CopyFrames(kmap, n)
  {
    hide KvmFrames;
    var q, r := i / NENTRIES, i % NENTRIES;
    assert i == q * NENTRIES + r;
    var x := free - KvmFrames(kmap);
    if r == 0 {
      assert x == q * (NENTRIES + 1);
    } else {
      assert x == q * (NENTRIES + 1) + (r + 1);
    }
  }

  lemma NoFrameForTable(free: nat, kmap: seq<Region>, n: nat, i: nat)
    requires i < n && free == CopyFrames(kmap, i) + 1 && i % NENTRIES == 0
    ensures LosesFrame(free, kmap, n) && free < CopyFrames(kmap, n)
  {
    hide KvmFrames;
    var q := i / NENTRIES;
    assert i == q * NENTRIES && free - KvmFrames(kmap) == q * (NENTRIES + 1) + 1;
  }

  /** In other words: for some page that needs a table, memory ends with the frame for the page. */
  lemma LosesWhen(free: nat, kmap: seq<Region>, n: nat)
    ensures LosesFrame(free, kmap, n) <==>
      exists i: nat :: i < n && i % NENTRIES == 0 && free == CopyFrames(kmap, i) + 1
  {
    if LosesFrame(free, kmap, n) {
      hide KvmFrames;
      var q := (free - KvmFrames(kmap)) / (NENTRIES + 1);
      var i := q * NENTRIES;
      assert i % NENTRIES == 0 && free == CopyFrames(kmap, i) + 1;
    }
    forall i: nat | i < n && i % NENTRIES == 0 && free == CopyFrames(kmap, i) + 1
      ensures LosesFrame(free, kmap, n)
    {
      NoFrameForTable(free, kmap, n, i);
    }
  }

  lemma EnoughFrames(free: nat, kmap: seq<Region>, n: nat)
    requires CopyFrames(kmap, n) <= free
    ensures !LosesFrame(free, kmap, n)
  {
    hide KvmFrames;
  }

  lemma NoPages(kmap: seq<Region>)
    ensures CopyFrames(kmap, 0) == KvmFrames(kmap)
  {
  }

  lemma OneMorePage(kmap: seq<Region>, i: nat)
    ensures CopyFrames(kmap, i + 1) == CopyFrames(kmap, i) + 1 + if i % NENTRIES == 0 then 1 else 0
  {
    hide KvmFrames;
  }

  // ----- the user part

  /** Page v of the child: same permissions and same contents as the parent's, on a frame of its
      own that was free. */
  ghost predicate CopyOf(p0: seq<Page>, o0: seq<Owner>, pages: seq<Page>, own: seq<Owner>, pd: nat, d: nat, v: nat) {
    var w0, w := Pte(p0, pd, v), Pte(pages, d, v);
    && Present(w0) && Present(w) && FlagsOf(w) == FlagsOf(w0) && FrameOf(w0) < |p0|
    && FrameOf(w) < |own| == |pages| == |o0|
    && own[FrameOf(w)] == User(d, v) && o0[FrameOf(w)].Free? && pages[FrameOf(w)] == p0[FrameOf(w0)]
  }

  /** The child has the first n pages of the parent and the kernel part, and nothing else. */
  ghost predicate Copying(p0: seq<Page>, o0: seq<Owner>, pages: seq<Page>, own: seq<Owner>, pd: nat, d: nat, n: nat,
        kmap: seq<Region>, ex: set<nat>) {
    && Growing(p0, o0, pages, own, d, ex) && KmapOK(kmap) && d !in ex && n <= USERPAGES
    && (forall v {:trigger CopyOf(p0, o0, pages, own, pd, d, v)} :: 0 <= v < n ==> CopyOf(p0, o0, pages, own, pd, d, v))
    && (forall v {:trigger Pte(pages, d, v)} :: n <= v < NPAGES ==> Pte(pages, d, v) == KernelPte(kmap, |kmap|, v))
  }

  datatype CopyResult = Copied(d: nat) | Failed(leak: Option<nat>)

  /** copyuvm of a space whose first Up(sz) pages are all present.  A failure gives everything
      back, except that when mappages fails the frame just filled is lost; both are decided by
      the number of free frames. */
  method CopyUvm(m: Memory, pd: nat, sz: nat, kmap: seq<Region>) returns (r: CopyResult)
    requires Ready(m) && pd < m.pages.Length && m.own[pd].Dir? && sz <= KERNBASE && KmapOK(kmap)
    requires forall v :: 0 <= v < Up(sz) ==> Present(Pte(m.pages[..], pd, v))
    modifies m, m.pages
    ensures Ready(m)
    ensures r.Copied? <==> CopyFrames(kmap, Up(sz)) <= |old(m.free)|
    ensures r.Failed? && r.leak.Some? <==> LosesFrame(|old(m.free)|, kmap, Up(sz))
    ensures r.Copied? ==> Copying(old(m.pages[..]), old(m.own), m.pages[..], m.own, pd, r.d, Up(sz), kmap, {})
    ensures r.Failed? ==> Intact(old(m.pages[..]), old(m.own), m.pages[..])
    ensures r.Failed? && r.leak.None? ==> m.own == old(m.own)
    ensures r.Failed? && r.leak.Some? ==> r.leak.value < m.pages.Length && old(m.own)[r.leak.value].Free?
    ensures r.Failed? && r.leak.Some? ==> m.own == old(m.own)[r.leak.value := Loose]
  {
    hide SpacesOK, Pte, Threaded, TableOf, Within, MakePte, Copying, Growing, Built, KernelPte;
    hide Tabs, Slots, TablesFor, KernelSlots, LosesFrame, CopyFrames, KvmFrames, KmapOK;
    ghost var p0: seq<Page>, o0 := m.pages[..], m.own;
    var d := SetupKvm(m, kmap);
    if d.None? {
      NoFrames(|old(m.free)|, kmap, Up(sz));
      return Failed(None);
    }
    ghost var kernel := KernelSlots(kmap, |kmap|);
    NoSlots(kernel, 0);
    NoPages(kmap);
    CopyStart(p0, o0, m.pages[..], m.own, pd, d.value, kmap);
    var n := Up(sz);
    for i := 0 to n
      invariant Ready(m) && Copying(p0, o0, m.pages[..], m.own, pd, d.value, i, kmap, {})
      invariant Tabs(m.pages[..], d.value) == kernel + Slots(0, i)
      invariant |m.free| + CopyFrames(kmap, i) == |old(m.free)|
    {
      TableThere(kmap, i);
      OneMoreTable(kernel, 0, i);
      OneMorePage(kmap, i);
      ghost var p1: seq<Page>, o1 := m.pages[..], m.own;
      ParentSame(p0, o0, p1, o1, pd, d.value, i, kmap, i);
      var t := Walk(m, pd, i, false);
      PresentTable(p1, o1, pd, i);
      var pte := m.pages[t.value][i % NENTRIES];
      var mem := m.Kalloc();
      if mem.None? {
        NoFrameForPage(|old(m.free)|, kmap, n, i);
        FreeVm(m, d.value);
        CopyBack(p0, o0, p1, o1, m.pages[..], pd, d.value, i, kmap, {});
        return Failed(None);
      }
      m.Fill(mem.value, m.pages[FrameOf(pte)]);
      TabsSame(p1, m.pages[..], d.value);
      CopyTake(p0, o0, p1, o1, pd, d.value, i, kmap, mem.value);
      var ok := CopyOne(m, p0, o0, pd, d.value, i, kmap, mem.value, FlagsOf(pte));
      if !ok {
        ghost var p2: seq<Page>, o2 := m.pages[..], m.own;
        NoFrameForTable(|old(m.free)|, kmap, n, i);
        FreeVm(m, d.value);
        CopyBack(p0, o0, p2, o2, m.pages[..], pd, d.value, i, kmap, {mem.value});
        assert m.own == o0[mem.value := Loose];
        return Failed(mem);
      }
    }
    EnoughFrames(|old(m.free)|, kmap, n);
    return Copied(d.value);
  }

  // ----- a run that loses a frame

  lemma {:induction false} BoundedCount(s: set<nat>, n: nat)
    requires forall i :: i in s ==> i < n
    ensures |s| <= n
  {
    if n > 0 {
      BoundedCount(s - {n - 1}, n - 1);
    } else {
      assert s == {};
    }
  }

  lemma KvmBound(kmap: seq<Region>)
    requires KmapOK(kmap)
    ensures KvmFrames(kmap) <= NENTRIES + 1 && 0 !in KernelSlots(kmap, |kmap|)
  {
    forall i | i in KernelSlots(kmap, |kmap|) ensures 0 < i < NENTRIES {
      KernelSlotRange(kmap, |kmap|, i);
    }
    BoundedCount(KernelSlots(kmap, |kmap|), NENTRIES);
  }

  lemma NoSpaces(pages: seq<Page>, own: seq<Owner>)
    requires 0 < |own| == |pages| <= MAXFRAMES && own[0] == Reserved
    requires forall f :: 0 <= f < |own| ==> own[f].Reserved? || own[f].Free?
    ensures SpacesOK(pages, own)
  {
  }

  /** A process of one page that forks when only the child's kernel part and one more frame are
      left: the frame for the copy is taken, there is none for its table, and it is not given back. */
  method FrameLost(kmap: seq<Region>) returns (m: Memory, lost: nat)
    requires KmapOK(kmap)
    ensures Ready(m) && lost < m.pages.Length && m.own[lost].Loose? && lost !in m.free
  {
    hide SpacesOK, Pte, Threaded, TableOf, Within, Built, Grown, Copying;
    hide KernelSlots, Tabs, Slots, KvmFrames, KernelPte;
    KvmBound(kmap);
    var k := KvmFrames(kmap);
    m := new Memory(2 * k + 4, 1);
    NoSpaces(m.pages[..], m.own);
    ghost var p: seq<Page>, o := m.pages[..], m.own;
    var parent := SetupKvm(m, kmap);
    ghost var p0: seq<Page>, o0 := m.pages[..], m.own;
    EmptyUser(p, o, p0, o0, parent.value, kmap);
    OneTable(Tabs(p0, parent.value), 0);
    var ok, sz := AllocUvm(m, parent.value, 0, PGSIZE);
    FirstPage(p0, o0, m.pages[..], m.own, parent.value);
    var r := CopyUvm(m, parent.value, PGSIZE, kmap);
    lost := r.leak.value;
    LooseNotFree(m.pages[..], m.own, m.freelist, m.free, lost);
  }

  lemma EmptyUser(p0: seq<Page>, o0: seq<Owner>, pages: seq<Page>, own: seq<Owner>, d: nat, kmap: seq<Region>)
    requires Built(p0, o0, pages, own, d, kmap, |kmap|)
    ensures d < |own| && own[d].Dir? && NoneBetween(pages, d, 0, USERPAGES)
  {
    hide Pte, Within;
    forall v | 0 <= v < USERPAGES ensures !Present(Pte(pages, d, v)) {
      KernelOnly(kmap, |kmap|, v);
    }
  }

  lemma FirstPage(p0: seq<Page>, o0: seq<Owner>, pages: seq<Page>, own: seq<Owner>, pd: nat)
    requires Grown(p0, o0, pages, own, pd, 0, 1, 1, {})
    ensures pd < |own| && own[pd].Dir? && Present(Pte(pages, pd, 0))
  {
    hide Pte;
    GrownDir(p0, o0, pages, own, pd, 0, 1, 1, {});
    assert NewPage(o0, pages, own, pd, 0);
  }

  lemma LooseNotFree(pages: seq<Page>, own: seq<Owner>, head: Word, free: seq<nat>, f: nat)
    requires Threaded(pages, own, head, free) && f < |own| && own[f].Loose?
    ensures f !in free
  {
  }

  lemma CopyStart(p0: seq<Page>, o0: seq<Owner>, pages: seq<Page>, own: seq<Owner>, pd: nat, d: nat, kmap: seq<Region>)
    requires Built(p0, o0, pages, own, d, kmap, |kmap|)
    ensures Copying(p0, o0, pages, own, pd, d, 0, kmap, {})
  {
    hide Pte, KernelPte, Within;
    assert {d} + {} == {d};
  }

  /** The parent's entries and pages are as they were. */
  lemma ParentSame(p0: seq<Page>, o0: seq<Owner>, pages: seq<Page>, own: seq<Owner>, pd: nat, d: nat, n: nat,
        kmap: seq<Region>, v: nat)
    requires SpacesOK(p0, o0) && Copying(p0, o0, pages, own, pd, d, n, kmap, {}) && pd < |o0| && o0[pd].Dir?
    requires v < NPAGES
    ensures pd < |own| == |o0| && own[pd].Dir? && d < |own| && own[d].Dir? && d != pd
    ensures Pte(pages, pd, v) == Pte(p0, pd, v)
    ensures v < USERPAGES && Present(Pte(p0, pd, v)) ==>
      var f := FrameOf(Pte(p0, pd, v));
      0 < f < |o0| && own[f] == User(pd, v) && pages[f] == p0[f] && |pages| == |p0| == |o0|
  {
    hide Pte, SpacesOK, KernelPte, Within;
    WithinLength(p0, o0, pages, own, d, {d} + {});
    OtherSpace(p0, o0, pages, own, d, 0, USERPAGES, {d} + {}, pd, v);
    if v < USERPAGES && Present(Pte(p0, pd, v)) {
      UserFrame(p0, o0, pd, v);
    }
  }

  lemma WithinLength(p0: seq<Page>, o0: seq<Owner>, pages: seq<Page>, own: seq<Owner>, d: nat, ex: set<nat>)
    requires Within(p0, o0, pages, own, d, 0, USERPAGES, ex)
    ensures |p0| == |o0| == |pages| == |own|
  {
  }

  lemma PresentTable(pages: seq<Page>, own: seq<Owner>, pd: nat, v: nat)
    requires SpacesOK(pages, own) && pd < |own| && own[pd].Dir? && v < USERPAGES && Present(Pte(pages, pd, v))
    ensures var t := TableOf(pages, pd, v / NENTRIES);
      t.Some? && t.value < |pages| && pages[t.value][v % NENTRIES] == Pte(pages, pd, v)
  {
    hide LeafOK, UserOK, TableOK;
  }

  /** A frame has been taken and filled from the parent's page. */
  lemma CopyTake(p0: seq<Page>, o0: seq<Owner>, p1: seq<Page>, o1: seq<Owner>, pd: nat, d: nat, i: nat,
        kmap: seq<Region>, f: nat)
    requires SpacesOK(p0, o0) && SpacesOK(p1, o1) && Copying(p0, o0, p1, o1, pd, d, i, kmap, {}) && i < USERPAGES
    requires pd < |o0| && o0[pd].Dir? && Present(Pte(p0, pd, i)) && f < |o1| == |p1| && o1[f].Free?
    ensures FrameOf(Pte(p0, pd, i)) < |p1| == |p0|
    ensures var now, own := p1[f := p1[FrameOf(Pte(p0, pd, i))]], o1[f := Loose];
      && SpacesOK(now, own) && Copying(p0, o0, now, own, pd, d, i, kmap, {f})
      && o0[f].Free? && now[f] == p0[FrameOf(Pte(p0, pd, i))]
  {
    hide Pte, SpacesOK, KernelPte;
    ParentSame(p0, o0, p1, o1, pd, d, i, kmap, i);
    var p := p1[FrameOf(Pte(p0, pd, i))];
    var now, own := p1[f := p], o1[f := Loose];
    LooseFill(p1, o1, f, p);
    assert Within(p0, o0, now, own, d, 0, USERPAGES, {d} + {f}) by {
      forall g | 0 <= g < |o0| && g != f ensures own[g] == o1[g] && now[g] == p1[g] {
      }
    }
    forall v | 0 <= v < i ensures CopyOf(p0, o0, now, own, pd, d, v) {
      assert CopyOf(p0, o0, p1, o1, pd, d, v);
      assert Pte(now, d, v) == Pte(p1, d, v);
    }
    forall v | i <= v < NPAGES ensures Pte(now, d, v) == KernelPte(kmap, |kmap|, v) {
      assert Pte(now, d, v) == Pte(p1, d, v);
    }
  }

  /** The call of mappages in copyuvm. */
  method CopyOne(m: Memory, ghost p0: seq<Page>, ghost o0: seq<Owner>, pd: nat, d: nat, i: nat, kmap: seq<Region>,
        f: nat, flags: nat) returns (ok: bool)
    requires Ready(m) && Copying(p0, o0, m.pages[..], m.own, pd, d, i, kmap, {f}) && i < USERPAGES
    requires f < m.pages.Length && m.own[f].Loose? && f < |o0| && o0[f].Free? && pd < |o0| == |p0|
    requires Present(Pte(p0, pd, i)) && FrameOf(Pte(p0, pd, i)) < |p0| && m.pages[f] == p0[FrameOf(Pte(p0, pd, i))]
    requires flags == FlagsOf(Pte(p0, pd, i))
    modifies m, m.pages
    ensures Ready(m)
    ensures ok ==> Copying(p0, o0, m.pages[..], m.own, pd, d, i + 1, kmap, {})
    ensures !ok ==> m.pages[..] == old(m.pages[..]) && m.own == old(m.own)
    ensures ok <==> i / NENTRIES in Tabs(old(m.pages[..]), d) || old(m.free) != []
    ensures ok ==> Tabs(m.pages[..], d) == Tabs(old(m.pages[..]), d) + {i / NENTRIES}
    ensures ok ==> |m.free| + (if i / NENTRIES in Tabs(old(m.pages[..]), d) then 0 else 1) == |old(m.free)|
  {
    hide SpacesOK, Pte, Threaded, TableOf, Within, Mapped, MakePte, KernelPte, Tabs, Slots, TablesFor;
    OneTable(Tabs(m.pages[..], d), i);
    ghost var p1: seq<Page>, o1 := m.pages[..], m.own;
    SpaceShape(p1, o1);
    KernelOnly(kmap, |kmap|, i);
    assert Pte(p1, d, i) == 0;
    ghost var done;
    ok, done := MapPages(m, d, i * PGSIZE, PGSIZE, f * PGSIZE, flags, i, 1, f);
    if ok {
      CopyMore(p0, o0, p1, o1, m.pages[..], m.own, pd, d, i, kmap, f, flags);
    }
  }

  lemma CopyMore(p0: seq<Page>, o0: seq<Owner>, p1: seq<Page>, o1: seq<Owner>, p2: seq<Page>, o2: seq<Owner>,
        pd: nat, d: nat, i: nat, kmap: seq<Region>, f: nat, flags: nat)
    requires Copying(p0, o0, p1, o1, pd, d, i, kmap, {f}) && i < USERPAGES && f < |o0| == |p0| && o0[f].Free?
    requires f < |o1| == |p1|
    requires Within(p1, o1, p2, o2, d, 0, 0, {f}) && Mapped(p1, o1, p2, d, i, 1, f, flags) && NoneFreed(o1, o2)
    requires o1[f].Loose? && o2[f] == User(d, i) && p2[f] == p1[f]
    requires Present(Pte(p0, pd, i)) && FrameOf(Pte(p0, pd, i)) < |p0| && p1[f] == p0[FrameOf(Pte(p0, pd, i))]
    requires flags == FlagsOf(Pte(p0, pd, i))
    ensures Copying(p0, o0, p2, o2, pd, d, i + 1, kmap, {})
  {
    hide Pte, KernelPte;
    GrowingMore(p0, o0, p1, o1, p2, o2, d, {f});
    assert Within(p0, o0, p2, o2, d, 0, USERPAGES, {d} + {}) by {
      assert Mine(o0[f], d, 0, USERPAGES) && Mine(o2[f], d, 0, USERPAGES);
    }
    forall v | 0 <= v < i + 1 ensures CopyOf(p0, o0, p2, o2, pd, d, v) {
      assert Pte(p2, d, v) == if v == i then MakePte(f, flags) else Pte(p1, d, v);
      if v < i {
        assert CopyOf(p0, o0, p1, o1, pd, d, v);
        var g := FrameOf(Pte(p1, d, v));
        assert o2[g] == o1[g] && p2[g] == p1[g];
      } else {
        OddFlags(Pte(p0, pd, i));
      }
    }
    forall v | i + 1 <= v < NPAGES ensures Pte(p2, d, v) == KernelPte(kmap, |kmap|, v) {
      assert Pte(p2, d, v) == Pte(p1, d, v);
    }
  }

  lemma OddFlags(w: Word)
    requires Present(w)
    ensures FlagsOf(w) - FlagsOf(w) % 2 + 1 == FlagsOf(w)
  {
  }

  /** Giving up: everything is back except frames in hand. */
  lemma CopyBack(p0: seq<Page>, o0: seq<Owner>, p1: seq<Page>, o1: seq<Owner>, now: seq<Page>, pd: nat, d: nat,
        i: nat, kmap: seq<Region>, ex: set<nat>)
    requires SpacesOK(p0, o0) && SpacesOK(p1, o1) && Copying(p0, o0, p1, o1, pd, d, i, kmap, ex)
    requires Foreign(p1, o1, now, d)
    requires forall f :: f in ex ==> f < |o0| && o0[f].Free? && f < |o1| && o1[f].Loose?
    ensures |o1| == |o0| && Intact(p0, o0, now)
    ensures forall f :: 0 <= f < |o0| ==> Vanished(o1, d)[f] == if f in ex then Loose else o0[f]
    ensures ex == {} ==> Vanished(o1, d) == o0
  {
    hide Pte, SpacesOK, KernelPte, Within;
    TakenBack(p0, o0, p1, o1, now, d, ex);
    WithinLength(p0, o0, p1, o1, d, {d} + ex);
  }

  // ----- isolation

  /** Two spaces never share a user frame. */
  lemma ShareNothing(pages: seq<Page>, own: seq<Owner>, q: nat, v: nat, r: nat, u: nat)
    requires SpacesOK(pages, own) && q < |own| && r < |own| && own[q].Dir? && own[r].Dir? && v < USERPAGES
    requires u < USERPAGES
    requires Present(Pte(pages, q, v)) && Present(Pte(pages, r, u)) && (q != r || v != u)
    ensures FrameOf(Pte(pages, q, v)) != FrameOf(Pte(pages, r, u))
  {
    hide Pte, SpacesOK;
    UserFrame(pages, own, q, v);
    UserFrame(pages, own, r, u);
  }

  /** After copyuvm parent and child read the same bytes with the same permissions below sz, on
      different frames, and the child has no other user page. */
  lemma ForkIsolation(p0: seq<Page>, o0: seq<Owner>, pages: seq<Page>, own: seq<Owner>, pd: nat, d: nat, n: nat,
        kmap: seq<Region>, v: nat)
    requires SpacesOK(p0, o0) && SpacesOK(pages, own) && Copying(p0, o0, pages, own, pd, d, n, kmap, {})
    requires pd < |o0| && o0[pd].Dir? && v < USERPAGES
    ensures Present(Pte(pages, d, v)) <==> v < n
    ensures v < n ==>
      var w, w' := Pte(pages, pd, v), Pte(pages, d, v);
      && Present(w) && FlagsOf(w') == FlagsOf(w) && FrameOf(w) < |pages| && FrameOf(w') < |pages|
      && FrameOf(w') != FrameOf(w) && pages[FrameOf(w')] == pages[FrameOf(w)]
  {
    hide Pte, SpacesOK, KernelPte, Within;
    ParentSame(p0, o0, pages, own, pd, d, n, kmap, v);
    if v < n {
      assert CopyOf(p0, o0, pages, own, pd, d, v);
      ShareNothing(pages, own, pd, v, d, v);
    } else {
      KernelOnly(kmap, |kmap|, v);
      assert Pte(pages, d, v) == 0;
    }
  }

  /** A store through one page of one space. */
  method Store(m: Memory, q: nat, vpn: nat, k: nat, w: Word)
    requires Ready(m) && q < m.pages.Length && m.own[q].Dir? && vpn < USERPAGES && k < NENTRIES
    requires Present(Pte(m.pages[..], q, vpn))
    modifies m, m.pages
    ensures Ready(m) && m.own == old(m.own)
    ensures Pte(m.pages[..], q, vpn) == Pte(old(m.pages[..]), q, vpn)
    ensures FrameOf(Pte(old(m.pages[..]), q, vpn)) < m.pages.Length
    ensures var f := FrameOf(Pte(old(m.pages[..]), q, vpn)); m.pages[f] == old(m.pages[..])[f][k := w]
    ensures forall r, v :: 0 <= r < m.pages.Length && m.own[r].Dir? && 0 <= v < USERPAGES && !(r == q && v == vpn) ==>
      SamePage(old(m.pages[..]), m.pages[..], r, v)
  {
    hide SpacesOK, Pte, Threaded, TableOf;
    ghost var p0: seq<Page>, o0 := m.pages[..], m.own;
    SpaceShape(p0, o0);
    UserFrame(p0, o0, q, vpn);
    var t := Walk(m, q, vpn, false);
    PresentTable(p0, o0, q, vpn);
    var f := FrameOf(m.pages[t.value][vpn % NENTRIES]);
    m.Fill(f, m.pages[f][k := w]);
    SameKeeps(p0, o0, m.pages[..], m.own);
    forall r, v | 0 <= r < m.pages.Length && m.own[r].Dir? && 0 <= v < USERPAGES && !(r == q && v == vpn)
      ensures SamePage(p0, m.pages[..], r, v)
    {
      if Present(Pte(p0, r, v)) {
        UserFrame(p0, o0, r, v);
      }
    }
  }

  /** Page v of space r is mapped as before and reads as before. */
  ghost predicate SamePage(p0: seq<Page>, now: seq<Page>, r: nat, v: nat) {
    && Pte(now, r, v) == Pte(p0, r, v)
    && (Present(Pte(p0, r, v)) ==>
          FrameOf(Pte(p0, r, v)) < |p0| == |now| && now[FrameOf(Pte(p0, r, v))] == p0[FrameOf(Pte(p0, r, v))])
  }
}
