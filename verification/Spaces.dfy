/** Two-level page tables in page frames (section 4.3 of the Intel SDM, volume 3A), and what the
    elementary changes to them do.  An address space is named by the frame of its directory. */
module Spaces {
  import opened Machine
  import opened Frames

  const NPAGES: nat := 0x10_0000
  /** Pages below KERNBASE. */
  const USERPAGES: nat := 0x8_0000
  const PTE_W: nat := 2
  const PTE_U: nat := 4

  predicate Present(w: Word) {
    w % 2 == 1
  }

  function FrameOf(w: Word): nat {
    w / PGSIZE
  }

  function FlagsOf(w: Word): nat {
    w % PGSIZE
  }

  /** pa | perm | PTE_P. */
  function MakePte(f: nat, perm: nat): (w: Word)
    requires f < NPAGES && perm < PGSIZE
    ensures Present(w) && FrameOf(w) == f && FlagsOf(w) == perm - perm % 2 + 1
  {
    var flags := perm - perm % 2 + 1;
    assert flags < 4096 && (f * 4096 + flags) / 4096 == f && (f * 4096 + flags) % 4096 == flags;
    f * 4096 + flags
  }

  // ----- what the hardware sees

  function TableOf(pages: seq<Page>, pd: nat, i: nat): Option<nat> {
    if pd < |pages| && i < NENTRIES && Present(pages[pd][i]) && FrameOf(pages[pd][i]) < |pages| then
      Some(FrameOf(pages[pd][i]))
    else None
  }

  /** The entry for virtual page vpn: zero where there is no table. */
  function Pte(pages: seq<Page>, pd: nat, vpn: nat): Word {
    match TableOf(pages, pd, vpn / NENTRIES)
    case None => 0
    case Some(t) => pages[t][vpn % NENTRIES]
  }

  // ----- the invariant: entries and owners say the same

  ghost predicate DirsOK(pages: seq<Page>, own: seq<Owner>) {
    forall pd, i {:trigger pages[pd][i]} ::
      0 <= pd < |pages| == |own| && 0 <= i < NENTRIES && own[pd].Dir? && Present(pages[pd][i]) ==>
      FrameOf(pages[pd][i]) < |own| && own[FrameOf(pages[pd][i])] == Table(pd, i)
  }

  ghost predicate TableOK(pages: seq<Page>, own: seq<Owner>, t: nat) {
    t < |own| == |pages| && own[t].Table? ==>
      own[t].pd < |own| && own[own[t].pd].Dir? && TableOf(pages, own[t].pd, own[t].i) == Some(t)
  }

  ghost predicate LeafOK(pages: seq<Page>, own: seq<Owner>, pd: nat, vpn: nat) {
    pd < |own| == |pages| && own[pd].Dir? && vpn < USERPAGES && Present(Pte(pages, pd, vpn)) ==>
      FrameOf(Pte(pages, pd, vpn)) < |own| && own[FrameOf(Pte(pages, pd, vpn))] == User(pd, vpn)
  }

  ghost predicate UserOK(pages: seq<Page>, own: seq<Owner>, f: nat) {
    f < |own| == |pages| && own[f].User? ==>
      && own[f].pd < |own| && own[own[f].pd].Dir? && own[f].vpn < USERPAGES
      && Present(Pte(pages, own[f].pd, own[f].vpn)) && FrameOf(Pte(pages, own[f].pd, own[f].vpn)) == f
  }

  ghost predicate SpacesOK(pages: seq<Page>, own: seq<Owner>) {
    && |own| == |pages| <= MAXFRAMES && 0 < |own| && own[0] == Reserved
    && DirsOK(pages, own)
    && (forall t :: 0 <= t < |own| ==> TableOK(pages, own, t))
    && (forall pd, vpn :: 0 <= pd < |own| && 0 <= vpn < USERPAGES ==> LeafOK(pages, own, pd, vpn))
    && (forall f :: 0 <= f < |own| ==> UserOK(pages, own, f))
  }

  /** A table belongs to the slot it hangs in. */
  lemma TableOwner(pages: seq<Page>, own: seq<Owner>, pd: nat, i: nat)
    requires SpacesOK(pages, own) && pd < |own| && own[pd].Dir? && i < NENTRIES
    ensures Present(pages[pd][i]) <==> TableOf(pages, pd, i).Some?
    ensures TableOf(pages, pd, i).Some? ==>
      TableOf(pages, pd, i).value < |own| && own[TableOf(pages, pd, i).value] == Table(pd, i)
  {
  }

  // ----- changes outside the tables

  predicate Structural(o: Owner) {
    o.Dir? || o.Table? || o.User?
  }

  /** Directories, tables and user frames keep their owners, directories and tables their contents. */
  ghost predicate SameStructure(pages: seq<Page>, own: seq<Owner>, now: seq<Page>, own': seq<Owner>) {
    && |now| == |pages| == |own| == |own'| && 0 < |own| && own'[0] == own[0]
    && (forall f {:trigger own'[f]} :: 0 <= f < |own| && (Structural(own[f]) || Structural(own'[f])) ==>
          own'[f] == own[f])
    && (forall f {:trigger now[f]} :: 0 <= f < |own| && (own[f].Dir? || own[f].Table?) ==> now[f] == pages[f])
  }

  lemma SamePte(pages: seq<Page>, own: seq<Owner>, now: seq<Page>, own': seq<Owner>, pd: nat, vpn: nat)
    requires SpacesOK(pages, own) && SameStructure(pages, own, now, own') && pd < |own| && own[pd].Dir? && vpn < NPAGES
    ensures Pte(now, pd, vpn) == Pte(pages, pd, vpn)
  {
    hide LeafOK, UserOK, TableOK;
    TableOwner(pages, own, pd, vpn / NENTRIES);
    assert now[pd] == pages[pd];
    var t := TableOf(pages, pd, vpn / NENTRIES);
    if t.Some? {
      assert now[t.value] == pages[t.value];
    }
  }

  lemma SameKeeps(pages: seq<Page>, own: seq<Owner>, now: seq<Page>, own': seq<Owner>)
    requires SpacesOK(pages, own) && SameStructure(pages, own, now, own')
    ensures SpacesOK(now, own')
    ensures forall pd, vpn :: 0 <= pd < |own| && own[pd].Dir? && 0 <= vpn < NPAGES ==>
      Pte(now, pd, vpn) == Pte(pages, pd, vpn)
  {
    hide Pte;
    forall pd, vpn | 0 <= pd < |own| && own[pd].Dir? && 0 <= vpn < NPAGES
      ensures Pte(now, pd, vpn) == Pte(pages, pd, vpn)
    {
      SamePte(pages, own, now, own', pd, vpn);
    }
    forall t | 0 <= t < |own| ensures TableOK(now, own', t) && UserOK(now, own', t) {
      assert TableOK(pages, own, t) && UserOK(pages, own, t);
    }
    forall pd, vpn | 0 <= pd < |own| && 0 <= vpn < USERPAGES ensures LeafOK(now, own', pd, vpn) {
      assert LeafOK(pages, own, pd, vpn);
    }
  }

  // ----- a new directory and a new table

  /** A blank loose frame becomes an empty address space. */
  lemma NewDirKeeps(pages: seq<Page>, own: seq<Owner>, pd: nat)
    requires SpacesOK(pages, own) && pd < |own| && own[pd].Loose? && pages[pd] == Blank(0)
    ensures SpacesOK(pages, own[pd := Dir])
    ensures forall vpn :: 0 <= vpn < NPAGES ==> Pte(pages, pd, vpn) == 0
  {
    var own' := own[pd := Dir];
    forall t | 0 <= t < |own| ensures TableOK(pages, own', t) && UserOK(pages, own', t) {
      assert TableOK(pages, own, t) && UserOK(pages, own, t);
    }
    forall q, vpn | 0 <= q < |own| && 0 <= vpn < USERPAGES ensures LeafOK(pages, own', q, vpn) {
      assert LeafOK(pages, own, q, vpn);
    }
  }

  function WithTable(pages: seq<Page>, pd: nat, i: nat, t: nat): (r: seq<Page>)
    requires pd < |pages| && i < NENTRIES && t < NPAGES
    ensures |r| == |pages|
  {
    pages[pd := pages[pd][i := MakePte(t, PTE_W + PTE_U)]]
  }

  predicate TableFits(pages: seq<Page>, own: seq<Owner>, pd: nat, i: nat, t: nat) {
    && pd < |own| == |pages| && own[pd].Dir? && i < NENTRIES && !Present(pages[pd][i])
    && t < |own| && own[t].Loose? && pages[t] == Blank(0)
  }

  /** Entering a blank table changes no entry that anybody sees. */
  lemma WithTablePte(pages: seq<Page>, own: seq<Owner>, pd: nat, i: nat, t: nat, q: nat, vpn: nat)
    requires SpacesOK(pages, own) && TableFits(pages, own, pd, i, t) && q < |own| && own[q].Dir? && vpn < NPAGES
    ensures Pte(WithTable(pages, pd, i, t), q, vpn) == Pte(pages, q, vpn)
    ensures forall j :: 0 <= j < NENTRIES && !(q == pd && j == i) ==>
      TableOf(WithTable(pages, pd, i, t), q, j) == TableOf(pages, q, j)
    ensures TableOf(WithTable(pages, pd, i, t), pd, i) == Some(t)
  {
    hide LeafOK, UserOK, TableOK, MakePte;
    TableOwner(pages, own, q, vpn / NENTRIES);
  }

  lemma WithTableKeeps(pages: seq<Page>, own: seq<Owner>, pd: nat, i: nat, t: nat)
    requires SpacesOK(pages, own) && TableFits(pages, own, pd, i, t)
    ensures SpacesOK(WithTable(pages, pd, i, t), own[t := Table(pd, i)])
    ensures forall q, vpn :: 0 <= q < |own| && own[q].Dir? && 0 <= vpn < NPAGES ==>
      Pte(WithTable(pages, pd, i, t), q, vpn) == Pte(pages, q, vpn)
    ensures TableOf(WithTable(pages, pd, i, t), pd, i) == Some(t)
  {
    hide Pte, TableOf, WithTable, MakePte;
    var now, own' := WithTable(pages, pd, i, t), own[t := Table(pd, i)];
    forall q, vpn | 0 <= q < |own| && own[q].Dir? && 0 <= vpn < NPAGES ensures Pte(now, q, vpn) == Pte(pages, q, vpn) {
      WithTablePte(pages, own, pd, i, t, q, vpn);
    }
    WithTablePte(pages, own, pd, i, t, pd, 0);
    forall g | 0 <= g < |own| ensures TableOK(now, own', g) && UserOK(now, own', g) {
      assert TableOK(pages, own, g) && UserOK(pages, own, g);
      if own[g].Table? {
        WithTablePte(pages, own, pd, i, t, own[g].pd, 0);
        TableSlot(pages, own[g].pd, own[g].i);
        SlotFree(pages, own, pd, i);
      }
    }
    forall q, vpn | 0 <= q < |own| && 0 <= vpn < USERPAGES ensures LeafOK(now, own', q, vpn) {
      assert LeafOK(pages, own, q, vpn);
    }
    WithTableDirs(pages, own, pd, i, t);
  }

  lemma TableSlot(pages: seq<Page>, pd: nat, i: nat)
    requires TableOf(pages, pd, i).Some?
    ensures i < NENTRIES
  {
  }

  lemma SlotFree(pages: seq<Page>, own: seq<Owner>, pd: nat, i: nat)
    requires pd < |pages| && i < NENTRIES && !Present(pages[pd][i])
    ensures TableOf(pages, pd, i) == None
  {
  }

  lemma WithTableDirs(pages: seq<Page>, own: seq<Owner>, pd: nat, i: nat, t: nat)
    requires SpacesOK(pages, own) && TableFits(pages, own, pd, i, t)
    ensures DirsOK(WithTable(pages, pd, i, t), own[t := Table(pd, i)])
  {
    hide LeafOK, UserOK, TableOK, Pte;
    var now, own' := WithTable(pages, pd, i, t), own[t := Table(pd, i)];
    forall q, j | 0 <= q < |now| && 0 <= j < NENTRIES && own'[q].Dir? && Present(now[q][j])
      ensures FrameOf(now[q][j]) < |own'| && own'[FrameOf(now[q][j])] == Table(q, j)
    {
      if q == pd && j == i {
        assert now[q][j] == MakePte(t, PTE_W + PTE_U);
      } else {
        assert now[q][j] == pages[q][j];
      }
    }
  }

  // ----- one entry of a table

  function WithEntry(pages: seq<Page>, t: nat, k: nat, w: Word): seq<Page>
    requires t < |pages| && k < NENTRIES
  {
    pages[t := pages[t][k := w]]
  }

  lemma WithEntryPte(pages: seq<Page>, own: seq<Owner>, pd: nat, vpn: nat, t: nat, w: Word, q: nat, v: nat)
    requires SpacesOK(pages, own) && pd < |own| && own[pd].Dir? && vpn < NPAGES
    requires TableOf(pages, pd, vpn / NENTRIES) == Some(t)
    requires q < |own| && own[q].Dir? && v < NPAGES
    ensures t < |pages| && own[t] == Table(pd, vpn / NENTRIES)
    ensures Pte(WithEntry(pages, t, vpn % NENTRIES, w), q, v) == if q == pd && v == vpn then w else Pte(pages, q, v)
    ensures forall j :: 0 <= j < NENTRIES ==>
      TableOf(WithEntry(pages, t, vpn % NENTRIES, w), q, j) == TableOf(pages, q, j)
  {
    hide LeafOK, UserOK, TableOK;
    TableOwner(pages, own, pd, vpn / NENTRIES);
    TableOwner(pages, own, q, v / NENTRIES);
    var now := WithEntry(pages, t, vpn % NENTRIES, w);
    assert q != t && now[q] == pages[q];
    var u := TableOf(pages, q, v / NENTRIES);
    if u.Some? && u.value == t {
      assert q == pd && v / NENTRIES == vpn / NENTRIES;
      assert v == vpn <==> v % NENTRIES == vpn % NENTRIES;
    }
  }

  /** Changes of one entry, with the owners that go with it. */
  predicate Entering(pages: seq<Page>, own: seq<Owner>, pd: nat, vpn: nat, t: nat, w: Word, own': seq<Owner>) {
    && pd < |own| == |pages| && own[pd].Dir? && vpn < NPAGES && TableOf(pages, pd, vpn / NENTRIES) == Some(t)
    && (if vpn >= USERPAGES then own' == own
        else if Present(w) then
          && !Present(Pte(pages, pd, vpn)) && 0 < FrameOf(w) < |own| && own[FrameOf(w)].Loose?
          && own' == own[FrameOf(w) := User(pd, vpn)]
        else
          && Present(Pte(pages, pd, vpn)) && FrameOf(Pte(pages, pd, vpn)) < |own|
          && own' == own[FrameOf(Pte(pages, pd, vpn)) := Loose])
  }

  lemma EnteringKeeps(pages: seq<Page>, own: seq<Owner>, pd: nat, vpn: nat, t: nat, w: Word, own': seq<Owner>)
    requires SpacesOK(pages, own) && Entering(pages, own, pd, vpn, t, w, own')
    ensures t < |pages| && own[t] == Table(pd, vpn / NENTRIES)
    ensures SpacesOK(WithEntry(pages, t, vpn % NENTRIES, w), own')
    ensures forall q, v :: 0 <= q < |own| && own[q].Dir? && 0 <= v < NPAGES ==>
      Pte(WithEntry(pages, t, vpn % NENTRIES, w), q, v) == if q == pd && v == vpn then w else Pte(pages, q, v)
  {
    hide Pte, TableOf, WithEntry;
    WithEntryPte(pages, own, pd, vpn, t, w, pd, vpn);
    var now := WithEntry(pages, t, vpn % NENTRIES, w);
    assert LeafOK(pages, own, pd, vpn);
    forall q, v | 0 <= q < |own| && own[q].Dir? && 0 <= v < NPAGES
      ensures Pte(now, q, v) == if q == pd && v == vpn then w else Pte(pages, q, v)
    {
      WithEntryPte(pages, own, pd, vpn, t, w, q, v);
    }
    forall g | 0 <= g < |own| ensures TableOK(now, own', g) && UserOK(now, own', g) {
      assert TableOK(pages, own, g) && UserOK(pages, own, g);
      if own[g].Table? {
        WithEntryPte(pages, own, pd, vpn, t, w, own[g].pd, 0);
        TableSlot(pages, own[g].pd, own[g].i);
      }
    }
    forall q, v | 0 <= q < |own| && 0 <= v < USERPAGES ensures LeafOK(now, own', q, v) {
      assert LeafOK(pages, own, q, v);
    }
    EnteringDirs(pages, own, pd, vpn, t, w, own');
  }

  lemma EnteringDirs(pages: seq<Page>, own: seq<Owner>, pd: nat, vpn: nat, t: nat, w: Word, own': seq<Owner>)
    requires SpacesOK(pages, own) && Entering(pages, own, pd, vpn, t, w, own') && t < |pages| && own[t].Table?
    ensures DirsOK(WithEntry(pages, t, vpn % NENTRIES, w), own') && |own'| == |own| && own'[0] == own[0]
    ensures |WithEntry(pages, t, vpn % NENTRIES, w)| == |pages|
  {
    hide UserOK, TableOK, Pte;
    assert LeafOK(pages, own, pd, vpn);
    var now := WithEntry(pages, t, vpn % NENTRIES, w);
    forall q, j | 0 <= q < |now| && 0 <= j < NENTRIES && own'[q].Dir? && Present(now[q][j])
      ensures FrameOf(now[q][j]) < |own'| && own'[FrameOf(now[q][j])] == Table(q, j)
    {
      assert now[q][j] == pages[q][j];
    }
  }

  // ----- taking an address space apart

  /** The frames of a directory and its tables, given back. */
  function Dissolved(own: seq<Owner>, pd: nat): (r: seq<Owner>)
    requires pd < |own|
    ensures |r| == |own|
    ensures forall f {:trigger r[f]} :: 0 <= f < |own| ==>
      r[f] == if f == pd || (own[f].Table? && own[f].pd == pd) then Loose else own[f]
  {
    seq(|own|, f requires 0 <= f < |own| => if f == pd || (own[f].Table? && own[f].pd == pd) then Loose else own[f])
  }

  lemma DissolvedKeeps(pages: seq<Page>, own: seq<Owner>, pd: nat)
    requires SpacesOK(pages, own) && pd < |own| && own[pd].Dir?
    requires forall vpn :: 0 <= vpn < USERPAGES ==> !Present(Pte(pages, pd, vpn))
    ensures SpacesOK(pages, Dissolved(own, pd))
  {
    hide Pte, TableOf;
    var own' := Dissolved(own, pd);
    forall g | 0 <= g < |own| ensures TableOK(pages, own', g) && UserOK(pages, own', g) {
      assert TableOK(pages, own, g) && UserOK(pages, own, g);
    }
    forall q, v | 0 <= q < |own| && 0 <= v < USERPAGES ensures LeafOK(pages, own', q, v) {
      assert LeafOK(pages, own, q, v);
    }
  }
}
