/** The directory tree that sysfile.c keeps over the entries of fs.c: what it must satisfy, and
    that creating, linking and unlinking keep it. */
module Directories {
  import opened Machine

  /** inum 0 marks an empty slot. */
  datatype Entry = Entry(inum: nat, name: string)

  datatype Kind = Free | File | Dir

  datatype Node = Node(kind: Kind, nlink: nat, entries: seq<Entry>)

  type Nodes = seq<Node>

  /** What is left of a name in a directory entry. */
  function Canon(name: string): (c: string)
    ensures |c| <= DIRSIZ
  {
    if |name| <= DIRSIZ then name else name[..DIRSIZ]
  }

  predicate IsDot(name: string) {
    name == "." || name == ".."
  }

  /** The slot of the first entry with a name. */
  function Find(es: seq<Entry>, name: string): (r: Option<nat>)
    ensures r.Some? ==> r.value < |es| && es[r.value].inum != 0 && es[r.value].name == name
    ensures r.None? ==> forall k :: 0 <= k < |es| ==> es[k].inum == 0 || es[k].name != name
    ensures r.Some? ==> forall k :: 0 <= k < r.value ==> es[k].inum == 0 || es[k].name != name
    decreases |es|
  {
    if es == [] then None
    else
      var before := Find(es[..|es| - 1], name);
      if before.Some? then before
      else if es[|es| - 1].inum != 0 && es[|es| - 1].name == name then Some(|es| - 1)
      else None
  }

  /** Following a path of names from inode i. */
  function Walk(t: Nodes, i: nat, path: seq<string>): Option<nat>
    decreases |path|
  {
    if path == [] then (if i < |t| then Some(i) else None)
    else
      match Walk(t, i, path[..|path| - 1])
      case None => None
      case Some(d) =>
        if d < |t| && t[d].kind.Dir? && Find(t[d].entries, path[|path| - 1]).Some? then
          Some(t[d].entries[Find(t[d].entries, path[|path| - 1]).value].inum)
        else None
  }

  predicate Plain(path: seq<string>) {
    forall k :: 0 <= k < |path| ==> !IsDot(path[k])
  }

  // ----- the invariant

  predicate Linked(t: Nodes, d: nat) {
    d < |t| && t[d].kind.Dir? && t[d].nlink > 0
  }

  predicate Distinct(es: seq<Entry>) {
    forall k, l :: 0 <= k < l < |es| && es[k].inum != 0 && es[l].inum != 0 ==> es[k].name != es[l].name
  }

  /** What entry k of linked directory d says. */
  predicate EntryOK(t: Nodes, d: nat, k: nat)
    requires d < |t| && k < |t[d].entries|
  {
    var i := t[d].entries[k].inum;
    i != 0 ==>
      && i < |t| && t[i].nlink > 0 && |t[d].entries[k].name| <= DIRSIZ
      && (k == 1 ==> t[i].kind.Dir?)
      && (k >= 2 && t[i].kind.Dir? ==> i != ROOTINO && i != d && |t[i].entries| >= 2 && t[i].entries[1].inum == d)
  }

  /** Dots first, names distinct; an unlinked directory is empty. */
  predicate DirOK(t: Nodes, d: nat)
    requires d < |t|
  {
    t[d].kind.Dir? ==>
      var es := t[d].entries;
      && |es| >= 2 && es[0] == Entry(d, ".") && es[1].name == ".." && es[1].inum != 0 && d != 0 && Distinct(es)
      && (t[d].nlink == 0 ==> forall k :: 2 <= k < |es| ==> es[k].inum == 0)
  }

  predicate NamesDir(t: Nodes, i: nat) {
    0 < i < |t| && t[i].kind.Dir?
  }

  /** A directory is named once, apart from dots. */
  predicate OnceOK(t: Nodes, d: nat)
    requires d < |t|
  {
    forall k, l :: 2 <= k < l < |t[d].entries| && NamesDir(t, t[d].entries[k].inum) ==>
      t[d].entries[k].inum != t[d].entries[l].inum
  }

  predicate NodeOK(t: Nodes, held: set<nat>, i: nat)
    requires i < |t|
  {
    && (t[i].kind.Free? ==> t[i].nlink == 0)
    && (!t[i].kind.Dir? ==> t[i].entries == [])
    && (!t[i].kind.Free? ==> t[i].nlink > 0 || i in held)
  }

  /** The entries of linked directories that name inode i, other than ".". */
  function Refs(t: Nodes, i: nat): set<(nat, nat)> {
    set d, k | 0 <= d < |t| && 0 <= k < |t[d].entries| && Refers(t, i, d, k) :: (d, k)
  }

  predicate Refers(t: Nodes, i: nat, d: nat, k: nat) {
    Linked(t, d) && 1 <= k < |t[d].entries| && t[d].entries[k].inum == i
  }

  ghost predicate Reached(t: Nodes, i: nat) {
    exists path: seq<string> :: Plain(path) && Walk(t, ROOTINO, path) == Some(i)
  }

  ghost predicate TreeOK(t: Nodes, held: set<nat>) {
    && ROOTINO < |t| && Linked(t, ROOTINO) && |t[ROOTINO].entries| >= 2 && t[ROOTINO].entries[1].inum == ROOTINO
    && t[0].kind.Free?
    && (forall i :: 0 <= i < |t| ==> NodeOK(t, held, i) && DirOK(t, i) && OnceOK(t, i))
    && (forall d, k :: 0 <= d < |t| && 0 <= k < |t[d].entries| && Linked(t, d) ==> EntryOK(t, d, k))
    && (forall i :: 0 < i < |t| ==> t[i].nlink == |Refs(t, i)|)
    && (forall d :: Linked(t, d) ==> Reached(t, d))
  }

  // ----- what it is for

  /** The link count is the number of entries naming the inode, and every linked inode can be
      reached from the root by a path name without dots. */
  lemma LinkedIsReached(t: Nodes, held: set<nat>, i: nat)
    requires TreeOK(t, held) && 0 < i < |t| && t[i].nlink > 0
    ensures Reached(t, i)
  {
    hide Refs, NodeOK, OnceOK, Reached, DirOK;
    if !Linked(t, i) {
      var d, k := SomeRef(t, i);
      assert EntryOK(t, d, k) && DirOK(t, d) && Reached(t, d);
      OneMoreName(t, d, k);
    }
  }

  lemma SomeRef(t: Nodes, i: nat) returns (d: nat, k: nat)
    requires |Refs(t, i)| > 0
    ensures Refers(t, i, d, k)
  {
    var r :| r in Refs(t, i);
    d, k := r.0, r.1;
  }

  /** What an entry of a reached directory names is reached. */
  lemma OneMoreName(t: Nodes, d: nat, k: nat)
    requires d < |t| && t[d].kind.Dir? && 2 <= k < |t[d].entries| && t[d].entries[k].inum != 0 && DirOK(t, d)
    requires Reached(t, d)
    ensures Reached(t, t[d].entries[k].inum)
  {
    hide Find;
    var path :| Plain(path) && Walk(t, ROOTINO, path) == Some(d);
    var name := t[d].entries[k].name;
    var more := path + [name];
    assert more[..|more| - 1] == path;
    FindSlot(t[d].entries, k);
    assert Plain(more) && Walk(t, ROOTINO, more) == Some(t[d].entries[k].inum);
  }

  /** With distinct names the slot of a name is the only one. */
  lemma FindSlot(es: seq<Entry>, k: nat)
    requires Distinct(es) && k < |es| && es[k].inum != 0
    ensures Find(es, es[k].name) == Some(k)
  {
  }

  // ----- paths

  /** A path without dots leads through linked directories only. */
  lemma {:induction false} WalkLinked(t: Nodes, held: set<nat>, path: seq<string>)
    requires TreeOK(t, held) && Walk(t, ROOTINO, path).Some?
    ensures Walk(t, ROOTINO, path).value < |t| && t[Walk(t, ROOTINO, path).value].nlink > 0
    decreases |path|
  {
    hide Reached, Refs, NodeOK, OnceOK, DirOK;
    if path != [] {
      WalkLinked(t, held, path[..|path| - 1]);
      var d := Walk(t, ROOTINO, path[..|path| - 1]).value;
      var k := Find(t[d].entries, path[|path| - 1]).value;
      assert Linked(t, d) && EntryOK(t, d, k);
    }
  }

  /** The entry through which a linked directory is reached is in its parent. */
  lemma ParentEntry(t: Nodes, held: set<nat>, d: nat) returns (p: nat, k: nat)
    requires TreeOK(t, held) && Linked(t, d) && d != ROOTINO
    ensures Linked(t, p) && 2 <= k < |t[p].entries| && t[p].entries[k].inum == d && d != 0
    ensures |t[d].entries| >= 2 && t[d].entries[1].inum == p
  {
    hide Refs, NodeOK, OnceOK;
    assert Reached(t, d);
    var path :| Plain(path) && Walk(t, ROOTINO, path) == Some(d);
    var some, name := path[..|path| - 1], path[|path| - 1];
    WalkLinked(t, held, some);
    p := Walk(t, ROOTINO, some).value;
    k := Find(t[p].entries, name).value;
    assert DirOK(t, p) && EntryOK(t, p, k) && DirOK(t, d);
  }

  /** Nothing that could be looked up is lost. */
  ghost predicate Extends(t: Nodes, u: Nodes) {
    && |u| == |t|
    && forall d, name :: 0 <= d < |t| && t[d].kind.Dir? && Find(t[d].entries, name).Some? ==>
         u[d].kind.Dir? && Find(u[d].entries, name).Some? &&
         u[d].entries[Find(u[d].entries, name).value].inum == t[d].entries[Find(t[d].entries, name).value].inum
  }

  lemma {:induction false} WalkExtends(t: Nodes, u: Nodes, start: nat, path: seq<string>)
    requires Extends(t, u) && Walk(t, start, path).Some?
    ensures Walk(u, start, path) == Walk(t, start, path)
    decreases |path|
  {
    if path != [] {
      WalkExtends(t, u, start, path[..|path| - 1]);
    }
  }

  lemma ReachedExtends(t: Nodes, u: Nodes, d: nat)
    requires Extends(t, u) && Reached(t, d)
    ensures Reached(u, d)
  {
    var path :| Plain(path) && Walk(t, ROOTINO, path) == Some(d);
    WalkExtends(t, u, ROOTINO, path);
  }

  // ----- adding an entry

  /** dirlink's write: over an empty slot, or at the end. */
  function Put(es: seq<Entry>, k: nat, e: Entry): seq<Entry>
    requires k <= |es|
  {
    if k < |es| then es[k := e] else es + [e]
  }

  /** Slot k of directory d is free for a name that is not there yet. */
  predicate EntryFits(t: Nodes, d: nat, k: nat, name: string) {
    && d < |t| && t[d].kind.Dir? && 2 <= k <= |t[d].entries| && (k < |t[d].entries| ==> t[d].entries[k].inum == 0)
    && Find(t[d].entries, name).None? && |name| <= DIRSIZ && !IsDot(name)
  }

  predicate CanPut(t: Nodes, d: nat, k: nat, name: string) {
    Linked(t, d) && EntryFits(t, d, k, name)
  }

  lemma PutFind(es: seq<Entry>, k: nat, e: Entry, name: string)
    requires k <= |es| && (k < |es| ==> es[k].inum == 0) && Find(es, e.name).None? && e.inum != 0 && Distinct(es)
    ensures Distinct(Put(es, k, e))
    ensures Find(es, name).Some? ==> Find(Put(es, k, e), name) == Find(es, name)
    ensures Find(Put(es, k, e), e.name) == Some(k)
  {
    var fs := Put(es, k, e);
    assert Distinct(fs) by {
      forall a, b | 0 <= a < b < |fs| && fs[a].inum != 0 && fs[b].inum != 0 ensures fs[a].name != fs[b].name {
      }
    }
    FindSlot(fs, k);
    if Find(es, name).Some? {
      assert fs[Find(es, name).value] == es[Find(es, name).value];
      FindSlot(fs, Find(es, name).value);
    }
  }

  /** Entry (i, name) has been put into slot k of directory d; node i and the count of d may have
      changed too. */
  predicate Added(t: Nodes, u: Nodes, d: nat, k: nat, i: nat, name: string) {
    && |u| == |t| && d < |t| && 0 < i < |t| && i != d && k <= |t[d].entries|
    && u[d].kind == t[d].kind && u[d].entries == Put(t[d].entries, k, Entry(i, name))
    && (forall j :: 0 <= j < |t| && j != d && j != i ==> u[j] == t[j])
  }

  lemma AddedExtends(t: Nodes, u: Nodes, held: set<nat>, d: nat, k: nat, i: nat, name: string)
    requires TreeOK(t, held) && CanPut(t, d, k, name) && Added(t, u, d, k, i, name) && !t[i].kind.Dir?
    ensures Extends(t, u)
  {
    hide Reached, Refs, NodeOK, OnceOK, Find, Put;
    forall e, n | 0 <= e < |t| && t[e].kind.Dir? && Find(t[e].entries, n).Some?
      ensures u[e].kind.Dir? && Find(u[e].entries, n).Some?
      ensures u[e].entries[Find(u[e].entries, n).value].inum == t[e].entries[Find(t[e].entries, n).value].inum
    {
      if e == d {
        assert DirOK(t, d);
        PutFind(t[d].entries, k, Entry(i, name), n);
        PutSlot(t[d].entries, k, Entry(i, name), Find(t[d].entries, n).value);
      }
    }
  }

  lemma PutSlot(es: seq<Entry>, k: nat, e: Entry, l: nat)
    requires k <= |es| && (k < |es| ==> es[k].inum == 0)
    ensures |Put(es, k, e)| == (if k < |es| then |es| else |es| + 1) && Put(es, k, e)[k] == e
    ensures l < |es| && l != k ==> Put(es, k, e)[l] == es[l]
    ensures l < |es| && es[l].inum != 0 ==> Put(es, k, e)[l] == es[l]
  {
  }

  /** The directory that got the entry is still in order. */
  lemma AddedDir(t: Nodes, u: Nodes, held: set<nat>, d: nat, k: nat, i: nat, name: string)
    requires TreeOK(t, held) && CanPut(t, d, k, name) && Added(t, u, d, k, i, name) && u[d].nlink > 0
    ensures DirOK(u, d) && Linked(u, d)
  {
    hide Reached, Refs, NodeOK, OnceOK, Find;
    assert DirOK(t, d);
    PutFind(t[d].entries, k, Entry(i, name), name);
  }

  // ----- counting

  lemma RefsAre(t: Nodes, i: nat, d: nat, k: nat)
    ensures (d, k) in Refs(t, i) <==> Refers(t, i, d, k)
  {
  }

  lemma SameRefs(t: Nodes, u: Nodes, j: nat)
    requires forall d: nat, k: nat :: Refers(u, j, d, k) <==> Refers(t, j, d, k)
    ensures Refs(u, j) == Refs(t, j)
  {
    hide Refers;
    forall x: (nat, nat) ensures x in Refs(u, j) <==> x in Refs(t, j) {
      RefsAre(u, j, x.0, x.1);
      RefsAre(t, j, x.0, x.1);
    }
  }

  lemma MoreRefs(t: Nodes, u: Nodes, j: nat, d: nat, k: nat)
    requires forall e: nat, l: nat :: Refers(u, j, e, l) <==> Refers(t, j, e, l) || (e == d && l == k)
    requires !Refers(t, j, d, k) && d < |u| && k < |u[d].entries|
    ensures |Refs(u, j)| == |Refs(t, j)| + 1
  {
    hide Refers;
    RefsAre(u, j, d, k);
    forall x: (nat, nat) ensures x in Refs(u, j) <==> x in Refs(t, j) || x == (d, k) {
      RefsAre(u, j, x.0, x.1);
      RefsAre(t, j, x.0, x.1);
    }
    assert Refs(u, j) == Refs(t, j) + {(d, k)};
  }

  lemma FewerRefs(t: Nodes, u: Nodes, j: nat, d: nat, k: nat)
    requires forall e: nat, l: nat :: Refers(u, j, e, l) <==> Refers(t, j, e, l) && !(e == d && l == k)
    requires Refers(t, j, d, k)
    ensures |Refs(u, j)| == |Refs(t, j)| - 1
  {
    RefsAre(t, j, d, k);
    hide Refers;
    forall x: (nat, nat) ensures x in Refs(u, j) <==> x in Refs(t, j) && x != (d, k) {
      RefsAre(u, j, x.0, x.1);
      RefsAre(t, j, x.0, x.1);
    }
    assert Refs(u, j) == Refs(t, j) - {(d, k)};
  }

  // ----- a file gets a name

  /** create of a file, or link: one more entry and one more link. */
  predicate FileAdded(t: Nodes, u: Nodes, d: nat, k: nat, i: nat, name: string) {
    && Added(t, u, d, k, i, name) && u[d].nlink == t[d].nlink
    && !t[i].kind.Dir? && t[i].entries == [] && u[i] == Node(File, t[i].nlink + 1, [])
  }

  lemma FileAddedNodes(t: Nodes, u: Nodes, held: set<nat>, d: nat, k: nat, i: nat, name: string, j: nat)
    requires TreeOK(t, held) && CanPut(t, d, k, name) && FileAdded(t, u, d, k, i, name) && j < |t|
    ensures NodeOK(u, held, j) && DirOK(u, j) && OnceOK(u, j)
  {
    hide Reached, Refs, Find;
    assert NodeOK(t, held, j) && DirOK(t, j) && OnceOK(t, j) && NodeOK(t, held, d) && OnceOK(t, d);
    if j == d {
      AddedDir(t, u, held, d, k, i, name);
    }
  }

  lemma FileAddedEntry(t: Nodes, u: Nodes, held: set<nat>, d: nat, k: nat, i: nat, name: string, e: nat, l: nat)
    requires TreeOK(t, held) && CanPut(t, d, k, name) && FileAdded(t, u, d, k, i, name) && e < |u| && l < |u[e].entries|
    requires Linked(u, e)
    ensures EntryOK(u, e, l)
  {
    hide Reached, Refs, Find, NodeOK, OnceOK;
    assert Linked(t, e);
    if !(e == d && l == k) {
      PutSlot(t[d].entries, k, Entry(i, name), l);
      assert EntryOK(t, e, l) && u[e].entries[l] == t[e].entries[l];
      var j := t[e].entries[l].inum;
      if j != 0 && l >= 2 && t[j].kind.Dir? {
        assert DirOK(t, j);
        PutSlot(t[d].entries, k, Entry(i, name), 1);
      }
    }
  }

  lemma FileAddedRefs(t: Nodes, u: Nodes, held: set<nat>, d: nat, k: nat, i: nat, name: string, j: nat)
    requires TreeOK(t, held) && CanPut(t, d, k, name) && FileAdded(t, u, d, k, i, name) && 0 < j < |t|
    ensures u[j].nlink == |Refs(u, j)|
  {
    hide Reached, Refs, Find, NodeOK, OnceOK, EntryOK;
    assert DirOK(t, d);
    forall e: nat, l: nat ensures Refers(u, j, e, l) <==> Refers(t, j, e, l) || (j == i && e == d && l == k) {
      PutSlot(t[d].entries, k, Entry(i, name), l);
    }
    if j == i {
      MoreRefs(t, u, j, d, k);
    } else {
      SameRefs(t, u, j);
    }
  }

  lemma FileAddedKeeps(t: Nodes, u: Nodes, held: set<nat>, d: nat, k: nat, i: nat, name: string)
    requires TreeOK(t, held) && CanPut(t, d, k, name) && FileAdded(t, u, d, k, i, name)
    ensures TreeOK(u, held)
  {
    hide Reached, Refs, Find, NodeOK, OnceOK, EntryOK, DirOK, Put;
    forall j | 0 <= j < |u| ensures NodeOK(u, held, j) && DirOK(u, j) && OnceOK(u, j) {
      FileAddedNodes(t, u, held, d, k, i, name, j);
    }
    forall e, l | 0 <= e < |u| && 0 <= l < |u[e].entries| && Linked(u, e) ensures EntryOK(u, e, l) {
      FileAddedEntry(t, u, held, d, k, i, name, e, l);
    }
    forall j | 0 < j < |u| ensures u[j].nlink == |Refs(u, j)| {
      FileAddedRefs(t, u, held, d, k, i, name, j);
    }
    AddedExtends(t, u, held, d, k, i, name);
    forall e | Linked(u, e) ensures Reached(u, e) {
      assert Linked(t, e);
      ReachedExtends(t, u, e);
    }
    PutSlot(t[d].entries, k, Entry(i, name), 1);
  }

  // ----- a directory is made

  predicate DirAdded(t: Nodes, u: Nodes, d: nat, k: nat, i: nat, name: string) {
    && Added(t, u, d, k, i, name) && u[d].nlink == t[d].nlink + 1
    && t[i].kind.Free? && i != ROOTINO && u[i] == Node(Dir, 1, [Entry(i, "."), Entry(d, "..")])
  }

  lemma DirAddedNodes(t: Nodes, u: Nodes, held: set<nat>, d: nat, k: nat, i: nat, name: string, j: nat)
    requires TreeOK(t, held) && CanPut(t, d, k, name) && DirAdded(t, u, d, k, i, name) && j < |t|
    ensures NodeOK(u, held, j) && DirOK(u, j)
  {
    hide Reached, Refs, Find;
    assert NodeOK(t, held, j) && DirOK(t, j) && NodeOK(t, held, d) && DirOK(t, d);
    if j == d {
      AddedDir(t, u, held, d, k, i, name);
    }
  }

  /** A free inode is named nowhere. */
  lemma FreeUnnamed(t: Nodes, held: set<nat>, i: nat, e: nat, l: nat)
    requires TreeOK(t, held) && 0 < i < |t| && t[i].nlink == 0 && e < |t| && Linked(t, e) && l < |t[e].entries|
    ensures t[e].entries[l].inum != i
  {
    hide Reached, Refs, Find, NodeOK, OnceOK, DirOK;
    assert EntryOK(t, e, l);
  }

  lemma DirAddedOnce(t: Nodes, u: Nodes, held: set<nat>, d: nat, k: nat, i: nat, name: string, j: nat)
    requires TreeOK(t, held) && CanPut(t, d, k, name) && DirAdded(t, u, d, k, i, name) && j < |t|
    ensures OnceOK(u, j)
  {
    hide Reached, Refs, Find;
    assert OnceOK(t, j) && NodeOK(t, held, i) && NodeOK(t, held, j) && DirOK(t, j);
    forall a, b | 2 <= a < b < |u[j].entries| && NamesDir(u, u[j].entries[a].inum)
      ensures u[j].entries[a].inum != u[j].entries[b].inum
    {
      if j == d {
        if a != k { FreeUnnamed(t, held, i, d, a); }
        if b != k { FreeUnnamed(t, held, i, d, b); }
      } else if j != i && Linked(t, j) {
        FreeUnnamed(t, held, i, j, a);
      }
    }
  }

  lemma DirAddedEntry(t: Nodes, u: Nodes, held: set<nat>, d: nat, k: nat, i: nat, name: string, e: nat, l: nat)
    requires TreeOK(t, held) && CanPut(t, d, k, name) && DirAdded(t, u, d, k, i, name) && e < |u| && l < |u[e].entries|
    requires Linked(u, e)
    ensures EntryOK(u, e, l)
  {
    hide Reached, Refs, Find, NodeOK, OnceOK;
    if e != i && !(e == d && l == k) {
      assert Linked(t, e);
      PutSlot(t[d].entries, k, Entry(i, name), l);
      assert EntryOK(t, e, l) && u[e].entries[l] == t[e].entries[l];
      FreeLink(t, held, i);
      FreeUnnamed(t, held, i, e, l);
      var j := t[e].entries[l].inum;
      if j != 0 && l >= 2 && t[j].kind.Dir? {
        assert DirOK(t, j);
        PutSlot(t[d].entries, k, Entry(i, name), 1);
      }
    }
  }

  lemma FreeLink(t: Nodes, held: set<nat>, i: nat)
    requires TreeOK(t, held) && i < |t| && t[i].kind.Free?
    ensures t[i].nlink == 0 && t[i].entries == []
  {
    hide Reached, Refs, Find, OnceOK, DirOK, EntryOK;
    assert NodeOK(t, held, i);
  }

  lemma DirAddedRefs(t: Nodes, u: Nodes, held: set<nat>, d: nat, k: nat, i: nat, name: string, j: nat)
    requires TreeOK(t, held) && CanPut(t, d, k, name) && DirAdded(t, u, d, k, i, name) && 0 < j < |t|
    ensures u[j].nlink == |Refs(u, j)|
  {
    hide Reached, Refs, Find, NodeOK, OnceOK, EntryOK;
    assert DirOK(t, d);
    FreeLink(t, held, i);
    forall e: nat, l: nat
      ensures Refers(u, j, e, l) <==> Refers(t, j, e, l) || (j == i && e == d && l == k) || (j == d && e == i && l == 1)
    {
      PutSlot(t[d].entries, k, Entry(i, name), l);
    }
    if j == i {
      MoreRefs(t, u, j, d, k);
    } else if j == d {
      MoreRefs(t, u, j, i, 1);
    } else {
      SameRefs(t, u, j);
    }
  }

  lemma DirAddedReached(t: Nodes, u: Nodes, held: set<nat>, d: nat, k: nat, i: nat, name: string)
    requires TreeOK(t, held) && CanPut(t, d, k, name) && DirAdded(t, u, d, k, i, name)
    ensures Reached(u, i)
  {
    hide Refs, NodeOK, OnceOK, EntryOK, Find;
    AddedExtends(t, u, held, d, k, i, name);
    assert Reached(t, d) && DirOK(t, d);
    var path :| Plain(path) && Walk(t, ROOTINO, path) == Some(d);
    WalkExtends(t, u, ROOTINO, path);
    PutFind(t[d].entries, k, Entry(i, name), name);
    var more := path + [name];
    assert more[..|more| - 1] == path;
    assert Plain(more) && Walk(u, ROOTINO, more) == Some(i);
  }

  lemma DirAddedKeeps(t: Nodes, u: Nodes, held: set<nat>, d: nat, k: nat, i: nat, name: string)
    requires TreeOK(t, held) && CanPut(t, d, k, name) && DirAdded(t, u, d, k, i, name)
    ensures TreeOK(u, held)
  {
    hide Reached, Refs, Find, NodeOK, OnceOK, EntryOK, DirOK, Put;
    forall j | 0 <= j < |u| ensures NodeOK(u, held, j) && DirOK(u, j) && OnceOK(u, j) {
      DirAddedNodes(t, u, held, d, k, i, name, j);
      DirAddedOnce(t, u, held, d, k, i, name, j);
    }
    forall e, l | 0 <= e < |u| && 0 <= l < |u[e].entries| && Linked(u, e) ensures EntryOK(u, e, l) {
      DirAddedEntry(t, u, held, d, k, i, name, e, l);
    }
    forall j | 0 < j < |u| ensures u[j].nlink == |Refs(u, j)| {
      DirAddedRefs(t, u, held, d, k, i, name, j);
    }
    AddedExtends(t, u, held, d, k, i, name);
    DirAddedReached(t, u, held, d, k, i, name);
    forall e | Linked(u, e) ensures Reached(u, e) {
      if e != i {
        assert Linked(t, e);
        ReachedExtends(t, u, e);
      }
    }
    PutSlot(t[d].entries, k, Entry(i, name), 1);
  }

  // ----- an entry is removed

  function Clear(es: seq<Entry>, k: nat): seq<Entry>
    requires k < |es|
  {
    es[k := Entry(0, "")]
  }

  /** iput of an inode with n links: without links and references it is freed. */
  function Dropped(node: Node, n: nat, referenced: bool): Node {
    if n == 0 && !referenced then Node(Kind.Free, 0, []) else node.(nlink := n)
  }

  predicate Empty(es: seq<Entry>) {
    forall k :: 2 <= k < |es| ==> es[k].inum == 0
  }

  /** unlink of entry k of directory d, which names inode i. */
  predicate Removed(t: Nodes, u: Nodes, held: set<nat>, d: nat, k: nat, i: nat) {
    && |u| == |t| && Linked(t, d) && 2 <= k < |t[d].entries| && t[d].entries[k].inum == i && 0 < i < |t| && i != d
    && t[i].nlink > 0
    && u[d].kind == t[d].kind && u[d].entries == Clear(t[d].entries, k)
    && u[d].nlink == (if t[i].kind.Dir? then t[d].nlink - 1 else t[d].nlink)
    && (t[i].kind.Dir? ==> Empty(t[i].entries))
    && u[i] == Dropped(t[i], t[i].nlink - 1, i in held)
    && (forall j :: 0 <= j < |t| && j != d && j != i ==> u[j] == t[j])
  }

  /** Everything that names an empty directory is the entry in its parent. */
  lemma EmptyNamedOnce(t: Nodes, held: set<nat>, d: nat, k: nat, i: nat, e: nat, l: nat)
    requires TreeOK(t, held) && Linked(t, d) && 2 <= k < |t[d].entries| && t[d].entries[k].inum == i && 0 < i < |t|
    requires t[i].kind.Dir? && Empty(t[i].entries) && Refers(t, i, e, l)
    ensures e == d && l == k
  {
    hide Reached, Refs, Find, NodeOK;
    assert EntryOK(t, d, k) && EntryOK(t, e, l) && OnceOK(t, d) && DirOK(t, e);
    if l == 1 {
      if e == ROOTINO {
        assert false;
      } else {
        var p, s := ParentEntry(t, held, e);
      }
    }
  }

  /** So it has exactly one link. */
  lemma EmptyOneLink(t: Nodes, held: set<nat>, d: nat, k: nat, i: nat)
    requires TreeOK(t, held) && Linked(t, d) && 2 <= k < |t[d].entries| && t[d].entries[k].inum == i && 0 < i < |t|
    requires t[i].kind.Dir? && Empty(t[i].entries)
    ensures t[i].nlink == 1
  {
    hide Reached, Find, NodeOK, OnceOK, DirOK, EntryOK, Refs;
    forall x: (nat, nat) ensures x in Refs(t, i) <==> x == (d, k) {
      RefsAre(t, i, x.0, x.1);
      if x in Refs(t, i) {
        EmptyNamedOnce(t, held, d, k, i, x.0, x.1);
      }
    }
    assert Refs(t, i) == {(d, k)};
  }

  lemma RemovedRefs(t: Nodes, u: Nodes, held: set<nat>, d: nat, k: nat, i: nat, j: nat)
    requires TreeOK(t, held) && Removed(t, u, held, d, k, i) && u[d].nlink > 0 && 0 < j < |t|
    ensures u[j].nlink == |Refs(u, j)|
  {
    hide Reached, Refs, Find, NodeOK, OnceOK;
    assert EntryOK(t, d, k) && DirOK(t, i);
    if t[i].kind.Dir? {
      EmptyOneLink(t, held, d, k, i);
    }
    forall e: nat, l: nat
      ensures Refers(u, j, e, l) <==>
        Refers(t, j, e, l) && !(j == i && e == d && l == k) && !(t[i].kind.Dir? && j == d && e == i && l == 1)
    {
      if e == i && t[i].kind.Dir? && l >= 1 {
        assert l < |t[i].entries| ==> l == 1 || t[i].entries[l].inum == 0;
      }
    }
    if j == i {
      FewerRefs(t, u, j, d, k);
    } else if j == d && t[i].kind.Dir? {
      FewerRefs(t, u, j, i, 1);
    } else {
      SameRefs(t, u, j);
    }
  }

  /** The parent keeps a link: the one it is reached by. */
  lemma ParentStays(t: Nodes, held: set<nat>, d: nat, k: nat, i: nat)
    requires TreeOK(t, held) && Linked(t, d) && 2 <= k < |t[d].entries| && t[d].entries[k].inum == i && 0 < i < |t|
    requires t[i].kind.Dir? && t[i].nlink > 0
    ensures t[d].nlink > 1
  {
    hide Reached, Refs, Find, NodeOK, OnceOK;
    assert EntryOK(t, d, k) && DirOK(t, i) && DirOK(t, d);
    var p, s := ROOTINO, 1;
    if d != ROOTINO {
      p, s := ParentEntry(t, held, d);
    }
    assert Refers(t, d, p, s) && Refers(t, d, i, 1);
    RefsAre(t, d, p, s);
    RefsAre(t, d, i, 1);
    assert (p, s) != (i, 1);
    TwoMembers(Refs(t, d), (p, s), (i, 1));
  }

  lemma TwoMembers(s: set<(nat, nat)>, x: (nat, nat), y: (nat, nat))
    requires x in s && y in s && x != y
    ensures |s| > 1
  {
    assert {x, y} <= s;
    assert |{x, y}| == 2;
    Smaller({x, y}, s);
  }

  lemma {:induction false} Smaller(a: set<(nat, nat)>, b: set<(nat, nat)>)
    requires a <= b
    ensures |a| <= |b|
    decreases a
  {
    if a != {} {
      var x :| x in a;
      Smaller(a - {x}, b - {x});
    }
  }

  lemma RemovedNodes(t: Nodes, u: Nodes, held: set<nat>, d: nat, k: nat, i: nat, j: nat)
    requires TreeOK(t, held) && Removed(t, u, held, d, k, i) && u[d].nlink > 0 && j < |t|
    ensures NodeOK(u, held, j) && DirOK(u, j) && OnceOK(u, j)
  {
    hide Reached, Refs, Find;
    assert NodeOK(t, held, j) && DirOK(t, j) && OnceOK(t, j) && NodeOK(t, held, i);
    assert NodeOK(t, held, d) && DirOK(t, d) && OnceOK(t, d);
  }

  lemma RemovedEntry(t: Nodes, u: Nodes, held: set<nat>, d: nat, k: nat, i: nat, e: nat, l: nat)
    requires TreeOK(t, held) && Removed(t, u, held, d, k, i) && u[d].nlink > 0 && u[i].nlink == |Refs(u, i)|
    requires e < |u| && l < |u[e].entries| && Linked(u, e)
    ensures EntryOK(u, e, l)
  {
    hide Reached, Refs, Find, NodeOK, OnceOK;
    assert Linked(t, e) && EntryOK(t, e, l) && DirOK(t, e);
    var j := u[e].entries[l].inum;
    if j == i && l >= 1 {
      RefsAre(u, i, e, l);
      assert Refers(u, i, e, l);
    }
    if j != 0 && l >= 2 && t[j].kind.Dir? {
      assert DirOK(t, j);
    }
  }

  /** Paths to directories that stay do not use the entry. */
  lemma {:induction false} WalkRemoved(t: Nodes, u: Nodes, held: set<nat>, d: nat, k: nat, i: nat, path: seq<string>)
    requires TreeOK(t, held) && Removed(t, u, held, d, k, i) && Plain(path)
    requires Walk(t, ROOTINO, path).Some? && Linked(t, Walk(t, ROOTINO, path).value)
    requires t[i].kind.Dir? ==> Walk(t, ROOTINO, path).value != i
    ensures Walk(u, ROOTINO, path) == Walk(t, ROOTINO, path)
    decreases |path|
  {
    hide Reached, Refs, NodeOK, OnceOK, Find;
    if path != [] {
      var some, name := path[..|path| - 1], path[|path| - 1];
      WalkLinked(t, held, some);
      var e := Walk(t, ROOTINO, some).value;
      var l := Find(t[e].entries, name).value;
      assert DirOK(t, e) && EntryOK(t, d, k);
      assert l >= 2;
      WalkRemoved(t, u, held, d, k, i, some);
      if e == d {
        ClearFind(t[d].entries, k, l);
      }
    }
  }

  lemma ClearFind(es: seq<Entry>, k: nat, l: nat)
    requires Distinct(es) && k < |es| && l < |es| && l != k && es[l].inum != 0
    ensures Find(Clear(es, k), es[l].name) == Some(l)
  {
    FindSlot(Clear(es, k), l);
  }

  lemma RemovedReached(t: Nodes, u: Nodes, held: set<nat>, d: nat, k: nat, i: nat, e: nat)
    requires TreeOK(t, held) && Removed(t, u, held, d, k, i) && Linked(t, e) && (t[i].kind.Dir? ==> e != i)
    ensures Reached(u, e)
  {
    hide Refs, NodeOK, OnceOK, Find, EntryOK, DirOK;
    assert Reached(t, e);
    var path :| Plain(path) && Walk(t, ROOTINO, path) == Some(e);
    WalkRemoved(t, u, held, d, k, i, path);
  }

  lemma RemovedKeeps(t: Nodes, u: Nodes, held: set<nat>, d: nat, k: nat, i: nat)
    requires TreeOK(t, held) && Removed(t, u, held, d, k, i)
    ensures TreeOK(u, held)
  {
    hide Reached, Refs, Find, NodeOK, OnceOK, EntryOK, DirOK;
    RemovedRoot(t, held, d, k, i);
    if t[i].kind.Dir? {
      ParentStays(t, held, d, k, i);
      EmptyOneLink(t, held, d, k, i);
    }
    forall j | 0 < j < |u| ensures u[j].nlink == |Refs(u, j)| {
      RemovedRefs(t, u, held, d, k, i, j);
    }
    forall j | 0 <= j < |u| ensures NodeOK(u, held, j) && DirOK(u, j) && OnceOK(u, j) {
      RemovedNodes(t, u, held, d, k, i, j);
    }
    forall e, l | 0 <= e < |u| && 0 <= l < |u[e].entries| && Linked(u, e) ensures EntryOK(u, e, l) {
      RemovedEntry(t, u, held, d, k, i, e, l);
    }
    forall e | Linked(u, e) ensures Reached(u, e) {
      RemovedReached(t, u, held, d, k, i, e);
    }
  }

  lemma RemovedRoot(t: Nodes, held: set<nat>, d: nat, k: nat, i: nat)
    requires TreeOK(t, held) && Linked(t, d) && 2 <= k < |t[d].entries| && t[d].entries[k].inum == i && 0 < i < |t|
    ensures i != ROOTINO
  {
    assert EntryOK(t, d, k);
  }
}
