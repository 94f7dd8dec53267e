/** sysfile.c and the directory part of fs.c: lookup, link, unlink and create over a table of
    inodes that are changed in place.  Each system call is one step. */
module SysFile {
  import opened Machine
  import opened Directories

  // ----- path names

  /** The end of the run of characters from s on that are slashes, or that are not. */
  function RunEnd(path: string, s: nat, slash: bool): (e: nat)
    requires s <= |path|
    ensures s <= e <= |path| && (e < |path| ==> (path[e] == '/') != slash)
    ensures s < |path| && (path[s] == '/') == slash ==> s < e
    decreases |path| - s
  {
    if s < |path| && (path[s] == '/') == slash then RunEnd(path, s + 1, slash) else s
  }

  /** The elements of a path from position s on, each cut to what an entry can hold. */
  function Elements(path: string, s: nat): seq<string>
    requires s <= |path|
    decreases |path| - s
  {
    var a := RunEnd(path, s, true);
    if a == |path| then []
    else
      var b := RunEnd(path, a, false);
      [Canon(path[a..b])] + Elements(path, b)
  }

  /** skipelem: the next element and where the one after it starts. */
  method SkipElem(path: string, s: nat) returns (found: bool, name: string, next: nat)
    requires s <= |path|
    ensures s <= next <= |path| && (found <==> Elements(path, s) != [])
    ensures found ==> |name| <= DIRSIZ && s < next && Elements(path, s) == [name] + Elements(path, next)
    ensures found ==> (next == |path| <==> Elements(path, next) == [])
  {
    hide RunEnd;
    var a := SkipRun(path, s, true);
    if a == |path| {
      return false, "", a;
    }
    var b := SkipRun(path, a, false);
    name := if b - a >= DIRSIZ then path[a..a + DIRSIZ] else path[a..b];
    assert name == Canon(path[a..b]);
    next := SkipRun(path, b, true);
    RunTwice(path, b);
    return true, name, next;
  }

  /** The loops of skipelem: over slashes, or over anything else. */
  method SkipRun(path: string, s: nat, slash: bool) returns (e: nat)
    requires s <= |path|
    ensures e == RunEnd(path, s, slash)
  {
    e := s;
    while e < |path| && (path[e] == '/') == slash
      invariant s <= e <= |path| && RunEnd(path, e, slash) == RunEnd(path, s, slash)
    {
      e := e + 1;
    }
  }

  lemma RunTwice(path: string, s: nat)
    requires s <= |path|
    ensures Elements(path, RunEnd(path, s, true)) == Elements(path, s)
    ensures RunEnd(path, s, true) == |path| <==> Elements(path, s) == []
  {
  }

  /** Walking through a linked directory stays among linked inodes, dots or not. */
  lemma {:induction false} WalkStaysLinked(t: Nodes, held: set<nat>, i: nat, path: seq<string>)
    requires TreeOK(t, held) && i < |t| && t[i].nlink > 0 && Walk(t, i, path).Some?
    ensures var x := Walk(t, i, path).value; 0 < x < |t| && t[x].nlink > 0
    decreases |path|
  {
    hide Reached, Refs, OnceOK, DirOK;
    if path != [] {
      WalkStaysLinked(t, held, i, path[..|path| - 1]);
      var d := Walk(t, i, path[..|path| - 1]).value;
      assert EntryOK(t, d, Find(t[d].entries, path[|path| - 1]).value);
    } else {
      assert NodeOK(t, held, 0);
    }
  }

  lemma WalkStep(t: Nodes, i: nat, path: seq<string>, name: string)
    ensures Walk(t, i, path + [name]) ==
      match Walk(t, i, path)
      case None => None
      case Some(d) =>
        if d < |t| && t[d].kind.Dir? && Find(t[d].entries, name).Some?
        then Some(t[d].entries[Find(t[d].entries, name).value].inum) else None
  {
    var more := path + [name];
    assert more[..|more| - 1] == path;
  }

  lemma {:induction false} WalkStuck(t: Nodes, i: nat, path: seq<string>, rest: seq<string>)
    requires Walk(t, i, path).None?
    ensures Walk(t, i, path + rest).None?
    decreases |rest|
  {
    if rest == [] {
      assert path + rest == path;
    } else {
      WalkStuck(t, i, path, rest[..|rest| - 1]);
      WalkStep(t, i, path + rest[..|rest| - 1], rest[|rest| - 1]);
      assert path + rest == path + rest[..|rest| - 1] + [rest[|rest| - 1]];
    }
  }

  /** nameiparent on elements: the directory that holds, or could hold, the last one. */
  function ParentOf(t: Nodes, start: nat, es: seq<string>): Option<nat> {
    if es == [] then None
    else
      var d := Walk(t, start, es[..|es| - 1]);
      if d.Some? && d.value < |t| && t[d.value].kind.Dir? then d else None
  }

  lemma ParentStuck(t: Nodes, start: nat, done: seq<string>, name: string, rest: seq<string>)
    requires Walk(t, start, done).Some? && Walk(t, start, done + [name]).None?
    requires rest != [] || Walk(t, start, done).value >= |t| || !t[Walk(t, start, done).value].kind.Dir?
    ensures ParentOf(t, start, done + [name] + rest).None?
  {
    hide Walk;
    var es := done + [name] + rest;
    if rest == [] {
      assert es[..|es| - 1] == done;
    } else {
      WalkStuck(t, start, done + [name], rest[..|rest| - 1]);
      assert es[..|es| - 1] == done + [name] + rest[..|rest| - 1];
    }
  }

  lemma WalkNothing(t: Nodes, i: nat)
    requires i < |t|
    ensures Walk(t, i, []) == Some(i)
  {
  }

  datatype Event =
    | Make(cwd: nat, path: string, kind: Kind)
    | Remove(cwd: nat, path: string)
    | Name(cwd: nat, oldPath: string, newPath: string)
    | Take(i: nat)
    | Give(i: nat)

  datatype CreateResult = Existing(i: nat) | Refused | Made(i: nat) | NoInodes

  predicate FirstFree(t: Nodes, i: nat) {
    1 <= i < |t| && t[i].kind.Free? && forall j :: 1 <= j < i ==> !t[j].kind.Free?
  }

  /** The answer of create, given the directory nameiparent finds and the inode the path names
      already: an existing file is opened, anything else in the way refuses, a missing name is
      made from the first free inode. */
  predicate Creates(t: Nodes, parent: Option<nat>, target: Option<nat>, kind: Kind, r: CreateResult) {
    match r
    case Refused =>
      parent.None? || (target.Some? && !(kind.File? && target.value < |t| && t[target.value].kind.File?))
    case Existing(i) => parent.Some? && target == Some(i) && kind.File? && i < |t| && t[i].kind.File?
    case NoInodes => parent.Some? && target.None? && forall i :: 1 <= i < |t| ==> !t[i].kind.Free?
    case Made(i) => parent.Some? && target.None? && FirstFree(t, i)
  }

  /** What an entry of a directory names. */
  function Named(t: Nodes, d: nat, name: string): Option<nat>
    requires d < |t|
  {
    if Find(t[d].entries, name).Some? then Some(t[d].entries[Find(t[d].entries, name).value].inum) else None
  }

  /** unlink succeeds: the path names something by a name other than a dot, and that is not a
      directory with entries of its own. */
  predicate Unlinks(t: Nodes, start: nat, es: seq<string>) {
    && ParentOf(t, start, es).Some? && !IsDot(es[|es| - 1])
    && var i := Walk(t, start, es);
      i.Some? && i.value < |t| && (t[i.value].kind.Dir? ==> Empty(t[i.value].entries))
  }

  /** link succeeds: the old path names something that is no directory, and the new path names
      nothing yet in a directory that exists. */
  predicate Links(t: Nodes, start: nat, es: seq<string>, start': nat, es': seq<string>) {
    && ParentOf(t, start', es').Some? && Walk(t, start', es').None?
    && var i := Walk(t, start, es);
      i.Some? && i.value < |t| && !t[i.value].kind.Dir?
  }

  /** The last element of a path has been entered for inode i in the directory of the path. */
  ghost predicate Enters(t: Nodes, u: Nodes, start: nat, es: seq<string>, i: nat, kind: Kind) {
    var d := ParentOf(t, start, es);
    d.Some? &&
    var name := es[|es| - 1];
    exists k: nat :: Entered(t, u, d.value, k, i, name, kind)
  }

  predicate Entered(t: Nodes, u: Nodes, d: nat, k: nat, i: nat, name: string, kind: Kind) {
    EntryFits(t, d, k, name) && if kind.Dir? then DirAdded(t, u, d, k, i, name) else FileAdded(t, u, d, k, i, name)
  }

  /** The entry a path ends in has been removed. */
  ghost predicate Leaves(t: Nodes, u: Nodes, held: set<nat>, start: nat, es: seq<string>) {
    var d, i := ParentOf(t, start, es), Walk(t, start, es);
    && d.Some? && i.Some? && d.value < |t|
    && exists k :: Find(t[d.value].entries, es[|es| - 1]) == Some(k) && Removed(t, u, held, d.value, k, i.value)
  }

  /** Where a path starts. */
  function Start(cwd: nat, path: string): nat {
    if path != "" && path[0] == '/' then ROOTINO else cwd
  }

  /** What each event does to the inodes and to the references. */
  ghost predicate Steps(t: Nodes, held: set<nat>, e: Event, u: Nodes, held': set<nat>) {
    match e
    case Make(cwd, path, kind) =>
      var start, es := Start(cwd, path), Elements(path, 0);
      && held' == held
      && if Linked(t, cwd) && (kind.File? || kind.Dir?) && ParentOf(t, start, es).Some? && Walk(t, start, es).None? &&
           exists i: nat :: FirstFree(t, i)
         then exists i: nat :: FirstFree(t, i) && Enters(t, u, start, es, i, kind)
         else u == t
    case Remove(cwd, path) =>
      var start, es := Start(cwd, path), Elements(path, 0);
      && held' == held
      && if Linked(t, cwd) && Unlinks(t, start, es) then Leaves(t, u, held, start, es) else u == t
    case Name(cwd, oldPath, newPath) =>
      var start, es := Start(cwd, oldPath), Elements(oldPath, 0);
      var start', es' := Start(cwd, newPath), Elements(newPath, 0);
      && held' == held
      && if Linked(t, cwd) && Links(t, start, es, start', es')
         then Enters(t, u, start', es', Walk(t, start, es).value, File) else u == t
    case Take(i) => u == t && held' == if i < |t| && !t[i].kind.Free? then held + {i} else held
    case Give(i) =>
      if i in held && i < |t| then u == t[i := Dropped(t[i], t[i].nlink, false)] && held' == held - {i}
      else u == t && held' == held
  }

  lemma WalkNamed(t: Nodes, start: nat, es: seq<string>, d: nat)
    requires ParentOf(t, start, es) == Some(d)
    ensures d < |t| && Walk(t, start, es) == Named(t, d, es[|es| - 1])
  {
    assert es == es[..|es| - 1] + [es[|es| - 1]];
  }

  class Tree {
    const nodes: array<Node>
    /** Inodes with references beside the running call: open files, working directories. */
    var held: set<nat>

    ghost predicate Valid()
      reads this, nodes
    {
      TreeOK(nodes[..], held)
    }

    /** The tree mkfs leaves when it is given no files. */
    constructor (ninodes: nat)
      requires ROOTINO < ninodes
      ensures Valid() && fresh(nodes) && nodes.Length == ninodes && held == {}
      ensures nodes[ROOTINO] == Node(Dir, 1, [Entry(ROOTINO, "."), Entry(ROOTINO, "..")])
      ensures forall i :: 0 <= i < ninodes && i != ROOTINO ==> nodes[i].kind.Free?
    {
      nodes := new Node[ninodes](i =>
        if i == ROOTINO then Node(Dir, 1, [Entry(ROOTINO, "."), Entry(ROOTINO, "..")]) else Node(Kind.Free, 0, []));
      held := {};
      new;
      NewTree(nodes[..]);
    }

    /** dirlookup: the slot of the entry. */
    method DirLookup(dp: nat, name: string) returns (r: Option<nat>)
      requires dp < nodes.Length && nodes[dp].kind.Dir?
      ensures r == Find(nodes[dp].entries, Canon(name))
    {
      var es := nodes[dp].entries;
      for k := 0 to |es|
        invariant forall l :: 0 <= l < k ==> es[l].inum == 0 || es[l].name != Canon(name)
      {
        if es[k].inum != 0 && es[k].name == Canon(name) {
          return Some(k);
        }
      }
      return None;
    }

    /** dirlink; false if the name is present. */
    method DirLink(dp: nat, name: string, inum: nat) returns (ok: bool, ghost slot: nat)
      requires dp < nodes.Length && nodes[dp].kind.Dir?
      modifies nodes
      ensures ok <==> Find(old(nodes[dp].entries), Canon(name)).None?
      ensures !ok ==> nodes[..] == old(nodes[..])
      ensures ok ==> slot <= |old(nodes[dp].entries)|
      ensures ok ==> (slot < |old(nodes[dp].entries)| ==> old(nodes[dp].entries)[slot].inum == 0)
      ensures ok ==> forall l :: 0 <= l < slot ==> old(nodes[dp].entries)[l].inum != 0
      ensures ok ==>
        var es := Put(old(nodes[dp].entries), slot, Entry(inum, Canon(name)));
        nodes[..] == old(nodes[..])[dp := old(nodes[dp]).(entries := es)]
    {
      ghost var was := nodes[..];
      slot := 0;
      var found := DirLookup(dp, name);
      if found.Some? {
        return false, 0;
      }
      var es := nodes[dp].entries;
      var k := 0;
      while k < |es| && es[k].inum != 0
        invariant 0 <= k <= |es| && forall l :: 0 <= l < k ==> es[l].inum != 0
      {
        k := k + 1;
      }
      nodes[dp] := nodes[dp].(entries := Put(es, k, Entry(inum, Canon(name))));
      assert nodes[..] == was[dp := was[dp].(entries := Put(es, k, Entry(inum, Canon(name))))];
      return true, k;
    }

    /** isdirempty. */
    method IsDirEmpty(dp: nat) returns (empty: bool)
      requires dp < nodes.Length
      ensures empty <==> Empty(nodes[dp].entries)
    {
      var es := nodes[dp].entries;
      var k := 2;
      while k < |es|
        invariant 2 <= k && forall l :: 2 <= l < k && l < |es| ==> es[l].inum == 0
      {
        if es[k].inum != 0 {
          return false;
        }
        k := k + 1;
      }
      return true;
    }

    /** ialloc: the first free inode; None is "ialloc: no inodes". */
    method IAlloc(kind: Kind) returns (r: Option<nat>)
      modifies nodes
      ensures r.None? ==> nodes[..] == old(nodes[..]) && forall i :: 1 <= i < nodes.Length ==> !nodes[i].kind.Free?
      ensures r.Some? ==> FirstFree(old(nodes[..]), r.value)
      ensures r.Some? ==> nodes[..] == old(nodes[..])[r.value := Node(kind, 0, [])]
    {
      ghost var was := nodes[..];
      var i := 1;
      while i < nodes.Length
        invariant 1 <= i && nodes[..] == was && forall j :: 1 <= j < i && j < nodes.Length ==> !nodes[j].kind.Free?
      {
        if nodes[i].kind.Free? {
          nodes[i] := Node(kind, 0, []);
          assert nodes[..] == was[i := Node(kind, 0, [])];
          return Some(i);
        }
        i := i + 1;
      }
      return None;
    }

    /** create in directory dp, which need not be linked any more: then the tree is broken
        exactly if something is made. */
    method Create(dp: nat, name: string, kind: Kind) returns (r: CreateResult, ghost k: nat)
      requires Valid() && dp < nodes.Length && nodes[dp].kind.Dir? && (kind.File? || kind.Dir?)
      requires nodes[dp].nlink == 0 ==> !IsDot(Canon(name))
      modifies nodes
      ensures Valid() <==> !r.Made? || Linked(old(nodes[..]), dp)
      ensures !r.Made? ==> nodes[..] == old(nodes[..])
      ensures Creates(old(nodes[..]), Some(dp), Named(old(nodes[..]), dp, Canon(name)), kind, r)
      ensures r.Made? ==> EntryFits(old(nodes[..]), dp, k, Canon(name)) && 0 < r.i < nodes.Length
      ensures r.Made? ==> old(nodes[..])[r.i].kind.Free?
      ensures r.Made? && kind.File? ==> FileAdded(old(nodes[..]), nodes[..], dp, k, r.i, Canon(name))
      ensures r.Made? && kind.Dir? ==> DirAdded(old(nodes[..]), nodes[..], dp, k, r.i, Canon(name))
    {
      hide TreeOK, Find;
      ghost var t := nodes[..];
      k := 0;
      var found := DirLookup(dp, name);
      if found.Some? {
        if nodes[dp].nlink == 0 {
          OrphanEmpty(t, held, dp, Canon(name));
        }
        EntryNamed(t, held, dp, Canon(name));
        var i := nodes[dp].entries[found.value].inum;
        if kind.File? && nodes[i].kind.File? {
          return Existing(i), 0;
        }
        return Refused, 0;
      }
      var a := IAlloc(kind);
      if a.None? {
        return NoInodes, 0;
      }
      var i := a.value;
      FreshInode(t, held, dp, i);
      nodes[i] := Node(kind, 1, []);
      if kind.Dir? {
        nodes[dp] := nodes[dp].(nlink := nodes[dp].nlink + 1);
        MakeDots(i, dp);
      }
      var ok;
      ok, k := DirLink(dp, name, i);
      FirstEmpty(t, held, dp, k, name);
      LinkedParentNeeded(t, nodes[..], held, dp, k, i, Canon(name));
      return Made(i), k;
    }

    /** The two entries of a new directory. */
    method MakeDots(i: nat, dp: nat)
      requires i < nodes.Length && nodes[i].kind.Dir? && nodes[i].entries == [] && i != 0
      modifies nodes
      ensures nodes[..] == old(nodes[..])[i := old(nodes[i]).(entries := [Entry(i, "."), Entry(dp, "..")])]
    {
      hide Find, Canon;
      ghost var t := nodes[..];
      DotNames(i);
      var ok, k := DirLink(i, ".", i);
      assert nodes[i].entries == [Entry(i, ".")];
      ok, k := DirLink(i, "..", dp);
      assert nodes[i].entries == [Entry(i, "."), Entry(dp, "..")];
      assert nodes[..] == t[i := t[i].(entries := [Entry(i, "."), Entry(dp, "..")])];
    }

    /** link of inode i as name in directory dp; dp is None when the new path has no parent.  On
        every failure the count that was raised is lowered again. */
    method Link(i: nat, dp: Option<nat>, name: string) returns (ok: bool, ghost k: nat)
      requires Valid() && 0 < i < nodes.Length && nodes[i].nlink > 0 && (dp.Some? ==> Linked(nodes[..], dp.value))
      modifies nodes
      ensures Valid()
      ensures ok <==> !old(nodes[i].kind.Dir?) && dp.Some? && Find(old(nodes[dp.value].entries), Canon(name)).None?
      ensures !ok ==> nodes[..] == old(nodes[..])
      ensures ok ==> CanPut(old(nodes[..]), dp.value, k, Canon(name))
      ensures ok ==> FileAdded(old(nodes[..]), nodes[..], dp.value, k, i, Canon(name))
    {
      hide TreeOK, Find;
      ghost var t := nodes[..];
      k := 0;
      if nodes[i].kind.Dir? {
        return false, 0;
      }
      FileShape(t, held, i);
      nodes[i] := nodes[i].(nlink := nodes[i].nlink + 1);
      ok := false;
      if dp.Some? {
        ok, k := DirLink(dp.value, name, i);
      }
      if !ok {
        nodes[i] := nodes[i].(nlink := nodes[i].nlink - 1);
        assert nodes[..] == t;
        return;
      }
      FirstEmpty(t, held, dp.value, k, name);
      FileAddedKeeps(t, nodes[..], held, dp.value, k, i, Canon(name));
    }

    /** unlink of name in directory dp. */
    method Unlink(dp: nat, name: string) returns (ok: bool, ghost k: nat, ghost i: nat)
      requires Valid() && Linked(nodes[..], dp)
      modifies nodes
      ensures Valid()
      ensures !ok ==> nodes[..] == old(nodes[..])
      ensures ok <==> !IsDot(Canon(name)) && Removable(old(nodes[..]), dp, Find(old(nodes[dp].entries), Canon(name)))
      ensures ok ==>
        Find(old(nodes[dp].entries), Canon(name)) == Some(k) && Removed(old(nodes[..]), nodes[..], held, dp, k, i)
    {
      hide TreeOK, Find;
      ghost var t := nodes[..];
      k, i := 0, 0;
      if Canon(name) == "." || Canon(name) == ".." {
        return false, 0, 0;
      }
      var found := DirLookup(dp, name);
      if found.None? {
        return false, 0, 0;
      }
      EntryNamed(t, held, dp, Canon(name));
      var slot := found.value;
      var ip := nodes[dp].entries[slot].inum;
      k, i := slot, ip;
      var isDir := nodes[ip].kind.Dir?;
      if isDir {
        var empty := IsDirEmpty(ip);
        if !empty {
          return false, 0, 0;
        }
        ParentStays(t, held, dp, slot, ip);
      }
      nodes[dp] := nodes[dp].(entries := Clear(nodes[dp].entries, slot));
      if isDir {
        nodes[dp] := nodes[dp].(nlink := nodes[dp].nlink - 1);
      }
      nodes[ip] := nodes[ip].(nlink := nodes[ip].nlink - 1);
      Iput(ip);
      RemovedKeeps(t, nodes[..], held, dp, slot, ip);
      ok := true;
    }

    /** namex: the inode of a path, or of the directory its last element is in. */
    method Namex(start: nat, path: string, parent: bool) returns (r: Option<nat>, name: string)
      requires Valid() && start < nodes.Length && nodes[start].nlink > 0
      ensures !parent ==> r == Walk(nodes[..], start, Elements(path, 0))
      ensures parent ==> r == ParentOf(nodes[..], start, Elements(path, 0))
      ensures parent && r.Some? ==> Elements(path, 0) != [] && name == Elements(path, 0)[|Elements(path, 0)| - 1]
    {
      hide TreeOK, Find, Walk, Elements;
      ghost var t, es := nodes[..], Elements(path, 0);
      ghost var done: seq<string> := [];
      var ip, s, found := start, 0, true;
      name := "";
      WalkNothing(t, start);
      while true
        invariant s <= |path| && es == done + Elements(path, s) && Walk(t, start, done) == Some(ip)
        invariant parent && done != [] ==> Elements(path, s) != []
        decreases |path| - s
      {
        WalkStaysLinked(t, held, start, done);
        var next;
        found, name, next := SkipElem(path, s);
        if !found {
          assert es == done;
          if parent {
            return None, name;
          }
          return Some(ip), name;
        }
        ghost var rest := Elements(path, next);
        assert es == done + [name] + rest;
        WalkStep(t, start, done, name);
        if nodes[ip].kind != Dir {
          WalkStuck(t, start, done + [name], rest);
          ParentStuck(t, start, done, name, rest);
          return None, name;
        }
        assert Canon(name) == name;
        if parent && next == |path| {
          assert es == done + [name];
          assert es[..|es| - 1] == done;
          return Some(ip), name;
        }
        var slot := DirLookup(ip, name);
        if slot.None? {
          WalkStuck(t, start, done + [name], rest);
          if parent {
            ParentStuck(t, start, done, name, rest);
          }
          return None, name;
        }
        ip, s, done := nodes[ip].entries[slot.value].inum, next, done + [name];
      }
    }

    predicate IsLinkedDir(d: nat)
      reads nodes
    {
      d < nodes.Length && nodes[d].kind.Dir? && nodes[d].nlink > 0
    }

    /** sys_open with O_CREATE, and sys_mkdir, up to the inode. */
    method SysCreate(cwd: nat, path: string, kind: Kind) returns (r: CreateResult)
      requires Valid() && IsLinkedDir(cwd) && (kind.File? || kind.Dir?)
      modifies nodes
      ensures Valid() && (!r.Made? ==> nodes[..] == old(nodes[..]))
      ensures var t, es, start := old(nodes[..]), Elements(path, 0), Start(cwd, path);
        Creates(t, ParentOf(t, start, es), Walk(t, start, es), kind, r)
      ensures r.Made? ==> Walk(nodes[..], Start(cwd, path), Elements(path, 0)) == Some(r.i)
      ensures r.Made? ==> Enters(old(nodes[..]), nodes[..], Start(cwd, path), Elements(path, 0), r.i, kind)
    {
      hide TreeOK, Elements, Find;
      ghost var t, es := nodes[..], Elements(path, 0);
      RootLinked(t, held);
      var dp, name := Namex(Start(cwd, path), path, true);
      if dp.None? {
        return Refused;
      }
      ParentLinked(t, held, Start(cwd, path), es);
      ElementCanon(path, 0);
      WalkNamed(t, Start(cwd, path), es, dp.value);
      ghost var k;
      r, k := Create(dp.value, name, kind);
      if r.Made? {
        assert Entered(t, nodes[..], dp.value, k, r.i, name, kind);
        NewName(t, nodes[..], held, Start(cwd, path), es, dp.value, k, r.i, name);
      }
    }

    method SysUnlink(cwd: nat, path: string) returns (ok: bool)
      requires Valid() && IsLinkedDir(cwd)
      modifies nodes
      ensures Valid() && (!ok ==> nodes[..] == old(nodes[..]))
      ensures ok <==> Unlinks(old(nodes[..]), Start(cwd, path), Elements(path, 0))
      ensures ok ==> Walk(nodes[..], Start(cwd, path), Elements(path, 0)).None?
      ensures ok ==> Leaves(old(nodes[..]), nodes[..], held, Start(cwd, path), Elements(path, 0))
    {
      hide TreeOK, Elements, Find, Walk;
      ghost var t, es := nodes[..], Elements(path, 0);
      RootLinked(t, held);
      var dp, name := Namex(Start(cwd, path), path, true);
      if dp.None? {
        return false;
      }
      ParentLinked(t, held, Start(cwd, path), es);
      ElementCanon(path, 0);
      WalkNamed(t, Start(cwd, path), es, dp.value);
      ghost var k, i;
      ok, k, i := Unlink(dp.value, name);
      if ok {
        GoneName(t, nodes[..], held, Start(cwd, path), es, dp.value, k, i, name);
      }
    }

    method SysLink(cwd: nat, oldPath: string, newPath: string) returns (ok: bool)
      requires Valid() && IsLinkedDir(cwd)
      modifies nodes
      ensures Valid() && (!ok ==> nodes[..] == old(nodes[..]))
      ensures ok <==> Links(old(nodes[..]), Start(cwd, oldPath), Elements(oldPath, 0),
        Start(cwd, newPath), Elements(newPath, 0))
      ensures ok ==>
        Walk(nodes[..], Start(cwd, newPath), Elements(newPath, 0)) ==
        Walk(old(nodes[..]), Start(cwd, oldPath), Elements(oldPath, 0))
      ensures ok ==> Enters(old(nodes[..]), nodes[..], Start(cwd, newPath), Elements(newPath, 0),
        Walk(old(nodes[..]), Start(cwd, oldPath), Elements(oldPath, 0)).value, File)
    {
      hide TreeOK, Elements, Find, Walk;
      ghost var t := nodes[..];
      RootLinked(t, held);
      var ip, _ := Namex(Start(cwd, oldPath), oldPath, false);
      if ip.None? {
        return false;
      }
      WalkStaysLinked(t, held, Start(cwd, oldPath), Elements(oldPath, 0));
      var dp, name := Namex(Start(cwd, newPath), newPath, true);
      ghost var es := Elements(newPath, 0);
      if dp.Some? {
        ParentLinked(t, held, Start(cwd, newPath), es);
        ElementCanon(newPath, 0);
        WalkNamed(t, Start(cwd, newPath), es, dp.value);
      }
      ghost var k;
      ok, k := Link(ip.value, dp, name);
      if ok {
        assert Entered(t, nodes[..], dp.value, k, ip.value, name, File);
        NewName(t, nodes[..], held, Start(cwd, newPath), es, dp.value, k, ip.value, name);
      }
    }

    /** A reference is taken on an inode that is in use, or given up. */
    method Hold(i: nat)
      requires Valid() && i < nodes.Length && !nodes[i].kind.Free?
      modifies this`held
      ensures Valid() && held == old(held) + {i}
    {
      HoldKeeps(nodes[..], held, i);
      held := held + {i};
    }

    method Release(i: nat)
      requires Valid() && i in held && i < nodes.Length
      modifies this`held, nodes
      ensures Valid() && held == old(held) - {i}
      ensures nodes[..] == old(nodes[..])[i := Dropped(old(nodes[i]), old(nodes[i].nlink), false)]
    {
      ReleaseKeeps(nodes[..], held, i);
      hide TreeOK;
      held := held - {i};
      Iput(i);
    }

    /** One event; what is not possible is skipped. */
    method Step(e: Event)
      requires Valid()
      modifies this`held, nodes
      ensures Valid() && Steps(old(nodes[..]), old(held), e, nodes[..], held)
    {
      hide TreeOK, Elements, Walk, ParentOf, Enters, Leaves, Unlinks, Links, Find;
      match e {
        case Make(cwd, path, kind) =>
          if IsLinkedDir(cwd) && (kind == File || kind == Dir) {
            ghost var t := nodes[..];
            var r := SysCreate(cwd, path, kind);
            assert r.Made? ==> FirstFree(t, r.i);
          }
        case Remove(cwd, path) => if IsLinkedDir(cwd) { var _ := SysUnlink(cwd, path); }
        case Name(cwd, old', new') => if IsLinkedDir(cwd) { var _ := SysLink(cwd, old', new'); }
        case Take(i) => if i < nodes.Length && nodes[i].kind != Kind.Free { Hold(i); }
        case Give(i) => if i in held && i < nodes.Length { Release(i); }
      }
    }

    /** Every run: link counts are right, names distinct, and every linked inode has a path.  past
        holds the inodes and the references before each event and after the last. */
    method Run(events: seq<Event>) returns (ghost past: seq<(Nodes, set<nat>)>)
      requires Valid()
      modifies this`held, nodes
      ensures |past| == |events| + 1 && past[0] == (old(nodes[..]), old(held)) && past[|events|] == (nodes[..], held)
      ensures forall k :: 0 <= k < |events| ==> Steps(past[k].0, past[k].1, events[k], past[k + 1].0, past[k + 1].1)
      ensures Valid()
      ensures forall i :: 0 < i < nodes.Length ==> nodes[i].nlink == |Refs(nodes[..], i)|
      ensures forall d :: 0 <= d < nodes.Length && nodes[d].kind.Dir? ==> DistinctCut(nodes[d].entries)
      ensures forall i :: 0 < i < nodes.Length && nodes[i].nlink > 0 ==> Reached(nodes[..], i)
    {
      hide TreeOK, Steps, Refs, Reached, DistinctCut;
      past := [(nodes[..], held)];
      for k := 0 to |events|
        invariant Valid() && |past| == k + 1 && past[0] == (old(nodes[..]), old(held)) && past[k] == (nodes[..], held)
        invariant forall j :: 0 <= j < k ==> Steps(past[j].0, past[j].1, events[j], past[j + 1].0, past[j + 1].1)
      {
        Step(events[k]);
        past := past + [(nodes[..], held)];
      }
      TreeSays(nodes[..], held);
    }

    /** The end of iput: an inode without links and references is truncated and freed. */
    method Iput(i: nat)
      requires i < nodes.Length
      modifies nodes
      ensures nodes[..] == old(nodes[..])[i := Dropped(old(nodes[i]), old(nodes[i].nlink), i in held)]
    {
      if nodes[i].nlink == 0 && i !in held {
        nodes[i] := Node(Kind.Free, 0, []);
      }
    }
  }

  /** Names fit an entry and are distinct on the bytes an entry holds. */
  predicate DistinctCut(es: seq<Entry>) {
    && (forall k :: 0 <= k < |es| && es[k].inum != 0 ==> |es[k].name| <= DIRSIZ)
    && forall k, l :: 0 <= k < l < |es| && es[k].inum != 0 && es[l].inum != 0 ==> Canon(es[k].name) != Canon(es[l].name)
  }

  lemma CutNames(t: Nodes, held: set<nat>, d: nat)
    requires TreeOK(t, held) && d < |t| && t[d].kind.Dir?
    ensures DistinctCut(t[d].entries)
  {
    hide Reached, Refs, NodeOK, OnceOK, Find;
    assert DirOK(t, d);
    var es := t[d].entries;
    forall k | 0 <= k < |es| && es[k].inum != 0 ensures |es[k].name| <= DIRSIZ {
      if Linked(t, d) {
        assert EntryOK(t, d, k);
      }
    }
  }

  /** What the invariant says about every inode. */
  lemma TreeSays(t: Nodes, held: set<nat>)
    requires TreeOK(t, held)
    ensures forall i :: 0 < i < |t| ==> t[i].nlink == |Refs(t, i)|
    ensures forall d :: 0 <= d < |t| && t[d].kind.Dir? ==> DistinctCut(t[d].entries)
    ensures forall i :: 0 < i < |t| && t[i].nlink > 0 ==> Reached(t, i)
  {
    hide Refs, Reached, DistinctCut, DirOK, NodeOK, OnceOK, EntryOK;
    forall i | 0 < i < |t| && t[i].nlink > 0 ensures Reached(t, i) {
      LinkedIsReached(t, held, i);
    }
    forall d | 0 <= d < |t| && t[d].kind.Dir? ensures DistinctCut(t[d].entries) {
      CutNames(t, held, d);
    }
  }

  /** There is an entry, and what it names is not a directory with entries of its own. */
  predicate Removable(t: Nodes, d: nat, k: Option<nat>) {
    && d < |t| && k.Some? && k.value < |t[d].entries|
    && var i := t[d].entries[k.value].inum;
      i < |t| && (t[i].kind.Dir? ==> Empty(t[i].entries))
  }

  lemma DotNames(i: nat)
    ensures Canon(".") == "." && Canon("..") == ".."
    ensures Find([], ".").None? && Find([Entry(i, ".")], "..").None?
  {
  }

  lemma EntryNamed(t: Nodes, held: set<nat>, d: nat, name: string)
    requires TreeOK(t, held) && Linked(t, d) && Find(t[d].entries, name).Some?
    ensures var k := Find(t[d].entries, name).value;
      var i := t[d].entries[k].inum;
      0 < i < |t| && t[i].nlink > 0 && (!IsDot(name) ==> 2 <= k && i != d)
  {
    hide Reached, Refs, NodeOK, OnceOK, Find;
    var k := Find(t[d].entries, name).value;
    assert EntryOK(t, d, k) && DirOK(t, d);
  }

  /** An unlinked directory has no entries but its dots. */
  lemma OrphanEmpty(t: Nodes, held: set<nat>, d: nat, name: string)
    requires TreeOK(t, held) && d < |t| && t[d].kind.Dir? && Find(t[d].entries, name).Some? && !IsDot(name)
    ensures Linked(t, d)
  {
    hide Reached, Refs, NodeOK, OnceOK, EntryOK, Find;
    assert DirOK(t, d);
  }

  lemma FreshInode(t: Nodes, held: set<nat>, d: nat, i: nat)
    requires TreeOK(t, held) && d < |t| && t[d].kind.Dir? && i < |t| && t[i].kind.Free?
    ensures i != d && i != ROOTINO && t[i].nlink == 0 && t[i].entries == []
  {
    FreeLink(t, held, i);
  }

  lemma FileShape(t: Nodes, held: set<nat>, i: nat)
    requires TreeOK(t, held) && i < |t| && t[i].nlink > 0 && !t[i].kind.Dir?
    ensures t[i].kind.File? && t[i].entries == []
  {
    hide Reached, Refs, DirOK, OnceOK, Find, EntryOK;
    assert NodeOK(t, held, i);
  }

  /** The slot dirlink chooses is past the dots. */
  lemma FirstEmpty(t: Nodes, held: set<nat>, d: nat, k: nat, name: string)
    requires TreeOK(t, held) && d < |t| && t[d].kind.Dir? && k <= |t[d].entries|
    requires Find(t[d].entries, Canon(name)).None? && (k < |t[d].entries| ==> t[d].entries[k].inum == 0)
    ensures EntryFits(t, d, k, Canon(name))
  {
    hide Reached, Refs, NodeOK, OnceOK, EntryOK, Find;
    assert DirOK(t, d);
  }

  lemma NewTree(t: Nodes)
    requires ROOTINO < |t|
    requires forall i :: 0 <= i < |t| ==>
      t[i] == if i == ROOTINO then Node(Dir, 1, [Entry(ROOTINO, "."), Entry(ROOTINO, "..")]) else Node(Kind.Free, 0, [])
    ensures TreeOK(t, {})
  {
    assert Walk(t, ROOTINO, []) == Some(ROOTINO);
    forall i | 0 < i < |t| ensures t[i].nlink == |Refs(t, i)| {
      forall x: (nat, nat) ensures x in Refs(t, i) <==> i == ROOTINO && x == (ROOTINO, 1) {
        RefsAre(t, i, x.0, x.1);
      }
      if i == ROOTINO {
        assert Refs(t, i) == {(ROOTINO, 1)};
      } else {
        assert Refs(t, i) == {};
      }
    }
  }

  lemma RootLinked(t: Nodes, held: set<nat>)
    requires TreeOK(t, held)
    ensures Linked(t, ROOTINO)
  {
  }

  lemma ParentLinked(t: Nodes, held: set<nat>, start: nat, es: seq<string>)
    requires TreeOK(t, held) && start < |t| && t[start].nlink > 0 && ParentOf(t, start, es).Some?
    ensures Linked(t, ParentOf(t, start, es).value)
  {
    WalkStaysLinked(t, held, start, es[..|es| - 1]);
  }

  lemma {:induction false} ElementCanon(path: string, s: nat)
    requires s <= |path|
    ensures forall k :: 0 <= k < |Elements(path, s)| ==> Canon(Elements(path, s)[k]) == Elements(path, s)[k]
    decreases |path| - s
  {
    var a := RunEnd(path, s, true);
    if a < |path| {
      ElementCanon(path, RunEnd(path, a, false));
    }
  }

  /** A path whose last element was just entered leads to what was entered. */
  lemma NewName(t: Nodes, u: Nodes, held: set<nat>, start: nat, es: seq<string>, d: nat, k: nat, i: nat, name: string)
    requires TreeOK(t, held) && es != [] && name == es[|es| - 1] && Canon(name) == name
    requires ParentOf(t, start, es) == Some(d)
    requires CanPut(t, d, k, name) && (FileAdded(t, u, d, k, i, name) || DirAdded(t, u, d, k, i, name))
    ensures Walk(u, start, es) == Some(i)
  {
    hide Reached, Refs, NodeOK, OnceOK, EntryOK, Find;
    AddedExtends(t, u, held, d, k, i, name);
    WalkExtends(t, u, start, es[..|es| - 1]);
    assert DirOK(t, d);
    PutFind(t[d].entries, k, Entry(i, name), name);
    PutSlot(t[d].entries, k, Entry(i, name), 0);
  }

  /** A path whose last element was just removed leads nowhere. */
  lemma GoneName(t: Nodes, u: Nodes, held: set<nat>, start: nat, es: seq<string>, d: nat, k: nat, i: nat, name: string)
    requires TreeOK(t, held) && es != [] && name == es[|es| - 1] && ParentOf(t, start, es) == Some(d)
    requires Find(t[d].entries, name) == Some(k) && Removed(t, u, held, d, k, i)
    ensures Walk(t, start, es) == Some(i) && Walk(u, start, es).None?
  {
    hide Reached, Refs, NodeOK, OnceOK, EntryOK, Find;
    RemovedShrinks(t, u, held, d, k, i);
    if Walk(u, start, es[..|es| - 1]).Some? {
      WalkExtends(u, t, start, es[..|es| - 1]);
      assert DirOK(t, d);
      ClearGone(t[d].entries, k);
    }
  }

  lemma ClearGone(es: seq<Entry>, k: nat)
    requires Distinct(es) && k < |es| && es[k].inum != 0
    ensures Find(Clear(es, k), es[k].name).None?
  {
  }

  lemma RemovedShrinks(t: Nodes, u: Nodes, held: set<nat>, d: nat, k: nat, i: nat)
    requires TreeOK(t, held) && Removed(t, u, held, d, k, i)
    ensures Extends(u, t)
  {
    hide Reached, Refs, NodeOK, OnceOK, EntryOK, Find;
    forall e, n | 0 <= e < |u| && u[e].kind.Dir? && Find(u[e].entries, n).Some?
      ensures t[e].kind.Dir? && Find(t[e].entries, n).Some?
      ensures t[e].entries[Find(t[e].entries, n).value].inum == u[e].entries[Find(u[e].entries, n).value].inum
    {
      assert DirOK(t, e);
      if e == d {
        FindSlot(t[d].entries, Find(u[d].entries, n).value);
      }
    }
  }

  lemma HoldKeeps(t: Nodes, held: set<nat>, i: nat)
    requires TreeOK(t, held)
    ensures TreeOK(t, held + {i})
  {
    hide Reached, Refs, DirOK, OnceOK, EntryOK, Find;
    forall j | 0 <= j < |t| ensures NodeOK(t, held + {i}, j) && DirOK(t, j) && OnceOK(t, j) {
      assert NodeOK(t, held, j);
    }
  }

  lemma ReleaseKeeps(t: Nodes, held: set<nat>, i: nat)
    requires TreeOK(t, held) && i < |t|
    ensures TreeOK(t[i := Dropped(t[i], t[i].nlink, false)], held - {i})
  {
    hide Reached, Refs, Find;
    var u := t[i := Dropped(t[i], t[i].nlink, false)];
    if t[i].nlink > 0 {
      assert u == t;
    }
    forall j | 0 <= j < |u| ensures NodeOK(u, held - {i}, j) && DirOK(u, j) && OnceOK(u, j) {
      ReleaseNode(t, u, held, i, j);
    }
    forall e, l | 0 <= e < |u| && 0 <= l < |u[e].entries| && Linked(u, e) ensures EntryOK(u, e, l) {
      assert Linked(t, e) && EntryOK(t, e, l);
    }
    forall j | 0 < j < |u| ensures u[j].nlink == |Refs(u, j)| {
      assert forall e: nat, l: nat :: Refers(u, j, e, l) <==> Refers(t, j, e, l);
      SameRefs(t, u, j);
    }
    forall e | Linked(u, e) ensures Reached(u, e) {
      assert Linked(t, e);
      ReleaseReached(t, u, held, i, e);
    }
  }

  lemma ReleaseNode(t: Nodes, u: Nodes, held: set<nat>, i: nat, j: nat)
    requires TreeOK(t, held) && i < |t| && u == t[i := Dropped(t[i], t[i].nlink, false)] && j < |t|
    ensures NodeOK(u, held - {i}, j) && DirOK(u, j) && OnceOK(u, j)
  {
    hide Reached, Refs, Find;
    assert NodeOK(t, held, j) && DirOK(t, j) && OnceOK(t, j);
  }

  lemma ReleaseReached(t: Nodes, u: Nodes, held: set<nat>, i: nat, e: nat)
    requires TreeOK(t, held) && i < |t| && u == t[i := Dropped(t[i], t[i].nlink, false)] && Linked(t, e)
    ensures Reached(u, e)
  {
    hide Refs, Find, NodeOK, OnceOK, EntryOK, DirOK;
    assert Reached(t, e);
    var path :| Plain(path) && Walk(t, ROOTINO, path) == Some(e);
    ReleaseWalk(t, u, held, i, path);
  }

  lemma {:induction false} ReleaseWalk(t: Nodes, u: Nodes, held: set<nat>, i: nat, path: seq<string>)
    requires TreeOK(t, held) && i < |t| && u == t[i := Dropped(t[i], t[i].nlink, false)] && Walk(t, ROOTINO, path).Some?
    ensures Walk(u, ROOTINO, path) == Walk(t, ROOTINO, path)
    decreases |path|
  {
    hide Refs, Find, NodeOK, OnceOK, EntryOK, DirOK, Reached;
    if path != [] {
      ReleaseWalk(t, u, held, i, path[..|path| - 1]);
      WalkLinked(t, held, path[..|path| - 1]);
    }
  }

  /** Nothing that is not linked can be reached after an entry was made in an unlinked directory. */
  lemma {:induction false} OrphanWalk(t: Nodes, u: Nodes, held: set<nat>, d: nat, i: nat, path: seq<string>)
    requires TreeOK(t, held) && |u| == |t| && d < |t| && t[d].nlink == 0 && i < |t| && t[i].nlink == 0
    requires forall j :: 0 <= j < |t| && j != d && j != i ==> u[j] == t[j]
    requires Walk(u, ROOTINO, path).Some?
    ensures Walk(t, ROOTINO, path) == Walk(u, ROOTINO, path)
    decreases |path|
  {
    hide Reached, Refs, OnceOK, DirOK, NodeOK, EntryOK, Find;
    if path != [] {
      OrphanWalk(t, u, held, d, i, path[..|path| - 1]);
      WalkLinked(t, held, path[..|path| - 1]);
    }
  }

  lemma OrphanUnreached(t: Nodes, u: Nodes, held: set<nat>, d: nat, i: nat)
    requires TreeOK(t, held) && |u| == |t| && d < |t| && t[d].nlink == 0 && i < |t| && t[i].nlink == 0
    requires forall j :: 0 <= j < |t| && j != d && j != i ==> u[j] == t[j]
    ensures !Reached(u, i)
  {
    hide Refs, OnceOK, DirOK, NodeOK, EntryOK, Find, TreeOK;
    forall path: seq<string> ensures Walk(u, ROOTINO, path) != Some(i) {
      if Walk(u, ROOTINO, path) == Some(i) {
        OrphanWalk(t, u, held, d, i, path);
        WalkLinked(t, held, path);
      }
    }
  }

  /** create does not look whether the parent is still linked.  The tree survives exactly if it
      is; otherwise the new inode has a link that no path leads to. */
  lemma LinkedParentNeeded(t: Nodes, u: Nodes, held: set<nat>, d: nat, k: nat, i: nat, name: string)
    requires TreeOK(t, held) && EntryFits(t, d, k, name) && i < |t| && t[i].kind.Free?
    requires FileAdded(t, u, d, k, i, name) || DirAdded(t, u, d, k, i, name)
    ensures TreeOK(u, held) <==> Linked(t, d)
    ensures !Linked(t, d) ==> u[i].nlink == 1 && !Reached(u, i)
  {
    hide Reached, Refs, OnceOK, DirOK, NodeOK, EntryOK, Find, TreeOK;
    FreeLink(t, held, i);
    if Linked(t, d) {
      if FileAdded(t, u, d, k, i, name) {
        FileAddedKeeps(t, u, held, d, k, i, name);
      } else {
        DirAddedKeeps(t, u, held, d, k, i, name);
      }
    } else {
      OrphanUnreached(t, u, held, d, i);
      if TreeOK(u, held) {
        LinkedIsReached(u, held, i);
      }
    }
  }

  /** A directory with its dots alone does not know the name. */
  lemma OnlyDots(es: seq<Entry>, i: nat, p: nat, name: string)
    requires es == [Entry(i, "."), Entry(p, "..")] && !IsDot(name)
    ensures Find(es, name).None? && Empty(es)
  {
  }

  lemma ShortName(name: string)
    requires |name| == 1 && name[0] != '.'
    ensures Canon(name) == name && !IsDot(name)
  {
  }

  /** mkdir of the first name in a tree that has only the root. */
  method FirstDir(tree: Tree, name: string) returns (i: nat)
    requires tree.Valid() && tree.nodes.Length > 2 && tree.nodes[2].kind.Free? && |name| == 1 && name[0] != '.'
    requires tree.nodes[ROOTINO] == Node(Dir, 1, [Entry(ROOTINO, "."), Entry(ROOTINO, "..")])
    modifies tree.nodes
    ensures tree.Valid() && i == 2
    ensures tree.nodes[..] == old(tree.nodes[..])
      [ROOTINO := Node(Dir, 2, [Entry(ROOTINO, "."), Entry(ROOTINO, ".."), Entry(i, name)])]
      [i := Node(Dir, 1, [Entry(i, "."), Entry(ROOTINO, "..")])]
  {
    hide TreeOK, Find, Canon;
    ghost var t := tree.nodes[..];
    ShortName(name);
    OnlyDots(t[ROOTINO].entries, ROOTINO, ROOTINO, name);
    var r, k := tree.Create(ROOTINO, name, Dir);
    assert t[2].kind.Free? && !t[1].kind.Free?;
    i := r.i;
    ghost var u := tree.nodes[..];
    assert k == 2 && u[ROOTINO].entries == t[ROOTINO].entries + [Entry(i, name)];
    assert u[ROOTINO] == Node(Dir, 2, [Entry(ROOTINO, "."), Entry(ROOTINO, ".."), Entry(i, name)]);
    assert u == t[ROOTINO := u[ROOTINO]][i := u[i]];
  }

  /** rmdir of that directory while somebody holds it. */
  method OrphanDir(tree: Tree, i: nat, name: string)
    requires tree.Valid() && 1 < i < tree.nodes.Length && i in tree.held && |name| == 1 && name[0] != '.'
    requires tree.nodes[ROOTINO] == Node(Dir, 2, [Entry(ROOTINO, "."), Entry(ROOTINO, ".."), Entry(i, name)])
    requires tree.nodes[i] == Node(Dir, 1, [Entry(i, "."), Entry(ROOTINO, "..")])
    modifies tree.nodes
    ensures tree.Valid() && tree.nodes[i] == Node(Dir, 0, [Entry(i, "."), Entry(ROOTINO, "..")])
    ensures forall j :: 0 <= j < tree.nodes.Length && j != i && j != ROOTINO ==> tree.nodes[j] == old(tree.nodes[j])
  {
    hide TreeOK, Find, Canon;
    ghost var t := tree.nodes[..];
    ShortName(name);
    assert t[ROOTINO].entries[2].name == name;
    assert Find(t[ROOTINO].entries, name) == Some(2);
    var ok, k, g := tree.Unlink(ROOTINO, name);
    assert forall j :: 0 <= j < |t| && j != i && j != ROOTINO ==> tree.nodes[..][j] == t[j];
  }

  /** A directory that is held, unlinked, and then used as the parent of a new inode. */
  method OrphanCreate(kind: Kind) returns (tree: Tree, i: nat)
    requires kind.File? || kind.Dir?
    ensures fresh(tree) && !tree.Valid()
    ensures 0 < i < tree.nodes.Length && tree.nodes[i].nlink == 1 && !Reached(tree.nodes[..], i)
  {
    hide TreeOK, Reached, Find, Canon;
    tree := new Tree(4);
    var dir := FirstDir(tree, "a");
    tree.Hold(dir);
    OrphanDir(tree, dir, "a");
    ghost var t := tree.nodes[..];
    ShortName("b");
    OnlyDots(t[dir].entries, dir, ROOTINO, "b");
    assert t[3].kind.Free?;
    var made, k := tree.Create(dir, "b", kind);
    i := made.i;
    LinkedParentNeeded(t, tree.nodes[..], tree.held, dir, k, i, "b");
  }
}
