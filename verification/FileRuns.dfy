/** Whole runs of file calls on a volume: the block structure behaves as a table of byte
    strings, from the image mkfs leaves onwards. */
module FileRuns {
  import opened Machine
  import opened Sectors
  import opened FreeMap
  import opened InodeBlocks
  import opened BlockCounts
  import opened FileSystem
  import opened Mkfs

  type UInt = x: nat | x < UINT_LIMIT

  type Source = s: seq<Byte> | |s| < UINT_LIMIT

  datatype Call = Write(i: nat, src: Source, off: UInt) | Read(i: nat, off: UInt, n: UInt) | Truncate(i: nat)

  datatype Reply = Failed | Wrote(n: nat) | Bytes(data: seq<Byte>) | Truncated

  /** The contents of the files after one call, on plain byte strings. */
  function After(c: seq<seq<Byte>>, call: Call): (d: seq<seq<Byte>>)
    ensures |d| == |c|
  {
    match call
    case Write(i, src, off) => if i < |c| && WriteFits(c[i], src, off) then c[i := Splice(c[i], off, src)] else c
    case Read(_, _, _) => c
    case Truncate(i) => if i < |c| then c[i := []] else c
  }

  predicate WriteFits(file: seq<Byte>, src: seq<Byte>, off: nat) {
    off <= |file| && off + |src| < UINT_LIMIT && off + |src| <= MAXBYTES
  }

  function Answer(c: seq<seq<Byte>>, call: Call): Reply
    requires call.i < |c|
  {
    match call
    case Write(i, src, off) => if WriteFits(c[i], src, off) then Reply.Wrote(|src|) else Failed
    case Read(i, off, n) =>
      if off > |c[i]| || off + n >= UINT_LIMIT then Failed else Reply.Bytes(c[i][off..Min(off + n, |c[i]|)])
    case Truncate(_) => Truncated
  }

  function AfterAll(c: seq<seq<Byte>>, calls: seq<Call>): (d: seq<seq<Byte>>)
    ensures |d| == |c|
  {
    if calls == [] then c else After(AfterAll(c, calls[..|calls| - 1]), calls[|calls| - 1])
  }

  lemma NoCalls(c: seq<seq<Byte>>)
    ensures AfterAll(c, []) == c
  {
  }

  lemma OneMoreCall(c: seq<seq<Byte>>, calls: seq<Call>, k: nat)
    requires k < |calls|
    ensures AfterAll(c, calls[..k + 1]) == After(AfterAll(c, calls[..k]), calls[k])
  {
    assert calls[..k + 1][..k] == calls[..k];
  }

  // ----- how much of the disk it takes

  /** The slots each inode has filled, and the number of free blocks. */
  datatype Usage = Usage(slots: seq<set<nat>>, free: nat)

  /** The empty slots a call needs. */
  function Wants(c: seq<seq<Byte>>, u: Usage, call: Call): set<nat>
    requires call.i < |c| == |u.slots|
  {
    match call
    case Write(i, src, off) =>
      if WriteFits(c[i], src, off) then SlotsFor(off, off + |src|) - u.slots[i] else {}
    case Read(i, off, n) =>
      if off > |c[i]| || off + n >= UINT_LIMIT then {} else SlotsFor(off, Min(off + n, |c[i]|)) - u.slots[i]
    case Truncate(_) => {}
  }

  /** There are blocks for them. */
  predicate Affords(c: seq<seq<Byte>>, u: Usage, call: Call)
    requires call.i < |c| == |u.slots|
  {
    |Wants(c, u, call)| <= u.free
  }

  function Spent(c: seq<seq<Byte>>, u: Usage, call: Call): (w: Usage)
    requires call.i < |c| == |u.slots|
    ensures |w.slots| == |u.slots|
  {
    var want := Wants(c, u, call);
    if call.Truncate? then Usage(u.slots[call.i := {}], u.free + |u.slots[call.i]|)
    else if |want| > u.free then u
    else Usage(u.slots[call.i := u.slots[call.i] + want], u.free - |want|)
  }

  function SpentAll(c: seq<seq<Byte>>, u: Usage, calls: seq<Call>): (w: Usage)
    requires |c| == |u.slots| && forall k :: 0 <= k < |calls| ==> calls[k].i < |c|
    ensures |w.slots| == |u.slots|
  {
    if calls == [] then u
    else
      var before := calls[..|calls| - 1];
      Spent(AfterAll(c, before), SpentAll(c, u, before), calls[|calls| - 1])
  }

  /** Call k of a run finds the blocks it needs. */
  predicate AffordsAt(c: seq<seq<Byte>>, u: Usage, calls: seq<Call>, k: nat)
    requires |c| == |u.slots| && k < |calls| && forall k :: 0 <= k < |calls| ==> calls[k].i < |c|
  {
    Affords(AfterAll(c, calls[..k]), SpentAll(c, u, calls[..k]), calls[k])
  }

  lemma OneMoreSpent(c: seq<seq<Byte>>, u: Usage, calls: seq<Call>, k: nat)
    requires |c| == |u.slots| && k < |calls| && forall k :: 0 <= k < |calls| ==> calls[k].i < |c|
    ensures SpentAll(c, u, calls[..k + 1]) == Spent(AfterAll(c, calls[..k]), SpentAll(c, u, calls[..k]), calls[k])
  {
    assert calls[..k + 1][..k] == calls[..k];
  }

  ghost function UsageOf(l: Layout, fs: Fs): (u: Usage)
    requires l.Valid() && |fs.disk| == l.size
    ensures |u.slots| == |fs.inodes| && u.free == FreeCount(l, fs.disk)
    ensures forall i :: 0 <= i < |fs.inodes| ==> u.slots[i] == Filled(fs, i)
  {
    Usage(seq(|fs.inodes|, i requires 0 <= i < |fs.inodes| => Filled(fs, i)), FreeCount(l, fs.disk))
  }

  ghost function Files(fs: Fs): (c: seq<seq<Byte>>)
    ensures |c| == |fs.inodes| && forall i :: 0 <= i < |c| ==> c[i] == Content(fs, i)
  {
    seq(|fs.inodes|, i requires 0 <= i < |fs.inodes| => Content(fs, i))
  }

  /** The books balance and no file is longer than a file can be. */
  ghost predicate Sound(l: Layout, fs: Fs) {
    FsOK(l, fs, {}) && forall i :: 0 <= i < |fs.inodes| ==> fs.inodes[i].size <= MAXBYTES
  }

  lemma SameFile(fs: Fs, gs: Fs, j: nat)
    requires Undisturbed(fs, gs, j) && fs.inodes[j].size <= MAXBYTES
    ensures gs.inodes[j].size == fs.inodes[j].size && Content(gs, j) == Content(fs, j)
  {
    hide Addr, ByteAt;
  }

  /** One file changed and the rest undisturbed: the table changes in one place. */
  lemma OneChanged(l: Layout, fs: Fs, gs: Fs, i: nat, c: seq<Byte>)
    requires Sound(l, fs) && FsOK(l, gs, {}) && i < |fs.inodes| == |gs.inodes|
    requires Content(gs, i) == c && |c| <= MAXBYTES
    requires forall j :: 0 <= j < |fs.inodes| && j != i ==> Undisturbed(fs, gs, j)
    ensures Sound(l, gs) && Files(gs) == Files(fs)[i := c]
  {
    hide FsOK, FileOK, Content, Undisturbed;
    forall j | 0 <= j < |fs.inodes| && j != i
      ensures gs.inodes[j].size == fs.inodes[j].size && Content(gs, j) == Content(fs, j)
    {
      SameFile(fs, gs, j);
    }
  }

  /** A call that filled the slots of a range of inode i and disturbed nobody else. */
  lemma OneSpent(l: Layout, fs: Fs, gs: Fs, i: nat, lo: nat, hi: nat)
    requires Counted(l, fs, gs, i, lo, hi) && i < |fs.inodes| == |gs.inodes|
    requires forall j :: 0 <= j < |fs.inodes| && j != i ==> Undisturbed(fs, gs, j)
    ensures var u, want := UsageOf(l, fs), SlotsFor(lo, hi) - Filled(fs, i);
      |want| <= u.free && UsageOf(l, gs) == Usage(u.slots[i := u.slots[i] + want], u.free - |want|)
  {
    hide SlotsFor, Filled, FreeCount, Undisturbed;
    forall j | 0 <= j < |fs.inodes| && j != i ensures Filled(gs, j) == Filled(fs, j) {
      SameFilled(fs, gs, j);
    }
    assert Filled(gs, i) == Filled(fs, i) + (SlotsFor(lo, hi) - Filled(fs, i));
  }

  lemma AllReturned(l: Layout, fs: Fs, gs: Fs, i: nat)
    requires l.Valid() && |fs.disk| == |gs.disk| == l.size && i < |fs.inodes| == |gs.inodes|
    requires Filled(gs, i) == {} && FreeCount(l, gs.disk) == FreeCount(l, fs.disk) + |Filled(fs, i)|
    requires forall j :: 0 <= j < |fs.inodes| && j != i ==> Undisturbed(fs, gs, j)
    ensures var u := UsageOf(l, fs); UsageOf(l, gs) == Usage(u.slots[i := {}], u.free + |u.slots[i]|)
  {
    hide Filled, FreeCount, Undisturbed;
    forall j | 0 <= j < |fs.inodes| && j != i ensures Filled(gs, j) == Filled(fs, j) {
      SameFilled(fs, gs, j);
    }
  }

  lemma NothingSpent(u: Usage)
    ensures forall i :: 0 <= i < |u.slots| ==> u.slots[i := u.slots[i] + {}] == u.slots
  {
    forall i | 0 <= i < |u.slots| ensures u.slots[i := u.slots[i] + {}] == u.slots {
      assert u.slots[i] + {} == u.slots[i];
    }
  }

  lemma SpliceLength(c: seq<Byte>, off: nat, src: seq<Byte>)
    requires off <= |c| <= MAXBYTES && off + |src| <= MAXBYTES
    ensures |Splice(c, off, src)| <= MAXBYTES
  {
  }

  lemma EmptiedFile(fs: Fs, i: nat, disk: Disk)
    requires i < |fs.inodes|
    ensures Content(Emptied(fs, i, disk), i) == []
  {
  }

  /** One call.  None: out of blocks, where the kernel panics; that is decided by the slots and
      the free blocks before the call. */
  method Serve(v: Volume, call: Call) returns (r: Option<Reply>)
    requires Sound(v.l, v.Now()) && call.i < v.inodes.Length
    modifies v.disk, v.inodes
    ensures v.l.Valid() && v.disk.Length == v.l.size && FsOK(v.l, v.Now(), {})
    ensures r.Some? <==> Affords(Files(old(v.Now())), UsageOf(v.l, old(v.Now())), call)
    ensures r.Some? ==> UsageOf(v.l, v.Now()) == Spent(Files(old(v.Now())), UsageOf(v.l, old(v.Now())), call)
    ensures r.Some? ==> Sound(v.l, v.Now()) && Files(v.Now()) == After(Files(old(v.Now())), call)
    ensures r.Some? ==> r.value == Answer(Files(old(v.Now())), call)
    ensures r.Some? ==> forall j :: 0 <= j < v.inodes.Length && j != call.i ==> Undisturbed(old(v.Now()), v.Now(), j)
    ensures r.Some? && !call.Truncate? ==> AddrsKept(old(v.Now()), v.Now(), call.i)
    ensures r.None? ==> forall c :: 0 <= c < v.l.size ==> InUse(v.l, v.disk[..], c)
  {
    hide FsOK, FileOK, Content, Undisturbed, InUse, Splice, Counted, Spliced, SlotsFor, Filled, FreeCount, SameBytes,
      Grows, GrowsIn, Backed, UsageOf, AddrsKept;
    ghost var fs := v.Now();
    VolumeShape(v.l, fs);
    match call {
      case Write(i, src, off) => r := ServeWrite(v, i, src, off);
      case Read(i, off, n) => r := ServeRead(v, i, off, n);
      case Truncate(i) =>
        v.Itrunc(i);
        EmptiedFile(fs, i, v.disk[..]);
        OneChanged(v.l, fs, v.Now(), i, []);
        AllReturned(v.l, fs, v.Now(), i);
        return Some(Truncated);
    }
  }

  method ServeWrite(v: Volume, i: nat, src: Source, off: UInt) returns (r: Option<Reply>)
    requires Sound(v.l, v.Now()) && i < v.inodes.Length
    modifies v.disk, v.inodes
    ensures v.l.Valid() && v.disk.Length == v.l.size && FsOK(v.l, v.Now(), {})
    ensures var c, u, call := Files(old(v.Now())), UsageOf(v.l, old(v.Now())), Write(i, src, off);
      && (r.Some? <==> Affords(c, u, call))
      && (r.Some? ==> UsageOf(v.l, v.Now()) == Spent(c, u, call) && r.value == Answer(c, call))
      && (r.Some? ==> Sound(v.l, v.Now()) && Files(v.Now()) == After(c, call))
    ensures r.Some? ==> forall j :: 0 <= j < v.inodes.Length && j != i ==> Undisturbed(old(v.Now()), v.Now(), j)
    ensures r.Some? ==> AddrsKept(old(v.Now()), v.Now(), i)
    ensures r.None? ==> forall c :: 0 <= c < v.l.size ==> InUse(v.l, v.disk[..], c)
  {
    hide FsOK, FileOK, Content, Undisturbed, InUse, Splice, Counted, Spliced, SlotsFor, Filled, FreeCount, AddrsKept;
    ghost var fs := v.Now();
    ghost var was := Files(fs);
    VolumeShape(v.l, fs);
    NothingSpent(UsageOf(v.l, fs));
    var w := v.Writei(i, src, off);
    match w {
      case Panic =>
        ghost var tot :| Spliced(v.l, fs, v.Now(), i, off, src, tot);
        SplicedOK(v.l, fs, v.Now(), i, off, src, tot);
        return None;
      case Error =>
        UndisturbedSelf(fs);
        return Some(Failed);
      case Wrote(n) =>
        SpliceLength(was[i], off, src);
        OneChanged(v.l, fs, v.Now(), i, Splice(was[i], off, src));
        OneSpent(v.l, fs, v.Now(), i, off, off + |src|);
        return Some(Reply.Wrote(n));
    }
  }

  /** When the blocks suffice for a read, in the terms of readi. */
  lemma ReadAffords(l: Layout, fs: Fs, i: nat, off: UInt, n: UInt)
    requires l.Valid() && |fs.disk| == l.size && Sound(l, fs) && i < |fs.inodes|
    ensures var end := Min(off + n, fs.inodes[i].size);
      Affords(Files(fs), UsageOf(l, fs), Read(i, off, n)) <==>
      (off > fs.inodes[i].size || off + n >= UINT_LIMIT || off >= end ||
       Lacks(fs, i, off, end) <= FreeCount(l, fs.disk))
  {
    hide FsOK, Content, Filled, FreeCount;
    var end := Min(off + n, fs.inodes[i].size);
    if off >= end {
      assert SlotsFor(off, end) == {};
    }
  }

  /** A read that is out of range spends nothing. */
  lemma NothingRead(c: seq<seq<Byte>>, u: Usage, i: nat, off: UInt, n: UInt)
    requires i < |c| == |u.slots| && (off > |c[i]| || off + n >= UINT_LIMIT)
    ensures Spent(c, u, Read(i, off, n)) == u
  {
    NothingSpent(u);
  }

  lemma ReadServed(l: Layout, fs: Fs, gs: Fs, i: nat, off: UInt, n: UInt)
    requires Sound(l, fs) && FsOK(l, gs, {}) && i < |fs.inodes| == |gs.inodes|
    requires off <= fs.inodes[i].size && off + n < UINT_LIMIT
    requires Grows(fs, gs) && SameBytes(fs, gs) && Counted(l, fs, gs, i, off, Min(off + n, fs.inodes[i].size))
    requires forall j :: 0 <= j < |fs.inodes| && j != i ==> Undisturbed(fs, gs, j)
    ensures Sound(l, gs) && Files(gs) == Files(fs)
    ensures UsageOf(l, gs) == Spent(Files(fs), UsageOf(l, fs), Read(i, off, n))
  {
    hide FsOK, FileOK, Content, Undisturbed, SlotsFor, Filled, FreeCount, SameBytes, Grows, GrowsIn, UsageOf;
    SameContents(fs, gs, i);
    OneChanged(l, fs, gs, i, Content(fs, i));
    assert Files(fs)[i := Content(fs, i)] == Files(fs);
    OneSpent(l, fs, gs, i, off, Min(off + n, fs.inodes[i].size));
  }

  lemma GrowsKept(fs: Fs, gs: Fs, i: nat)
    requires Grows(fs, gs) && i < |fs.inodes|
    ensures AddrsKept(fs, gs, i)
  {
    hide Addr;
  }

  method ServeRead(v: Volume, i: nat, off: UInt, n: UInt) returns (r: Option<Reply>)
    requires Sound(v.l, v.Now()) && i < v.inodes.Length
    modifies v.disk, v.inodes
    ensures v.l.Valid() && v.disk.Length == v.l.size && FsOK(v.l, v.Now(), {})
    ensures var c, u, call := Files(old(v.Now())), UsageOf(v.l, old(v.Now())), Read(i, off, n);
      && (r.Some? <==> Affords(c, u, call))
      && (r.Some? ==> UsageOf(v.l, v.Now()) == Spent(c, u, call) && r.value == Answer(c, call))
      && (r.Some? ==> Sound(v.l, v.Now()) && Files(v.Now()) == After(c, call))
    ensures r.Some? ==> forall j :: 0 <= j < v.inodes.Length && j != i ==> Undisturbed(old(v.Now()), v.Now(), j)
    ensures r.Some? ==> AddrsKept(old(v.Now()), v.Now(), i)
    ensures r.None? ==> forall c :: 0 <= c < v.l.size ==> InUse(v.l, v.disk[..], c)
  {
    hide FsOK, FileOK, Content, Undisturbed, InUse, Counted, SameBytes, Grows, GrowsIn, Backed, Affords, Lacks,
      FreeCount, UsageOf, Spent, AddrsKept;
    ghost var fs := v.Now();
    VolumeShape(v.l, fs);
    ReadAffords(v.l, fs, i, off, n);
    var d := v.Readi(i, off, n);
    VolumeShape(v.l, v.Now());
    match d {
      case NoBlock => return None;
      case BadRange =>
        UndisturbedSelf(fs);
        NothingRead(Files(fs), UsageOf(v.l, fs), i, off, n);
        return Some(Failed);
      case Bytes(data) =>
        ReadServed(v.l, fs, v.Now(), i, off, n);
        GrowsKept(fs, v.Now(), i);
        return Some(Reply.Bytes(data));
    }
  }

  /** Any run of calls.  done tells how many were served: all of them, or those before the first
      that the disk cannot afford. */
  method Run(v: Volume, calls: seq<Call>) returns (done: nat, replies: seq<Reply>)
    requires Sound(v.l, v.Now()) && forall k :: 0 <= k < |calls| ==> calls[k].i < v.inodes.Length
    modifies v.disk, v.inodes
    ensures v.l.Valid() && v.disk.Length == v.l.size && FsOK(v.l, v.Now(), {})
    ensures done <= |calls| && |replies| == done
    ensures var c, u := Files(old(v.Now())), UsageOf(v.l, old(v.Now()));
      && (forall k :: 0 <= k < done ==> AffordsAt(c, u, calls, k))
      && (done < |calls| ==> !AffordsAt(c, u, calls, done))
      && (done == |calls| ==> UsageOf(v.l, v.Now()) == SpentAll(c, u, calls))
    ensures done == |calls| ==> Sound(v.l, v.Now()) && Files(v.Now()) == AfterAll(Files(old(v.Now())), calls)
    ensures done < |calls| ==> forall c :: 0 <= c < v.l.size ==> InUse(v.l, v.disk[..], c)
    ensures forall k :: 0 <= k < done ==> replies[k] == Answer(AfterAll(Files(old(v.Now())), calls[..k]), calls[k])
  {
    hide FsOK, FileOK, Content, Undisturbed, InUse, Splice, Sound, Files, After, Answer, AfterAll, SpentAll, Spent,
      Affords, UsageOf;
    SoundShape(v.l, v.Now());
    ghost var c, u := Files(v.Now()), UsageOf(v.l, v.Now());
    done, replies := 0, [];
    NoCalls(c);
    NoneSpent(c, u);
    while done < |calls|
      invariant done <= |calls| && |replies| == done && v.disk.Length == v.l.size && FsOK(v.l, v.Now(), {})
      invariant Sound(v.l, v.Now()) && Files(v.Now()) == AfterAll(c, calls[..done])
      invariant UsageOf(v.l, v.Now()) == SpentAll(c, u, calls[..done])
      invariant forall k :: 0 <= k < done ==> AffordsAt(c, u, calls, k)
      invariant forall k :: 0 <= k < done ==> replies[k] == Answer(AfterAll(c, calls[..k]), calls[k])
    {
      var r := Serve(v, calls[done]);
      if r.None? { return; }
      OneMoreCall(c, calls, done);
      OneMoreSpent(c, u, calls, done);
      replies := replies + [r.value];
      done := done + 1;
    }
    assert calls[..done] == calls;
  }

  lemma SoundShape(l: Layout, fs: Fs)
    requires Sound(l, fs)
    ensures l.Valid() && |fs.disk| == l.size && FsOK(l, fs, {})
  {
  }

  lemma NoneSpent(c: seq<seq<Byte>>, u: Usage)
    requires |c| == |u.slots|
    ensures SpentAll(c, u, []) == u
  {
  }

  lemma WrittenSound(l: Layout, fs: Fs, files: seq<HostFile>)
    requires FsOK(l, fs, {}) && Written(fs, files)
    ensures Sound(l, fs)
  {
    hide FsOK, Addr, RootDir, Content;
    forall j | 0 <= j < |fs.inodes| ensures fs.inodes[j].size <= MAXBYTES {
      assert 2 <= j < |files| + 2 ==> FileOK(fs, j);
      assert |RootDir(files)| <= DIRENT * NINODES;
    }
  }

  /** mkfs followed by any run of calls.  None: the image is too small for the files. */
  method Session(files: seq<HostFile>, calls: seq<Call>)
    returns (v: Option<Volume>, done: nat, replies: seq<Reply>, ghost start: seq<seq<Byte>>, ghost used: Usage)
    requires |files| + 2 <= NINODES
    requires forall k :: 0 <= k < |calls| ==> calls[k].i < NINODES
    ensures v.Some? <==> Fits(MkLayout(), files)
    ensures v.Some? ==> v.value.l == MkLayout() && v.value.disk.Length == v.value.l.size
    ensures done <= |calls| && |replies| == done
    ensures v.Some? && done == |calls| ==>
      Sound(v.value.l, v.value.Now()) && Files(v.value.Now()) == AfterAll(start, calls)
    ensures v.Some? && done < |calls| ==>
      forall c :: 0 <= c < v.value.l.size ==> InUse(v.value.l, v.value.disk[..], c)
    ensures v.Some? ==> |start| == NINODES && forall j :: 2 <= j < |files| + 2 ==> start[j] == files[j - 2].data
    ensures v.Some? ==> |used.slots| == NINODES && used.free == v.value.l.size - v.value.l.nmeta - Need(files)
    ensures v.Some? ==> forall j :: 0 <= j < NINODES ==> used.slots[j] == SlotsFor(0, Mkfs.Bytes(files, j))
    ensures v.Some? ==> forall k :: 0 <= k < done ==> AffordsAt(start, used, calls, k)
    ensures v.Some? && done < |calls| ==> !AffordsAt(start, used, calls, done)
    ensures v.Some? ==> |RootDir(files)| < |start[ROOTINO]| && start[ROOTINO][..|RootDir(files)|] == RootDir(files)
    ensures v.Some? ==> forall k :: 0 <= k < done ==> replies[k] == Answer(AfterAll(start, calls[..k]), calls[k])
  {
    hide FsOK, FileOK, Content, Sound, RootDir, Addr, InUse, After, Answer, SlotsFor, Filled, FreeCount, Need, Spent,
      AffordsAt;
    var b := new Builder();
    var ok := b.Populate(files);
    if !ok { return None, 0, [], [], Usage([], 0); }
    WrittenSound(b.l, Fs(b.disk[..], b.inodes[..]), files);
    var vol := new Volume(b.l, b.disk[..], b.inodes[..]);
    assert vol.disk.Length == |vol.disk[..]| == |b.disk[..]|;
    SoundShape(b.l, vol.Now());
    start, used := Files(vol.Now()), UsageOf(vol.l, vol.Now());
    done, replies := Run(vol, calls);
    v := Some(vol);
  }
}
