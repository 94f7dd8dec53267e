/** Runs of log.c that end in a panic of commit.

    There are as many buffers as header entries.  When a log area larger than LOGSIZE lets the
    header fill up, every buffer is pinned, and write_log's first bread finds none.  With the log
    area that mkfs makes, the last buffer may be in the hands of a process that reads a file. */
module FullLog {
  import opened Machine
  import opened Blocks
  import opened Wal
  import opened CrashSafety
  import opened BufferCache
  import opened LogStore
  import opened GroupCommit

  /** No operation has logged more than MAXOPBLOCKS distinct blocks. */
  ghost predicate InBudget(log: Log)
    reads log, log.cache.disk
  {
    log.Running() && BudgetRun(log.Geo(), Boot(log.boot), log.trace)
  }

  lemma {:induction false} RecoveryInBudget(g: Geometry, s: State, n: nat)
    requires WellFormed(g, s)
    ensures BudgetRun(g, s, RecoverSteps(n))
  {
    if n == 0 {
      NoRun(g, s);
    } else {
      RecoveryInBudget(g, s, n - 1);
      FreeStep(g, s, RecoverSteps(n - 1), RecoverStep);
    }
  }

  /** begin_op that finds room. */
  method Enter(log: Log, ghost op: nat)
    requires log.Valid() && InBudget(log) && op !in log.m.begun
    requires log.n + (log.outstanding + 1) * MAXOPBLOCKS <= LOGSIZE
    modifies log`outstanding, log`m, log`trace
    ensures log.Valid() && InBudget(log) && log.m == Wal.BeginOp(old(log.m), op)
    ensures log.outstanding == old(log.outstanding) + 1
  {
    FreeStep(log.Geo(), Boot(log.boot), log.trace, Begin(op));
    hide Exec, BudgetRun, Inv, SameDisk, SameView, Listed, Ready, Busy, Coherent, ViewAt, ViewOf;
    var admitted := log.BeginOp(op);
  }

  /** With k blocks listed and nothing held there is a buffer to spare until all are pinned. */
  lemma SpareCount(g: Geometry, lh: seq<nat>, taken: set<nat>)
    requires g.Valid() && Entries(g, lh) && Outside(g, lh, taken)
    ensures Spare(Listed(lh), taken) <==> |lh| + |taken| < NBUF
  {
    DistinctCount(lh);
    assert Listed(lh) !! taken;
  }

  /** One budgeted write of a new block by the operation whose turn it is. */
  method FillOne(log: Log, k: nat, data: Block)
    requires log.Valid() && InBudget(log) && Filled(log.Geo(), k, log.m) && log.taken == {}
    requires k < log.Geo().Capacity() && log.start + log.size + LOGSIZE <= log.cache.disk.Length
    modifies log`n, log`m, log`trace, log.block
    modifies log.cache, log.cache.disk, log.cache.bufs, log.cache.next, log.cache.prev
    ensures log.Valid() && InBudget(log) && Filled(log.Geo(), k + 1, log.m)
    ensures log.m.ops.Keys == old(log.m.ops.Keys)
  {
    hide Exec, BudgetRun, Inv, SameDisk, SameView, Listed, Ready, Busy, Coherent, ViewAt, ViewOf, Shared, Spare;
    var op := k / MAXOPBLOCKS;
    var b := log.start + log.size + k;
    SpareCount(log.Geo(), log.m.lh, {});
    FillStep(log.Geo(), log.m, op, k, data);
    ExecSnoc(log.Geo(), Boot(log.boot), log.trace, LogWrite(op, b, data));
    var ok := log.Update(b, data, op);
  }

  /** Three operations on an idle log, which together log `count` new blocks. */
  method FillLog(log: Log, count: nat, data: Block)
    requires log.Valid() && InBudget(log) && log.m.ops == map[] && log.m.lh == [] && log.m.begun !! {0, 1, 2}
    requires log.taken == {} && count <= log.Geo().Capacity()
    requires log.start + log.size + LOGSIZE <= log.cache.disk.Length
    modifies log`n, log`outstanding, log`m, log`trace, log.block
    modifies log.cache, log.cache.disk, log.cache.bufs, log.cache.next, log.cache.prev
    ensures log.Valid() && InBudget(log) && Filled(log.Geo(), count, log.m) && log.m.ops.Keys == {0, 1, 2}
  {
    hide Exec, BudgetRun, Inv, SameDisk, SameView, Listed, Ready, Busy, Coherent, ViewAt, ViewOf, Filled, InBudget,
      Shared;
    ThreeBegins(log.Geo(), log.m);
    Enter(log, 0);
    Enter(log, 1);
    Enter(log, 2);
    for k := 0 to count
      invariant log.Valid() && InBudget(log) && Filled(log.Geo(), k, log.m) && log.m.ops.Keys == {0, 1, 2}
    {
      FillOne(log, k, data);
    }
  }

  lemma FreshCache(c: Cache)
    requires c.Valid() && forall i :: 0 <= i < NBUF ==> c.bufs[i].refcnt == 0 && !c.bufs[i].valid
    ensures Ready(c, {}, {})
  {
    forall i | 0 <= i < NBUF ensures !c.bufs[i].locked && !c.bufs[i].dirty {
      assert Sound(c.bufs[..][i], c.disk[..]);
    }
  }

  /** binit and initlog over a disk with an empty log. */
  method PowerOn(image: seq<Block>, start: nat, size: nat) returns (log: Log)
    requires Geometry(start, size, |image|).Valid() && GoodHead(image[start]) && HeadOf(image[start]) == []
    ensures log.Valid() && InBudget(log) && log.m.ops == map[] && log.m.lh == [] && log.m.begun == {}
    ensures log.start == start && log.size == size && log.cache.disk.Length == |image| && log.taken == {}
    ensures fresh(log) && fresh(log.block) && fresh(log.cache)
    ensures fresh(log.cache.disk) && fresh(log.cache.bufs) && fresh(log.cache.next) && fresh(log.cache.prev)
  {
    hide Inv, SameView, Listed, Ready, Busy, Coherent, ViewAt, ViewOf, Shared, Cache.Ordered;
    var c := new Cache(image);
    FreshCache(c);
    AloneShared(c, {});
    ghost var g := Geometry(start, size, |image|);
    ghost var d := Disk([], image);
    RecoveryInBudget(g, Boot(d), 2);
    log := new Log(c, start, size, d, []);
    var ok := log.RecoverFromLog();
    assert log.trace == RecoverSteps(2);
  }

  /** With a log area of more than LOGSIZE blocks, three operations that keep to their budgets
      bring commit to a panic before it has written anything. */
  method FullLogPanics(image: seq<Block>, start: nat, size: nat, data: Block) returns (log: Log, ok: bool)
    requires Geometry(start, size, |image|).Valid() && GoodHead(image[start]) && HeadOf(image[start]) == []
    requires LOGSIZE < size && start + size + LOGSIZE <= |image|
    ensures InBudget(log) && log.m.pc == CopyLog(0) && |log.m.lh| == LOGSIZE
    ensures !ok
  {
    log := PowerOn(image, start, size);
    FillLog(log, LOGSIZE, data);
    ok := LeaveAll(log);
  }

  /** With a log area of LOGSIZE blocks, as mkfs makes it, three operations that keep to their
      budgets fill the header, and the last one commits.  It panics exactly if a reader who is in
      no operation holds a buffer. */
  method ReaderPanics(image: seq<Block>, start: nat, data: Block, reader: bool) returns (log: Log, ok: bool)
    requires Geometry(start, LOGSIZE, |image|).Valid() && GoodHead(image[start]) && HeadOf(image[start]) == []
    requires start + LOGSIZE + LOGSIZE <= |image|
    ensures ok <==> !reader
    ensures !ok ==> InBudget(log) && log.m.pc == CopyLog(0) && |log.m.lh| == LOGSIZE - 1
    ensures ok ==> log.Valid() && |log.m.hist| > 0
  {
    hide Log.Valid, InBudget;
    log := PowerOn(image, start, LOGSIZE);
    FillLog(log, LOGSIZE - 1, data);
    if reader {
      Read(log, start + LOGSIZE + LOGSIZE - 1);
    }
    ok := LeaveAll(log);
  }

  /** A process that reads one block outside every operation. */
  method Read(log: Log, b: nat)
    requires log.Valid() && InBudget(log) && log.taken == {} && Filled(log.Geo(), LOGSIZE - 1, log.m)
    requires log.Geo().Home(b) && b !in log.m.lh
    modifies log`others, log`taken, log.cache.disk, log.cache.bufs
    ensures log.Valid() && InBudget(log) && log.taken == {b}
  {
    hide Exec, BudgetRun, Inv, SameDisk, SameView, Listed, Ready, Busy, Coherent, ViewAt, ViewOf, Shared, Spare;
    SpareCount(log.Geo(), log.m.lh, {});
    var r := log.Hold(b);
    assert {} + {b} == {b};
  }

  /** end_op of an operation that is not the last. */
  method LeaveOne(log: Log, ghost op: nat)
    requires log.Valid() && InBudget(log) && op in log.m.ops && log.m.ops - {op} != map[]
    modifies log`n, log`outstanding, log`committing, log`m, log`trace
    modifies log.cache, log.cache.disk, log.cache.bufs, log.cache.next, log.cache.prev
    ensures log.Valid() && InBudget(log) && log.m.lh == old(log.m.lh) && log.m.ops == old(log.m.ops) - {op}
    ensures log.m.hist == old(log.m.hist) && log.m.group == old(log.m.group)
  {
    hide Exec, BudgetRun, Inv, SameDisk, SameView, Listed, Ready, Busy, Coherent, ViewAt, ViewOf, Shared, Spare,
      Outside;
    FreeStep(log.Geo(), Boot(log.boot), log.trace, End(op));
    var ok := log.EndOp(op);
  }

  /** end_op of the last operation, which commits. */
  method LeaveLast(log: Log, ghost op: nat) returns (ok: bool)
    requires log.Valid() && InBudget(log) && log.m.ops.Keys == {op} && log.m.lh != [] && log.Apart()
    modifies log`n, log`outstanding, log`committing, log`m, log`trace
    modifies log.cache, log.cache.disk, log.cache.bufs, log.cache.next, log.cache.prev
    ensures ok <==> |old(log.m.lh)| + |log.taken| < NBUF
    ensures !ok ==> InBudget(log) && log.m.pc == CopyLog(0) && log.m.lh == old(log.m.lh)
    ensures ok ==> log.Valid() && log.m.hist == old(log.m.hist) + [old(log.m.group)]
  {
    hide Exec, BudgetRun, Inv, SameDisk, SameView, Listed, Ready, Busy, Coherent, ViewAt, ViewOf, Shared, Spare,
      Outside;
    SpareCount(log.Geo(), log.m.lh, log.taken);
    FreeStep(log.Geo(), Boot(log.boot), log.trace, End(op));
    assert log.m.ops - {op} == map[];
    ok := log.EndOp(op);
  }

  /** The three operations end, and the last one commits. */
  method LeaveAll(log: Log) returns (ok: bool)
    requires log.Valid() && InBudget(log) && log.m.ops.Keys == {0, 1, 2} && log.m.lh != [] && log.Apart()
    modifies log`n, log`outstanding, log`committing, log`m, log`trace
    modifies log.cache, log.cache.disk, log.cache.bufs, log.cache.next, log.cache.prev
    ensures ok <==> |old(log.m.lh)| + |log.taken| < NBUF
    ensures !ok ==> InBudget(log) && log.m.pc == CopyLog(0) && log.m.lh == old(log.m.lh)
    ensures ok ==> log.Valid() && log.m.hist == old(log.m.hist) + [old(log.m.group)]
  {
    hide Log.Valid, InBudget, Outside;
    assert 1 in log.m.ops - {0};
    LeaveOne(log, 0);
    assert 2 in log.m.ops - {1};
    LeaveOne(log, 1);
    assert log.m.ops.Keys == {2};
    ok := LeaveLast(log, 2);
  }
}
