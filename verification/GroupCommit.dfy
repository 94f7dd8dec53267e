/** Group commit: operations reach the disk whole or not at all; and how far the log space
    that begin_op reserves goes. */
module GroupCommit {
  import opened Blocks
  import opened Wal
  import opened CrashSafety

  // ----- isolation

  /** While a commit runs no operation is outstanding, and none begins, logs or ends. */
  lemma {:induction false} NothingMovesDuringCommit(g: Geometry, d: Disk, ls: seq<Label>, op: nat, b: nat, data: Block)
    requires CleanDisk(g, d) && Committing(Exec(g, Boot(d), ls))
    ensures var s := Exec(g, Boot(d), ls);
      && s.ops == map[]
      && Apply(g, s, Begin(op)) == s
      && Apply(g, s, LogWrite(op, b, data)) == s
      && Apply(g, s, End(op)) == s
  {
    RunInv(g, d, ls);
  }

  // ----- whole operations

  function WritesOf(op: nat, ws: seq<Write>): seq<Write> {
    if ws == [] then []
    else
      var w := ws[|ws| - 1];
      WritesOf(op, ws[..|ws| - 1]) + if w.op == op then [w] else []
  }

  function OpsOf(ws: seq<Write>): set<nat> {
    if ws == [] then {} else OpsOf(ws[..|ws| - 1]) + {ws[|ws| - 1].op}
  }

  /** Operation op's writes are exactly those of the group ws. */
  ghost predicate WholeIn(op: nat, issued: seq<Write>, ws: seq<Write>) {
    WritesOf(op, issued) == WritesOf(op, ws)
  }

  /** Every operation in ws has ended and has all its writes there. */
  ghost predicate Sealed(s: State, ws: seq<Write>) {
    forall op :: op in OpsOf(ws) ==>
      op in s.begun && op !in s.ops && op !in OpsOf(s.group) && WholeIn(op, s.issued, ws)
  }

  ghost predicate Disjoint(hist: seq<seq<Write>>) {
    forall i, j :: 0 <= i < j < |hist| ==> OpsOf(hist[i]) !! OpsOf(hist[j])
  }

  ghost predicate OpsInv(s: State) {
    && s.ops.Keys <= s.begun
    && OpsOf(s.issued) <= s.begun
    && OpsOf(s.group) <= s.begun
    && (forall op :: op in s.ops || op in OpsOf(s.group) ==> WholeIn(op, s.issued, s.group))
    && (forall i :: 0 <= i < |s.hist| ==> Sealed(s, s.hist[i]))
    && Disjoint(s.hist)
  }

  lemma WritesOfSnoc(op: nat, ws: seq<Write>, w: Write)
    ensures WritesOf(op, ws + [w]) == WritesOf(op, ws) + if w.op == op then [w] else []
    ensures OpsOf(ws + [w]) == OpsOf(ws) + {w.op}
  {
    assert (ws + [w])[..|ws|] == ws;
  }

  lemma {:induction false} NoWrites(op: nat, ws: seq<Write>)
    requires op !in OpsOf(ws)
    ensures WritesOf(op, ws) == []
  {
    if ws != [] {
      NoWrites(op, ws[..|ws| - 1]);
    }
  }

  lemma WholeAfterWrite(op: nat, issued: seq<Write>, ws: seq<Write>, w: Write)
    requires WholeIn(op, issued, ws)
    ensures WholeIn(op, issued + [w], ws + [w])
    ensures w.op != op ==> WholeIn(op, issued + [w], ws)
  {
    WritesOfSnoc(op, issued, w);
    WritesOfSnoc(op, ws, w);
  }

  lemma SealedAfterWrite(g: Geometry, s: State, op: nat, b: nat, data: Block, ws: seq<Write>)
    requires WellFormed(g, s) && Sealed(s, ws)
    ensures Sealed(DoLogWrite(g, s, op, b, data), ws)
  {
    var r := DoLogWrite(g, s, op, b, data);
    var w := Write(op, b, data);
    if r.group == s.group + [w] && op in s.ops {
      forall o | o in OpsOf(ws) ensures WholeIn(o, r.issued, ws) && o !in OpsOf(r.group) {
        WholeAfterWrite(o, s.issued, ws, w);
        WritesOfSnoc(o, s.group, w);
      }
    }
  }

  lemma LogWriteOps(g: Geometry, s: State, op: nat, b: nat, data: Block)
    requires WellFormed(g, s) && OpsInv(s)
    ensures OpsInv(DoLogWrite(g, s, op, b, data))
  {
    var r := DoLogWrite(g, s, op, b, data);
    forall i | 0 <= i < |s.hist| ensures Sealed(r, s.hist[i]) {
      SealedAfterWrite(g, s, op, b, data, s.hist[i]);
    }
    if s.pc.Idle? && op in s.ops && g.Home(b) && |s.lh| < g.Capacity() {
      var w := Write(op, b, data);
      WritesOfSnoc(op, s.group, w);
      WritesOfSnoc(op, s.issued, w);
      forall o | o in r.ops || o in OpsOf(r.group) ensures WholeIn(o, r.issued, r.group) {
        WholeAfterWrite(o, s.issued, s.group, w);
      }
    }
  }

  lemma BeginOps(s: State, op: nat)
    requires OpsInv(s)
    ensures OpsInv(BeginOp(s, op))
  {
    var r := BeginOp(s, op);
    if r != s {
      NoWrites(op, s.issued);
      NoWrites(op, s.group);
      assert forall i :: 0 <= i < |s.hist| ==> Sealed(r, s.hist[i]);
    }
  }

  lemma HeadOps(g: Geometry, s: State)
    requires WellFormed(g, s) && OpsInv(s) && s.pc.Head? && s.ops == map[]
    ensures OpsInv(DoCommitStep(g, s))
  {
    var r := DoCommitStep(g, s);
    assert forall i :: 0 <= i < |s.hist| ==> Sealed(r, s.hist[i]);
    assert Sealed(r, s.group);
    assert forall i :: 0 <= i < |s.hist| ==> OpsOf(s.hist[i]) !! OpsOf(s.group);
  }

  /** Steps that leave history, writes and operations alone. */
  lemma SameOps(s: State, r: State)
    requires OpsInv(s) && r.hist == s.hist && r.issued == s.issued && r.group == s.group && r.ops == s.ops
    requires r.begun == s.begun
    ensures OpsInv(r)
  {
    assert forall i :: 0 <= i < |s.hist| ==> Sealed(s, s.hist[i]) && Sealed(r, s.hist[i]);
  }

  lemma EndOps(s: State, op: nat)
    requires OpsInv(s)
    ensures OpsInv(EndOp(s, op))
  {
    var r := EndOp(s, op);
    assert forall i :: 0 <= i < |s.hist| ==> Sealed(s, s.hist[i]) && Sealed(r, s.hist[i]);
  }

  lemma CrashOps(s: State)
    requires OpsInv(s)
    ensures OpsInv(Halt(s))
  {
    var r := Halt(s);
    assert forall i :: 0 <= i < |s.hist| ==> Sealed(s, s.hist[i]) && Sealed(r, s.hist[i]);
  }

  lemma CommitOps(g: Geometry, s: State)
    requires WellFormed(g, s) && OpsInv(s) && (s.pc.Head? ==> s.ops == map[])
    ensures OpsInv(DoCommitStep(g, s))
  {
    hide OpsInv;
    if s.pc.Head? {
      HeadOps(g, s);
    } else {
      SameOps(s, DoCommitStep(g, s));
    }
  }

  lemma RecoverOps(g: Geometry, s: State)
    requires WellFormed(g, s) && OpsInv(s)
    ensures OpsInv(DoRecoverStep(g, s))
  {
    hide OpsInv;
    SameOps(s, DoRecoverStep(g, s));
  }

  lemma StepOps(g: Geometry, s: State, l: Label)
    requires Inv(g, s) && OpsInv(s)
    ensures OpsInv(Apply(g, s, l))
  {
    hide OpsInv, Safe, PhaseInv, DoLogWrite, DoCommitStep, DoRecoverStep, BeginOp, EndOp, Halt;
    match l
    case Begin(op) => BeginOps(s, op);
    case LogWrite(op, b, data) => LogWriteOps(g, s, op, b, data);
    case End(op) => EndOps(s, op);
    case CommitStep => CommitOps(g, s);
    case Crash => CrashOps(s);
    case RecoverStep => RecoverOps(g, s);
  }

  lemma {:induction false} RunOps(g: Geometry, d: Disk, ls: seq<Label>)
    requires CleanDisk(g, d)
    ensures OpsInv(Exec(g, Boot(d), ls))
  {
    if ls != [] {
      RunOps(g, d, ls[..|ls| - 1]);
      RunInv(g, d, ls[..|ls| - 1]);
      StepOps(g, Exec(g, Boot(d), ls[..|ls| - 1]), ls[|ls| - 1]);
    }
  }

  /** Every operation a recovered disk shows has ended, and all the writes it ever made lie
      in one committed group; so the disk holds whole operations only. */
  lemma {:induction false} WholeOperations(g: Geometry, d: Disk, ls: seq<Label>, i: nat, op: nat)
    requires CleanDisk(g, d)
    requires i < |Exec(g, Boot(d), ls).hist| && op in OpsOf(Exec(g, Boot(d), ls).hist[i])
    ensures var s := Exec(g, Boot(d), ls);
      && op in s.begun && op !in s.ops
      && WritesOf(op, s.issued) == WritesOf(op, s.hist[i])
      && forall j :: 0 <= j < |s.hist| && j != i ==> op !in OpsOf(s.hist[j])
  {
    RunOps(g, d, ls);
  }

  /** Durability: whenever no operation is outstanding and no commit is under way, every
      write of every group since the last crash is part of the committed history. */
  lemma {:induction false} QuiescentMeansDurable(g: Geometry, d: Disk, ls: seq<Label>)
    requires CleanDisk(g, d)
    ensures var s := Exec(g, Boot(d), ls);
      s.pc.Idle? && s.ops == map[] ==>
        s.group == [] && SameHome(g, s.view, ReplayAll(d.blocks, s.hist)) &&
        SameHome(g, s.disk.blocks, ReplayAll(d.blocks, s.hist))
  {
    RunInv(g, d, ls);
    ExecInit(g, Boot(d), ls);
    var s := Exec(g, Boot(d), ls);
    if s.pc.Idle? && s.ops == map[] {
      assert s.group != [] ==> s.group[0] in s.group && s.group[0].block in s.lh;
    }
  }

  /** Group i of the history, applied where it was committed, keeps property `good`. */
  ghost predicate Keeps(good: seq<Block> -> bool, d: seq<Block>, hist: seq<seq<Write>>, i: nat)
    requires i < |hist|
  {
    good(ReplayAll(d, hist[..i])) ==> good(Replay(ReplayAll(d, hist[..i]), hist[i]))
  }

  lemma {:induction false} ReplayKeeps(good: seq<Block> -> bool, d: seq<Block>, groups: seq<seq<Write>>, n: nat)
    requires n <= |groups| && good(d) && forall i :: 0 <= i < |groups| ==> Keeps(good, d, groups, i)
    ensures good(ReplayAll(d, groups[..n]))
  {
    if n > 0 {
      ReplayKeeps(good, d, groups, n - 1);
      assert Keeps(good, d, groups, n - 1);
      assert groups[..n][..n - 1] == groups[..n - 1];
    }
  }

  /** Any property of the home blocks that the committed groups keep survives every crash. */
  lemma {:induction false} InvariantSurvivesCrash(g: Geometry, d: Disk, ls: seq<Label>, good: seq<Block> -> bool)
    requires CleanDisk(g, d) && good(d.blocks)
    requires forall a, b :: SameHome(g, a, b) && good(b) ==> good(a)
    requires var hist := Exec(g, Boot(d), ls).hist;
      forall i :: 0 <= i < |hist| ==> Keeps(good, d.blocks, hist, i)
    ensures var s := Exec(g, Boot(d), ls); Recoverable(g, s.disk) && good(Recover(g, s.disk).blocks)
  {
    hide Exec, ReplayAll, Keeps, Recover;
    CrashAtomicity(g, d, ls);
    var hist := Exec(g, Boot(d), ls).hist;
    ReplayKeeps(good, d.blocks, hist, |hist|);
    assert hist[..|hist|] == hist;
  }

  // ----- reservation

  function Left(used: set<nat>): int {
    MAXOPBLOCKS - |used|
  }

  /** The blocks the outstanding operations may still log. */
  ghost function Unused(ops: map<nat, set<nat>>): int {
    if ops == map[] then 0
    else
      var op :| op in ops;
      Left(ops[op]) + Unused(ops - {op})
  }

  lemma {:induction false} UnusedSplit(ops: map<nat, set<nat>>, op: nat)
    requires op in ops
    ensures Unused(ops) == Left(ops[op]) + Unused(ops - {op})
    decreases |ops|
  {
    var p :| p in ops && Unused(ops) == Left(ops[p]) + Unused(ops - {p});
    if p != op {
      UnusedSplit(ops - {p}, op);
      UnusedSplit(ops - {op}, p);
      assert ops - {p} - {op} == ops - {op} - {p};
    }
  }

  lemma {:induction false} UnusedBound(ops: map<nat, set<nat>>)
    requires forall op :: op in ops ==> |ops[op]| <= MAXOPBLOCKS
    ensures 0 <= Unused(ops) <= MAXOPBLOCKS * |ops|
    decreases |ops|
  {
    if ops == map[] {
    } else {
      var op :| op in ops && Unused(ops) == Left(ops[op]) + Unused(ops - {op});
      var rest := ops - {op};
      UnusedBound(rest);
      assert ops.Keys == rest.Keys + {op};
      assert |ops| == |rest| + 1;
      assert 0 <= Left(ops[op]) <= MAXOPBLOCKS;
    }
  }

  /** The promise a caller makes: no operation logs more than MAXOPBLOCKS distinct blocks. */
  predicate WithinBudget(s: State, l: Label) {
    l.LogWrite? && l.op in s.ops ==> |s.ops[l.op] + {l.block}| <= MAXOPBLOCKS
  }

  predicate BudgetRun(g: Geometry, s: State, ls: seq<Label>)
    requires WellFormed(g, s)
  {
    ls == [] ||
    (BudgetRun(g, s, ls[..|ls| - 1]) && WithinBudget(Exec(g, s, ls[..|ls| - 1]), ls[|ls| - 1]))
  }

  ghost predicate Reserved(s: State) {
    && (forall op :: op in s.ops ==> |s.ops[op]| <= MAXOPBLOCKS)
    && (forall op, b :: op in s.ops && b in s.ops[op] ==> b in s.lh)
    && |s.lh| + Unused(s.ops) <= LOGSIZE
  }

  lemma BeginReserves(s: State, op: nat)
    requires Reserved(s) && s.ops.Keys <= s.begun
    ensures Reserved(BeginOp(s, op))
  {
    var r := BeginOp(s, op);
    if r != s {
      UnusedSplit(r.ops, op);
      assert r.ops - {op} == s.ops;
      UnusedBound(s.ops);
    }
  }

  lemma LogWriteReserves(g: Geometry, s: State, op: nat, b: nat, data: Block)
    requires WellFormed(g, s) && Reserved(s) && WithinBudget(s, LogWrite(op, b, data))
    ensures Reserved(DoLogWrite(g, s, op, b, data))
  {
    var r := DoLogWrite(g, s, op, b, data);
    if s.pc.Idle? && op in s.ops && g.Home(b) && |s.lh| < g.Capacity() {
      UnusedSplit(s.ops, op);
      UnusedSplit(r.ops, op);
      assert r.ops - {op} == s.ops - {op};
      assert forall x :: x in s.lh ==> x in r.lh;
      assert b in r.lh;
      if b in s.ops[op] {
        assert s.ops[op] + {b} == s.ops[op];
      }
    }
  }

  lemma EndReserves(s: State, op: nat)
    requires Reserved(s)
    ensures Reserved(EndOp(s, op))
  {
    if op in s.ops {
      UnusedSplit(s.ops, op);
    }
  }

  lemma StepReserves(g: Geometry, s: State, l: Label)
    requires Inv(g, s) && OpsInv(s) && Reserved(s) && WithinBudget(s, l)
    ensures Reserved(Apply(g, s, l))
  {
    match l
    case Begin(op) => BeginReserves(s, op);
    case LogWrite(op, b, data) => LogWriteReserves(g, s, op, b, data);
    case End(op) => EndReserves(s, op);
    case _ =>
  }

  /** If every operation keeps to its budget, the entries in the log plus all unused
      reservations never exceed LOGSIZE, in any run. */
  lemma {:induction false} Reservation(g: Geometry, d: Disk, ls: seq<Label>)
    requires CleanDisk(g, d) && BudgetRun(g, Boot(d), ls)
    ensures Reserved(Exec(g, Boot(d), ls))
  {
    if ls != [] {
      var ms := ls[..|ls| - 1];
      Reservation(g, d, ms);
      RunInv(g, d, ms);
      RunOps(g, d, ms);
      StepReserves(g, Exec(g, Boot(d), ms), ls[|ls| - 1]);
    }
  }

  // ----- when log_write panics

  /** A log area of more than LOGSIZE blocks never makes a budgeted log_write of a new block
      panic; the entry lands below index LOGSIZE. */
  lemma {:induction false} NewEntryFits(g: Geometry, d: Disk, ls: seq<Label>, op: nat, b: nat, data: Block)
    requires CleanDisk(g, d) && LOGSIZE < g.size
    requires BudgetRun(g, Boot(d), ls)
    requires var s := Exec(g, Boot(d), ls);
      s.pc.Idle? && op in s.ops && g.Home(b) && b !in s.lh && WithinBudget(s, LogWrite(op, b, data))
    ensures var s := Exec(g, Boot(d), ls);
      var r := Apply(g, s, LogWrite(op, b, data));
      r.pc.Idle? && |s.lh| < LOGSIZE && r.lh == s.lh + [b]
  {
    Reservation(g, d, ls);
    var s := Exec(g, Boot(d), ls);
    UnusedSplit(s.ops, op);
    UnusedBound(s.ops - {op});
    assert b !in s.ops[op];
  }

  /** In a log area that is large enough a budgeted log_write panics exactly when the header is
      full.  Then every reservation is used up and the block is already in the log: the write
      needed no new entry. */
  lemma {:induction false} PanicOnlyOnAbsorption(g: Geometry, d: Disk, ls: seq<Label>, op: nat, b: nat, data: Block)
    requires CleanDisk(g, d) && LOGSIZE < g.size
    requires BudgetRun(g, Boot(d), ls)
    requires var s := Exec(g, Boot(d), ls);
      s.pc.Idle? && op in s.ops && g.Home(b) && WithinBudget(s, LogWrite(op, b, data))
    ensures var s := Exec(g, Boot(d), ls);
      && (Apply(g, s, LogWrite(op, b, data)).pc.Down? <==> |s.lh| == LOGSIZE)
      && (|s.lh| == LOGSIZE ==> b in s.lh && Unused(s.ops) == 0)
  {
    var s := Exec(g, Boot(d), ls);
    Reservation(g, d, ls);
    UnusedBound(s.ops);
    if b !in s.lh {
      NewEntryFits(g, d, ls, op, b, data);
    }
  }

  /** Operation op has logged at most its share of n writes, ten per operation. */
  ghost predicate Share(s: State, op: nat, n: nat) {
    && op in s.ops
    && |s.ops[op]| <= (if n < op * MAXOPBLOCKS then 0
                       else if n < (op + 1) * MAXOPBLOCKS then n - op * MAXOPBLOCKS
                       else MAXOPBLOCKS)
  }

  ghost predicate Filled(g: Geometry, n: nat, s: State) {
    && s.pc.Idle?
    && |s.lh| == n
    && (forall i :: 0 <= i < n ==> s.lh[i] == g.start + g.size + i)
    && Share(s, 0, n) && Share(s, 1, n) && Share(s, 2, n)
    && (n > 0 ==> g.start + g.size in s.ops[0])
  }

  predicate RoomToFill(g: Geometry, d: Disk) {
    CleanDisk(g, d) && g.start + g.size + LOGSIZE <= g.nblocks
  }

  lemma ExecSnoc(g: Geometry, s: State, ls: seq<Label>, l: Label)
    requires WellFormed(g, s)
    ensures Exec(g, s, ls + [l]) == Apply(g, Exec(g, s, ls), l)
    ensures BudgetRun(g, s, ls + [l]) <==> BudgetRun(g, s, ls) && WithinBudget(Exec(g, s, ls), l)
  {
    assert (ls + [l])[..|ls|] == ls;
  }

  lemma ThreeBegins(g: Geometry, s: State)
    requires s.pc.Idle? && s.ops == map[] && s.begun !! {0, 1, 2} && s.lh == []
    ensures Filled(g, 0, BeginOp(BeginOp(BeginOp(s, 0), 1), 2))
  {
    var r := BeginOp(s, 0);
    assert r.ops == map[0 := {}];
    var r' := BeginOp(r, 1);
    assert r'.ops == map[0 := {}, 1 := {}];
  }

  lemma NoRun(g: Geometry, s: State)
    requires WellFormed(g, s)
    ensures Exec(g, s, []) == s && BudgetRun(g, s, [])
  {
  }

  /** A step that logs nothing, added to a run. */
  lemma FreeStep(g: Geometry, s: State, ls: seq<Label>, l: Label)
    requires WellFormed(g, s) && BudgetRun(g, s, ls) && !l.LogWrite?
    ensures Exec(g, s, ls + [l]) == Apply(g, Exec(g, s, ls), l) && BudgetRun(g, s, ls + [l])
  {
    hide Exec, BudgetRun;
    ExecSnoc(g, s, ls, l);
  }

  lemma Opened(g: Geometry, d: Disk)
    requires CleanDisk(g, d)
    ensures WellFormed(g, Boot(d))
    ensures var s := DoRecoverStep(g, DoRecoverStep(g, Boot(d)));
      s.pc.Idle? && s.ops == map[] && s.begun == {} && s.lh == []
  {
  }

  lemma FillStart(g: Geometry, d: Disk) returns (ls: seq<Label>)
    requires RoomToFill(g, d)
    ensures BudgetRun(g, Boot(d), ls)
    ensures Filled(g, 0, Exec(g, Boot(d), ls))
  {
    hide Exec, BudgetRun, WellFormed, DoRecoverStep, BeginOp, Filled, Boot;
    var s := Boot(d);
    Opened(g, d);
    NoRun(g, s);
    var l1 := [] + [RecoverStep];
    FreeStep(g, s, [], RecoverStep);
    var l2 := l1 + [RecoverStep];
    FreeStep(g, s, l1, RecoverStep);
    var l3 := l2 + [Begin(0)];
    FreeStep(g, s, l2, Begin(0));
    var l4 := l3 + [Begin(1)];
    FreeStep(g, s, l3, Begin(1));
    ls := l4 + [Begin(2)];
    FreeStep(g, s, l4, Begin(2));
    ThreeBegins(g, Exec(g, s, l2));
  }

  lemma FillStep(g: Geometry, s: State, op: nat, n: nat, data: Block)
    requires WellFormed(g, s) && Filled(g, n, s) && n < LOGSIZE && op == n / MAXOPBLOCKS
    requires g.start + g.size + LOGSIZE <= g.nblocks
    ensures var l := LogWrite(op, g.start + g.size + n, data);
      && l.block !in s.lh && l.op in s.ops
      && WithinBudget(s, l)
      && (n < g.Capacity() ==> Filled(g, n + 1, Apply(g, s, l)))
      && (n == g.Capacity() ==> Apply(g, s, l).pc.Down?)
  {
    var b := g.start + g.size + n;
    assert op == 0 || op == 1 || op == 2;
    assert |s.ops[op] + {b}| <= |s.ops[op]| + 1;
  }

  lemma FullPanics(g: Geometry, s: State, data: Block)
    requires WellFormed(g, s) && Filled(g, LOGSIZE, s) && LOGSIZE < g.size
    ensures var l := LogWrite(0, g.start + g.size, data);
      && l.block in s.lh && l.op in s.ops
      && WithinBudget(s, l) && Apply(g, s, l).pc.Down?
  {
    assert s.lh[0] == g.start + g.size;
    assert s.ops[0] + {g.start + g.size} == s.ops[0];
  }

  lemma FillOneMore(g: Geometry, s: State, ls: seq<Label>, n: nat, data: Block) returns (ms: seq<Label>)
    requires WellFormed(g, s) && BudgetRun(g, s, ls) && Filled(g, n, Exec(g, s, ls))
    requires n < g.Capacity() && g.start + g.size + LOGSIZE <= g.nblocks
    ensures BudgetRun(g, s, ms) && Filled(g, n + 1, Exec(g, s, ms))
  {
    var l := LogWrite(n / MAXOPBLOCKS, g.start + g.size + n, data);
    FillStep(g, Exec(g, s, ls), n / MAXOPBLOCKS, n, data);
    ExecSnoc(g, s, ls, l);
    ms := ls + [l];
  }

  /** Three operations can log n distinct blocks, ten each, for every n up to the capacity. */
  lemma {:induction false} FillReaches(g: Geometry, d: Disk, data: Block, n: nat) returns (ls: seq<Label>)
    requires RoomToFill(g, d) && n <= g.Capacity()
    ensures BudgetRun(g, Boot(d), ls)
    ensures Filled(g, n, Exec(g, Boot(d), ls))
  {
    if n == 0 {
      ls := FillStart(g, d);
    } else {
      var ms := FillReaches(g, d, data, n - 1);
      ls := FillOneMore(g, Boot(d), ms, n - 1, data);
    }
  }

  /** With LOGSIZE log blocks or fewer, header included, as mkfs lays the disk out, some run in
      which every operation keeps to its budget panics while logging a new block. */
  lemma {:induction false} SmallLogPanics(g: Geometry, d: Disk, data: Block) returns (ls: seq<Label>, l: Label)
    requires RoomToFill(g, d) && g.size <= LOGSIZE
    ensures BudgetRun(g, Boot(d), ls) && l.LogWrite? && WithinBudget(Exec(g, Boot(d), ls), l)
    ensures l.op in Exec(g, Boot(d), ls).ops && l.block !in Exec(g, Boot(d), ls).lh
    ensures Apply(g, Exec(g, Boot(d), ls), l).pc.Down?
  {
    var n := g.size - 1;
    ls := FillReaches(g, d, data, n);
    FillStep(g, Exec(g, Boot(d), ls), n / MAXOPBLOCKS, n, data);
    l := LogWrite(n / MAXOPBLOCKS, g.start + g.size + n, data);
  }

  /** Even a large log panics on a budgeted write that would be absorbed: log_write tests for a
      full log before it looks for the block. */
  lemma {:induction false} AbsorptionCanPanic(g: Geometry, d: Disk, data: Block) returns (ls: seq<Label>, l: Label)
    requires RoomToFill(g, d) && LOGSIZE < g.size
    ensures BudgetRun(g, Boot(d), ls) && l.LogWrite? && WithinBudget(Exec(g, Boot(d), ls), l)
    ensures l.op in Exec(g, Boot(d), ls).ops && l.block in Exec(g, Boot(d), ls).lh
    ensures Apply(g, Exec(g, Boot(d), ls), l).pc.Down?
  {
    ls := FillReaches(g, d, data, LOGSIZE);
    l := LogWrite(0, g.start + g.size, data);
    FullPanics(g, Exec(g, Boot(d), ls), data);
  }
}
