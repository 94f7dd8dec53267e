/** What every run of the log machine keeps: wherever crashes fall, recovery yields the
    committed groups, whole and in order. */
module CrashSafety {
  import opened Blocks
  import opened Wal

  // ----- crash atomicity

  /** Recovering d yields `target`: blocks outside the header's list are already right,
      and the log holds the right contents of those in it. */
  ghost predicate Safe(g: Geometry, d: Disk, target: seq<Block>) {
    && Recoverable(g, d)
    && |target| == g.nblocks
    && (forall b {:trigger target[b]} :: 0 <= b < g.nblocks && g.Home(b) && b !in d.head ==> d.blocks[b] == target[b])
    && (forall i :: 0 <= i < |d.head| ==> d.blocks[g.start + 1 + i] == target[d.head[i]])
  }

  /** How the volatile state relates to the disk while an uncommitted group exists. */
  ghost predicate Pending(g: Geometry, s: State)
    requires WellFormed(g, s)
  {
    && s.disk.head == []
    && SameHome(g, s.view, Replay(Committed(s), s.group))
    && (forall b {:trigger s.view[b]} :: 0 <= b < g.nblocks && g.Home(b) && b !in s.lh ==>
          s.view[b] == s.disk.blocks[b])
    && (forall w :: w in s.group ==> w.block in s.lh)
  }

  ghost predicate Logged(g: Geometry, s: State, k: nat)
    requires WellFormed(g, s) && k <= |s.lh|
  {
    forall i :: 0 <= i < k ==> s.disk.blocks[g.start + 1 + i] == s.view[s.lh[i]]
  }

  ghost predicate Installed(g: Geometry, s: State, k: nat)
    requires WellFormed(g, s) && k <= |s.lh|
  {
    && s.group == []
    && s.disk.head == s.lh
    && forall i :: 0 <= i < k ==> s.disk.blocks[s.lh[i]] == Committed(s)[s.lh[i]]
  }

  ghost predicate PhaseInv(g: Geometry, s: State)
    requires WellFormed(g, s)
  {
    match s.pc
    case Idle => Pending(g, s) && (s.ops == map[] ==> s.lh == [])
    case CopyLog(t) => Pending(g, s) && Logged(g, s, t)
    case Head => Pending(g, s) && Logged(g, s, |s.lh|)
    case Install(t) => Installed(g, s, t) && SameHome(g, s.view, Committed(s))
    case Clear => Installed(g, s, |s.lh|) && SameHome(g, s.view, Committed(s))
    case Finish => Pending(g, s) && s.lh == []
    case Down => s.group == [] && s.lh == []
    case RecInstall(t) => Installed(g, s, t)
    case RecClear => Installed(g, s, |s.lh|)
  }

  ghost predicate Inv(g: Geometry, s: State) {
    && WellFormed(g, s)
    && Safe(g, s.disk, Committed(s))
    && PhaseInv(g, s)
    && (!s.pc.Idle? ==> s.ops == map[])
  }

  lemma ReplayAllSnoc(d: seq<Block>, groups: seq<seq<Write>>, last: seq<Write>)
    ensures ReplayAll(d, groups + [last]) == Replay(ReplayAll(d, groups), last)
  {
    assert (groups + [last])[..|groups|] == groups;
  }

  lemma ReplaySnoc(d: seq<Block>, ws: seq<Write>, w: Write)
    requires w.block < |d|
    ensures Replay(d, ws + [w]) == Replay(d, ws)[w.block := w.data]
  {
    assert (ws + [w])[..|ws|] == ws;
  }

  lemma BootInv(g: Geometry, d: Disk)
    requires CleanDisk(g, d)
    ensures Inv(g, Boot(d))
  {
  }

  lemma HaltInv(g: Geometry, s: State)
    requires Inv(g, s)
    ensures Inv(g, Halt(s))
  {
    hide Safe, Pending, ReplayAll;
  }

  /** One more write of the pending group. */
  lemma PendingMore(g: Geometry, s: State, op: nat, b: nat, data: Block)
    requires WellFormed(g, s) && Pending(g, s) && s.pc.Idle? && op in s.ops && g.Home(b) && |s.lh| < g.Capacity()
    ensures Pending(g, DoLogWrite(g, s, op, b, data))
  {
    hide Replay, ReplayAll, Entries;
    var r := DoLogWrite(g, s, op, b, data);
    ReplaySnoc(Committed(s), s.group, Write(op, b, data));
    assert forall x :: x in s.lh ==> x in r.lh;
    assert b in r.lh;
  }

  lemma LogWriteInv(g: Geometry, s: State, op: nat, b: nat, data: Block)
    requires Inv(g, s)
    ensures Inv(g, DoLogWrite(g, s, op, b, data))
  {
    hide Safe, Pending, ReplayAll, Entries;
    var r := DoLogWrite(g, s, op, b, data);
    if s.pc.Idle? && op in s.ops && g.Home(b) {
      if |s.lh| < g.Capacity() {
        PendingMore(g, s, op, b, data);
        assert op in r.ops;
      } else {
        HaltInv(g, s);
      }
    }
  }

  lemma EndOpInv(g: Geometry, s: State, op: nat)
    requires Inv(g, s)
    ensures Inv(g, EndOp(s, op))
  {
  }

  lemma CopyLogStepInv(g: Geometry, s: State, t: nat)
    requires Inv(g, s) && s.pc == CopyLog(t)
    ensures Inv(g, DoCommitStep(g, s))
  {
  }

  lemma InstallStepInv(g: Geometry, s: State, t: nat)
    requires Inv(g, s) && s.pc == Install(t)
    ensures Inv(g, DoCommitStep(g, s))
  {
  }

  lemma ClearStepInv(g: Geometry, s: State)
    requires Inv(g, s) && s.pc.Clear?
    ensures Inv(g, DoCommitStep(g, s))
  {
    forall b | 0 <= b < g.nblocks && g.Home(b) ensures s.view[b] == s.disk.blocks[b] {
      assert s.view[b] == Committed(s)[b];
    }
  }

  lemma CommitStepInv(g: Geometry, s: State)
    requires Inv(g, s)
    ensures Inv(g, DoCommitStep(g, s))
  {
    match s.pc
    case CopyLog(t) => CopyLogStepInv(g, s, t);
    case Head => HeadStepInv(g, s);
    case Install(t) => InstallStepInv(g, s, t);
    case Clear => ClearStepInv(g, s);
    case _ =>
  }

  /** The header write: the one step that commits, and it commits the whole group. */
  lemma HeadStepInv(g: Geometry, s: State)
    requires Inv(g, s) && s.pc.Head?
    ensures Inv(g, DoCommitStep(g, s))
    ensures Committed(DoCommitStep(g, s)) == Replay(Committed(s), s.group)
  {
    ReplayAllSnoc(s.init, s.hist, s.group);
    var r := DoCommitStep(g, s);
    forall i | 0 <= i < |s.lh| ensures r.disk.blocks[g.start + 1 + i] == Committed(r)[s.lh[i]] {
      assert g.Home(s.lh[i]);
    }
  }

  lemma RecInstallStepInv(g: Geometry, s: State, t: nat)
    requires Inv(g, s) && s.pc == RecInstall(t)
    ensures Inv(g, DoRecoverStep(g, s))
  {
  }

  lemma RecClearStepInv(g: Geometry, s: State)
    requires Inv(g, s) && s.pc.RecClear?
    ensures Inv(g, DoRecoverStep(g, s))
  {
  }

  lemma RecoverStepInv(g: Geometry, s: State)
    requires Inv(g, s)
    ensures Inv(g, DoRecoverStep(g, s))
  {
    match s.pc
    case RecInstall(t) => RecInstallStepInv(g, s, t);
    case RecClear => RecClearStepInv(g, s);
    case _ =>
  }

  lemma StepInv(g: Geometry, s: State, l: Label)
    requires Inv(g, s)
    ensures Inv(g, Apply(g, s, l))
  {
    match l
    case LogWrite(op, b, data) => LogWriteInv(g, s, op, b, data);
    case End(op) => EndOpInv(g, s, op);
    case CommitStep => CommitStepInv(g, s);
    case RecoverStep => RecoverStepInv(g, s);
    case Crash => HaltInv(g, s);
    case Begin(_) =>
  }

  lemma {:induction false} RunInv(g: Geometry, d: Disk, ls: seq<Label>)
    requires CleanDisk(g, d)
    ensures Inv(g, Exec(g, Boot(d), ls))
  {
    BootInv(g, d);
    if ls != [] {
      RunInv(g, d, ls[..|ls| - 1]);
      StepInv(g, Exec(g, Boot(d), ls[..|ls| - 1]), ls[|ls| - 1]);
    }
  }

  // ----- what a completed recovery leaves on the disk

  lemma {:induction false} InstallFirstKeeps(g: Geometry, d: Disk, k: nat)
    requires Recoverable(g, d) && k <= |d.head|
    ensures var r := InstallFirst(g, d, k).blocks;
      && (forall i :: 0 <= i < k ==> r[d.head[i]] == d.blocks[g.start + 1 + i])
      && (forall b {:trigger r[b]} :: 0 <= b < g.nblocks && b !in d.head ==> r[b] == d.blocks[b])
  {
    if k > 0 {
      InstallFirstKeeps(g, d, k - 1);
      assert g.start + k !in d.head;
    }
  }

  /** Safe is exactly the condition under which recovery produces the target. */
  lemma SafeIffRecovers(g: Geometry, d: Disk, target: seq<Block>)
    requires Recoverable(g, d) && |target| == g.nblocks
    ensures Safe(g, d, target) <==> SameHome(g, Recover(g, d).blocks, target)
  {
    InstallFirstKeeps(g, d, |d.head|);
    var r := Recover(g, d).blocks;
    if Safe(g, d, target) {
      forall b | 0 <= b < g.nblocks && g.Home(b) ensures r[b] == target[b] {
        if b in d.head {
          var i :| 0 <= i < |d.head| && d.head[i] == b;
        }
      }
    }
    if SameHome(g, r, target) {
      forall i | 0 <= i < |d.head| ensures d.blocks[g.start + 1 + i] == target[d.head[i]] {
        assert g.Home(d.head[i]);
      }
    }
  }

  /** No block reaches its home location before the header that lists it is on disk, and what
      reaches it is what the committed groups put there. */
  lemma HomeAfterHeader(g: Geometry, d: Disk, ls: seq<Label>, l: Label, b: nat)
    requires CleanDisk(g, d) && g.Home(b)
    ensures var s := Exec(g, Boot(d), ls);
      var now := Apply(g, s, l).disk.blocks[b];
      now != s.disk.blocks[b] ==> b in s.disk.head && now == Committed(s)[b]
  {
    hide Exec, ReplayAll, Replay;
    RunInv(g, d, ls);
    var s := Exec(g, Boot(d), ls);
    if Apply(g, s, l).disk.blocks[b] != s.disk.blocks[b] {
      assert s.pc.CopyLog? || s.pc.Install? || s.pc.RecInstall?;
      if !s.pc.CopyLog? {
        assert b == s.lh[s.pc.tail];
      }
    }
  }

  lemma RecoverIdempotent(g: Geometry, d: Disk)
    requires Recoverable(g, d)
    ensures Recoverable(g, Recover(g, d))
    ensures Recover(g, Recover(g, d)) == Recover(g, d)
  {
    assert Recover(g, d).head == [];
  }

  /** Crash atomicity: whatever steps were taken, and wherever the crashes fell, recovering
      the disk yields exactly the committed groups, each applied whole. */
  lemma {:induction false} CrashAtomicity(g: Geometry, d: Disk, ls: seq<Label>)
    requires CleanDisk(g, d)
    ensures var s := Exec(g, Boot(d), ls);
      Recoverable(g, s.disk) && SameHome(g, Recover(g, s.disk).blocks, ReplayAll(d.blocks, s.hist))
  {
    RunInv(g, d, ls);
    var s := Exec(g, Boot(d), ls);
    ExecInit(g, Boot(d), ls);
    SafeIffRecovers(g, s.disk, Committed(s));
  }

  lemma {:induction false} ExecInit(g: Geometry, s: State, ls: seq<Label>)
    requires WellFormed(g, s)
    ensures Exec(g, s, ls).init == s.init
  {
    if ls != [] { ExecInit(g, s, ls[..|ls| - 1]); }
  }

  lemma {:induction false} ExecSplit(g: Geometry, s: State, ls: seq<Label>, ms: seq<Label>)
    requires WellFormed(g, s)
    ensures Exec(g, s, ls + ms) == Exec(g, Exec(g, s, ls), ms)
  {
    if ms == [] {
      assert ls + ms == ls;
    } else {
      var n := |ms| - 1;
      assert (ls + ms)[..|ls + ms| - 1] == ls + ms[..n];
      ExecSplit(g, s, ls, ms[..n]);
    }
  }

  /** What has been committed stays committed: later steps only append groups. */
  lemma {:induction false} HistoryIsPrefix(g: Geometry, s: State, ms: seq<Label>)
    requires WellFormed(g, s)
    ensures s.hist <= Exec(g, s, ms).hist
  {
    if ms != [] {
      HistoryIsPrefix(g, s, ms[..|ms| - 1]);
    }
  }

  predicate RecoveryLabels(ms: seq<Label>) {
    forall i :: 0 <= i < |ms| ==> ms[i] == Crash || ms[i] == RecoverStep
  }

  lemma {:induction false} RecoveryKeepsHistory(g: Geometry, s: State, ms: seq<Label>)
    requires Inv(g, s) && RecoveryLabels(ms)
    ensures Inv(g, Exec(g, s, ms)) && Committed(Exec(g, s, ms)) == Committed(s)
    ensures s.pc.Down? ==> Exec(g, s, ms).group == []
  {
    if ms != [] {
      var r := Exec(g, s, ms[..|ms| - 1]);
      RecoveryKeepsHistory(g, s, ms[..|ms| - 1]);
      StepInv(g, r, ms[|ms| - 1]);
    }
  }

  /** After a crash and any number of further crashes during recovery, the first recovery
      that completes leaves home blocks and cache view equal to the committed groups. */
  lemma {:induction false} RecoveryCompletes(g: Geometry, s: State, ms: seq<Label>)
    requires Inv(g, s) && RecoveryLabels(ms)
    requires s.pc.Down? && Exec(g, s, ms).pc.Idle?
    ensures var r := Exec(g, s, ms);
      SameHome(g, r.disk.blocks, Committed(s)) && SameHome(g, r.view, Committed(s)) && r.hist == s.hist
  {
    RecoveryKeepsHistory(g, s, ms);
    RecoveryHist(g, s, ms);
  }

  lemma {:induction false} RecoveryHist(g: Geometry, s: State, ms: seq<Label>)
    requires WellFormed(g, s) && RecoveryLabels(ms)
    ensures Exec(g, s, ms).hist == s.hist
  {
    if ms != [] { RecoveryHist(g, s, ms[..|ms| - 1]); }
  }

  function RecoverSteps(n: nat): (ms: seq<Label>)
    ensures |ms| == n && forall i :: 0 <= i < n ==> ms[i] == RecoverStep
  {
    if n == 0 then [] else RecoverSteps(n - 1) + [RecoverStep]
  }

  lemma RecoverStepsExec(g: Geometry, s: State, n: nat)
    requires WellFormed(g, s) && n > 0
    ensures Exec(g, s, RecoverSteps(n)) == DoRecoverStep(g, Exec(g, s, RecoverSteps(n - 1)))
  {
    assert RecoverSteps(n)[..|RecoverSteps(n)| - 1] == RecoverSteps(n - 1);
  }

  /** Undisturbed recovery takes one step per listed block plus two, and computes Recover. */
  lemma {:induction false} UndisturbedRecovery(g: Geometry, s: State)
    requires Inv(g, s) && s.pc.Down?
    ensures var r := Exec(g, s, RecoverSteps(|s.disk.head| + 2));
      r.pc.Idle? && r.disk == Recover(g, s.disk)
  {
    RecoverPrefix(g, s, |s.disk.head|);
    RecoverStepsExec(g, s, |s.disk.head| + 2);
  }

  ghost predicate RecoveredUpTo(g: Geometry, d: Disk, k: nat, r: State)
    requires Recoverable(g, d) && k <= |d.head|
  {
    && WellFormed(g, r)
    && r.lh == d.head
    && r.disk == InstallFirst(g, d, k)
    && r.pc == if k == |d.head| then RecClear else RecInstall(k)
  }

  lemma InstallOneMore(g: Geometry, d: Disk, k: nat, r: State)
    requires Recoverable(g, d) && k < |d.head| && RecoveredUpTo(g, d, k, r)
    ensures RecoveredUpTo(g, d, k + 1, DoRecoverStep(g, r))
  {
  }

  lemma FirstRecoverStep(g: Geometry, s: State)
    requires WellFormed(g, s) && Recoverable(g, s.disk) && s.pc.Down?
    ensures RecoveredUpTo(g, s.disk, 0, DoRecoverStep(g, s))
  {
  }

  lemma NoSteps(g: Geometry, s: State)
    requires WellFormed(g, s)
    ensures Exec(g, s, RecoverSteps(0)) == s
  {
  }

  lemma {:induction false} RecoverPrefix(g: Geometry, s: State, k: nat)
    requires WellFormed(g, s) && Recoverable(g, s.disk) && s.pc.Down? && k <= |s.disk.head|
    ensures RecoveredUpTo(g, s.disk, k, Exec(g, s, RecoverSteps(k + 1)))
  {
    hide DoRecoverStep, RecoveredUpTo, Apply, WellFormed, Recoverable, Exec, RecoverSteps, InstallFirst;
    RecoverStepsExec(g, s, k + 1);
    if k == 0 {
      NoSteps(g, s);
      FirstRecoverStep(g, s);
    } else {
      RecoverPrefix(g, s, k - 1);
      InstallOneMore(g, s.disk, k - 1, Exec(g, s, RecoverSteps(k)));
    }
  }
}
