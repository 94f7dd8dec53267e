/** sleeplock.c over sleep and wakeup of proc.c: any number of processes and sleep locks,
    interleaved at every access to a lock or to a shared word.  Spinlocks have explicit owners;
    ptable.lock passes between processes and the scheduler as swtch hands it over.  The timer may
    take the processor away wherever a process holds no spinlock. */
module SleepLock {
  import opened Machine

  type Pid = nat
  type Lock = nat

  datatype Status = Running | Runnable | Sleeping(chan: Lock)

  /** Where a process is.  A: acquiresleep.  S: sleep, called from there; away is after swtch.
      R: releasesleep with wakeup inlined; RScan is the loop of wakeup1.  K: kill. */
  datatype Stage =
    | Idle
    | ALock | ATest | ATake | AUnlock
    | SLockTable | SUnlock | SSleep | SAway | SUnlockTable | SLock
    | RLock | RClear | RLockTable | RScan | RUnlockTable | RUnlock
    | KLock | KMark | KUnlock

  predicate InKill(at: Stage) {
    at.KLock? || at.KMark? || at.KUnlock?
  }

  /** Spinning for the inner lock, holding it, about to give it back. */
  predicate WantsInner(at: Stage) {
    at.ALock? || at.SLock? || at.RLock?
  }

  predicate HasInner(at: Stage) {
    || at.ATest? || at.ATake? || at.SLockTable? || at.RClear? || at.RLockTable? || at.RScan? || at.RUnlockTable?
    || GivesInner(at)
  }

  predicate GivesInner(at: Stage) {
    at.AUnlock? || at.SUnlock? || at.RUnlock?
  }

  /** The same for ptable.lock, which SSleep gives to the scheduler. */
  predicate WantsTable(at: Stage) {
    at.SLockTable? || at.RLockTable? || at.KLock?
  }

  predicate HasTable(at: Stage) {
    at.SUnlock? || at.SSleep? || at.RScan? || at.KMark? || GivesTable(at)
  }

  predicate GivesTable(at: Stage) {
    at.SUnlockTable? || at.RUnlockTable? || at.KUnlock?
  }

  /** Outside all spinlocks, so that interrupts are on. */
  predicate Interruptible(at: Stage) {
    at.Idle? || WantsInner(at) || at.KLock?
  }

  /** Has seen the word set, and will sleep. */
  predicate GoesToSleep(at: Stage) {
    at.SLockTable? || at.SUnlock?
  }

  /** Past the point where the word was cleared. */
  predicate Cleared(at: Stage) {
    at.RLockTable? || at.RScan? || at.RUnlockTable? || at.RUnlock?
  }

  /** l is the lock the process is busy with, i the table entry RScan has reached or kill is
      after, held the locks it has got from acquiresleep and not given back. */
  datatype Proc = Proc(status: Status, at: Stage, l: Lock, i: nat, held: set<Lock>, killed: bool)

  datatype Holder = Free | Scheduler | By(p: Pid)

  /** locked and owner are the words of each sleep lock, inner the owner of its spinlock, table
      the holder of ptable.lock. */
  datatype State = State(locked: seq<bool>, owner: seq<Pid>, inner: seq<Option<Pid>>, table: Holder, procs: seq<Proc>)

  predicate Shape(s: State) {
    && |s.locked| == |s.owner| == |s.inner|
    && forall p :: 0 <= p < |s.procs| ==> InRange(s, s.procs[p])
  }

  /** The lock and the table entry a process deals with exist. */
  predicate InRange(s: State, me: Proc) {
    && (!me.at.Idle? && !InKill(me.at) ==> me.l < |s.locked|)
    && (InKill(me.at) ==> me.i < |s.procs|)
  }

  function Init(nproc: nat, nlock: nat): (s: State)
    ensures Shape(s) && |s.procs| == nproc && |s.locked| == nlock
  {
    State(seq(nlock, _ => false), seq(nlock, _ => 0), seq(nlock, _ => None), Free,
          seq(nproc, _ => Proc(Running, Idle, 0, 0, {}, false)))
  }

  // ----- steps

  /** Can a process go on?  A spinning acquire cannot until the lock is free. */
  predicate CanStep(s: State, p: Pid) {
    && Shape(s) && p < |s.procs| && s.procs[p].status.Running? && !s.procs[p].at.Idle? && !s.procs[p].at.SAway?
    && (WantsInner(s.procs[p].at) ==> s.inner[s.procs[p].l].None?)
    && (WantsTable(s.procs[p].at) ==> s.table.Free?)
  }

  /** What the step of process p does to itself. */
  function NextProc(s: State, p: Pid): Proc
    requires CanStep(s, p)
  {
    var me := s.procs[p];
    match me.at
    case ALock => me.(at := ATest)
    case ATest => me.(at := if s.locked[me.l] then SLockTable else ATake)
    case ATake => me.(at := AUnlock, held := me.held + {me.l})
    case AUnlock => me.(at := Idle)
    case SLockTable => me.(at := SUnlock)
    case SUnlock => me.(at := SSleep)
    case SSleep => me.(at := SAway, status := Sleeping(me.l))
    case SUnlockTable => me.(at := SLock)
    case SLock => me.(at := ATest)
    case RLock => me.(at := RClear)
    case RClear => me.(at := RLockTable, held := me.held - {me.l})
    case RLockTable => me.(at := RScan, i := 0)
    case RScan => if me.i >= |s.procs| then me.(at := RUnlockTable) else me.(i := me.i + 1)
    case RUnlockTable => me.(at := RUnlock)
    case RUnlock => me.(at := Idle)
    case KLock => me.(at := KMark)
    case KMark => if me.i == p then me.(at := KUnlock, killed := true) else me.(at := KUnlock)
    case KUnlock => me.(at := Idle)
    case SAway => me
    case Idle => me
  }

  /** What it does to the lock words. */
  function NextLocked(s: State, p: Pid): (r: seq<bool>)
    requires CanStep(s, p)
    ensures |r| == |s.locked|
  {
    var me := s.procs[p];
    if me.at.ATake? then s.locked[me.l := true] else if me.at.RClear? then s.locked[me.l := false] else s.locked
  }

  function NextOwner(s: State, p: Pid): (r: seq<Pid>)
    requires CanStep(s, p)
    ensures |r| == |s.owner|
  {
    var me := s.procs[p];
    if me.at.ATake? then s.owner[me.l := p] else if me.at.RClear? then s.owner[me.l := 0] else s.owner
  }

  function NextInner(s: State, p: Pid): (r: seq<Option<Pid>>)
    requires CanStep(s, p)
    ensures |r| == |s.inner|
  {
    var me := s.procs[p];
    if WantsInner(me.at) then s.inner[me.l := Some(p)]
    else if GivesInner(me.at) then s.inner[me.l := None]
    else s.inner
  }

  function NextTable(s: State, p: Pid): Holder
    requires CanStep(s, p)
  {
    var me := s.procs[p];
    if WantsTable(me.at) then By(p)
    else if me.at.SSleep? then Scheduler
    else if GivesTable(me.at) then Free
    else s.table
  }

  /** What it does to another process: wakeup1 and kill make sleepers runnable. */
  function NextOther(s: State, p: Pid, q: Pid): Proc
    requires CanStep(s, p) && q < |s.procs|
  {
    var me, other := s.procs[p], s.procs[q];
    if me.at.RScan? && me.i == q && other.status == Sleeping(me.l) then other.(status := Runnable)
    else if me.at.KMark? && me.i == q then
      other.(killed := true, status := if other.status.Sleeping? then Runnable else other.status)
    else other
  }

  function Step(s: State, p: Pid): (t: State)
    requires CanStep(s, p)
    ensures |t.procs| == |s.procs| && |t.locked| == |s.locked| && |t.owner| == |s.owner| && |t.inner| == |s.inner|
    ensures t.procs[p] == NextProc(s, p)
    ensures forall q {:trigger t.procs[q]} :: 0 <= q < |s.procs| && q != p ==> t.procs[q] == NextOther(s, p, q)
  {
    State(NextLocked(s, p), NextOwner(s, p), NextInner(s, p), NextTable(s, p),
          seq(|s.procs|, q requires 0 <= q < |s.procs| => if q == p then NextProc(s, p) else NextOther(s, p, q)))
  }

  datatype Label =
    | Acquire(p: Pid, l: Lock)
    | Release(p: Pid, l: Lock)
    | Kill(p: Pid, victim: Pid)
    | Run(p: Pid)
    | Preempt(p: Pid)
    | Dispatch(p: Pid)
    | SchedulerUnlock

  function Becomes(s: State, p: Pid, me: Proc): State
    requires p < |s.procs|
  {
    s.(procs := s.procs[p := me])
  }

  /** A label that is not enabled changes nothing.  Only a holder calls releasesleep. */
  function Apply(s: State, a: Label): (t: State)
    requires Shape(s)
    ensures |t.procs| == |s.procs| && |t.locked| == |s.locked| == |t.owner| == |t.inner|
  {
    match a
    case Acquire(p, l) =>
      if Calls(s, p) && l < |s.locked| then Becomes(s, p, s.procs[p].(at := ALock, l := l)) else s
    case Release(p, l) =>
      if Calls(s, p) && l < |s.locked| && l in s.procs[p].held then
        Becomes(s, p, s.procs[p].(at := RLock, l := l))
      else s
    case Kill(p, v) =>
      if Calls(s, p) && v < |s.procs| then Becomes(s, p, s.procs[p].(at := KLock, i := v)) else s
    case Run(p) => if CanStep(s, p) then Step(s, p) else s
    case Preempt(p) =>
      if CanPreempt(s, p) then Becomes(s, p, s.procs[p].(status := Runnable)).(table := Scheduler) else s
    case Dispatch(p) =>
      if !CanDispatch(s, p) then s
      else if s.procs[p].at.SAway? then
        Becomes(s, p, s.procs[p].(status := Running, at := SUnlockTable)).(table := By(p))
      else Becomes(s, p, s.procs[p].(status := Running)).(table := Free)
    case SchedulerUnlock => if s.table.Scheduler? then s.(table := Free) else s
  }

  /** A process that may start a call. */
  predicate Calls(s: State, p: Pid) {
    p < |s.procs| && s.procs[p].status.Running? && s.procs[p].at.Idle?
  }

  /** The timer: yield takes ptable.lock and leaves it to the scheduler. */
  predicate CanPreempt(s: State, p: Pid) {
    p < |s.procs| && s.procs[p].status.Running? && Interruptible(s.procs[p].at) && s.table.Free?
  }

  /** A process that slept comes back with ptable.lock in hand; one that was preempted gives it
      up at once. */
  predicate CanDispatch(s: State, p: Pid) {
    p < |s.procs| && s.procs[p].status.Runnable? && !s.table.By?
  }

  // ----- the invariant

  /** Somebody has cleared lock l and will still reach entry p with its wakeup. */
  predicate WillWake(s: State, l: Lock, p: Pid)
    requires |s.inner| > l
  {
    && s.inner[l].Some? && s.inner[l].value < |s.procs|
    && var r := s.procs[s.inner[l].value];
      r.l == l && (r.at.RLockTable? || (r.at.RScan? && r.i <= p))
  }

  predicate StatusOK(me: Proc) {
    && (me.at.SAway? ==> !me.status.Running?)
    && (me.status.Runnable? ==> me.at.SAway? || Interruptible(me.at))
    && (me.status.Sleeping? ==> me.at.SAway? && me.status.chan == me.l)
  }

  predicate OwnsOK(s: State, p: Pid)
    requires Shape(s) && p < |s.procs|
  {
    forall l :: l in s.procs[p].held ==> l < |s.locked| && s.locked[l] && s.owner[l] == p
  }

  /** What the place of a process says about the words of its lock. */
  predicate WordsOK(s: State, p: Pid)
    requires Shape(s) && p < |s.procs|
  {
    var me := s.procs[p];
    && (GoesToSleep(me.at) ==> s.locked[me.l])
    && (me.at.ATake? || Cleared(me.at) ==> !s.locked[me.l])
    && ((me.at.RLock? || me.at.RClear?) ==> me.l in me.held)
  }

  /** Who sleeps, or is about to with ptable.lock in hand, sleeps for a reason. */
  predicate SleepOK(s: State, p: Pid)
    requires Shape(s) && p < |s.procs|
  {
    var me := s.procs[p];
    me.at.SSleep? || (me.at.SAway? && me.status.Sleeping?) ==> s.locked[me.l] || WillWake(s, me.l, p)
  }

  predicate ProcOK(s: State, p: Pid)
    requires Shape(s)
  {
    && p < |s.procs| && StatusOK(s.procs[p]) && OwnsOK(s, p)
    && (HasTable(s.procs[p].at) <==> s.table == By(p))
    && (HasInner(s.procs[p].at) ==> s.inner[s.procs[p].l] == Some(p))
    && WordsOK(s, p) && SleepOK(s, p)
  }

  predicate LockOK(s: State, l: Lock)
    requires Shape(s) && l < |s.locked|
  {
    && (s.inner[l].Some? ==>
          s.inner[l].value < |s.procs| && HasInner(s.procs[s.inner[l].value].at) && s.procs[s.inner[l].value].l == l)
    && (s.locked[l] ==> s.owner[l] < |s.procs| && l in s.procs[s.owner[l]].held)
  }

  ghost predicate Inv(s: State) {
    && Shape(s)
    && (forall p :: 0 <= p < |s.procs| ==> ProcOK(s, p))
    && (forall l :: 0 <= l < |s.locked| ==> LockOK(s, l))
    && (s.table.By? ==> s.table.p < |s.procs|)
  }

  // ----- every step keeps it

  /** What the stages before and after a step have to do with each other. */
  lemma StageFacts(s: State, p: Pid)
    requires CanStep(s, p)
    ensures var was, now := s.procs[p], NextProc(s, p);
      && now.l == was.l
      && (HasInner(now.at) <==> WantsInner(was.at) || (HasInner(was.at) && !GivesInner(was.at)))
      && (HasTable(now.at) <==> WantsTable(was.at) || (HasTable(was.at) && !GivesTable(was.at) && !was.at.SSleep?))
      && (was.at.ATake? || was.at.RClear? ==> HasInner(was.at))
      && (WantsInner(was.at) ==> !HasInner(was.at)) && (WantsTable(was.at) ==> !HasTable(was.at))
      && (GivesTable(was.at) || was.at.SSleep? || was.at.RScan? || was.at.KMark? ==> HasTable(was.at))
  {
  }

  lemma StageWords(s: State, p: Pid)
    requires CanStep(s, p)
    ensures var was, now := s.procs[p], NextProc(s, p);
      && (GoesToSleep(now.at) ==> HasInner(now.at) && (GoesToSleep(was.at) || (was.at.ATest? && s.locked[was.l])))
      && (Cleared(now.at) ==> HasInner(now.at) && (Cleared(was.at) || was.at.RClear?))
      && (now.at.ATake? ==> HasInner(now.at) && was.at.ATest? && !s.locked[was.l])
      && (now.at.RClear? ==> was.at.RLock?) && !now.at.RLock?
      && (was.at.ATake? ==> now.held == was.held + {was.l})
      && (was.at.RClear? ==> now.held == was.held - {was.l} && now.at.RLockTable?)
      && (!was.at.ATake? && !was.at.RClear? ==> now.held == was.held)
      && !Cleared(ATake) && (was.at.ATake? ==> !GoesToSleep(now.at) && !Cleared(now.at) && !now.at.ATake?)
      && (was.at.RClear? ==> !GoesToSleep(now.at) && !Cleared(was.at))
  {
  }

  lemma StepShape(s: State, p: Pid)
    requires CanStep(s, p)
    ensures Shape(Step(s, p))
  {
    hide Step, NextOther;
    var t := Step(s, p);
    forall q | 0 <= q < |t.procs| ensures InRange(t, t.procs[q]) {
      assert InRange(s, s.procs[q]) && InRange(s, s.procs[p]);
      OtherFacts(s, p, q);
      OwnRange(s, p);
    }
  }

  lemma OwnRange(s: State, p: Pid)
    requires CanStep(s, p)
    ensures InRange(s, NextProc(s, p))
  {
    assert InRange(s, s.procs[p]);
  }

  lemma OtherFacts(s: State, p: Pid, q: Pid)
    requires CanStep(s, p) && q < |s.procs|
    ensures var was, now := s.procs[q], NextOther(s, p, q);
      && now.at == was.at && now.l == was.l && now.i == was.i && now.held == was.held
      && (now.status == was.status || (now.status.Runnable? && was.status.Sleeping?))
      && (s.procs[p].at.RScan? && s.procs[p].i == q ==> now.status != Sleeping(s.procs[p].l))
  {
  }

  lemma StepStatus(s: State, p: Pid, q: Pid)
    requires CanStep(s, p) && q < |s.procs| && StatusOK(s.procs[p]) && StatusOK(s.procs[q])
    ensures StatusOK(Step(s, p).procs[q])
  {
    hide Step, NextOther;
    OtherFacts(s, p, q);
  }

  lemma StepTable(s: State, p: Pid, q: Pid)
    requires CanStep(s, p) && ProcOK(s, p) && ProcOK(s, q)
    ensures HasTable(Step(s, p).procs[q].at) <==> Step(s, p).table == By(q)
  {
    hide OwnsOK, WordsOK, SleepOK, NextProc, NextOther, HasTable, WantsTable;
    hide GivesTable, HasInner, WantsInner, GivesInner;
    StageFacts(s, p);
    OtherFacts(s, p, q);
  }

  lemma StepInner(s: State, p: Pid, q: Pid)
    requires CanStep(s, p) && ProcOK(s, p) && ProcOK(s, q) && Shape(Step(s, p))
    ensures var t := Step(s, p); HasInner(t.procs[q].at) ==> Idle != t.procs[q].at && t.inner[t.procs[q].l] == Some(q)
  {
    hide OwnsOK, WordsOK, SleepOK, StatusOK, NextProc, NextOther, HasTable, WantsTable, GivesTable;
    StageFacts(s, p);
    OtherFacts(s, p, q);
  }

  lemma StepOwns(s: State, p: Pid, q: Pid)
    requires CanStep(s, p) && ProcOK(s, p) && ProcOK(s, q) && Shape(Step(s, p))
    ensures OwnsOK(Step(s, p), q)
  {
    hide StatusOK, SleepOK, NextProc, NextOther, HasTable, WantsTable, GivesTable, HasInner, WantsInner, GivesInner;
    StageWords(s, p);
    OtherFacts(s, p, q);
  }

  lemma StepWords(s: State, p: Pid, q: Pid)
    requires CanStep(s, p) && ProcOK(s, p) && ProcOK(s, q) && Shape(Step(s, p))
    ensures WordsOK(Step(s, p), q)
  {
    hide SleepOK, StatusOK, NextProc, NextOther, HasTable, WantsTable, GivesTable;
    StageFacts(s, p);
    StageWords(s, p);
    OtherFacts(s, p, q);
  }

  lemma StageWakes(s: State, p: Pid)
    requires CanStep(s, p)
    ensures var was, now := s.procs[p], NextProc(s, p);
      && (was.at.RLockTable? ==> now.at.RScan? && now.i == 0)
      && (was.at.RScan? && was.i < |s.procs| ==> now.at.RScan? && now.i == was.i + 1)
      && (now.at.SSleep? ==> was.at.SUnlock?)
      && (now.at.SAway? ==> was.at.SSleep?)
  {
  }

  /** A pending wakeup stays pending until it has reached the entry. */
  lemma WakeStays(s: State, p: Pid, l: Lock, q: Pid)
    requires CanStep(s, p) && ProcOK(s, p) && q < |s.procs| && l < |s.locked| && LockOK(s, l) && WillWake(s, l, q)
    ensures WillWake(Step(s, p), l, q) || (s.procs[p].at.RScan? && s.procs[p].l == l && s.procs[p].i == q)
  {
    hide SleepOK, StatusOK, OwnsOK, WordsOK, NextProc, NextOther, HasTable, WantsTable, GivesTable;
    StageFacts(s, p);
    StageWakes(s, p);
    OtherFacts(s, p, s.inner[l].value);
  }

  lemma ClearingWakes(s: State, p: Pid, l: Lock, q: Pid)
    requires CanStep(s, p) && ProcOK(s, p) && l < |s.locked| && s.procs[p].at.RClear? && s.procs[p].l == l
    ensures WillWake(Step(s, p), l, q)
  {
  }

  lemma StepSleep(s: State, p: Pid, q: Pid)
    requires CanStep(s, p) && ProcOK(s, p) && ProcOK(s, q) && Shape(Step(s, p))
    requires forall l :: 0 <= l < |s.locked| ==> LockOK(s, l)
    ensures SleepOK(Step(s, p), q)
  {
    hide OwnsOK, NextProc, NextOther, WillWake, HasInner, WantsInner, GivesInner, WantsTable, GivesTable, LockOK, Step;
    var t := Step(s, p);
    StageFacts(s, p);
    StageWakes(s, p);
    OtherFacts(s, p, q);
    var me, l := t.procs[q], t.procs[q].l;
    if me.at.SSleep? || (me.at.SAway? && me.status.Sleeping?) {
      assert InRange(t, me) && l < |s.locked|;
      StepWord(s, p, l);
      assert LockOK(s, l);
      if s.locked[l] {
        if s.procs[p].at.RClear? && s.procs[p].l == l {
          ClearingWakes(s, p, l, q);
        }
      } else {
        WakeStays(s, p, l, q);
      }
    }
  }

  lemma StepWord(s: State, p: Pid, l: Lock)
    requires CanStep(s, p) && l < |s.locked|
    ensures s.locked[l] && !(s.procs[p].at.RClear? && s.procs[p].l == l) ==> Step(s, p).locked[l]
  {
  }

  lemma StepLock(s: State, p: Pid, l: Lock)
    requires CanStep(s, p) && ProcOK(s, p) && l < |s.locked| && LockOK(s, l) && Shape(Step(s, p))
    ensures LockOK(Step(s, p), l)
  {
    hide SleepOK, StatusOK, NextProc, NextOther, HasTable, WantsTable, GivesTable, HasInner, WantsInner, GivesInner;
    StageFacts(s, p);
    StageWords(s, p);
    if s.inner[l].Some? {
      OtherFacts(s, p, s.inner[l].value);
    }
    if s.locked[l] {
      OtherFacts(s, p, s.owner[l]);
    }
  }

  lemma StepKeeps(s: State, p: Pid)
    requires Inv(s) && CanStep(s, p)
    ensures Inv(Step(s, p))
  {
    hide Step, ProcOK, LockOK, Shape;
    var t := Step(s, p);
    StepShape(s, p);
    assert ProcOK(s, p);
    forall q | 0 <= q < |t.procs| ensures ProcOK(t, q) {
      assert ProcOK(s, q);
      StepProc(s, p, q);
    }
    forall l | 0 <= l < |t.locked| ensures LockOK(t, l) {
      assert LockOK(s, l);
      StepLock(s, p, l);
    }
    StepTableInside(s, p);
  }

  lemma StepProc(s: State, p: Pid, q: Pid)
    requires CanStep(s, p) && ProcOK(s, p) && ProcOK(s, q) && Shape(Step(s, p))
    requires forall l :: 0 <= l < |s.locked| ==> LockOK(s, l)
    ensures ProcOK(Step(s, p), q)
  {
    hide Step, OwnsOK, WordsOK, SleepOK, HasTable, HasInner, StatusOK, LockOK;
    StepStatus(s, p, q);
    StepOwns(s, p, q);
    StepTable(s, p, q);
    StepInner(s, p, q);
    StepWords(s, p, q);
    StepSleep(s, p, q);
  }

  lemma StepTableInside(s: State, p: Pid)
    requires CanStep(s, p) && (s.table.By? ==> s.table.p < |s.procs|)
    ensures Step(s, p).table.By? ==> Step(s, p).table.p < |s.procs|
  {
  }

  /** Starting a call, being dispatched, and the scheduler letting go. */
  lemma OtherKeeps(s: State, a: Label)
    requires Inv(s) && !a.Run?
    ensures Inv(Apply(s, a))
  {
    hide ProcOK, LockOK, CanStep;
    var t := Apply(s, a);
    OtherShape(s, a);
    forall q | 0 <= q < |t.procs| ensures ProcOK(t, q) {
      assert ProcOK(s, q);
      OtherProc(s, a, q);
    }
    forall l | 0 <= l < |t.locked| ensures LockOK(t, l) {
      assert LockOK(s, l);
      OtherLock(s, a, l);
    }
  }

  lemma OtherShape(s: State, a: Label)
    requires Shape(s) && !a.Run?
    ensures Shape(Apply(s, a))
  {
  }

  lemma OtherProc(s: State, a: Label, q: Pid)
    requires Shape(s) && !a.Run? && ProcOK(s, q) && Shape(Apply(s, a))
    requires forall l :: 0 <= l < |s.locked| ==> LockOK(s, l)
    ensures ProcOK(Apply(s, a), q)
  {
    hide Apply, SleepOK, WordsOK, OwnsOK, StatusOK, HasTable, HasInner;
    OtherSleep(s, a, q);
    OtherWords(s, a, q);
    OtherStatus(s, a, q);
    OtherTable(s, a, q);
  }

  lemma OtherWords(s: State, a: Label, q: Pid)
    requires Shape(s) && !a.Run? && ProcOK(s, q) && Shape(Apply(s, a))
    ensures OwnsOK(Apply(s, a), q) && WordsOK(Apply(s, a), q)
  {
    hide CanStep, SleepOK, HasTable, HasInner;
  }

  lemma OtherStatus(s: State, a: Label, q: Pid)
    requires Shape(s) && !a.Run? && ProcOK(s, q)
    ensures StatusOK(Apply(s, a).procs[q])
  {
    hide CanStep, SleepOK, WordsOK, OwnsOK, HasTable, HasInner;
  }

  lemma OtherTable(s: State, a: Label, q: Pid)
    requires Shape(s) && !a.Run? && ProcOK(s, q) && Shape(Apply(s, a))
    ensures HasTable(Apply(s, a).procs[q].at) <==> Apply(s, a).table == By(q)
    ensures var me := Apply(s, a).procs[q]; HasInner(me.at) ==> !me.at.Idle? && Apply(s, a).inner[me.l] == Some(q)
  {
    hide CanStep, SleepOK, WordsOK, OwnsOK, StatusOK;
  }

  lemma OtherSleep(s: State, a: Label, q: Pid)
    requires Shape(s) && !a.Run? && ProcOK(s, q) && Shape(Apply(s, a))
    requires forall l :: 0 <= l < |s.locked| ==> LockOK(s, l)
    ensures SleepOK(Apply(s, a), q)
  {
    hide CanStep, OwnsOK, WordsOK, HasInner, HasTable, LockOK;
    var me := s.procs[q];
    if me.at.SSleep? || (me.at.SAway? && me.status.Sleeping?) {
      assert InRange(s, me);
      if !s.locked[me.l] {
        OtherWake(s, a, me.l, q);
      }
    }
  }

  /** A process that will wake somebody is in the middle of its call. */
  lemma OtherWake(s: State, a: Label, l: Lock, q: Pid)
    requires Shape(s) && !a.Run? && l < |s.locked| && WillWake(s, l, q)
    ensures WillWake(Apply(s, a), l, q)
  {
    hide CanStep;
  }

  lemma OtherLock(s: State, a: Label, l: Lock)
    requires Shape(s) && !a.Run? && l < |s.locked| && LockOK(s, l) && Shape(Apply(s, a))
    ensures LockOK(Apply(s, a), l)
  {
    hide CanStep;
  }

  lemma ApplyKeeps(s: State, a: Label)
    requires Inv(s)
    ensures Inv(Apply(s, a))
  {
    hide Step, CanStep, ProcOK, LockOK;
    if a.Run? {
      if CanStep(s, a.p) {
        StepKeeps(s, a.p);
      }
    } else {
      OtherKeeps(s, a);
    }
  }

  lemma InitInv(nproc: nat, nlock: nat)
    ensures Inv(Init(nproc, nlock))
  {
  }

  // ----- what it is for

  /** The state an interleaving leads to. */
  function Exec(s: State, run: seq<Label>): State {
    if run == [] then s
    else
      var t := Exec(s, run[..|run| - 1]);
      if Shape(t) then Apply(t, run[|run| - 1]) else t
  }

  lemma {:induction false} RunInv(s: State, run: seq<Label>)
    requires Inv(s)
    ensures var t := Exec(s, run); Inv(t) && |t.procs| == |s.procs| && |t.locked| == |s.locked|
    decreases |run|
  {
    hide Inv, Apply;
    if run != [] {
      RunInv(s, run[..|run| - 1]);
      var t := Exec(s, run[..|run| - 1]);
      InvShape(t);
      ApplyKeeps(t, run[|run| - 1]);
    }
  }

  lemma InvShape(s: State)
    requires Inv(s)
    ensures Shape(s)
  {
  }

  lemma AnyRun(nproc: nat, nlock: nat, run: seq<Label>)
    ensures var s := Exec(Init(nproc, nlock), run); Inv(s) && |s.procs| == nproc && |s.locked| == nlock
  {
    hide Inv, Exec;
    InitInv(nproc, nlock);
    RunInv(Init(nproc, nlock), run);
  }

  /** In every interleaving at most one process holds a sleep lock, and the words of the lock say
      who. */
  lemma MutualExclusion(nproc: nat, nlock: nat, run: seq<Label>, l: Lock)
    requires l < nlock
    ensures var s := Exec(Init(nproc, nlock), run);
      && Shape(s) && |s.procs| == nproc && |s.locked| == nlock
      && (forall p, q :: 0 <= p < nproc && 0 <= q < nproc && l in s.procs[p].held && l in s.procs[q].held ==> p == q)
      && (s.locked[l] <==> exists p :: 0 <= p < nproc && l in s.procs[p].held)
      && (s.locked[l] ==> s.owner[l] < nproc && l in s.procs[s.owner[l]].held)
  {
    hide Exec, Init, WordsOK, SleepOK, StatusOK;
    AnyRun(nproc, nlock, run);
    var s := Exec(Init(nproc, nlock), run);
    assert LockOK(s, l);
    forall p | 0 <= p < nproc ensures l in s.procs[p].held ==> s.locked[l] && s.owner[l] == p {
      assert ProcOK(s, p);
    }
  }

  /** No wakeup is lost: once the word is clear and the inner spinlock is free, nobody sleeps on
      the lock, and nobody who holds ptable.lock is about to. */
  lemma NoLostWakeup(nproc: nat, nlock: nat, run: seq<Label>, l: Lock, p: Pid)
    requires l < nlock && p < nproc
    ensures var s := Exec(Init(nproc, nlock), run);
      && Shape(s) && |s.procs| == nproc && |s.locked| == nlock
      && (!s.locked[l] && s.inner[l].None? ==>
            s.procs[p].status != Sleeping(l) && !(s.procs[p].at.SSleep? && s.procs[p].l == l))
  {
    hide Exec, Init;
    AnyRun(nproc, nlock, run);
    assert ProcOK(Exec(Init(nproc, nlock), run), p);
  }

  /** Somebody can move without a new call being made. */
  ghost predicate SomebodyMoves(s: State) {
    || s.table.Scheduler?
    || (exists p :: 0 <= p < |s.procs| && CanStep(s, p))
    || (exists p :: 0 <= p < |s.procs| && CanDispatch(s, p))
  }

  /** Spinning never deadlocks: while a process is inside a call and not asleep, somebody moves. */
  lemma NoDeadlock(nproc: nat, nlock: nat, run: seq<Label>, p: Pid)
    requires p < nproc
    ensures var s := Exec(Init(nproc, nlock), run);
      |s.procs| == nproc && (s.procs[p].at.Idle? || s.procs[p].status.Sleeping? || SomebodyMoves(s))
  {
    hide Exec, Init, OwnsOK, WordsOK, SleepOK;
    AnyRun(nproc, nlock, run);
    var s := Exec(Init(nproc, nlock), run);
    assert ProcOK(s, p);
    if s.table.By? {
      assert ProcOK(s, s.table.p);
      assert CanStep(s, s.table.p);
    } else if s.procs[p].status.Runnable? {
      assert CanDispatch(s, p);
    } else if s.table.Free? && s.procs[p].status.Running? && !s.procs[p].at.Idle? && !CanStep(s, p) {
      assert WantsInner(s.procs[p].at) && InRange(s, s.procs[p]);
      var l := s.procs[p].l;
      assert LockOK(s, l);
      var q := s.inner[l].value;
      assert ProcOK(s, q);
      assert CanStep(s, q);
    }
  }
}
