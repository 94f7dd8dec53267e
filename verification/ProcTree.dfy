/** proc.c: the process table under fork, exit, wait, sleep, wakeup and kill.  Each method is one
    stretch of kernel code that other processes cannot interrupt: the body of a ptable.lock
    critical section, or one of the steps fork takes without the lock. */
module ProcTree {
  import opened Machine

  datatype RunState = UNUSED | EMBRYO | SLEEPING | RUNNABLE | RUNNING | ZOMBIE

  /** wait sleeps on the address of the process itself; everything else sleeps elsewhere. */
  datatype Channel = Nothing | Self(slot: nat) | Elsewhere(id: nat)

  /** What a process is in the middle of. */
  datatype Task = User | Forking(child: nat, linked: bool) | Waiting

  datatype Slot = Slot(state: RunState, pid: nat, parent: Option<nat>, chan: Channel, killed: bool, task: Task)

  type Table = seq<Slot>

  predicate Alive(s: Slot) {
    s.state.SLEEPING? || s.state.RUNNABLE? || s.state.RUNNING?
  }

  predicate InWait(t: Table, p: nat)
    requires p < |t|
  {
    t[p].state.SLEEPING? && t[p].chan == Self(p)
  }

  // ----- the invariant

  /** Links: free slots have no parent; a parent is alive and older than its child; only init and
      a child not yet linked by fork are without one. */
  predicate LinkOK(t: Table, init: nat, p: nat)
    requires p < |t|
  {
    && (t[p].state.UNUSED? ==> t[p].parent.None?)
    && (t[p].parent.Some? ==>
          t[p].parent.value < |t| && Alive(t[t[p].parent.value]) && t[t[p].parent.value].pid < t[p].pid)
    && (p != init && (Alive(t[p]) || t[p].state.ZOMBIE?) ==> t[p].parent.Some?)
    && (p == init ==> Alive(t[p]) && t[p].parent.None?)
  }

  /** Sleeping: only wait sleeps on a process, on itself, and not beside a zombie child. */
  predicate SleepOK(t: Table, p: nat)
    requires p < |t|
  {
    && (t[p].state.SLEEPING? && t[p].chan.Self? ==> t[p].chan == Self(p) && t[p].task.Waiting?)
    && (t[p].task.Waiting? ==> Alive(t[p]))
    && (t[p].state.ZOMBIE? && t[p].parent.Some? ==> !(t[p].parent.value < |t| && InWait(t, t[p].parent.value)))
  }

  /** Forking: the child is an embryo of the forking process alone. */
  predicate ForkOK(t: Table, init: nat, p: nat)
    requires p < |t|
  {
    t[p].task.Forking? ==>
      var c := t[p].task.child;
      && Alive(t[p]) && !t[p].state.SLEEPING? && c < |t| && c != init
      && t[c].state.EMBRYO? && t[c].parent == (if t[p].task.linked then Some(p) else None)
      && t[p].pid < t[c].pid
  }

  predicate PidOK(t: Table, init: nat, nextpid: nat, p: nat)
    requires p < |t|
  {
    && t[p].pid < nextpid && (!t[p].state.UNUSED? ==> t[p].pid > 0)
    && (p == init ==> t[p].pid == 1)
  }

  ghost predicate Distinct(t: Table) {
    && (forall p, q :: 0 <= p < q < |t| && !t[p].state.UNUSED? && !t[q].state.UNUSED? ==> t[p].pid != t[q].pid)
    && (forall p, q :: 0 <= p < q < |t| && t[p].task.Forking? && t[q].task.Forking? ==>
          t[p].task.child != t[q].task.child)
  }

  ghost predicate Inv(t: Table, init: nat, nextpid: nat) {
    && init < |t|
    && (forall p :: 0 <= p < |t| ==> LinkOK(t, init, p))
    && (forall p :: 0 <= p < |t| ==> SleepOK(t, p))
    && (forall p :: 0 <= p < |t| ==> ForkOK(t, init, p))
    && (forall p :: 0 <= p < |t| ==> PidOK(t, init, nextpid, p))
    && Distinct(t)
  }

  /** The books: every process that exited is either still a zombie or was reaped, once. */
  ghost predicate Books(t: Table, nextpid: nat, exited: seq<nat>, reaped: seq<nat>) {
    && (forall i, j :: 0 <= i < j < |exited| ==> exited[i] != exited[j])
    && (forall i, j :: 0 <= i < j < |reaped| ==> reaped[i] != reaped[j])
    && (forall x :: x in exited ==> x < nextpid)
    && (forall x :: x in reaped ==> x in exited && !InUse(t, x))
    && (forall x :: x in exited && x !in reaped ==> IsZombie(t, x))
    && (forall p :: 0 <= p < |t| && t[p].state.ZOMBIE? ==> t[p].pid in exited)
    && (forall p :: 0 <= p < |t| && (Alive(t[p]) || t[p].state.EMBRYO?) ==> t[p].pid !in exited)
  }

  ghost predicate InUse(t: Table, pid: nat) {
    exists p :: 0 <= p < |t| && !t[p].state.UNUSED? && t[p].pid == pid
  }

  ghost predicate IsZombie(t: Table, pid: nat) {
    exists p :: 0 <= p < |t| && t[p].state.ZOMBIE? && t[p].pid == pid
  }

  // ----- what each stretch of code does to the table

  function Woken(s: Slot, chan: Channel): Slot {
    if s.state.SLEEPING? && s.chan == chan then s.(state := RUNNABLE) else s
  }

  predicate HasZombie(t: Table, p: nat) {
    exists c :: 0 <= c < |t| && t[c].state.ZOMBIE? && t[c].parent == Some(p)
  }

  predicate HasChild(t: Table, p: nat) {
    exists c :: 0 <= c < |t| && t[c].parent == Some(p)
  }

  /** exit, for one entry: the parent is woken, children go to init, and init is woken if a
      zombie is among them. */
  function Exited(t: Table, init: nat, me: nat, p: nat): Slot
    requires me < |t| && p < |t| && t[me].parent.Some?
  {
    var s := Woken(t[p], Self(t[me].parent.value));
    var u := if HasZombie(t, me) then Woken(s, Self(init)) else s;
    if p == me then u.(state := ZOMBIE)
    else if u.parent == Some(me) then u.(parent := Some(init))
    else u
  }

  function ExitTable(t: Table, init: nat, me: nat): (r: Table)
    requires me < |t| && t[me].parent.Some?
    ensures |r| == |t| && forall p {:trigger r[p]} :: 0 <= p < |t| ==> r[p] == Exited(t, init, me, p)
  {
    seq(|t|, p requires 0 <= p < |t| => Exited(t, init, me, p))
  }

  function WakeTable(t: Table, chan: Channel): (r: Table)
    ensures |r| == |t| && forall p {:trigger r[p]} :: 0 <= p < |t| ==> r[p] == Woken(t[p], chan)
  {
    seq(|t|, p requires 0 <= p < |t| => Woken(t[p], chan))
  }

  function Reap(s: Slot): Slot {
    s.(pid := 0, parent := None, killed := false, state := UNUSED)
  }

  // ----- steps that change the state of one process among the living

  /** The parts of a slot the tree depends on. */
  predicate SameLinks(a: Slot, b: Slot) {
    a.pid == b.pid && a.parent == b.parent && (Alive(a) <==> Alive(b)) && (!Alive(a) ==> a.state == b.state)
  }

  /** A change of running states, channels and tasks that wakes, or lets sleep with good reason. */
  lemma StirKeeps(t: Table, u: Table, init: nat, nextpid: nat)
    requires Inv(t, init, nextpid) && |u| == |t| && forall p :: 0 <= p < |t| ==> SameLinks(t[p], u[p])
    requires forall p :: 0 <= p < |t| && u[p].task.Forking? ==> u[p].task == t[p].task && !u[p].state.SLEEPING?
    requires forall p :: 0 <= p < |t| && u[p].task.Waiting? ==> Alive(u[p])
    requires forall p :: 0 <= p < |t| && u[p].state.SLEEPING? && u[p].chan.Self? ==>
      u[p].chan == Self(p) && u[p].task.Waiting? && !HasZombie(t, p)
    ensures Inv(u, init, nextpid)
  {
    hide HasZombie;
    forall p | 0 <= p < |u| ensures LinkOK(u, init, p) && PidOK(u, init, nextpid, p) {
      assert LinkOK(t, init, p) && PidOK(t, init, nextpid, p);
    }
    forall p | 0 <= p < |u| ensures ForkOK(u, init, p) {
      assert ForkOK(t, init, p);
    }
    forall p | 0 <= p < |u| ensures SleepOK(u, p) {
      StirSleep(t, u, p);
    }
  }

  lemma StirSleep(t: Table, u: Table, p: nat)
    requires |u| == |t| && p < |t| && SameLinks(t[p], u[p])
    requires u[p].task.Waiting? ==> Alive(u[p])
    requires forall p :: 0 <= p < |t| && u[p].state.SLEEPING? && u[p].chan.Self? ==>
      u[p].chan == Self(p) && u[p].task.Waiting? && !HasZombie(t, p)
    ensures SleepOK(u, p)
  {
    if t[p].state.ZOMBIE? && t[p].parent.Some? {
      assert HasZombie(t, t[p].parent.value);
    }
  }

  /** Whoever sleeps in wait has no zombie child. */
  lemma NoZombieBeside(t: Table, init: nat, nextpid: nat, p: nat)
    requires Inv(t, init, nextpid) && p < |t| && InWait(t, p)
    ensures !HasZombie(t, p)
  {
    forall c | 0 <= c < |t| ensures !(t[c].state.ZOMBIE? && t[c].parent == Some(p)) {
      assert SleepOK(t, c);
    }
  }

  lemma {:induction false} StirBooks(t: Table, u: Table, nextpid: nat, exited: seq<nat>, reaped: seq<nat>)
    requires Books(t, nextpid, exited, reaped) && |u| == |t| && forall p :: 0 <= p < |t| ==> SameLinks(t[p], u[p])
    ensures Books(u, nextpid, exited, reaped)
  {
    forall x | x in reaped ensures !InUse(u, x) {
      forall p | 0 <= p < |u| ensures u[p].state.UNUSED? || u[p].pid != x {
        assert t[p].state.UNUSED? || t[p].pid != x;
      }
    }
    forall x | x in exited && x !in reaped ensures IsZombie(u, x) {
      var p :| 0 <= p < |t| && t[p].state.ZOMBIE? && t[p].pid == x;
      assert u[p].state.ZOMBIE? && u[p].pid == x;
    }
  }

  // ----- fork

  function Born(t: Table, me: nat, c: nat, pid: nat): Table
    requires me < |t| && c < |t|
  {
    t[c := t[c].(state := EMBRYO, pid := pid)][me := t[me].(task := Forking(c, false))]
  }

  lemma BornKeeps(t: Table, init: nat, nextpid: nat, me: nat, c: nat)
    requires Inv(t, init, nextpid) && me < |t| && c < |t| && t[me].state.RUNNING? && t[me].task.User?
    requires t[c].state.UNUSED?
    ensures Inv(Born(t, me, c, nextpid), init, nextpid + 1)
  {
    hide Distinct;
    var u, next := Born(t, me, c, nextpid), nextpid + 1;
    forall p | 0 <= p < |u| ensures LinkOK(u, init, p) && PidOK(u, init, next, p) {
      assert LinkOK(t, init, p) && PidOK(t, init, nextpid, p);
      assert LinkOK(t, init, c);
    }
    forall p | 0 <= p < |u| ensures SleepOK(u, p) && ForkOK(u, init, p) {
      assert SleepOK(t, p) && ForkOK(t, init, p) && PidOK(t, init, nextpid, p) && SleepOK(t, c) && LinkOK(t, init, c);
    }
    BornDistinct(t, init, nextpid, me, c);
  }

  lemma BornDistinct(t: Table, init: nat, nextpid: nat, me: nat, c: nat)
    requires Inv(t, init, nextpid) && me < |t| && c < |t| && t[me].state.RUNNING? && t[c].state.UNUSED?
    ensures Distinct(Born(t, me, c, nextpid))
  {
    hide LinkOK, SleepOK;
    var u := Born(t, me, c, nextpid);
    forall p, q | 0 <= p < q < |u| && !u[p].state.UNUSED? && !u[q].state.UNUSED? ensures u[p].pid != u[q].pid {
      assert PidOK(t, init, nextpid, p) && PidOK(t, init, nextpid, q);
    }
    forall p, q | 0 <= p < q < |u| && u[p].task.Forking? && u[q].task.Forking?
      ensures u[p].task.child != u[q].task.child
    {
      assert ForkOK(t, init, p) && ForkOK(t, init, q);
      assert ForkOK(t, init, c);
    }
  }

  lemma BornBooks(t: Table, init: nat, nextpid: nat, me: nat, c: nat, exited: seq<nat>, reaped: seq<nat>)
    requires Inv(t, init, nextpid) && Books(t, nextpid, exited, reaped)
    requires me < |t| && c < |t| && t[me].state.RUNNING? && t[c].state.UNUSED?
    ensures Books(Born(t, me, c, nextpid), nextpid + 1, exited, reaped)
  {
    hide LinkOK, SleepOK, ForkOK, PidOK;
    var u := Born(t, me, c, nextpid);
    forall x | x in reaped ensures !InUse(u, x) {
      forall p | 0 <= p < |u| ensures u[p].state.UNUSED? || u[p].pid != x {
        assert t[p].state.UNUSED? || t[p].pid != x;
      }
    }
    forall x | x in exited && x !in reaped ensures IsZombie(u, x) {
      var p :| 0 <= p < |t| && t[p].state.ZOMBIE? && t[p].pid == x;
      assert u[p].state.ZOMBIE? && u[p].pid == x;
    }
  }

  /** No memory for the stack or the address space: the slot goes back, keeping its number. */
  function Unborn(t: Table, me: nat, c: nat): Table
    requires me < |t| && c < |t|
  {
    t[c := t[c].(state := UNUSED)][me := t[me].(task := User)]
  }

  predicate ForkedBy(t: Table, me: nat, c: nat, linked: bool) {
    me < |t| && c < |t| && t[me].state.RUNNING? && t[me].task == Forking(c, linked)
  }

  lemma UnbornKeeps(t: Table, init: nat, nextpid: nat, me: nat, c: nat)
    requires Inv(t, init, nextpid) && ForkedBy(t, me, c, false)
    ensures Inv(Unborn(t, me, c), init, nextpid)
  {
    var u := Unborn(t, me, c);
    assert ForkOK(t, init, me);
    forall p | 0 <= p < |u| ensures LinkOK(u, init, p) && PidOK(u, init, nextpid, p) {
      assert LinkOK(t, init, p) && PidOK(t, init, nextpid, p);
    }
    forall p | 0 <= p < |u| ensures SleepOK(u, p) && ForkOK(u, init, p) {
      assert SleepOK(t, p) && ForkOK(t, init, p) && SleepOK(t, c);
    }
  }

  lemma UnbornBooks(t: Table, init: nat, nextpid: nat, me: nat, c: nat, exited: seq<nat>, reaped: seq<nat>)
    requires Books(t, nextpid, exited, reaped) && ForkedBy(t, me, c, false) && ForkOK(t, init, me)
    ensures Books(Unborn(t, me, c), nextpid, exited, reaped)
  {
    var u := Unborn(t, me, c);
    forall x | x in reaped ensures !InUse(u, x) {
      forall p | 0 <= p < |u| ensures u[p].state.UNUSED? || u[p].pid != x {
        assert t[p].state.UNUSED? || t[p].pid != x;
      }
    }
    forall x | x in exited && x !in reaped ensures IsZombie(u, x) {
      var p :| 0 <= p < |t| && t[p].state.ZOMBIE? && t[p].pid == x;
      assert u[p].state.ZOMBIE? && u[p].pid == x;
    }
  }

  /** fork sets the parent of the child, without the lock. */
  function Linked(t: Table, me: nat, c: nat): Table
    requires me < |t| && c < |t|
  {
    t[c := t[c].(parent := Some(me))][me := t[me].(task := Forking(c, true))]
  }

  lemma LinkedKeeps(t: Table, init: nat, nextpid: nat, me: nat, c: nat)
    requires Inv(t, init, nextpid) && ForkedBy(t, me, c, false)
    ensures Inv(Linked(t, me, c), init, nextpid)
  {
    var u := Linked(t, me, c);
    assert ForkOK(t, init, me);
    forall p | 0 <= p < |u| ensures LinkOK(u, init, p) && PidOK(u, init, nextpid, p) {
      assert LinkOK(t, init, p) && PidOK(t, init, nextpid, p);
    }
    forall p | 0 <= p < |u| ensures SleepOK(u, p) && ForkOK(u, init, p) {
      assert SleepOK(t, p) && ForkOK(t, init, p) && SleepOK(t, c);
    }
  }

  function Started(t: Table, me: nat, c: nat): Table
    requires me < |t| && c < |t|
  {
    t[c := t[c].(state := RUNNABLE)][me := t[me].(task := User)]
  }

  lemma StartedKeeps(t: Table, init: nat, nextpid: nat, me: nat, c: nat)
    requires Inv(t, init, nextpid) && ForkedBy(t, me, c, true)
    ensures Inv(Started(t, me, c), init, nextpid)
  {
    var u := Started(t, me, c);
    assert ForkOK(t, init, me);
    forall p | 0 <= p < |u| ensures LinkOK(u, init, p) && PidOK(u, init, nextpid, p) {
      assert LinkOK(t, init, p) && PidOK(t, init, nextpid, p);
    }
    forall p | 0 <= p < |u| ensures SleepOK(u, p) && ForkOK(u, init, p) {
      assert SleepOK(t, p) && ForkOK(t, init, p) && SleepOK(t, c);
    }
  }

  lemma StartedBooks(t: Table, init: nat, nextpid: nat, me: nat, c: nat, exited: seq<nat>, reaped: seq<nat>, u: Table)
    requires Books(t, nextpid, exited, reaped) && me < |t| && ForkOK(t, init, me)
    requires
      || (ForkedBy(t, me, c, true) && u == Started(t, me, c))
      || (ForkedBy(t, me, c, false) && u == Linked(t, me, c))
    ensures Books(u, nextpid, exited, reaped)
  {
    forall x | x in reaped ensures !InUse(u, x) {
      forall p | 0 <= p < |u| ensures u[p].state.UNUSED? || u[p].pid != x {
        assert t[p].state.UNUSED? || t[p].pid != x;
      }
    }
    forall x | x in exited && x !in reaped ensures IsZombie(u, x) {
      var p :| 0 <= p < |t| && t[p].state.ZOMBIE? && t[p].pid == x;
      assert u[p].state.ZOMBIE? && u[p].pid == x;
    }
  }

  // ----- exit

  predicate MayExit(t: Table, init: nat, me: nat) {
    me < |t| && me != init && t[me].state.RUNNING? && t[me].task.User?
  }

  lemma ExitLinks(t: Table, init: nat, nextpid: nat, me: nat, p: nat)
    requires Inv(t, init, nextpid) && MayExit(t, init, me) && t[me].parent.Some? && p < |t|
    ensures LinkOK(ExitTable(t, init, me), init, p) && PidOK(ExitTable(t, init, me), init, nextpid, p)
  {
    hide HasZombie;
    var u := ExitTable(t, init, me);
    assert LinkOK(t, init, p) && LinkOK(t, init, me) && LinkOK(t, init, init);
    assert PidOK(t, init, nextpid, p) && PidOK(t, init, nextpid, init) && PidOK(t, init, nextpid, me);
    assert u[p] == Exited(t, init, me, p) && u[init] == Exited(t, init, me, init);
    if t[p].parent.Some? {
      var q := t[p].parent.value;
      assert u[q] == Exited(t, init, me, q);
    }
  }

  lemma ExitSleep(t: Table, init: nat, nextpid: nat, me: nat, p: nat)
    requires Inv(t, init, nextpid) && MayExit(t, init, me) && t[me].parent.Some? && p < |t|
    ensures SleepOK(ExitTable(t, init, me), p)
  {
    hide HasZombie;
    var u := ExitTable(t, init, me);
    assert SleepOK(t, p) && LinkOK(t, init, p) && LinkOK(t, init, me);
    assert u[p] == Exited(t, init, me, p);
    if t[p].state.ZOMBIE? && t[p].parent == Some(me) {
      ChildZombie(t, me, p);
      assert u[init] == Exited(t, init, me, init);
    } else if p == me {
      var q := t[me].parent.value;
      assert u[q] == Exited(t, init, me, q);
    } else if t[p].parent.Some? {
      var q := t[p].parent.value;
      assert u[q] == Exited(t, init, me, q);
    }
  }

  lemma ChildZombie(t: Table, me: nat, p: nat)
    requires p < |t| && t[p].state.ZOMBIE? && t[p].parent == Some(me)
    ensures HasZombie(t, me)
  {
  }

  lemma ExitFork(t: Table, init: nat, nextpid: nat, me: nat, p: nat)
    requires Inv(t, init, nextpid) && MayExit(t, init, me) && t[me].parent.Some? && p < |t|
    ensures ForkOK(ExitTable(t, init, me), init, p)
  {
    hide HasZombie;
    var u := ExitTable(t, init, me);
    assert ForkOK(t, init, p) && u[p] == Exited(t, init, me, p);
    if t[p].task.Forking? {
      var c := t[p].task.child;
      assert u[c] == Exited(t, init, me, c);
    }
  }

  lemma ExitKeeps(t: Table, init: nat, nextpid: nat, me: nat)
    requires Inv(t, init, nextpid) && MayExit(t, init, me)
    ensures init < |t| && t[me].parent.Some? && t[me].parent != Some(me) && Inv(ExitTable(t, init, me), init, nextpid)
  {
    hide HasZombie, LinkOK, SleepOK, ForkOK, PidOK;
    ParentThere(t, init, nextpid, me);
    var u := ExitTable(t, init, me);
    forall p | 0 <= p < |u|
      ensures LinkOK(u, init, p) && PidOK(u, init, nextpid, p) && SleepOK(u, p) && ForkOK(u, init, p)
    {
      ExitLinks(t, init, nextpid, me, p);
      ExitSleep(t, init, nextpid, me, p);
      ExitFork(t, init, nextpid, me, p);
    }
    forall p | 0 <= p < |u|
      ensures u[p].pid == t[p].pid && u[p].task == t[p].task && (u[p].state.UNUSED? ==> t[p].state.UNUSED?)
    {
      assert u[p] == Exited(t, init, me, p);
    }
  }

  lemma ParentThere(t: Table, init: nat, nextpid: nat, me: nat)
    requires Inv(t, init, nextpid) && MayExit(t, init, me)
    ensures t[me].parent.Some? && t[me].parent != Some(me)
  {
    assert LinkOK(t, init, me);
  }

  lemma ExitBooks(t: Table, init: nat, nextpid: nat, me: nat, exited: seq<nat>, reaped: seq<nat>)
    requires Inv(t, init, nextpid) && MayExit(t, init, me) && Books(t, nextpid, exited, reaped) && t[me].parent.Some?
    ensures Books(ExitTable(t, init, me), nextpid, exited + [t[me].pid], reaped)
  {
    hide HasZombie, LinkOK, SleepOK, ForkOK;
    var u := ExitTable(t, init, me);
    assert PidOK(t, init, nextpid, me);
    assert u[me] == Exited(t, init, me, me);
    forall p | 0 <= p < |u|
      ensures u[p].pid == t[p].pid && (u[p].state.UNUSED? <==> t[p].state.UNUSED?)
      ensures p != me ==> (u[p].state.ZOMBIE? <==> t[p].state.ZOMBIE?)
    {
      assert u[p] == Exited(t, init, me, p);
    }
    forall x | x in reaped ensures !InUse(u, x) {
      forall p | 0 <= p < |u| ensures u[p].state.UNUSED? || u[p].pid != x {
        assert t[p].state.UNUSED? || t[p].pid != x;
      }
    }
    forall x | x in exited + [t[me].pid] && x !in reaped ensures IsZombie(u, x) {
      if x == t[me].pid {
        assert u[me].state.ZOMBIE? && u[me].pid == x;
      } else {
        var p :| 0 <= p < |t| && t[p].state.ZOMBIE? && t[p].pid == x;
        assert u[p].state.ZOMBIE? && u[p].pid == x;
      }
    }
  }

  // ----- wait

  predicate IsZombieChild(t: Table, me: nat, c: nat) {
    c < |t| && t[c].state.ZOMBIE? && t[c].parent == Some(me)
  }

  /** wait reaps zombie child c of me, the first one in the table. */
  predicate TakesAway(t: Table, u: Table, me: nat, c: nat, pid: nat) {
    && me < |t| && IsZombieChild(t, me, c) && t[c].pid == pid && u == t[c := Reap(t[c])][me := t[me].(task := User)]
    && forall q :: 0 <= q < c ==> !IsZombieChild(t, me, q)
  }

  lemma ReapKeeps(t: Table, init: nat, nextpid: nat, me: nat, c: nat)
    requires Inv(t, init, nextpid) && me < |t| && t[me].state.RUNNING? && !t[me].task.Forking?
    requires IsZombieChild(t, me, c)
    ensures Inv(t[c := Reap(t[c])][me := t[me].(task := User)], init, nextpid)
  {
    var u := t[c := Reap(t[c])][me := t[me].(task := User)];
    assert LinkOK(t, init, c) && SleepOK(t, c) && ForkOK(t, init, c);
    forall p | 0 <= p < |u| ensures LinkOK(u, init, p) && PidOK(u, init, nextpid, p) {
      assert LinkOK(t, init, p) && PidOK(t, init, nextpid, p) && PidOK(t, init, nextpid, c);
    }
    forall p | 0 <= p < |u| ensures SleepOK(u, p) && ForkOK(u, init, p) {
      assert SleepOK(t, p) && ForkOK(t, init, p);
    }
  }

  lemma ReapBooks(t: Table, nextpid: nat, me: nat, c: nat, exited: seq<nat>, reaped: seq<nat>)
    requires Books(t, nextpid, exited, reaped) && Distinct(t) && me < |t| && Alive(t[me]) && IsZombieChild(t, me, c)
    ensures t[c].pid !in reaped
    ensures Books(t[c := Reap(t[c])][me := t[me].(task := User)], nextpid, exited, reaped + [t[c].pid])
  {
    var u := t[c := Reap(t[c])][me := t[me].(task := User)];
    var pid := t[c].pid;
    assert InUse(t, pid);
    forall x | x in reaped + [pid] ensures x in exited && !InUse(u, x) {
      forall p | 0 <= p < |u| ensures u[p].state.UNUSED? || u[p].pid != x {
        assert x in reaped ==> t[p].state.UNUSED? || t[p].pid != x;
      }
    }
    forall x | x in exited && x !in reaped + [pid] ensures IsZombie(u, x) {
      assert x !in reaped;
      var p :| 0 <= p < |t| && t[p].state.ZOMBIE? && t[p].pid == x;
      assert u[p].state.ZOMBIE? && u[p].pid == x;
    }
  }

  // ----- what the invariant is for

  /** Free slots have no parent; the parent of a zombie is alive, so that somebody can reap it;
      whoever sleeps in wait has no zombie child; and following parents leads to init. */
  ghost predicate TreeSafe(t: Table, init: nat) {
    && (forall p :: 0 <= p < |t| && t[p].state.UNUSED? ==> t[p].parent.None?)
    && (forall p :: 0 <= p < |t| && t[p].state.ZOMBIE? ==>
          t[p].parent.Some? && t[p].parent.value < |t| && Alive(t[t[p].parent.value]))
    && (forall p :: 0 <= p < |t| && InWait(t, p) ==> !HasZombie(t, p))
    && (forall p :: 0 <= p < |t| && (Alive(t[p]) || t[p].state.ZOMBIE?) ==> Descends(t, init, p))
  }

  /** init is an ancestor of p, or p itself. */
  ghost predicate Descends(t: Table, init: nat, p: nat) {
    exists steps: nat :: Ancestor(t, p, steps) == Some(init)
  }

  function Ancestor(t: Table, p: nat, steps: nat): Option<nat>
    decreases steps
  {
    if p >= |t| then None
    else if steps == 0 then Some(p)
    else if t[p].parent.None? then None
    else Ancestor(t, t[p].parent.value, steps - 1)
  }

  lemma {:induction false} ReachesInit(t: Table, init: nat, nextpid: nat, p: nat) returns (steps: nat)
    requires Inv(t, init, nextpid) && p < |t| && (Alive(t[p]) || t[p].state.ZOMBIE?)
    ensures Ancestor(t, p, steps) == Some(init)
    decreases t[p].pid
  {
    hide Distinct, SleepOK, ForkOK;
    assert LinkOK(t, init, p);
    if p == init {
      steps := 0;
    } else {
      var up := ReachesInit(t, init, nextpid, t[p].parent.value);
      steps := up + 1;
    }
  }

  lemma InvSafe(t: Table, init: nat, nextpid: nat)
    requires Inv(t, init, nextpid)
    ensures TreeSafe(t, init)
  {
    hide HasZombie, Distinct, SleepOK, ForkOK, PidOK;
    forall p | 0 <= p < |t|
      ensures t[p].state.UNUSED? ==> t[p].parent.None?
      ensures t[p].state.ZOMBIE? ==> t[p].parent.Some? && t[p].parent.value < |t| && Alive(t[t[p].parent.value])
      ensures InWait(t, p) ==> !HasZombie(t, p)
      ensures Alive(t[p]) || t[p].state.ZOMBIE? ==> Descends(t, init, p)
    {
      assert LinkOK(t, init, p);
      if InWait(t, p) {
        NoZombieBeside(t, init, nextpid, p);
      }
      if Alive(t[p]) || t[p].state.ZOMBIE? {
        var steps := ReachesInit(t, init, nextpid, p);
      }
    }
  }

  lemma ChildInside(t: Table, init: nat, nextpid: nat, me: nat)
    requires Inv(t, init, nextpid) && me < |t| && t[me].task.Forking?
    ensures t[me].task.child < |t| && t[me].task.child != me && t[t[me].task.child].state.EMBRYO?
  {
    assert ForkOK(t, init, me);
  }

  // ----- who is born killed

  /** What happens to the killed mark of a slot: kill finds the slot in some state, wait clears it,
      and allocproc hands the slot out as it is. */
  datatype Note = Strike(slot: nat, state: RunState) | Clear(slot: nat) | Birth(slot: nat, marked: bool)

  /** The states in which kill has found slot p since wait last cleared it. */
  function Strikes(log: seq<Note>, p: nat): seq<RunState> {
    if log == [] then []
    else
      var before := Strikes(log[..|log| - 1], p);
      match log[|log| - 1]
      case Strike(q, state) => if q == p then before + [state] else before
      case Clear(q) => if q == p then [] else before
      case Birth(_, _) => before
  }

  /** No process runs in the slot yet. */
  predicate Young(s: RunState) {
    s.UNUSED? || s.EMBRYO?
  }

  /** A slot is marked exactly if kill found it since it was last reaped; while nobody runs in it,
      kill found it free or with an embryo. */
  ghost predicate MarkOK(s: Slot, log: seq<Note>, p: nat) {
    && (s.killed <==> Strikes(log, p) != [])
    && (Young(s.state) ==> forall r :: r in Strikes(log, p) ==> Young(r))
  }

  ghost predicate MarksOK(t: Table, log: seq<Note>) {
    forall p :: 0 <= p < |t| ==> MarkOK(t[p], log, p)
  }

  /** A child is born killed exactly if, since its slot was last reaped, kill found that slot free
      or with an embryo. */
  ghost predicate BirthOK(log: seq<Note>, i: nat)
    requires i < |log|
  {
    log[i].Birth? ==>
      && (log[i].marked <==> Strikes(log[..i], log[i].slot) != [])
      && (forall r :: r in Strikes(log[..i], log[i].slot) ==> Young(r))
  }

  ghost predicate BirthsOK(log: seq<Note>) {
    forall i :: 0 <= i < |log| ==> BirthOK(log, i)
  }

  lemma StrikesMore(log: seq<Note>, n: Note, p: nat)
    ensures Strikes(log + [n], p) ==
      if n.Strike? && n.slot == p then Strikes(log, p) + [n.state]
      else if n.Clear? && n.slot == p then []
      else Strikes(log, p)
  {
    assert (log + [n])[..|log|] == log;
  }

  lemma BirthsMore(log: seq<Note>, n: Note)
    requires BirthsOK(log)
    requires n.Birth? ==>
      && (n.marked <==> Strikes(log, n.slot) != [])
      && (forall r :: r in Strikes(log, n.slot) ==> Young(r))
    ensures BirthsOK(log + [n])
  {
    hide Strikes;
    var all := log + [n];
    forall i | 0 <= i < |all| ensures BirthOK(all, i) {
      if i < |log| {
        assert all[..i] == log[..i] && BirthOK(log, i);
      } else {
        assert all[..i] == log;
      }
    }
  }

  /** Steps that mark nobody and put no running slot back. */
  lemma MarksSame(t: Table, u: Table, log: seq<Note>)
    requires MarksOK(t, log) && |u| == |t|
    requires forall p :: 0 <= p < |t| ==> u[p].killed == t[p].killed && (Young(u[p].state) ==> Young(t[p].state))
    ensures MarksOK(u, log)
  {
    hide Strikes;
    forall p | 0 <= p < |u| ensures MarkOK(u[p], log, p) {
      assert MarkOK(t[p], log, p);
    }
  }

  lemma ExitMarks(t: Table, init: nat, me: nat, log: seq<Note>)
    requires MarksOK(t, log) && me < |t| && t[me].parent.Some?
    ensures MarksOK(ExitTable(t, init, me), log)
    ensures t[me].state.RUNNING? ==> (Clean(ExitTable(t, init, me)) <==> Clean(t))
  {
    hide HasZombie, Clean;
    var u := ExitTable(t, init, me);
    forall p | 0 <= p < |t|
      ensures u[p].killed == t[p].killed && (Young(u[p].state) ==> Young(t[p].state))
      ensures p != me ==> (u[p].state.UNUSED? <==> t[p].state.UNUSED?)
    {
      assert u[p] == Exited(t, init, me, p);
    }
    MarksSame(t, u, log);
    if t[me].state.RUNNING? {
      CleanSame(t, u);
    }
  }

  lemma BirthMarks(t: Table, me: nat, c: nat, pid: nat, log: seq<Note>)
    requires MarksOK(t, log) && BirthsOK(log) && me < |t| && c < |t| && !Young(t[me].state) && t[c].state.UNUSED?
    ensures MarksOK(Born(t, me, c, pid), log + [Birth(c, t[c].killed)]) && BirthsOK(log + [Birth(c, t[c].killed)])
  {
    hide Strikes;
    assert MarkOK(t[c], log, c);
    BirthsMore(log, Birth(c, t[c].killed));
    var u := Born(t, me, c, pid);
    forall p | 0 <= p < |u| ensures MarkOK(u[p], log + [Birth(c, t[c].killed)], p) {
      assert MarkOK(t[p], log, p);
      StrikesMore(log, Birth(c, t[c].killed), p);
    }
  }

  lemma StrikeMarks(t: Table, c: nat, log: seq<Note>)
    requires MarksOK(t, log) && BirthsOK(log) && c < |t|
    ensures MarksOK(t[c := Struck(t[c])], log + [Strike(c, t[c].state)]) && BirthsOK(log + [Strike(c, t[c].state)])
  {
    hide Strikes;
    BirthsMore(log, Strike(c, t[c].state));
    var u := t[c := Struck(t[c])];
    forall p | 0 <= p < |u| ensures MarkOK(u[p], log + [Strike(c, t[c].state)], p) {
      assert MarkOK(t[p], log, p);
      StrikesMore(log, Strike(c, t[c].state), p);
    }
  }

  lemma ClearMarks(t: Table, me: nat, c: nat, log: seq<Note>)
    requires MarksOK(t, log) && BirthsOK(log) && me < |t| && c < |t| && me != c && !Young(t[me].state)
    ensures MarksOK(t[c := Reap(t[c])][me := t[me].(task := User)], log + [Clear(c)]) && BirthsOK(log + [Clear(c)])
  {
    hide Strikes;
    BirthsMore(log, Clear(c));
    var u := t[c := Reap(t[c])][me := t[me].(task := User)];
    forall p | 0 <= p < |u| ensures MarkOK(u[p], log + [Clear(c)], p) {
      assert MarkOK(t[p], log, p);
      StrikesMore(log, Clear(c), p);
    }
  }

  /** No free slot is marked as killed, so that the next process is not born killed. */
  predicate Clean(t: Table) {
    forall p :: 0 <= p < |t| && t[p].state.UNUSED? ==> !t[p].killed
  }

  predicate FirstFree(t: Table, p: nat) {
    p < |t| && t[p].state.UNUSED? && forall q :: 0 <= q < p ==> !t[q].state.UNUSED?
  }

  predicate FirstWith(t: Table, pid: nat, p: nat) {
    p < |t| && t[p].pid == pid && forall q :: 0 <= q < p ==> t[q].pid != pid
  }

  predicate RunsIn(t: Table, me: nat) {
    me < |t| && t[me].state.RUNNING? && t[me].task.User?
  }

  /** Whether an event leaves all free slots unmarked: fork takes the first one away, kill may
      mark one, and giving up a fork may put a marked one back. */
  ghost predicate StaysClean(t: Table, e: Event) {
    match e
    case Fork(me) =>
      forall p :: 0 <= p < |t| && t[p].state.UNUSED? && !(RunsIn(t, me) && FirstFree(t, p)) ==> !t[p].killed
    case ForkGoesOn(me, memory) =>
      Clean(t) && forall c: nat :: c < |t| && ForkedBy(t, me, c, false) && !memory ==> !t[c].killed
    case KillCall(pid) => Clean(t) && forall p: nat :: FirstWith(t, pid, p) ==> !t[p].state.UNUSED?
    case _ => Clean(t)
  }

  /** What each event does to the table; what is not possible changes nothing. */
  ghost predicate Steps(t: Table, init: nat, nextpid: nat, e: Event, u: Table, nextpid': nat) {
    && nextpid' == (if e.Fork? && RunsIn(t, e.me) && exists c: nat :: FirstFree(t, c) then nextpid + 1 else nextpid)
    && match e
       case Fork(me) =>
         if RunsIn(t, me) && exists c: nat :: FirstFree(t, c)
         then exists c: nat :: FirstFree(t, c) && u == Born(t, me, c, nextpid) else u == t
       case ForkGoesOn(me, memory) =>
         if me < |t| && t[me].state.RUNNING? && t[me].task.Forking? && t[me].task.child < |t| then
           var c := t[me].task.child;
           u == if t[me].task.linked then Started(t, me, c) else if memory then Linked(t, me, c) else Unborn(t, me, c)
         else u == t
       case ExitCall(me) => if MayExit(t, init, me) && t[me].parent.Some? then u == ExitTable(t, init, me) else u == t
       case WaitCall(me) =>
         if me < |t| && t[me].state.RUNNING? && !t[me].task.Forking? then Waits(t, me, u) else u == t
       case SleepCall(me, id) =>
         u == if RunsIn(t, me) then t[me := t[me].(state := SLEEPING, chan := Elsewhere(id))] else t
       case WakeCall(id) => u == WakeTable(t, Elsewhere(id))
       case KillCall(pid) =>
         if exists c: nat :: FirstWith(t, pid, c)
         then exists c: nat :: FirstWith(t, pid, c) && u == t[c := Struck(t[c])] else u == t
       case Preempt(me) => u == if me < |t| && t[me].state.RUNNING? then t[me := t[me].(state := RUNNABLE)] else t
       case Pick(p) =>
         u == if p < |t| && t[p].state.RUNNABLE? then t[p := t[p].(state := RUNNING, chan := Nothing)] else t
  }

  /** wait: reap the first zombie child, return without one, or sleep. */
  ghost predicate Waits(t: Table, me: nat, u: Table)
    requires me < |t|
  {
    if HasZombie(t, me) then exists c: nat, pid: nat :: TakesAway(t, u, me, c, pid)
    else if !HasChild(t, me) || t[me].killed then u == t[me := t[me].(task := User)]
    else u == t[me := t[me].(state := SLEEPING, chan := Self(me), task := Waiting)]
  }

  /** The notes an event adds: one for every birth, every kill that finds a slot, every reaping. */
  ghost predicate Noted(t: Table, e: Event, n: seq<Note>) {
    match e
    case Fork(me) =>
      if RunsIn(t, me) && exists c: nat :: FirstFree(t, c)
      then |n| == 1 && n[0].Birth? && FirstFree(t, n[0].slot) && n[0].marked == t[n[0].slot].killed
      else n == []
    case KillCall(pid) =>
      if exists c: nat :: FirstWith(t, pid, c)
      then |n| == 1 && n[0].Strike? && FirstWith(t, pid, n[0].slot) && n[0].state == t[n[0].slot].state
      else n == []
    case WaitCall(me) =>
      if me < |t| && t[me].state.RUNNING? && !t[me].task.Forking? && HasZombie(t, me)
      then |n| == 1 && n[0].Clear? && IsZombieChild(t, me, n[0].slot)
      else n == []
    case _ => n == []
  }

  /** The number an event adds to those that exited. */
  function Exits(t: Table, init: nat, e: Event): seq<nat> {
    if e.ExitCall? && MayExit(t, init, e.me) then [t[e.me].pid] else []
  }

  predicate FirstZombie(t: Table, me: nat, c: nat) {
    IsZombieChild(t, me, c) && forall q :: 0 <= q < c ==> !IsZombieChild(t, me, q)
  }

  /** The numbers an event adds to those that were reaped. */
  ghost predicate Reaps(t: Table, e: Event, n: seq<nat>) {
    if e.WaitCall? && e.me < |t| && t[e.me].state.RUNNING? && !t[e.me].task.Forking? && HasZombie(t, e.me)
    then exists c: nat :: FirstZombie(t, e.me, c) && n == [t[c].pid]
    else n == []
  }

  /** The table with all histories. */
  datatype Snap = Snap(t: Table, nextpid: nat, log: seq<Note>, exited: seq<nat>, reaped: seq<nat>)

  /** Event e leads from a to b: the table changes as specified, and every history grows by
      exactly what the event adds. */
  ghost predicate Follows(a: Snap, init: nat, e: Event, b: Snap) {
    && Steps(a.t, init, a.nextpid, e, b.t, b.nextpid)
    && a.log <= b.log && Noted(a.t, e, b.log[|a.log|..])
    && b.exited == a.exited + Exits(a.t, init, e)
    && a.reaped <= b.reaped && Reaps(a.t, e, b.reaped[|a.reaped|..])
  }

  /** Steps that free no slot, take no free slot and mark nobody. */
  lemma CleanSame(t: Table, u: Table)
    requires |u| == |t|
    requires forall p :: 0 <= p < |t| ==> u[p].killed == t[p].killed && (u[p].state.UNUSED? <==> t[p].state.UNUSED?)
    ensures Clean(u) <==> Clean(t)
  {
    if Clean(u) {
      forall p | 0 <= p < |t| && t[p].state.UNUSED? ensures !t[p].killed {
        assert u[p].killed == t[p].killed;
      }
    }
  }

  lemma NobodyBorn(t: Table, me: nat)
    ensures !RunsIn(t, me) ==> (Clean(t) <==> StaysClean(t, Fork(me)))
    ensures (forall p :: 0 <= p < |t| ==> !t[p].state.UNUSED?) ==> Clean(t) && StaysClean(t, Fork(me))
  {
  }

  lemma BornClean(t: Table, me: nat, c: nat, pid: nat)
    requires RunsIn(t, me) && FirstFree(t, c)
    ensures Clean(Born(t, me, c, pid)) <==> StaysClean(t, Fork(me))
  {
    var u := Born(t, me, c, pid);
    assert forall p :: 0 <= p < |t| ==> u[p].killed == t[p].killed;
    assert forall p :: 0 <= p < |t| ==> (u[p].state.UNUSED? <==> t[p].state.UNUSED? && p != c);
    assert forall p :: 0 <= p < |t| && FirstFree(t, p) ==> p == c;
    if Clean(u) {
      forall p | 0 <= p < |t| && t[p].state.UNUSED? && !FirstFree(t, p) ensures !t[p].killed {
        assert u[p].state.UNUSED?;
      }
    }
  }

  lemma UnbornClean(t: Table, me: nat, c: nat)
    requires ForkedBy(t, me, c, false) && t[c].state.EMBRYO?
    ensures Clean(Unborn(t, me, c)) <==> StaysClean(t, ForkGoesOn(me, false))
  {
    var u := Unborn(t, me, c);
    assert forall p :: 0 <= p < |t| ==> u[p].killed == t[p].killed;
    assert forall p :: 0 <= p < |t| ==> (u[p].state.UNUSED? <==> t[p].state.UNUSED? || p == c);
    if Clean(u) {
      assert !u[c].killed;
      forall p | 0 <= p < |t| && t[p].state.UNUSED? ensures !t[p].killed {
        assert u[p].state.UNUSED?;
      }
    }
  }

  lemma StruckClean(t: Table, pid: nat, c: nat)
    requires FirstWith(t, pid, c)
    ensures Clean(t[c := Struck(t[c])]) <==> StaysClean(t, KillCall(pid))
  {
    var u := t[c := Struck(t[c])];
    assert forall p :: FirstWith(t, pid, p) ==> p == c;
    if Clean(u) {
      assert !u[c].state.UNUSED?;
      forall p | 0 <= p < |t| && t[p].state.UNUSED? ensures !t[p].killed {
        assert u[p] == t[p];
      }
    }
  }

  lemma ReapClean(t: Table, u: Table, me: nat, c: nat, pid: nat)
    requires TakesAway(t, u, me, c, pid) && t[me].state.RUNNING?
    ensures Clean(u) <==> Clean(t)
  {
    assert forall p :: 0 <= p < |t| && p != c ==> u[p].killed == t[p].killed && u[p].state == t[p].state;
    if Clean(u) {
      forall p | 0 <= p < |t| && t[p].state.UNUSED? ensures !t[p].killed {
        assert u[p].state.UNUSED?;
      }
    }
  }

  // ----- the kernel

  datatype Event =
    | Fork(me: nat)
    | ForkGoesOn(me: nat, memory: bool)
    | ExitCall(me: nat)
    | WaitCall(me: nat)
    | SleepCall(me: nat, id: nat)
    | WakeCall(id: nat)
    | KillCall(pid: nat)
    | Preempt(me: nat)
    | Pick(p: nat)

  datatype WaitResult = Reaped(pid: nat) | NoChild | Asleep

  class Kernel {
    const slots: array<Slot>
    const init: nat
    var nextpid: nat
    /** The numbers of all processes that exited, and of all that were reaped. */
    ghost var exited: seq<nat>
    ghost var reaped: seq<nat>
    /** What has happened to the killed marks. */
    ghost var log: seq<Note>

    ghost predicate Valid()
      reads this, slots
    {
      && Inv(slots[..], init, nextpid) && Books(slots[..], nextpid, exited, reaped)
      && MarksOK(slots[..], log) && BirthsOK(log)
    }

    ghost function Now(): Snap
      reads this, slots
    {
      Snap(slots[..], nextpid, log, exited, reaped)
    }

    predicate Runs(me: nat)
      reads slots
    {
      me < slots.Length && slots[me].state.RUNNING? && slots[me].task.User?
    }

    /** The table after userinit: init runs in slot 0 and everything else is free. */
    constructor (nproc: nat)
      requires nproc > 0
      ensures Valid() && fresh(slots) && slots.Length == nproc && init == 0 && exited == [] && nextpid == 2
      ensures Runs(0) && slots[0].pid == 1 && forall p :: 1 <= p < nproc ==> slots[p].state.UNUSED?
      ensures Clean(slots[..]) && log == []
    {
      slots := new Slot[nproc](i => if i == 0 then Slot(RUNNING, 1, None, Nothing, false, User)
                                   else Slot(UNUSED, 0, None, Nothing, false, User));
      init, nextpid, exited, reaped, log := 0, 2, [], [], [];
    }

    /** allocproc, called from fork: the first free slot becomes an embryo with a new number. */
    method AllocProc(me: nat) returns (r: Option<nat>)
      requires Valid() && Runs(me)
      modifies this`nextpid, this`log, slots
      ensures Valid()
      ensures r.None? ==> slots[..] == old(slots[..]) && nextpid == old(nextpid) && log == old(log)
      ensures r.None? ==> forall p :: 0 <= p < slots.Length ==> !slots[p].state.UNUSED?
      ensures r.Some? ==> FirstFree(old(slots[..]), r.value)
      ensures r.Some? ==> log == old(log) + [Birth(r.value, slots[r.value].killed)]
      ensures r.Some? ==> slots[..] == Born(old(slots[..]), me, r.value, old(nextpid)) && nextpid == old(nextpid) + 1
    {
      hide Inv, Books, MarksOK, BirthsOK;
      ghost var t := slots[..];
      for c := 0 to slots.Length
        invariant slots[..] == t && nextpid == old(nextpid) && log == old(log)
        invariant forall p :: 0 <= p < c ==> !slots[p].state.UNUSED?
      {
        if slots[c].state.UNUSED? {
          BornKeeps(t, init, nextpid, me, c);
          BornBooks(t, init, nextpid, me, c, exited, reaped);
          BirthMarks(t, me, c, nextpid, log);
          log := log + [Birth(c, slots[c].killed)];
          slots[c] := slots[c].(state := EMBRYO, pid := nextpid);
          slots[me] := slots[me].(task := Forking(c, false));
          nextpid := nextpid + 1;
          assert slots[..] == Born(t, me, c, nextpid - 1);
          return Some(c);
        }
      }
      return None;
    }

    /** The failure exits of allocproc and fork, which do not take the lock. */
    method AbandonFork(me: nat, c: nat)
      requires Valid() && ForkedBy(slots[..], me, c, false)
      modifies slots
      ensures Valid() && slots[..] == Unborn(old(slots[..]), me, c)
    {
      hide Books, Distinct;
      ghost var t := slots[..];
      assert ForkOK(t, init, me);
      UnbornKeeps(t, init, nextpid, me, c);
      UnbornBooks(t, init, nextpid, me, c, exited, reaped);
      MarksSame(t, Unborn(t, me, c), log);
      hide Inv;
      slots[c] := slots[c].(state := UNUSED);
      slots[me] := slots[me].(task := User);
      assert slots[..] == Unborn(t, me, c);
    }

    method LinkChild(me: nat, c: nat)
      requires Valid() && ForkedBy(slots[..], me, c, false)
      modifies slots
      ensures Valid() && slots[..] == Linked(old(slots[..]), me, c)
    {
      hide Books, Distinct;
      ghost var t := slots[..];
      assert ForkOK(t, init, me);
      LinkedKeeps(t, init, nextpid, me, c);
      StartedBooks(t, init, nextpid, me, c, exited, reaped, Linked(t, me, c));
      MarksSame(t, Linked(t, me, c), log);
      slots[c] := slots[c].(parent := Some(me));
      slots[me] := slots[me].(task := Forking(c, true));
      assert slots[..] == Linked(t, me, c);
    }

    /** The end of fork. */
    method StartChild(me: nat, c: nat) returns (pid: nat)
      requires Valid() && ForkedBy(slots[..], me, c, true)
      modifies slots
      ensures Valid() && slots[..] == Started(old(slots[..]), me, c)
      ensures pid == slots[c].pid
    {
      hide Books, Distinct;
      ghost var t := slots[..];
      assert ForkOK(t, init, me);
      StartedKeeps(t, init, nextpid, me, c);
      StartedBooks(t, init, nextpid, me, c, exited, reaped, Started(t, me, c));
      MarksSame(t, Started(t, me, c), log);
      pid := slots[c].pid;
      slots[c] := slots[c].(state := RUNNABLE);
      slots[me] := slots[me].(task := User);
      assert slots[..] == Started(t, me, c);
    }

    /** wakeup1. */
    method Wakeup1(chan: Channel)
      modifies slots
      ensures slots[..] == WakeTable(old(slots[..]), chan)
    {
      ghost var t := slots[..];
      for p := 0 to slots.Length
        invariant forall q :: 0 <= q < p ==> slots[q] == Woken(t[q], chan)
        invariant forall q :: p <= q < slots.Length ==> slots[q] == t[q]
      {
        if slots[p].state.SLEEPING? && slots[p].chan == chan {
          slots[p] := slots[p].(state := RUNNABLE);
        }
      }
    }

    /** exit; false is "init exiting". */
    method Exit(me: nat) returns (ok: bool)
      requires Valid() && Runs(me)
      modifies this`exited, slots
      ensures Valid() && (ok <==> me != init)
      ensures !ok ==> slots[..] == old(slots[..]) && exited == old(exited)
      ensures ok ==> old(slots[me].parent.Some?) && slots[..] == ExitTable(old(slots[..]), init, me)
      ensures ok ==> exited == old(exited) + [old(slots[me].pid)]
    {
      hide Inv, Books, MarksOK, BirthsOK;
      if me == init {
        return false;
      }
      ghost var t := slots[..];
      ExitKeeps(t, init, nextpid, me);
      ExitBooks(t, init, nextpid, me, exited, reaped);
      ExitMarks(t, init, me, log);
      Wakeup1(Self(slots[me].parent.value));
      PassChildren(t, me);
      slots[me] := slots[me].(state := ZOMBIE);
      exited := exited + [slots[me].pid];
      assert slots[..] == ExitTable(t, init, me);
      return true;
    }

    /** The loop of exit that passes the children to init. */
    method PassChildren(ghost t: Table, me: nat)
      requires |t| == slots.Length && me < |t| && t[me].parent.Some? && me != init
      requires slots[..] == WakeTable(t, Self(t[me].parent.value)) && init < |t| && !t[me].state.SLEEPING?
      requires t[me].parent != Some(me)
      modifies slots
      ensures forall p :: 0 <= p < |t| && p != me ==> slots[p] == Exited(t, init, me, p)
      ensures slots[me] == t[me]
    {
      ghost var woke := false;
      for p := 0 to slots.Length
        invariant woke <==> exists c :: 0 <= c < p && t[c].state.ZOMBIE? && t[c].parent == Some(me)
        invariant forall q :: 0 <= q < |t| ==> slots[q] == Passing(t, init, me, p, woke, q)
      {
        if slots[p].parent == Some(me) {
          slots[p] := slots[p].(parent := Some(init));
          if slots[p].state.ZOMBIE? {
            Wakeup1(Self(init));
            woke := true;
          }
        }
      }
    }

    /** wait: one scan of the table. */
    method Wait(me: nat) returns (r: WaitResult)
      requires Valid() && me < slots.Length && slots[me].state.RUNNING? && !slots[me].task.Forking?
      modifies this`reaped, this`log, slots
      ensures Valid()
      ensures r.Reaped? ==>
        exists c :: TakesAway(old(slots[..]), slots[..], me, c, r.pid) && log == old(log) + [Clear(c)]
      ensures !r.Reaped? ==> log == old(log)
      ensures r.Reaped? ==> r.pid !in old(reaped) && reaped == old(reaped) + [r.pid]
      ensures !r.Reaped? ==> !HasZombie(old(slots[..]), me) && reaped == old(reaped)
      ensures r.NoChild? ==> (!HasChild(old(slots[..]), me) || old(slots[me].killed))
      ensures r.NoChild? ==> slots[..] == old(slots[..])[me := old(slots[me]).(task := User)]
      ensures r.Asleep? ==> HasChild(old(slots[..]), me) && !old(slots[me].killed)
      ensures r.Asleep? ==>
        slots[..] == old(slots[..])[me := old(slots[me]).(state := SLEEPING, chan := Self(me), task := Waiting)]
    {
      hide Inv, Books, MarksOK, BirthsOK;
      ghost var t := slots[..];
      var havekids := false;
      for p := 0 to slots.Length
        invariant slots[..] == t && reaped == old(reaped) && log == old(log)
        invariant havekids <==> exists c :: 0 <= c < p && t[c].parent == Some(me)
        invariant forall c :: 0 <= c < p ==> !(t[c].state.ZOMBIE? && t[c].parent == Some(me))
      {
        if slots[p].parent == Some(me) {
          havekids := true;
          if slots[p].state.ZOMBIE? {
            assert IsZombieChild(t, me, p);
            var pid := slots[p].pid;
            Collect(t, me, p);
            assert TakesAway(t, slots[..], me, p, pid);
            return Reaped(pid);
          }
        }
      }
      if !havekids || slots[me].killed {
        ReturnKeeps(t, t[me := t[me].(task := User)], init, nextpid, me, exited, reaped);
        MarksSame(t, t[me := t[me].(task := User)], log);
        slots[me] := slots[me].(task := User);
        assert slots[..] == t[me := t[me].(task := User)];
        return NoChild;
      }
      ghost var u := t[me := t[me].(state := SLEEPING, chan := Self(me), task := Waiting)];
      ReturnKeeps(t, u, init, nextpid, me, exited, reaped);
      MarksSame(t, u, log);
      slots[me] := slots[me].(state := SLEEPING, chan := Self(me), task := Waiting);
      assert slots[..] == u;
      return Asleep;
    }

    /** sleep on something other than a process. */
    method SleepOn(me: nat, id: nat)
      requires Valid() && Runs(me)
      modifies slots
      ensures Valid() && slots[..] == old(slots[..])[me := old(slots[me]).(state := SLEEPING, chan := Elsewhere(id))]
    {
      ghost var t := slots[..];
      ghost var u := t[me := t[me].(state := SLEEPING, chan := Elsewhere(id))];
      StirAll(t, u, init, nextpid, exited, reaped);
      MarksSame(t, u, log);
      slots[me] := slots[me].(state := SLEEPING, chan := Elsewhere(id));
      assert slots[..] == u;
    }

    method Wakeup(id: nat)
      requires Valid()
      modifies slots
      ensures Valid() && slots[..] == WakeTable(old(slots[..]), Elsewhere(id))
    {
      StirAll(slots[..], WakeTable(slots[..], Elsewhere(id)), init, nextpid, exited, reaped);
      MarksSame(slots[..], WakeTable(slots[..], Elsewhere(id)), log);
      Wakeup1(Elsewhere(id));
    }

    /** kill: the first slot with that number, whatever its state. */
    method Kill(pid: nat) returns (hit: Option<nat>)
      requires Valid()
      modifies this`log, slots
      ensures Valid()
      ensures hit.None? ==> slots[..] == old(slots[..]) && log == old(log)
      ensures hit.None? ==> forall p :: 0 <= p < slots.Length ==> slots[p].pid != pid
      ensures hit.Some? ==> FirstWith(old(slots[..]), pid, hit.value)
      ensures hit.Some? ==> slots[..] == old(slots[..])[hit.value := Struck(old(slots[..])[hit.value])]
      ensures hit.Some? ==> log == old(log) + [Strike(hit.value, old(slots[..])[hit.value].state)]
    {
      hide Inv, Books, MarksOK, BirthsOK;
      ghost var t := slots[..];
      for p := 0 to slots.Length
        invariant slots[..] == t && log == old(log) && forall q :: 0 <= q < p ==> slots[q].pid != pid
      {
        if slots[p].pid == pid {
          StirAll(t, t[p := Struck(t[p])], init, nextpid, exited, reaped);
          StrikeMarks(t, p, log);
          log := log + [Strike(p, slots[p].state)];
          slots[p] := Struck(slots[p]);
          assert slots[..] == t[p := Struck(t[p])];
          return Some(p);
        }
      }
      return None;
    }

    method Yield(me: nat)
      requires Valid() && me < slots.Length && slots[me].state.RUNNING?
      modifies slots
      ensures Valid() && slots[..] == old(slots[..])[me := old(slots[me]).(state := RUNNABLE)]
    {
      ghost var t := slots[..];
      StirAll(t, t[me := t[me].(state := RUNNABLE)], init, nextpid, exited, reaped);
      MarksSame(t, t[me := t[me].(state := RUNNABLE)], log);
      slots[me] := slots[me].(state := RUNNABLE);
      assert slots[..] == t[me := t[me].(state := RUNNABLE)];
    }

    /** The scheduler picks a process, which clears its channel when it returns from sched. */
    method Dispatch(p: nat)
      requires Valid() && p < slots.Length && slots[p].state.RUNNABLE?
      modifies slots
      ensures Valid() && slots[..] == old(slots[..])[p := old(slots[p]).(state := RUNNING, chan := Nothing)]
    {
      ghost var t := slots[..];
      StirAll(t, t[p := t[p].(state := RUNNING, chan := Nothing)], init, nextpid, exited, reaped);
      MarksSame(t, t[p := t[p].(state := RUNNING, chan := Nothing)], log);
      slots[p] := slots[p].(state := RUNNING, chan := Nothing);
      assert slots[..] == t[p := t[p].(state := RUNNING, chan := Nothing)];
    }

    /** allocproc, if the process runs. */
    method ForkStep(me: nat)
      requires Valid()
      modifies this`nextpid, this`log, slots
      ensures Valid() && Follows(old(Now()), init, Fork(me), Now())
      ensures Clean(slots[..]) <==> StaysClean(old(slots[..]), Fork(me))
    {
      hide Inv, Books, MarksOK, BirthsOK, Clean;
      ghost var t := slots[..];
      NobodyBorn(t, me);
      if Runs(me) {
        var c := AllocProc(me);
        if c.Some? {
          BornClean(t, me, c.value, nextpid - 1);
        }
      }
    }

    /** The next stretch of a fork under way. */
    method ContinueFork(me: nat, memory: bool)
      requires Valid()
      modifies slots
      ensures Valid() && Follows(old(Now()), init, ForkGoesOn(me, memory), Now())
      ensures Clean(slots[..]) <==> StaysClean(old(slots[..]), ForkGoesOn(me, memory))
    {
      hide Inv, Books, MarksOK, BirthsOK, Clean, ForkOK;
      if me < slots.Length && slots[me].state.RUNNING? && slots[me].task.Forking? {
        ghost var t := slots[..];
        var c := slots[me].task.child;
        ChildInside(t, init, nextpid, me);
        if slots[me].task.linked {
          var _ := StartChild(me, c);
          CleanSame(t, slots[..]);
        } else if memory {
          LinkChild(me, c);
          CleanSame(t, slots[..]);
        } else {
          AbandonFork(me, c);
          UnbornClean(t, me, c);
        }
      }
    }

    /** exit, if the process runs. */
    method ExitStep(me: nat)
      requires Valid()
      modifies this`exited, slots
      ensures Valid() && Follows(old(Now()), init, ExitCall(me), Now())
      ensures Clean(slots[..]) <==> Clean(old(slots[..]))
    {
      hide Inv, Books, MarksOK, BirthsOK, Clean, Exited;
      if Runs(me) {
        ghost var t := slots[..];
        var ok := Exit(me);
        if ok {
          ExitMarks(t, init, me, log);
        }
      }
    }

    /** wait clears the mark of a slot that it frees. */
    method WaitStep(me: nat)
      requires Valid()
      modifies this`reaped, this`log, slots
      ensures Valid() && Follows(old(Now()), init, WaitCall(me), Now())
      ensures Clean(slots[..]) <==> Clean(old(slots[..]))
    {
      hide Inv, Books, MarksOK, BirthsOK, Clean, HasZombie, HasChild;
      if me < slots.Length && slots[me].state.RUNNING? && !slots[me].task.Forking? {
        ghost var t := slots[..];
        var r := Wait(me);
        if r.Reaped? {
          ghost var c :| TakesAway(t, slots[..], me, c, r.pid) && log == old(log) + [Clear(c)];
          ChildZombie(t, me, c);
          assert FirstZombie(t, me, c);
          ReapClean(t, slots[..], me, c, r.pid);
        } else {
          CleanSame(t, slots[..]);
        }
      }
    }

    method KillStep(pid: nat)
      requires Valid()
      modifies this`log, slots
      ensures Valid() && Follows(old(Now()), init, KillCall(pid), Now())
      ensures Clean(slots[..]) <==> StaysClean(old(slots[..]), KillCall(pid))
    {
      hide Inv, Books, MarksOK, BirthsOK, Clean;
      ghost var t := slots[..];
      var hit := Kill(pid);
      if hit.Some? {
        StruckClean(t, pid, hit.value);
      }
    }

    /** Falling asleep, waking, and scheduling. */
    method StirStep(e: Event)
      requires Valid() && (e.SleepCall? || e.WakeCall? || e.Preempt? || e.Pick?)
      modifies slots
      ensures Valid() && Follows(old(Now()), init, e, Now())
      ensures Clean(slots[..]) <==> Clean(old(slots[..]))
    {
      hide Inv, Books, MarksOK, BirthsOK, Clean;
      ghost var t := slots[..];
      match e {
        case SleepCall(me, id) => if Runs(me) { SleepOn(me, id); }
        case WakeCall(id) => Wakeup(id);
        case Preempt(me) => if me < slots.Length && slots[me].state.RUNNING? { Yield(me); }
        case Pick(p) => if p < slots.Length && slots[p].state.RUNNABLE? { Dispatch(p); }
      }
      CleanSame(t, slots[..]);
    }

    /** Anything that can happen next; what is not possible now is skipped. */
    method Step(e: Event)
      requires Valid()
      modifies this, slots
      ensures Valid() && Follows(old(Now()), init, e, Now())
      ensures Clean(slots[..]) <==> StaysClean(old(slots[..]), e)
    {
      hide Inv, Books, MarksOK, BirthsOK, Clean, Follows;
      match e {
        case Fork(me) => ForkStep(me);
        case ForkGoesOn(me, memory) => ContinueFork(me, memory);
        case ExitCall(me) => ExitStep(me);
        case WaitCall(me) => WaitStep(me);
        case KillCall(pid) => KillStep(pid);
        case _ => StirStep(e);
      }
    }

    /** Every run: each event changes the table as specified and adds to the histories exactly what
        it must, the tree is safe, every exited process is reaped at most once, and a child is born
        killed exactly as BirthsOK says.  past holds the table and the histories before each event
        and after the last. */
    method Run(events: seq<Event>) returns (ghost past: seq<Snap>)
      requires Valid()
      modifies this, slots
      ensures |past| == |events| + 1 && past[0] == old(Now()) && past[|events|] == Now()
      ensures forall k :: 0 <= k < |events| ==> Follows(past[k], init, events[k], past[k + 1])
      ensures Valid() && TreeSafe(slots[..], init)
      ensures old(log) <= log && old(exited) <= exited && old(reaped) <= reaped && BirthsOK(log)
      ensures forall i, j :: 0 <= i < j < |exited| ==> exited[i] != exited[j]
      ensures forall i, j :: 0 <= i < j < |reaped| ==> reaped[i] != reaped[j]
      ensures forall x :: x in reaped ==> x in exited && !InUse(slots[..], x)
      ensures forall x :: x in exited && x !in reaped ==> IsZombie(slots[..], x)
    {
      hide Inv, MarksOK, BirthsOK, Steps, StaysClean, Noted, Reaps, Clean;
      past := [Now()];
      for k := 0 to |events|
        invariant Valid() && |past| == k + 1 && past[0] == old(Now()) && past[k] == Now()
        invariant old(log) <= log && old(exited) <= exited && old(reaped) <= reaped
        invariant forall j :: 0 <= j < k ==> Follows(past[j], init, events[j], past[j + 1])
      {
        Step(events[k]);
        past := past + [Now()];
      }
      InvSafe(slots[..], init, nextpid);
    }

    method Collect(ghost t: Table, me: nat, c: nat)
      requires Valid() && slots[..] == t && me < slots.Length && slots[me].state.RUNNING? && !slots[me].task.Forking?
      requires IsZombieChild(t, me, c)
      modifies this`reaped, this`log, slots
      ensures Valid() && log == old(log) + [Clear(c)] && t[c].pid !in old(reaped) && reaped == old(reaped) + [t[c].pid]
      ensures slots[..] == t[c := Reap(t[c])][me := t[me].(task := User)]
    {
      ReapKeeps(t, init, nextpid, me, c);
      ReapBooks(t, nextpid, me, c, exited, reaped);
      ClearMarks(t, me, c, log);
      hide Inv, Books, MarksOK, BirthsOK;
      log := log + [Clear(c)];
      reaped := reaped + [slots[c].pid];
      slots[c] := Reap(slots[c]);
      slots[me] := slots[me].(task := User);
      assert slots[..] == t[c := Reap(t[c])][me := t[me].(task := User)];
    }
  }

  /** A fork that fails leaves its number in a free slot; kill marks the slot, and the next child
      born there is killed from the start. */
  method BornKilled() returns (k: Kernel)
    ensures fresh(k) && k.Valid() && k.slots.Length == 2 && k.slots[1].state.EMBRYO? && k.slots[1].killed
    ensures k.log == [Birth(1, false), Strike(1, UNUSED), Birth(1, true)]
  {
    hide Inv, Books, MarksOK, BirthsOK;
    k := new Kernel(2);
    assert k.slots[1].state.UNUSED?;
    var c := k.AllocProc(0);
    assert c == Some(1);
    k.AbandonFork(0, 1);
    var pid := k.slots[1].pid;
    assert k.slots[0].pid != pid;
    var hit := k.Kill(pid);
    var d := k.AllocProc(0);
  }

  /** kill finds the embryo of a fork that then fails; the next child gets its slot and its mark. */
  method BornKilledAgain() returns (k: Kernel)
    ensures fresh(k) && k.Valid() && k.slots.Length == 2 && k.slots[1].state.EMBRYO? && k.slots[1].killed
    ensures k.log == [Birth(1, false), Strike(1, EMBRYO), Birth(1, true)]
  {
    hide Inv, Books, MarksOK, BirthsOK;
    k := new Kernel(2);
    assert k.slots[1].state.UNUSED?;
    var c := k.AllocProc(0);
    assert c == Some(1);
    var pid := k.slots[1].pid;
    assert k.slots[0].pid != pid;
    var hit := k.Kill(pid);
    k.AbandonFork(0, 1);
    var d := k.AllocProc(0);
  }

  function Struck(s: Slot): Slot {
    s.(killed := true, state := if s.state.SLEEPING? then RUNNABLE else s.state)
  }

  /** Changes that only wake, mark or put to sleep elsewhere. */
  lemma StirAll(t: Table, u: Table, init: nat, nextpid: nat, exited: seq<nat>, reaped: seq<nat>)
    requires Inv(t, init, nextpid) && Books(t, nextpid, exited, reaped) && |u| == |t|
    requires forall p :: 0 <= p < |t| ==> Stirred(t[p], u[p])
    ensures Inv(u, init, nextpid) && Books(u, nextpid, exited, reaped)
  {
    forall p | 0 <= p < |t| && u[p].state.SLEEPING? && u[p].chan.Self?
      ensures u[p].chan == Self(p) && u[p].task.Waiting? && !HasZombie(t, p)
    {
      assert SleepOK(t, p);
      NoZombieBeside(t, init, nextpid, p);
    }
    forall p | 0 <= p < |t|
      ensures u[p].task.Forking? ==> u[p].task == t[p].task && !u[p].state.SLEEPING?
      ensures u[p].task.Waiting? ==> Alive(u[p])
    {
      assert SleepOK(t, p) && ForkOK(t, init, p);
    }
    StirKeeps(t, u, init, nextpid);
    StirBooks(t, u, nextpid, exited, reaped);
  }

  predicate Stirred(a: Slot, b: Slot) {
    && SameLinks(a, b) && b.task == a.task
    && (b.state.SLEEPING? ==> (b.chan == a.chan && a.state.SLEEPING?) || (b.chan.Elsewhere? && a.task.User?))
  }

  /** The table while exit has passed the entries below k. */
  ghost function Passing(t: Table, init: nat, me: nat, k: nat, woke: bool, p: nat): Slot
    requires me < |t| && p < |t| && t[me].parent.Some?
  {
    var s := Woken(t[p], Self(t[me].parent.value));
    var u := if woke then Woken(s, Self(init)) else s;
    if p < k && u.parent == Some(me) then u.(parent := Some(init)) else u
  }

  /** wait returning without a child, or going to sleep because no child is a zombie. */
  lemma ReturnKeeps(t: Table, u: Table, init: nat, nextpid: nat, me: nat, exited: seq<nat>, reaped: seq<nat>)
    requires Inv(t, init, nextpid) && Books(t, nextpid, exited, reaped) && me < |t| && t[me].state.RUNNING?
    requires !t[me].task.Forking?
    requires (forall c :: 0 <= c < |t| ==> !(t[c].state.ZOMBIE? && t[c].parent == Some(me)))
    requires
      || u == t[me := t[me].(task := User)]
      || u == t[me := t[me].(state := SLEEPING, chan := Self(me), task := Waiting)]
    ensures Inv(u, init, nextpid) && Books(u, nextpid, exited, reaped) && !HasZombie(t, me)
  {
    forall p | 0 <= p < |t| && u[p].state.SLEEPING? && u[p].chan.Self?
      ensures u[p].chan == Self(p) && u[p].task.Waiting? && !HasZombie(t, p)
    {
      assert SleepOK(t, p);
      if p != me {
        NoZombieBeside(t, init, nextpid, p);
      }
    }
    forall p | 0 <= p < |t|
      ensures u[p].task.Forking? ==> u[p].task == t[p].task && !u[p].state.SLEEPING?
      ensures u[p].task.Waiting? ==> Alive(u[p])
    {
      assert SleepOK(t, p) && ForkOK(t, init, p);
    }
    StirKeeps(t, u, init, nextpid);
    StirBooks(t, u, nextpid, exited, reaped);
  }
}
