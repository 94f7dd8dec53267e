/** The redo log of log.c as a step machine.

    A step writes at most one disk block, and a crash may fall between any two
    steps, also while a previous crash is being recovered from.  Steps of
    different file-system operations interleave freely.  A label that is not
    enabled leaves the state alone: the process asking for it is asleep. */
module Wal {
  import opened Machine
  import opened Blocks

  const MAXOPBLOCKS := 10
  /** All blocks by number, and the list of block numbers the header block holds. */
  datatype Disk = Disk(head: seq<nat>, blocks: seq<Block>) {
    function Set(b: nat, data: Block): Disk
      requires b < |blocks|
    {
      Disk(head, blocks[b := data])
    }
  }

  /** Where the log lies on the disk: header block `start`, then size - 1 log blocks. */
  datatype Geometry = Geometry(start: nat, size: nat, nblocks: nat) {
    predicate Valid() {
      0 < size && start + size <= nblocks < UINT_LIMIT
    }

    predicate Home(b: nat) {
      b < nblocks && (b < start || start + size <= b)
    }

    /** The number of entries at which log_write panics. */
    function Capacity(): nat
      requires Valid()
    {
      if LOGSIZE < size - 1 then LOGSIZE else size - 1
    }
  }

  /** One log_write: operation `op` leaves `data` in block `block`. */
  datatype Write = Write(op: nat, block: nat, data: Block)

  datatype Pc =
    | Idle
    | CopyLog(tail: nat) | Head | Install(tail: nat) | Clear | Finish
    | Down | RecInstall(tail: nat) | RecClear

  datatype State = State(
    disk: Disk,                  // what survives a crash
    view: seq<Block>,            // what bread returns for a home block
    lh: seq<nat>,                // log.lh.block[..log.lh.n]
    ops: map<nat, set<nat>>,     // outstanding operations and the blocks each has logged
    pc: Pc,
    begun: set<nat>,             // every operation that ever passed begin_op
    issued: seq<Write>,          // every log_write ever made
    init: seq<Block>,            // the disk at the start of the run
    hist: seq<seq<Write>>,       // the groups whose header reached the disk
    group: seq<Write>            // the writes since the last commit
  )

  datatype Label =
    | Begin(op: nat) | LogWrite(op: nat, block: nat, data: Block) | End(op: nat)
    | CommitStep | Crash | RecoverStep

  // ----- the meaning of a group of writes

  function Replay(d: seq<Block>, ws: seq<Write>): (r: seq<Block>)
    ensures |r| == |d|
  {
    if ws == [] then d
    else
      var w := ws[|ws| - 1];
      var d' := Replay(d, ws[..|ws| - 1]);
      if w.block < |d| then d'[w.block := w.data] else d'
  }

  function ReplayAll(d: seq<Block>, groups: seq<seq<Write>>): (r: seq<Block>)
    ensures |r| == |d|
  {
    if groups == [] then d
    else Replay(ReplayAll(d, groups[..|groups| - 1]), groups[|groups| - 1])
  }

  /** The home blocks that a completed recovery must produce. */
  function Committed(s: State): seq<Block> {
    ReplayAll(s.init, s.hist)
  }

  // ----- the steps

  predicate Entries(g: Geometry, lh: seq<nat>)
    requires g.Valid()
  {
    && |lh| <= g.Capacity()
    && (forall i :: 0 <= i < |lh| ==> g.Home(lh[i]))
    && (forall i, j :: 0 <= i < j < |lh| ==> lh[i] != lh[j])
  }

  predicate WellFormed(g: Geometry, s: State) {
    && g.Valid()
    && |s.disk.blocks| == |s.view| == |s.init| == g.nblocks
    && Entries(g, s.lh)
    && ((s.pc.CopyLog? || s.pc.Install? || s.pc.RecInstall?) ==> s.pc.tail < |s.lh|)
  }

  predicate Committing(s: State) {
    s.pc.CopyLog? || s.pc.Head? || s.pc.Install? || s.pc.Clear? || s.pc.Finish?
  }

  function Halt(s: State): State {
    s.(view := s.disk.blocks, lh := [], ops := map[], group := [], pc := Down)
  }

  function BeginOp(s: State, op: nat): State {
    if s.pc.Idle? && op !in s.begun && |s.lh| + (|s.ops| + 1) * MAXOPBLOCKS <= LOGSIZE
    then s.(ops := s.ops[op := {}], begun := s.begun + {op})
    else s
  }

  function Absorb(lh: seq<nat>, b: nat): seq<nat> {
    if b in lh then lh else lh + [b]
  }

  /** log_write; a full log panics, which stops the machine. */
  function DoLogWrite(g: Geometry, s: State, op: nat, b: nat, data: Block): (r: State)
    requires WellFormed(g, s)
    ensures WellFormed(g, r)
  {
    if !s.pc.Idle? || op !in s.ops || !g.Home(b) then s
    else if |s.lh| >= g.Capacity() then Halt(s)
    else
      var w := Write(op, b, data);
      s.(view := s.view[b := data], lh := Absorb(s.lh, b), ops := s.ops[op := s.ops[op] + {b}],
         group := s.group + [w], issued := s.issued + [w])
  }

  function EndOp(s: State, op: nat): State {
    if !s.pc.Idle? || op !in s.ops then s
    else
      var rest := s.ops - {op};
      s.(ops := rest,
         pc := if rest != map[] then Idle else if s.lh == [] then Finish else CopyLog(0))
  }

  /** The next disk write (or the final unlocking) of end_op's commit. */
  function DoCommitStep(g: Geometry, s: State): (r: State)
    requires WellFormed(g, s)
    ensures WellFormed(g, r)
  {
    match s.pc
    case CopyLog(t) =>
      s.(disk := s.disk.Set(g.start + 1 + t, s.view[s.lh[t]]),
         pc := if t + 1 == |s.lh| then Head else CopyLog(t + 1))
    case Head =>
      s.(disk := s.disk.(head := s.lh),
         hist := s.hist + [s.group], group := [],
         pc := if s.lh == [] then Clear else Install(0))
    case Install(t) =>
      s.(disk := s.disk.Set(s.lh[t], s.disk.blocks[g.start + 1 + t]),
         pc := if t + 1 == |s.lh| then Clear else Install(t + 1))
    case Clear =>
      s.(disk := s.disk.(head := []), lh := [], pc := Finish)
    case Finish => s.(pc := Idle)
    case _ => s
  }

  /** The next step of initlog's recover_from_log. */
  function DoRecoverStep(g: Geometry, s: State): (r: State)
    requires WellFormed(g, s)
    ensures WellFormed(g, r)
  {
    match s.pc
    case Down =>
      if Entries(g, s.disk.head)
      then s.(lh := s.disk.head, pc := if s.disk.head == [] then RecClear else RecInstall(0))
      else s
    case RecInstall(t) =>
      s.(disk := s.disk.Set(s.lh[t], s.disk.blocks[g.start + 1 + t]),
         pc := if t + 1 == |s.lh| then RecClear else RecInstall(t + 1))
    case RecClear =>
      s.(disk := s.disk.(head := []), view := s.disk.blocks, lh := [], pc := Idle)
    case _ => s
  }

  function Apply(g: Geometry, s: State, l: Label): (r: State)
    requires WellFormed(g, s)
    ensures WellFormed(g, r)
  {
    match l
    case Begin(op) => BeginOp(s, op)
    case LogWrite(op, b, data) => DoLogWrite(g, s, op, b, data)
    case End(op) => EndOp(s, op)
    case CommitStep => DoCommitStep(g, s)
    case Crash => Halt(s)
    case RecoverStep => DoRecoverStep(g, s)
  }

  function Exec(g: Geometry, s: State, ls: seq<Label>): (r: State)
    requires WellFormed(g, s)
    ensures WellFormed(g, r)
  {
    if ls == [] then s else Apply(g, Exec(g, s, ls[..|ls| - 1]), ls[|ls| - 1])
  }

  /** The machine at power-on, over any disk whose log header is empty. */
  function Boot(d: Disk): State {
    State(d, d.blocks, [], map[], Down, {}, [], d.blocks, [], [])
  }

  predicate CleanDisk(g: Geometry, d: Disk) {
    g.Valid() && |d.blocks| == g.nblocks && d.head == []
  }

  // ----- what recovery does to a disk

  function InstallFirst(g: Geometry, d: Disk, k: nat): (r: Disk)
    requires Recoverable(g, d) && k <= |d.head|
    ensures r.head == d.head && |r.blocks| == |d.blocks|
  {
    if k == 0 then d
    else
      var d' := InstallFirst(g, d, k - 1);
      d'.Set(d.head[k - 1], d'.blocks[g.start + k])
  }

  predicate Recoverable(g: Geometry, d: Disk) {
    g.Valid() && |d.blocks| == g.nblocks && Entries(g, d.head)
  }

  /** The disk after an undisturbed recover_from_log. */
  function Recover(g: Geometry, d: Disk): (r: Disk)
    requires Recoverable(g, d)
    ensures |r.blocks| == |d.blocks| && r.head == []
  {
    InstallFirst(g, d, |d.head|).(head := [])
  }

  predicate SameHome(g: Geometry, a: seq<Block>, b: seq<Block>) {
    |a| == |b| == g.nblocks && forall i {:trigger b[i]} :: 0 <= i < g.nblocks && g.Home(i) ==> a[i] == b[i]
  }
}
