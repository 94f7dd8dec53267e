/** pipe.c: a ring of 512 bytes with wrapping 32-bit counters.  Each method is one critical
    section: from taking the lock, or waking up with it, to sleeping or returning. */
module Pipe {
  import opened Machine

  const PIPESIZE: nat := 512

  type Pid = nat

  datatype WriteOutcome = Slept(at: nat) | Failed(at: nat) | Done(n: nat)

  datatype ReadOutcome = Waiting | Killed | Got(bytes: seq<Byte>)

  function Inc(x: nat): nat {
    (x + 1) % UINT_LIMIT
  }

  lemma CounterIndex(x: nat)
    ensures x % UINT_LIMIT % PIPESIZE == x % PIPESIZE
  {
    var q := x / UINT_LIMIT;
    assert x == q * UINT_LIMIT + x % UINT_LIMIT;
    assert q * UINT_LIMIT == q * (UINT_LIMIT / PIPESIZE) * PIPESIZE;
  }

  lemma CounterInc(x: nat)
    ensures Inc(x % UINT_LIMIT) == (x + 1) % UINT_LIMIT
  {
  }

  /** Comparing the wrapped counters decides how far the true counts are apart. */
  lemma CounterGap(r: nat, w: nat, gap: nat)
    requires r <= w <= r + PIPESIZE && gap <= PIPESIZE
    ensures w % UINT_LIMIT == (r % UINT_LIMIT + gap) % UINT_LIMIT <==> w == r + gap
  {
    assert (r % UINT_LIMIT + gap) % UINT_LIMIT == (r + gap) % UINT_LIMIT;
    if w % UINT_LIMIT == (r + gap) % UINT_LIMIT {
      var a, b := w / UINT_LIMIT, (r + gap) / UINT_LIMIT;
      assert w - (r + gap) == (a - b) * UINT_LIMIT;
      assert a == b;
    }
  }

  class Pipe {
    const data: array<Byte>
    var nread: nat
    var nwrite: nat
    var readopen: bool
    var writeopen: bool
    /** Who sleeps waiting for bytes, and who for room. */
    var readers: set<Pid>
    var writers: set<Pid>
    /** Every byte ever written, and every byte ever read. */
    ghost var written: seq<Byte>
    ghost var got: seq<Byte>

    ghost predicate Valid()
      reads this, data
    {
      && data.Length == PIPESIZE
      && |got| <= |written| <= |got| + PIPESIZE && got == written[..|got|]
      && nread == |got| % UINT_LIMIT && nwrite == |written| % UINT_LIMIT
      && forall j :: |got| <= j < |written| ==> data[j % PIPESIZE] == written[j]
    }

    /** What is in the pipe. */
    ghost function Content(): seq<Byte>
      requires Valid()
      reads this, data
    {
      written[|got|..]
    }

    /** Nobody sleeps while there is something for them to do. */
    ghost predicate NoneForgotten()
      reads this
    {
      && (readers != {} ==> |written| == |got| && writeopen && readopen)
      && (writers != {} ==> |written| == |got| + PIPESIZE && readopen && writeopen)
    }

    constructor ()
      ensures Valid() && NoneForgotten() && written == [] && readopen && writeopen && fresh(data)
      ensures readers == {} && writers == {}
    {
      data := new Byte[PIPESIZE](_ => 0);
      nread, nwrite, readopen, writeopen := 0, 0, true, true;
      readers, writers, written, got := {}, {}, [], [];
    }

    /** A killed writer fills the pipe and leaves without waking the readers that sleep. */
    ghost predicate Forgets(addr: seq<Byte>, i: nat, killed: bool)
      reads this
    {
      killed && readers != {} && |addr| > i + PIPESIZE
    }

    /** A critical section of pipewrite, from byte i of addr on. */
    method WriteSection(me: Pid, addr: seq<Byte>, i: nat, killed: bool) returns (r: WriteOutcome)
      requires Valid() && i <= |addr| && writeopen
      modifies this`nwrite, this`written, this`readers, this`writers, data
      ensures Valid()
      ensures var at := if r.Done? then |addr| else r.at; i <= at <= |addr| && written == old(written) + addr[i..at]
      ensures r.Done? ==> r.n == |addr| && readers == {} && writers == old(writers)
      ensures r.Done? <==> |addr| - i <= PIPESIZE - |old(Content())|
      ensures !r.Done? ==> r.at == i + PIPESIZE - |old(Content())| && |written| == |got| + PIPESIZE
      ensures r.Failed? <==> !r.Done? && (!readopen || killed)
      ensures r.Slept? ==> readers == {} && writers == old(writers) + {me}
      ensures r.Failed? ==> readers == old(readers) && writers == old(writers)
      ensures old(NoneForgotten()) ==> (NoneForgotten() <==> !old(Forgets(addr, i, killed)))
    {
      var k := i;
      while k < |addr|
        invariant i <= k <= |addr| && Valid() && written == old(written) + addr[i..k]
        invariant readers == old(readers) && writers == old(writers)
      {
        CounterGap(|got|, |written|, PIPESIZE);
        if nwrite == (nread + PIPESIZE) % UINT_LIMIT {
          if !readopen || killed {
            return Failed(k);
          }
          readers, writers := {}, writers + {me};
          return Slept(k);
        }
        PutByte(addr[k]);
        assert addr[i..k + 1] == addr[i..k] + [addr[k]];
        k := k + 1;
      }
      readers := {};
      return Done(|addr|);
    }

    method PutByte(b: Byte)
      requires Valid() && |written| < |got| + PIPESIZE
      modifies this`nwrite, this`written, data
      ensures Valid() && written == old(written) + [b]
    {
      CounterIndex(|written|);
      CounterInc(|written|);
      data[nwrite % PIPESIZE] := b;
      nwrite := Inc(nwrite);
      ghost var was := written;
      written := written + [b];
      forall j | |got| <= j < |was| ensures j % PIPESIZE != |was| % PIPESIZE {
        SameSlot(j, |was|);
      }
    }

    method GetByte() returns (b: Byte)
      requires Valid() && |got| < |written|
      modifies this`nread, this`got
      ensures Valid() && b == written[|old(got)|] && got == old(got) + [b]
    {
      CounterIndex(|got|);
      CounterInc(|got|);
      b := data[nread % PIPESIZE];
      nread := Inc(nread);
      got := got + [b];
    }

    /** A critical section of piperead. */
    method ReadSection(me: Pid, n: nat, killed: bool) returns (r: ReadOutcome)
      requires Valid() && readopen
      modifies this`nread, this`got, this`readers, this`writers
      ensures Valid()
      ensures r.Got? ==>
        r.bytes <= old(Content()) && got == old(got) + r.bytes && writers == {} && readers == old(readers)
      ensures r.Got? ==> |r.bytes| == if n < |old(Content())| then n else |old(Content())|
      ensures r.Got? ==> old(Content()) != [] || !writeopen
      ensures !r.Got? ==> got == old(got) && old(Content()) == [] && writeopen && writers == old(writers)
      ensures r.Waiting? ==> readers == old(readers) + {me} && !killed
      ensures r.Killed? ==> readers == old(readers) && killed
      ensures old(NoneForgotten()) ==> NoneForgotten()
    {
      CounterGap(|got|, |written|, 0);
      if nread == nwrite && writeopen {
        if killed {
          return Killed;
        }
        readers := readers + {me};
        return Waiting;
      }
      var bytes: seq<Byte> := [];
      while |bytes| < n
        invariant Valid() && |bytes| <= n && readers == old(readers)
        invariant got == old(got) + bytes && bytes <= old(Content())
      {
        CounterGap(|got|, |written|, 0);
        if nread == nwrite {
          break;
        }
        var b := GetByte();
        bytes := bytes + [b];
      }
      writers := {};
      return Got(bytes);
    }

    /** pipeclose: the last descriptor of one end is gone, so nobody sleeps at that end.
        dead: both ends are closed and the page goes back. */
    method Close(writable: bool) returns (dead: bool)
      requires Valid() && (if writable then writeopen && writers == {} else readopen && readers == {})
      modifies this`readopen, this`writeopen, this`readers, this`writers
      ensures Valid() && (old(NoneForgotten()) ==> NoneForgotten())
      ensures readopen == (old(readopen) && writable) && writeopen == (old(writeopen) && !writable)
      ensures readers == (if writable then {} else old(readers)) && writers == (if writable then old(writers) else {})
      ensures dead <==> !readopen && !writeopen
    {
      if writable {
        writeopen := false;
        readers := {};
      } else {
        readopen := false;
        writers := {};
      }
      dead := !readopen && !writeopen;
    }

    /** kill of a process asleep here. */
    method Rouse(p: Pid)
      requires Valid()
      modifies this`readers, this`writers
      ensures Valid() && (old(NoneForgotten()) ==> NoneForgotten())
      ensures readers == old(readers) - {p} && writers == old(writers) - {p}
    {
      readers, writers := readers - {p}, writers - {p};
    }
  }

  lemma SameSlot(j: nat, k: nat)
    requires j < k < j + PIPESIZE
    ensures j % PIPESIZE != k % PIPESIZE
  {
    var a, b := j / PIPESIZE, k / PIPESIZE;
    assert k - j == (b - a) * PIPESIZE + k % PIPESIZE - j % PIPESIZE;
  }

  /** The exception is real: a reader sleeps, a killed writer fills the pipe and leaves. */
  method KilledWriterForgets() returns (p: Pipe)
    ensures fresh(p) && p.Valid() && p.readers != {} && |p.Content()| == PIPESIZE && p.readopen && p.writeopen
  {
    p := new Pipe();
    var asleep := p.ReadSection(1, 1, false);
    var r := p.WriteSection(2, seq(PIPESIZE + 1, _ => 0), 0, true);
    assert 1 in p.readers;
  }

  // ----- whole runs

  datatype Task = Idle | Writing(addr: seq<Byte>, at: nat) | Reading(n: nat)

  /** What may happen next.  An event that is not possible in the current state is skipped. */
  datatype Event =
    | StartWrite(p: Pid, addr: seq<Byte>)
    | StartRead(p: Pid, n: nat)
    | Section(p: Pid)
    | Kill(p: Pid)
    | CloseRead
    | CloseWrite

  /** What users see: a queue of at most PIPESIZE bytes between what has been accepted and what
      has been delivered, and who is busy or asleep. */
  datatype Queue = Queue(accepted: seq<Byte>, delivered: seq<Byte>, tasks: map<Pid, Task>, killed: set<Pid>,
    readers: set<Pid>, writers: set<Pid>, readopen: bool, writeopen: bool)

  function Stored(q: Queue): nat {
    if |q.delivered| <= |q.accepted| then |q.accepted| - |q.delivered| else 0
  }

  /** A stretch of pipewrite: as many bytes as there is room for, then done, given up or asleep. */
  function AfterWrite(q: Queue, p: Pid, addr: seq<Byte>, at: nat): Queue
    requires at <= |addr|
  {
    var room := if Stored(q) < PIPESIZE then PIPESIZE - Stored(q) else 0;
    if |addr| - at <= room then
      q.(accepted := q.accepted + addr[at..], tasks := q.tasks[p := Idle], readers := {})
    else if !q.readopen || p in q.killed then
      q.(accepted := q.accepted + addr[at..at + room], tasks := q.tasks[p := Idle])
    else
      q.(accepted := q.accepted + addr[at..at + room], tasks := q.tasks[p := Writing(addr, at + room)],
         readers := {}, writers := q.writers + {p})
  }

  /** The outcomes of a stretch of pipewrite, one by one. */
  lemma WriteEnds(q: Queue, p: Pid, addr: seq<Byte>, at: nat, r: WriteOutcome, now: Queue)
    requires at <= |addr| && Stored(q) <= PIPESIZE
    requires r.Done? <==> |addr| - at <= PIPESIZE - Stored(q)
    requires r.Failed? <==> !r.Done? && (!q.readopen || p in q.killed)
    requires !r.Done? ==> r.at == at + PIPESIZE - Stored(q)
    requires now == match r
      case Done(_) => q.(accepted := q.accepted + addr[at..], tasks := q.tasks[p := Idle], readers := {})
      case Failed(k) => q.(accepted := q.accepted + addr[at..k], tasks := q.tasks[p := Idle])
      case Slept(k) =>
        q.(accepted := q.accepted + addr[at..k], tasks := q.tasks[p := Writing(addr, k)],
           readers := {}, writers := q.writers + {p})
    ensures now == AfterWrite(q, p, addr, at)
  {
  }

  /** A stretch of piperead: the oldest bytes, or nothing yet. */
  function AfterRead(q: Queue, p: Pid, n: nat): Queue {
    if Stored(q) == 0 && q.writeopen then
      if p in q.killed then q.(tasks := q.tasks[p := Idle]) else q.(readers := q.readers + {p})
    else
      var k := if n < Stored(q) then n else Stored(q);
      q.(delivered := if k == 0 then q.delivered else q.accepted[..|q.delivered| + k],
         tasks := q.tasks[p := Idle], writers := {})
  }

  /** The queue after an event. */
  function After(q: Queue, e: Event): Queue {
    match e
    case StartWrite(p, addr) =>
      if (p !in q.tasks || q.tasks[p].Idle?) && q.writeopen then q.(tasks := q.tasks[p := Writing(addr, 0)]) else q
    case StartRead(p, n) =>
      if (p !in q.tasks || q.tasks[p].Idle?) && q.readopen then q.(tasks := q.tasks[p := Reading(n)]) else q
    case Section(p) =>
      if p !in q.tasks || p in q.readers || p in q.writers then q
      else
        (match q.tasks[p]
         case Idle => q
         case Writing(addr, at) => if at <= |addr| then AfterWrite(q, p, addr, at) else q
         case Reading(n) => AfterRead(q, p, n))
    case Kill(p) => q.(killed := q.killed + {p}, readers := q.readers - {p}, writers := q.writers - {p})
    case CloseRead =>
      if q.readopen && forall p :: p in q.tasks ==> !q.tasks[p].Reading?
      then q.(readopen := false, writers := {}) else q
    case CloseWrite =>
      if q.writeopen && forall p :: p in q.tasks ==> !q.tasks[p].Writing?
      then q.(writeopen := false, readers := {}) else q
  }

  /** Who sleeps is in the middle of a call, and whoever calls has the end open. */
  ghost predicate TasksOK(q: Queue) {
    && (forall p :: p in q.readers ==> p in q.tasks && q.tasks[p].Reading?)
    && (forall p :: p in q.writers ==> p in q.tasks && q.tasks[p].Writing?)
    && (forall p :: p in q.tasks && q.tasks[p].Reading? ==> q.readopen)
    && (forall p :: p in q.tasks && q.tasks[p].Writing? ==> q.writeopen && q.tasks[p].at <= |q.tasks[p].addr|)
  }

  lemma TasksKept(q: Queue, p: Pid)
    requires TasksOK(q) && p in q.tasks && p !in q.readers && p !in q.writers
    ensures q.tasks[p].Writing? ==> TasksOK(AfterWrite(q, p, q.tasks[p].addr, q.tasks[p].at))
    ensures q.tasks[p].Reading? ==> TasksOK(AfterRead(q, p, q.tasks[p].n))
  {
    hide Stored;
  }

  lemma AfterOK(q: Queue, e: Event)
    requires TasksOK(q)
    ensures TasksOK(After(q, e))
  {
  }

  /** The next stretch of a killed writer that will forget a reader. */
  predicate Forgetful(q: Queue, e: Event) {
    && e.Section? && e.p in q.tasks && e.p !in q.readers && e.p !in q.writers && q.tasks[e.p].Writing?
    && e.p in q.killed && q.readers != {} && |q.tasks[e.p].addr| > q.tasks[e.p].at + PIPESIZE
  }

  lemma KilledOnly(q: Queue, e: Event)
    ensures Forgetful(q, e) ==> q.killed != {}
  {
  }

  /** Event k of a run is one. */
  predicate ForgetsAt(q: Queue, events: seq<Event>, k: nat)
    requires k < |events|
  {
    Forgetful(AfterAll(q, events[..k]), events[k])
  }

  lemma NoEvents(q: Queue)
    ensures AfterAll(q, []) == q
  {
  }

  lemma OneMoreEvent(q: Queue, events: seq<Event>, k: nat)
    requires k < |events|
    ensures AfterAll(q, events[..k + 1]) == After(AfterAll(q, events[..k]), events[k])
  {
    assert events[..k + 1][..k] == events[..k];
  }

  function AfterAll(q: Queue, events: seq<Event>): Queue {
    if events == [] then q else After(AfterAll(q, events[..|events| - 1]), events[|events| - 1])
  }

  /** The pipe together with the processes that use it. */
  class Traffic {
    const pipe: Pipe
    var tasks: map<Pid, Task>
    var killed: set<Pid>
    /** All bytes writers have handed over, and all bytes readers have received, in order. */
    var accepted: seq<Byte>
    var delivered: seq<Byte>
    /** A killed writer left after filling the pipe, without waking the readers. */
    var forgot: bool

    ghost function Now(): Queue
      reads this, pipe
    {
      Queue(accepted, delivered, tasks, killed, pipe.readers, pipe.writers, pipe.readopen, pipe.writeopen)
    }

    ghost predicate Valid()
      reads this, pipe, pipe.data
    {
      && pipe.Valid() && pipe.written == accepted && pipe.got == delivered
      && (!forgot ==> pipe.NoneForgotten())
      && TasksOK(Now())
    }

    constructor ()
      ensures Valid() && !forgot && accepted == [] && tasks == map[] && fresh(pipe) && fresh(pipe.data)
    {
      pipe := new Pipe();
      tasks, killed, accepted, delivered, forgot := map[], {}, [], [], false;
    }

    /** What a stretch finds: the ring holds what the queue does, and the end is open. */
    lemma Held(p: Pid)
      requires Valid() && p in tasks
      ensures |pipe.Content()| == Stored(Now()) <= PIPESIZE && delivered + pipe.Content() == accepted
      ensures tasks[p].Writing? ==> pipe.writeopen && tasks[p].at <= |tasks[p].addr|
      ensures tasks[p].Reading? ==> pipe.readopen
    {
    }

    method Write(p: Pid, addr: seq<Byte>, at: nat)
      requires Valid() && p in tasks && tasks[p] == Writing(addr, at) && p !in pipe.writers && p !in pipe.readers
      modifies this`tasks, this`accepted, this`forgot, pipe, pipe.data
      ensures Valid() && Now() == AfterWrite(old(Now()), p, addr, at)
      ensures forgot <==> old(forgot) || old(pipe.Forgets(addr, at, p in killed))
    {
      hide Pipe.NoneForgotten, Pipe.Valid, Pipe.Content, AfterWrite, AfterRead, TasksOK, Stored;
      ghost var q := Now();
      Held(p);
      TasksKept(q, p);
      forgot := forgot || (p in killed && pipe.readers != {} && |addr| > at + PIPESIZE);
      var r := pipe.WriteSection(p, addr, at, p in killed);
      match r {
        case Slept(k) =>
          accepted, tasks := accepted + addr[at..k], tasks[p := Writing(addr, k)];
        case Failed(k) =>
          accepted, tasks := accepted + addr[at..k], tasks[p := Idle];
        case Done(n) =>
          accepted, tasks := accepted + addr[at..], tasks[p := Idle];
      }
      WriteEnds(q, p, addr, at, r, Now());
    }

    method Read(p: Pid, n: nat)
      requires Valid() && p in tasks && tasks[p] == Reading(n) && p !in pipe.readers && p !in pipe.writers
      modifies this`tasks, this`delivered, pipe
      ensures Valid() && Now() == AfterRead(old(Now()), p, n)
    {
      hide Pipe.NoneForgotten, Pipe.Valid, Pipe.Content, AfterWrite, TasksOK, Stored;
      Held(p);
      TasksKept(Now(), p);
      var r := pipe.ReadSection(p, n, p in killed);
      if r.Got? {
        delivered := delivered + r.bytes;
      }
      if !r.Waiting? {
        tasks := tasks[p := Idle];
      }
    }

    method Step(e: Event)
      requires Valid()
      modifies this, pipe, pipe.data
      ensures Valid() && Now() == After(old(Now()), e)
      ensures killed == if e.Kill? then old(killed) + {e.p} else old(killed)
      ensures forgot <==> old(forgot) || Forgetful(old(Now()), e)
    {
      AfterOK(Now(), e);
      hide Pipe.Valid, Pipe.NoneForgotten, AfterWrite, AfterRead;
      match e {
        case StartWrite(p, addr) =>
          if (p !in tasks || tasks[p].Idle?) && pipe.writeopen {
            tasks := tasks[p := Writing(addr, 0)];
          }
        case StartRead(p, n) =>
          if (p !in tasks || tasks[p].Idle?) && pipe.readopen {
            tasks := tasks[p := Reading(n)];
          }
        case Section(p) =>
          if p in tasks && p !in pipe.readers && p !in pipe.writers {
            match tasks[p] {
              case Idle =>
              case Writing(addr, at) => Write(p, addr, at);
              case Reading(n) => Read(p, n);
            }
          }
        case Kill(p) =>
          killed := killed + {p};
          pipe.Rouse(p);
        case CloseRead =>
          if pipe.readopen && forall p :: p in tasks ==> !tasks[p].Reading? {
            var _ := pipe.Close(false);
          }
        case CloseWrite =>
          if pipe.writeopen && forall p :: p in tasks ==> !tasks[p].Writing? {
            var _ := pipe.Close(true);
          }
      }
    }

    /** Every schedule: the ring with its wrapped counters behaves as the queue.  What was read is
        a prefix of what was written, the rest is the content of the ring and never more than it
        holds, and without the killed writer's exit nobody sleeps beside a pipe that could serve
        them: a reader has been forgotten exactly if some event of the run is one that forgets. */
    method Run(events: seq<Event>)
      requires Valid() && !forgot
      modifies this, pipe, pipe.data
      ensures Valid() && Now() == AfterAll(old(Now()), events)
      ensures delivered + pipe.Content() == accepted && |pipe.Content()| <= PIPESIZE
      ensures forgot <==> exists k :: 0 <= k < |events| && ForgetsAt(old(Now()), events, k)
      ensures !forgot ==> pipe.NoneForgotten()
      ensures (forall e :: e in events ==> !e.Kill?) && old(killed) == {} ==> !forgot
    {
      hide After, AfterAll, Pipe.NoneForgotten, Forgetful;
      NoEvents(Now());
      for k := 0 to |events|
        invariant Valid() && Now() == AfterAll(old(Now()), events[..k])
        invariant forgot <==> exists j :: 0 <= j < k && ForgetsAt(old(Now()), events, j)
        invariant (forall e :: e in events ==> !e.Kill?) && old(killed) == {} ==> killed == {} && !forgot
      {
        assert events[k] in events;
        OneMoreEvent(old(Now()), events, k);
        assert Forgetful(Now(), events[k]) <==> ForgetsAt(old(Now()), events, k);
        KilledOnly(Now(), events[k]);
        Step(events[k]);
      }
      assert events[..|events|] == events;
    }
  }
}
