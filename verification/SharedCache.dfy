/** The buffer cache of bio.c shared by processes that hold buffers and wait for one another:
    over every run it is one flat map of blocks, each with at most one owner. */
module SharedCache {
  import opened Machine
  import opened Blocks
  import opened BufferCache
  import LogStore

  /** What processes do with buffers.  bread is two steps: Ask ends where bget gives up
      bcache.lock, Take where acquiresleep and the read from disk are done. */
  datatype Event =
    | Ask(p: nat, b: nat)
    | Take(p: nat)
    | Store(p: nat, b: nat, data: Block)
    | LogWrite(p: nat, b: nat)
    | Bwrite(p: nat, b: nat)
    | Brelse(p: nat, b: nat)

  // ----- the flat map

  /** The contents and the disk's copy of each block, who owns which block, who waits for which,
      and the blocks that log_write has pinned. */
  datatype Flat = Flat(mem: seq<Block>, disk: seq<Block>, owner: map<nat, nat>, waits: map<nat, nat>, pinned: set<nat>)

  function Used(f: Flat): set<nat> {
    f.owner.Keys + f.waits.Values + f.pinned
  }

  predicate WellFormed(f: Flat) {
    && |f.mem| == |f.disk|
    && (forall b :: b in f.owner ==> b < |f.mem|)
    && forall b :: b in f.pinned ==> b < |f.mem|
  }

  predicate Owns(f: Flat, p: nat, b: nat) {
    b in f.owner && f.owner[b] == p && b < |f.mem| && b < |f.disk|
  }

  /** What bio.c expects of its callers: work on a buffer you hold, and give back a buffer only
      when your changes, if any, are logged or written. */
  predicate Legal(f: Flat, e: Event) {
    match e
    case Ask(p, _) => p !in f.waits
    case Take(p) => p in f.waits
    case Brelse(p, b) => Owns(f, p, b) && (b in f.pinned || f.mem[b] == f.disk[b])
    case _ => Owns(f, e.p, e.b)
  }

  /** The panics of bget and of iderw. */
  predicate Panics(f: Flat, e: Event)
    requires Legal(f, e)
  {
    match e
    case Ask(_, b) => b !in Used(f) && |Used(f)| >= NBUF
    case Take(p) => f.waits[p] !in f.owner && f.waits[p] >= |f.mem|
    case _ => false
  }

  function Next(f: Flat, e: Event): Flat {
    if !Legal(f, e) then f else
    match e
    case Ask(p, b) => f.(waits := f.waits[p := b])
    case Take(p) =>
      var b := f.waits[p];
      if b in f.owner then f else f.(owner := f.owner[b := p], waits := f.waits - {p})
    case Store(_, b, data) => f.(mem := f.mem[b := data])
    case LogWrite(_, b) => f.(pinned := f.pinned + {b})
    case Bwrite(_, b) => f.(disk := f.disk[b := f.mem[b]], pinned := f.pinned - {b})
    case Brelse(_, b) => f.(owner := f.owner - {b})
  }

  /** What the process sees: the contents of the block it has been waiting for. */
  function Seen(f: Flat, e: Event): Option<Block> {
    if e.Take? && Legal(f, e) && f.waits[e.p] !in f.owner && f.waits[e.p] < |f.mem| then Some(f.mem[f.waits[e.p]])
    else None
  }

  function After(f: Flat, es: seq<Event>): Flat {
    if es == [] then f else Next(After(f, es[..|es| - 1]), es[|es| - 1])
  }

  lemma AfterOne(f: Flat, es: seq<Event>, k: nat)
    requires k < |es|
    ensures After(f, es[..k + 1]) == Next(After(f, es[..k]), es[k])
  {
    assert es[..k + 1][..k] == es[..k];
  }

  /** The data of the last store to block b, whoever made it. */
  function LastStored(mem: seq<Block>, es: seq<Event>, b: nat): Block
    requires b < |mem|
  {
    if es == [] then mem[b]
    else
      var e := es[|es| - 1];
      if e.Store? && e.b == b then e.data else LastStored(mem, es[..|es| - 1], b)
  }

  ghost predicate LegalRun(f: Flat, es: seq<Event>) {
    forall k :: 0 <= k < |es| ==> Legal(After(f, es[..k]), es[k])
  }

  lemma LegalPrefix(f: Flat, es: seq<Event>, n: nat)
    requires LegalRun(f, es) && n <= |es|
    ensures LegalRun(f, es[..n])
  {
    forall k | 0 <= k < n ensures Legal(After(f, es[..n][..k]), es[..n][k]) {
      assert es[..n][..k] == es[..k];
    }
  }

  /** In every run the contents of a block are what was stored there last. */
  lemma {:induction false} ReadsLastStore(f: Flat, es: seq<Event>, b: nat)
    requires LegalRun(f, es) && b < |f.mem|
    ensures b < |After(f, es).mem| && After(f, es).mem[b] == LastStored(f.mem, es, b)
  {
    if es != [] {
      var n := |es| - 1;
      LegalPrefix(f, es, n);
      ReadsLastStore(f, es[..n], b);
      assert Legal(After(f, es[..n]), es[n]);
    }
  }

  /** A process whose bread returns sees what was stored in the block last, by whichever process,
      and whatever has been evicted since. */
  lemma SeesLastStore(f: Flat, es: seq<Event>, k: nat)
    requires LegalRun(f, es) && k < |es| && Seen(After(f, es[..k]), es[k]).Some?
    ensures var b := After(f, es[..k]).waits[es[k].p];
      b < |f.mem| && Seen(After(f, es[..k]), es[k]).value == LastStored(f.mem, es[..k], b)
  {
    LegalPrefix(f, es, k);
    var b := After(f, es[..k]).waits[es[k].p];
    SameLength(f, es[..k]);
    ReadsLastStore(f, es[..k], b);
  }

  lemma {:induction false} SameLength(f: Flat, es: seq<Event>)
    ensures |After(f, es).mem| == |f.mem|
  {
    if es != [] {
      SameLength(f, es[..|es| - 1]);
    }
  }

  // ----- the cache and the flat map

  function Waiters(waits: map<nat, nat>, b: nat): set<nat> {
    set p | p in waits && waits[p] == b
  }

  function Refs(f: Flat, b: nat): nat {
    |Waiters(f.waits, b)| + if b in f.owner then 1 else 0
  }

  /** A buffer's counters and flags say who uses its block. */
  ghost predicate Agrees(b: Buf, f: Flat) {
    if b.dev == ROOTDEV then
      && b.refcnt == Refs(f, b.blockno)
      && (b.locked <==> b.blockno in f.owner)
      && (b.locked ==> b.valid)
      && (b.dirty <==> b.blockno in f.pinned)
    else b.dev == 0 && b.refcnt == 0 && !b.locked && !b.dirty
  }

  ghost predicate Tracks(bufs: seq<Buf>, f: Flat) {
    && (forall j :: 0 <= j < |bufs| ==> Agrees(bufs[j], f))
    && forall b :: b in Used(f) ==> Cached(bufs, ROOTDEV, b)
  }

  /** The processes' pointers lead to the buffers of the blocks they use. */
  ghost predicate Pointed(bufs: seq<Buf>, bp: map<nat, nat>, f: Flat) {
    forall b :: b in f.owner.Keys + f.waits.Values ==>
      b in bp && bp[b] < |bufs| && Caches(bufs[bp[b]], ROOTDEV, b)
  }

  lemma NoRefs(f: Flat, b: nat)
    ensures Refs(f, b) == 0 <==> b !in f.owner.Keys + f.waits.Values
  {
    if b in f.waits.Values {
      var p :| p in f.waits && f.waits[p] == b;
      assert p in Waiters(f.waits, b);
    } else {
      assert Waiters(f.waits, b) == {};
    }
  }

  /** The buffers that cannot be recycled are those of the blocks in use. */
  lemma UsedBlocks(bufs: seq<Buf>, f: Flat)
    requires Tracks(bufs, f)
    ensures LogStore.HeldBlocks(bufs, LogStore.InUse(bufs)) == Used(f)
  {
    hide Refs;
    var js := LogStore.InUse(bufs);
    forall b | b in Used(f) ensures b in LogStore.HeldBlocks(bufs, js) {
      var j: nat :| j < |bufs| && Caches(bufs[j], ROOTDEV, b);
      NoRefs(f, b);
      assert Agrees(bufs[j], f);
      assert j in js;
    }
    forall b | b in LogStore.HeldBlocks(bufs, js) ensures b in Used(f) {
      var j :| j in js && j < |bufs| && bufs[j].blockno == b;
      NoRefs(f, b);
      assert Agrees(bufs[j], f);
    }
  }

  lemma UsedOnce(bufs: seq<Buf>, f: Flat, i: nat, j: nat)
    requires Unique(bufs) && Tracks(bufs, f) && i in LogStore.InUse(bufs) && j in LogStore.InUse(bufs) && i != j
    ensures bufs[i].blockno != bufs[j].blockno
  {
    assert Agrees(bufs[i], f) && Agrees(bufs[j], f);
    assert !Caches(bufs[j], bufs[i].dev, bufs[i].blockno);
  }

  /** When bget panics, in terms of the flat map. */
  lemma NoBuffer(bufs: seq<Buf>, f: Flat, b: nat)
    requires Unique(bufs) && Tracks(bufs, f) && |bufs| == NBUF
    ensures (!Cached(bufs, ROOTDEV, b) && AllBusy(bufs)) <==> (b !in Used(f) && |Used(f)| >= NBUF)
  {
    hide Refs, Agrees, Unique;
    var js := LogStore.InUse(bufs);
    UsedBlocks(bufs, f);
    LogStore.InUseInside(bufs);
    forall i, j | i in js && j in js && i != j ensures bufs[i].blockno != bufs[j].blockno {
      UsedOnce(bufs, f, i, j);
    }
    LogStore.SameCount(bufs, js);
    LogStore.AllInUse(bufs);
    if AllBusy(bufs) && Cached(bufs, ROOTDEV, b) {
      var j: nat :| j < |bufs| && Caches(bufs[j], ROOTDEV, b);
      assert j in js;
    }
  }

  lemma MoreValues(m: map<nat, nat>, p: nat, b: nat)
    requires p !in m
    ensures m[p := b].Values == m.Values + {b}
  {
    var w := m[p := b];
    forall c | c in m.Values ensures c in w.Values {
      var q :| q in m && m[q] == c;
      assert w[q] == c;
    }
    assert w[p] == b;
  }

  lemma MoreWaiters(m: map<nat, nat>, p: nat, b: nat)
    requires p !in m
    ensures |Waiters(m[p := b], b)| == |Waiters(m, b)| + 1
    ensures forall c :: c != b ==> Waiters(m[p := b], c) == Waiters(m, c)
  {
    assert Waiters(m[p := b], b) == Waiters(m, b) + {p};
    forall c | c != b ensures Waiters(m[p := b], c) == Waiters(m, c) {
    }
  }

  lemma OneMoreWaiter(f: Flat, p: nat, b: nat)
    requires p !in f.waits
    ensures var g := f.(waits := f.waits[p := b]);
      && Refs(g, b) == Refs(f, b) + 1 && Used(g) == Used(f) + {b}
      && forall c :: c != b ==> Refs(g, c) == Refs(f, c)
  {
    hide Waiters;
    MoreValues(f.waits, p, b);
    MoreWaiters(f.waits, p, b);
  }

  lemma WaiterOwns(f: Flat, p: nat)
    requires p in f.waits && f.waits[p] !in f.owner
    ensures var b := f.waits[p];
      var g := f.(owner := f.owner[b := p], waits := f.waits - {p});
      && Used(g) == Used(f) && g.owner.Keys + g.waits.Values == f.owner.Keys + f.waits.Values
      && forall c :: Refs(g, c) == Refs(f, c)
  {
    var b := f.waits[p];
    var w := f.waits - {p};
    assert Waiters(w, b) == Waiters(f.waits, b) - {p};
    forall c | c != b ensures Waiters(w, c) == Waiters(f.waits, c) {
    }
    forall c | c in f.waits.Values && c != b ensures c in w.Values {
      var q :| q in f.waits && f.waits[q] == c;
      assert q in w && w[q] == c;
    }
    forall c | c in w.Values ensures c in f.waits.Values {
      var q :| q in w && w[q] == c;
      assert f.waits[q] == c;
    }
  }

  /** Replacing buffer i, when only its own block changes its standing. */
  lemma TracksOne(bufs: seq<Buf>, f: Flat, i: nat, b: Buf, g: Flat)
    requires i < |bufs| && Unique(bufs) && Tracks(bufs, f) && bufs[i].dev == ROOTDEV == b.dev
    requires b.blockno == bufs[i].blockno && Agrees(b, g) && Used(g) <= Used(f) + {b.blockno}
    requires forall c :: c != b.blockno ==>
      Refs(g, c) == Refs(f, c) && (c in g.owner <==> c in f.owner) && (c in g.pinned <==> c in f.pinned)
    ensures Tracks(bufs[i := b], g)
  {
    hide Refs, Used;
    var now := bufs[i := b];
    forall j | 0 <= j < |now| ensures Agrees(now[j], g) {
      assert j != i ==> Agrees(bufs[j], f) && !Caches(bufs[j], bufs[i].dev, bufs[i].blockno);
    }
    forall c | c in Used(g) ensures Cached(now, ROOTDEV, c) {
      if c == b.blockno {
        assert Caches(now[i], ROOTDEV, c);
      } else {
        var j: nat :| j < |bufs| && Caches(bufs[j], ROOTDEV, c);
        assert Caches(now[j], ROOTDEV, c);
      }
    }
  }

  /** Recycling a free buffer for a block that nobody uses yet. */
  lemma TracksRecycled(bufs: seq<Buf>, f: Flat, i: nat, p: nat, b: nat)
    requires i < |bufs| && Unique(bufs) && Tracks(bufs, f) && p !in f.waits
    requires Recyclable(bufs[i]) && !bufs[i].locked && !Cached(bufs, ROOTDEV, b)
    ensures Tracks(bufs[i := Recycled(bufs[i], ROOTDEV, b)], f.(waits := f.waits[p := b]))
  {
    hide Refs;
    var g := f.(waits := f.waits[p := b]);
    var now := bufs[i := Recycled(bufs[i], ROOTDEV, b)];
    OneMoreWaiter(f, p, b);
    NoRefs(f, b);
    NoRefs(f, bufs[i].blockno);
    assert Agrees(bufs[i], f);
    forall j | 0 <= j < |now| ensures Agrees(now[j], g) {
      assert j != i ==> Agrees(bufs[j], f) && !Caches(bufs[j], ROOTDEV, b);
    }
    forall c | c in Used(g) ensures Cached(now, ROOTDEV, c) {
      if c == b {
        assert Caches(now[i], ROOTDEV, c);
      } else {
        var j: nat :| j < |bufs| && Caches(bufs[j], ROOTDEV, c);
        assert Caches(now[j], ROOTDEV, c);
      }
    }
  }

  /** What bget does to the buffers. */
  ghost predicate AskedFor(was: seq<Buf>, ring: seq<nat>, b: nat, i: nat, now: seq<Buf>)
    requires i < |was|
  {
    if Cached(was, ROOTDEV, b)
    then Caches(was[i], ROOTDEV, b) && now == was[i := was[i].(refcnt := was[i].refcnt + 1)]
    else LeastRecent(was, ring, i) && now == was[i := Recycled(was[i], ROOTDEV, b)]
  }

  lemma CacheUnique(c: Cache)
    requires c.Valid()
    ensures Unique(c.bufs[..]) && c.bufs.Length == NBUF
  {
  }

  lemma AskTracks(was: seq<Buf>, ring: seq<nat>, f: Flat, p: nat, b: nat, i: nat, now: seq<Buf>)
    requires Unique(was) && Tracks(was, f) && p !in f.waits && i < |was|
    requires AskedFor(was, ring, b, i, now)
    ensures Tracks(now, f.(waits := f.waits[p := b]))
    ensures Refs(f, was[i].blockno) > 0 ==> was[i].dev == ROOTDEV ==> was[i].blockno == b
  {
    hide Refs, Unique;
    OneMoreWaiter(f, p, b);
    assert Agrees(was[i], f);
    NoRefs(f, was[i].blockno);
    if Cached(was, ROOTDEV, b) {
      TracksOne(was, f, i, now[i], f.(waits := f.waits[p := b]));
    } else {
      TracksRecycled(was, f, i, p, b);
    }
  }

  lemma AskPointed(was: seq<Buf>, ring: seq<nat>, bp: map<nat, nat>, f: Flat, p: nat, b: nat, i: nat, now: seq<Buf>)
    requires Pointed(was, bp, f) && p !in f.waits && i < |was|
    requires AskedFor(was, ring, b, i, now)
    requires Refs(f, was[i].blockno) > 0 ==> was[i].dev == ROOTDEV ==> was[i].blockno == b
    ensures Pointed(now, bp[b := i], f.(waits := f.waits[p := b]))
  {
    hide Refs, LeastRecent;
    MoreValues(f.waits, p, b);
    NoRefs(f, was[i].blockno);
  }

  /** Work on buffer i that leaves it with its block. */
  lemma PointedOne(bufs: seq<Buf>, bp: map<nat, nat>, f: Flat, i: nat, b: Buf, g: Flat)
    requires Pointed(bufs, bp, f) && i < |bufs| && Caches(b, bufs[i].dev, bufs[i].blockno)
    requires g.owner.Keys + g.waits.Values <= f.owner.Keys + f.waits.Values
    ensures Pointed(bufs[i := b], bp, g)
  {
  }

  /** The buffer of a block in use. */
  lemma UserBuffer(c: Cache, bp: map<nat, nat>, f: Flat, b: nat)
    requires c.Valid() && Tracks(c.bufs[..], f) && Pointed(c.bufs[..], bp, f) && c.View() == f.mem
    requires b in f.owner.Keys + f.waits.Values
    ensures b in bp && bp[b] < NBUF == c.bufs.Length && Caches(c.bufs[bp[b]], ROOTDEV, b) && Agrees(c.bufs[bp[b]], f)
    ensures c.bufs[bp[b]].valid ==> b < |f.mem| == c.disk.Length && c.bufs[bp[b]].data == f.mem[b]
  {
    var i := bp[b];
    assert Sound(c.bufs[..][i], c.disk[..]);
    if c.bufs[i].valid {
      Hit(c.bufs[..], c.disk[..], i, b);
    }
  }

  /** A step that touches only block b and its buffer. */
  lemma Worked(was: seq<Buf>, now: seq<Buf>, bp: map<nat, nat>, f: Flat, b: nat, g: Flat)
    requires Unique(was) && Tracks(was, f) && Pointed(was, bp, f) && b in f.owner && g.waits == f.waits
    requires b in bp && bp[b] < |was| == |now| && Caches(was[bp[b]], ROOTDEV, b) && Caches(now[bp[b]], ROOTDEV, b)
    requires now == was[bp[b] := now[bp[b]]] && Agrees(now[bp[b]], g)
    requires g.owner == f.owner || g.owner == f.owner - {b}
    requires g.pinned <= f.pinned + {b} && f.pinned <= g.pinned + {b}
    ensures Tracks(now, g) && Pointed(now, bp, g)
  {
    hide Tracks, Pointed;
    TracksOne(was, f, bp[b], now[bp[b]], g);
    PointedOne(was, bp, f, bp[b], now[bp[b]], g);
  }

  /** A waiter that takes the free lock. */
  lemma Took(was: seq<Buf>, now: seq<Buf>, bp: map<nat, nat>, f: Flat, p: nat)
    requires Unique(was) && Tracks(was, f) && Pointed(was, bp, f) && p in f.waits && f.waits[p] !in f.owner
    requires var b := f.waits[p];
      && b in bp && bp[b] < |was| == |now| && Caches(was[bp[b]], ROOTDEV, b)
      && now == was[bp[b] := was[bp[b]].(valid := true, locked := true, data := now[bp[b]].data)]
    ensures var g := Next(f, Take(p)); Tracks(now, g) && Pointed(now, bp, g)
  {
    hide Tracks, Pointed, Refs, Unique;
    var i := bp[f.waits[p]];
    WaiterOwns(f, p);
    assert Agrees(was[i], f) by { AgreesAt(was, f, i); }
    TracksOne(was, f, i, now[i], Next(f, Take(p)));
    PointedOne(was, bp, f, i, now[i], Next(f, Take(p)));
  }

  lemma AgreesAt(bufs: seq<Buf>, f: Flat, i: nat)
    requires Tracks(bufs, f) && i < |bufs|
    ensures Agrees(bufs[i], f)
  {
  }

  lemma SameRefs(f: Flat, g: Flat, b: nat)
    requires g.owner == f.owner && g.waits == f.waits
    ensures Refs(g, b) == Refs(f, b)
  {
  }

  lemma OwnerLeaves(f: Flat, b: nat)
    requires b in f.owner
    ensures Refs(f.(owner := f.owner - {b}), b) == Refs(f, b) - 1
  {
  }

  /** A cache and the processes that use it. */
  class Users {
    const cache: Cache
    var bp: map<nat, nat>      // the buffer of each block that a process holds or waits for
    var waits: map<nat, nat>   // the processes between bget and acquiresleep
    ghost var f: Flat

    ghost predicate Valid()
      reads this, cache, cache.disk, cache.bufs, cache.next, cache.prev
    {
      && cache.Valid() && cache.View() == f.mem && cache.disk[..] == f.disk && WellFormed(f)
      && Tracks(cache.bufs[..], f) && Pointed(cache.bufs[..], bp, f) && waits == f.waits
    }

    constructor (image: seq<Block>)
      ensures Valid() && f == Flat(image, image, map[], map[], {})
      ensures fresh(cache) && fresh(cache.disk) && fresh(cache.bufs) && fresh(cache.next) && fresh(cache.prev)
    {
      cache := new Cache(image);
      bp, waits := map[], map[];
      f := Flat(image, image, map[], map[], {});
      new;
      forall j | 0 <= j < NBUF ensures Agrees(cache.bufs[j], f) {
        assert Sound(cache.bufs[..][j], cache.disk[..]);
      }
    }

    /** bget, up to where the process may have to sleep. */
    method AskFor(p: nat, b: nat) returns (ok: bool)
      requires Valid() && p !in f.waits
      modifies this, cache.bufs
      ensures ok <==> !Panics(old(f), Ask(p, b))
      ensures ok ==> Valid() && f == Next(old(f), Ask(p, b))
    {
      hide Coherent, ViewAt, ViewOf, Refs, Used, Tracks, Cache.Ordered, Unique, Cached, AllBusy, Pointed, LeastRecent;
      ghost var was: seq<Buf> := cache.bufs[..];
      CacheUnique(cache);
      NoBuffer(was, f, b);
      var r := cache.Bget(ROOTDEV, b);
      if r.None? {
        return false;
      }
      AskTracks(was, cache.ring, f, p, b, r.value, cache.bufs[..]);
      AskPointed(was, cache.ring, bp, f, p, b, r.value, cache.bufs[..]);
      bp := bp[b := r.value];
      waits := waits[p := b];
      f := Next(f, Ask(p, b));
      ok := true;
    }

    /** The rest of bread: the process stays asleep while somebody owns the block. */
    method TakeIt(p: nat) returns (ok: bool, seen: Option<Block>)
      requires Valid() && p in f.waits
      modifies this, cache.disk, cache.bufs
      ensures ok <==> !Panics(old(f), Take(p))
      ensures ok ==> Valid() && f == Next(old(f), Take(p)) && seen == Seen(old(f), Take(p))
    {
      hide Coherent, ViewAt, ViewOf, Refs, Used, Tracks, Cache.Ordered, Unique, Pointed;
      var b := waits[p];
      assert b in f.waits.Values;
      UserBuffer(cache, bp, f, b);
      var i := bp[b];
      ghost var was: seq<Buf> := cache.bufs[..];
      if cache.bufs[i].locked {
        return true, None;
      }
      CacheUnique(cache);
      NoRefs(f, b);
      ok := cache.Take(i);
      if !ok {
        return false, None;
      }
      Took(was, cache.bufs[..], bp, f, p);
      waits := waits - {p};
      f := Next(f, Take(p));
      seen := Some(cache.bufs[i].data);
    }

    /** memmove into a buffer that the process holds. */
    method StoreInto(p: nat, b: nat, data: Block)
      requires Valid() && Legal(f, Event.Store(p, b, data))
      modifies this, cache.bufs
      ensures Valid() && f == Next(old(f), Event.Store(p, b, data))
    {
      hide Coherent, ViewAt, ViewOf, Refs, Used, Tracks, Cache.Ordered, Unique, Pointed;
      UserBuffer(cache, bp, f, b);
      CacheUnique(cache);
      ghost var was: seq<Buf> := cache.bufs[..];
      cache.Store(bp[b], data);
      SameRefs(f, Next(f, Event.Store(p, b, data)), b);
      Worked(was, cache.bufs[..], bp, f, b, Next(f, Event.Store(p, b, data)));
      f := Next(f, Event.Store(p, b, data));
    }

    /** log_write of a buffer that the process holds, as far as the cache is concerned. */
    method PinIt(p: nat, b: nat)
      requires Valid() && Legal(f, LogWrite(p, b))
      modifies this, cache.bufs
      ensures Valid() && f == Next(old(f), LogWrite(p, b))
    {
      hide Coherent, ViewAt, ViewOf, Refs, Used, Tracks, Cache.Ordered, Unique, Pointed;
      UserBuffer(cache, bp, f, b);
      CacheUnique(cache);
      ghost var was: seq<Buf> := cache.bufs[..];
      cache.Pin(bp[b]);
      SameRefs(f, Next(f, LogWrite(p, b)), b);
      Worked(was, cache.bufs[..], bp, f, b, Next(f, LogWrite(p, b)));
      f := Next(f, LogWrite(p, b));
    }

    method WriteIt(p: nat, b: nat)
      requires Valid() && Legal(f, Event.Bwrite(p, b))
      modifies this, cache.disk, cache.bufs
      ensures Valid() && f == Next(old(f), Event.Bwrite(p, b))
    {
      hide Coherent, ViewAt, ViewOf, Refs, Used, Tracks, Cache.Ordered, Unique, Pointed;
      UserBuffer(cache, bp, f, b);
      CacheUnique(cache);
      ghost var was: seq<Buf> := cache.bufs[..];
      var ok := cache.Bwrite(bp[b]);
      SameRefs(f, Next(f, Event.Bwrite(p, b)), b);
      Worked(was, cache.bufs[..], bp, f, b, Next(f, Event.Bwrite(p, b)));
      f := Next(f, Event.Bwrite(p, b));
    }

    method GiveBack(p: nat, b: nat)
      requires Valid() && Legal(f, Event.Brelse(p, b))
      modifies this, cache, cache.bufs, cache.next, cache.prev
      ensures Valid() && f == Next(old(f), Event.Brelse(p, b))
    {
      hide Coherent, ViewAt, ViewOf, Refs, Used, Tracks, Cache.Ordered, Unique, Pointed;
      UserBuffer(cache, bp, f, b);
      CacheUnique(cache);
      ghost var was: seq<Buf> := cache.bufs[..];
      var ok := cache.Brelse(bp[b]);
      OwnerLeaves(f, b);
      Worked(was, cache.bufs[..], bp, f, b, Next(f, Event.Brelse(p, b)));
      f := Next(f, Event.Brelse(p, b));
    }

    method Step(e: Event) returns (ok: bool, seen: Option<Block>)
      requires Valid() && Legal(f, e)
      modifies this, cache, cache.disk, cache.bufs, cache.next, cache.prev
      ensures ok <==> !Panics(old(f), e)
      ensures ok ==> Valid() && f == Next(old(f), e) && seen == Seen(old(f), e)
    {
      hide Valid;
      ok, seen := true, None;
      match e {
        case Ask(p, b) => ok := AskFor(p, b);
        case Take(p) => ok, seen := TakeIt(p);
        case Store(p, b, data) => StoreInto(p, b, data);
        case LogWrite(p, b) => PinIt(p, b);
        case Bwrite(p, b) => WriteIt(p, b);
        case Brelse(p, b) => GiveBack(p, b);
      }
    }

    /** Any run of callers that keep to the rules.  It stops at the first panic, which the flat
        map foretells; until then every process sees what the flat map shows it. */
    method Run(es: seq<Event>) returns (done: nat, seen: seq<Option<Block>>)
      requires Valid() && LegalRun(f, es)
      modifies this, cache, cache.disk, cache.bufs, cache.next, cache.prev
      ensures done <= |es| && |seen| == done
      ensures forall k :: 0 <= k < done ==>
        var g := After(old(f), es[..k]); !Panics(g, es[k]) && seen[k] == Seen(g, es[k])
      ensures done < |es| ==> Panics(After(old(f), es[..done]), es[done])
      ensures done == |es| ==> Valid() && f == After(old(f), es)
    {
      hide Valid, Panics, Seen, Next, Legal;
      done, seen := 0, [];
      ghost var f0 := f;
      while done < |es|
        invariant done <= |es| && |seen| == done && Valid() && f == After(f0, es[..done])
        invariant forall k :: 0 <= k < done ==>
          var g := After(f0, es[..k]); !Panics(g, es[k]) && seen[k] == Seen(g, es[k])
      {
        AfterOne(f0, es, done);
        var ok, s := Step(es[done]);
        if !ok { return; }
        seen := seen + [s];
        done := done + 1;
      }
      assert es[..done] == es;
    }
  }
}
