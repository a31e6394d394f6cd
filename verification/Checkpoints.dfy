/** The checkpoint of the database engine: log and pages are forced to disk, and the log starts again. */
module Checkpoints {
  import opened Wal
  import R = RecoveryMachine
  import E = EngineMachine
  import opened ActionRuns
  import opened PoolState
  import opened BufferPools
  import opened PoolRuns

  /** A page that is being deleted has changes that were never written. */
  ghost predicate Unwritten(s: Pool) {
    exists i :: 0 <= i < |s.frames| && s.frames[i].pageId != NO_PAGE && s.frames[i].deleting && s.frames[i].dirty
             && s.frames[i].pageLsn != INVALID_LSN
  }

  /** A page that is being deleted is not on disk as it reads. */
  ghost predicate Stray(s: Pool) {
    exists i :: 0 <= i < |s.frames| && IsStray(s, i)
  }

  ghost predicate IsStray(s: Pool, i: nat)
    requires i < |s.frames|
  {
    var f, disk := s.frames[i], s.world.disk;
    f.pageId != NO_PAGE && f.deleting && f.pageId in disk.pages && f.pageId !in disk.freed
    && Held(f, i, s.before) != disk.pages[f.pageId]
  }

  /** When all pages have been flushed, the flat cache has no changes left, unless a page is being deleted. */
  lemma FlushedPoolIsClean(s: Pool)
    requires PoolOk(s) && CleanUpTo(s.frames, |s.frames|)
    ensures AllClean(Machine(s)) <==> !Unwritten(s)
  {
    var e := Machine(s);
    if i :| 0 <= i < |s.frames| && s.frames[i].pageId != NO_PAGE && s.frames[i].deleting && s.frames[i].dirty
            && s.frames[i].pageLsn != INVALID_LSN {
      assert s.table[s.frames[i].pageId] == i;
      assert e.cache[s.frames[i].pageId].dirty;
    } else {
      forall p | p in e.cache ensures !e.cache[p].dirty {
        assert s.frames[s.table[p]].pageId == p;
      }
    }
  }

  ghost predicate AllClean(e: E.Engine) {
    forall p :: p in e.cache ==> !e.cache[p].dirty
  }

  lemma WorldAside(s: Pool, world: E.Engine)
    requires PoolOk(s) && world.disk == s.world.disk
    ensures PoolOk(s.(world := world)) && Machine(s.(world := world)) == world.(cache := Machine(s).cache)
  {
    var s' := s.(world := world);
    forall k | 0 <= k < |s.frames| && s.frames[k].pageId != NO_PAGE ensures ImageOk(s', k) { assert ImageOk(s, k); }
  }

  function AllDurable(world: E.Engine): E.Engine { world.(durable := |world.log|) }

  function WithCheckpoint(world: E.Engine): E.Engine {
    AllDurable(world.(log := world.log + [E.Record(world, RecordType.Checkpoint, INVALID_TXN, 0, [], [])]))
  }

  function Truncated(world: E.Engine): E.Engine {
    world.(log := [], durable := 0, acked := {},
           base := map p | p in world.disk.pages && p !in world.disk.freed :: world.disk.pages[p])
  }

  lemma ForceIs(s: Pool)
    requires PoolOk(s) && s.world.durable <= |s.world.log|
    ensures var s' := s.(world := AllDurable(s.world));
            PoolOk(s') && Does(s, [E.FlushLog(|s.world.log|)], s')
  {
    var s' := s.(world := AllDurable(s.world));
    WorldAside(s, s'.world);
    ViaOne(E.Next, Machine(s), E.FlushLog(|s.world.log|), Machine(s'));
  }

  function Finishing(world: E.Engine): seq<E.Action> {
    [E.AppendCheckpoint, E.FlushLog(|world.log| + 1), E.Truncate]
  }

  lemma AppendIs(e: E.Engine, e': E.Engine)
    requires e.txns == map[]
    requires e' == e.(log := e.log + [E.Record(e, RecordType.Checkpoint, INVALID_TXN, 0, [], [])])
    ensures E.Next(e, E.AppendCheckpoint, e')
  {
  }

  lemma FlushLogIs(e: E.Engine, e': E.Engine)
    requires e.durable <= |e.log| && e' == AllDurable(e)
    ensures E.Next(e, E.FlushLog(|e.log|), e')
  {
  }

  lemma TruncateIs(e: E.Engine, e': E.Engine)
    requires e.txns == map[] && AllClean(e) && |e.log| > 0 && e.log[|e.log| - 1].recordType == RecordType.Checkpoint
             && e.durable == |e.log| && e' == Truncated(e)
    ensures E.Next(e, E.Truncate, e')
  {
  }

  lemma FinishRuns(e: E.Engine)
    requires e.durable <= |e.log| && e.txns == map[] && AllClean(e)
    ensures Via(E.Next, e, Finishing(e), Truncated(WithCheckpoint(e)))
  {
    var e1 := e.(log := e.log + [E.Record(e, RecordType.Checkpoint, INVALID_TXN, 0, [], [])]);
    AppendIs(e, e1);
    FlushLogIs(e1, AllDurable(e1));
    TruncateIs(AllDurable(e1), Truncated(AllDurable(e1)));
    ThreeSteps(e, e1, AllDurable(e1), Truncated(AllDurable(e1)), |e1.log|);
  }

  lemma ThreeSteps(e: E.Engine, e1: E.Engine, e2: E.Engine, e3: E.Engine, n: nat)
    requires E.Next(e, E.AppendCheckpoint, e1) && E.Next(e1, E.FlushLog(n), e2) && E.Next(e2, E.Truncate, e3)
    ensures Via(E.Next, e, [E.AppendCheckpoint, E.FlushLog(n), E.Truncate], e3)
  {
    ViaThree(E.Next, e, E.AppendCheckpoint, e1, E.FlushLog(n), e2, E.Truncate, e3);
  }

  lemma FinishIs(s: Pool)
    requires PoolOk(s) && s.world.durable <= |s.world.log| && s.world.txns == map[] && AllClean(Machine(s))
    ensures var s' := s.(world := Truncated(WithCheckpoint(s.world)));
            PoolOk(s') && Does(s, Finishing(s.world), s')
  {
    var s' := s.(world := Truncated(WithCheckpoint(s.world)));
    WorldAside(s, s'.world);
    FinishRuns(Machine(s));
  }

  /** The log never falls behind the pages. */
  lemma StillBounded(e: E.Engine, actions: seq<E.Action>, e': E.Engine)
    requires E.EngineInv(e) && Via(E.Next, e, actions, e') && forall a :: a in actions ==> !a.RetryAbort?
    ensures e'.durable <= |e'.log|
  {
    PoolRunKeepsInv(e, actions, e');
  }

  lemma ReadsAs(s: Pool, p: nat)
    requires PoolOk(s) && p in s.world.disk.pages
    ensures E.Current(Machine(s), p) == if p in s.table then Held(s.frames[s.table[p]], s.table[p], s.before)
                                        else s.world.disk.pages[p]
  {
  }

  /** What is on disk after all pages were flushed is what they read as, unless a page is being deleted. */
  lemma DiskIsCurrentIff(s: Pool, s': Pool)
    requires PoolOk(s) && PoolOk(s') && s'.table == s.table && s'.before == s.before && DeletingStay(s, s')
    requires ReadsSame(Machine(s), Machine(s')) && CleanUpTo(s'.frames, |s'.frames|)
    ensures (forall p :: p in s.world.disk.pages && p !in s.world.disk.freed ==>
               s'.world.disk.pages[p] == E.Current(Machine(s), p)) <==> !Stray(s)
  {
    if i :| 0 <= i < |s.frames| && IsStray(s, i) {
      var p := s.frames[i].pageId;
      ReadsAs(s, p);
      assert s.table[p] == i && s'.world.disk.pages[p] == s.world.disk.pages[p];
    } else {
      forall p | p in s.world.disk.pages && p !in s.world.disk.freed
        ensures s'.world.disk.pages[p] == E.Current(Machine(s), p)
      {
        OnDiskAsRead(s, s', p);
      }
    }
  }

  lemma OnDiskAsRead(s: Pool, s': Pool, p: nat)
    requires PoolOk(s) && PoolOk(s') && s'.table == s.table && s'.before == s.before && DeletingStay(s, s')
    requires ReadsSame(Machine(s), Machine(s')) && CleanUpTo(s'.frames, |s'.frames|) && !Stray(s)
    requires p in s.world.disk.pages && p !in s.world.disk.freed
    ensures s'.world.disk.pages[p] == E.Current(Machine(s), p)
  {
    ReadsAs(s', p);
    if p in s.table {
      var i := s.table[p];
      assert ImageOk(s', i);
      if s'.frames[i].dirty { assert !IsStray(s, i); }
    }
  }

  /** Refused while there are transactions. The log is empty afterwards, and the disk is the new base: it has every
      page as it read before exactly when no page that is being deleted differs from its copy on disk. */
  method Checkpoint(pool: BufferPool) returns (ok: bool, ghost actions: seq<E.Action>)
    requires pool.Valid() && NoneInUse(pool.frames[..]) && E.EngineInv(Machine(pool.State()))
    modifies pool.Footprint()
    ensures pool.Valid() && ok == (old(pool.world.txns) == map[])
    ensures !ok ==> pool.State() == old(pool.State())
    ensures ok ==> pool.world.log == [] && pool.table == old(pool.table) && CleanUpTo(pool.frames[..],
              pool.frames.Length)
    ensures ok ==> IsNewBase(old(pool.State()), actions, pool.State())
  {
    if pool.world.txns != map[] { return false, []; }
    ghost var s := pool.State();
    ghost var flushes := ForceAll(pool);
    ghost var s2 := pool.State();
    StartAgain(pool);
    CheckpointIs(s, s.(world := AllDurable(s.world)), flushes, s2);
    actions := [E.FlushLog(|s.world.log|)] + flushes + Finishing(s2.world);
    return true, actions;
  }

  method StartAgain(pool: BufferPool)
    requires pool.Shaped()
    modifies pool`world
    ensures pool.Shaped()
    ensures pool.State() == old(pool.State()).(world := Truncated(WithCheckpoint(old(pool.world))))
  {
    pool.world := Truncated(WithCheckpoint(pool.world));
  }

  /** First the log, and then all pages. */
  method ForceAll(pool: BufferPool) returns (ghost flushes: seq<E.Action>)
    requires pool.Valid() && NoneInUse(pool.frames[..])
    modifies pool.Footprint()
    ensures pool.Valid() && pool.table == old(pool.table) && pool.before == old(pool.before)
    ensures var s1 := old(pool.State()).(world := AllDurable(old(pool.world)));
            && PoolOk(s1) && Does(s1, flushes, pool.State()) && (forall a :: a in flushes ==> a.FlushPage?)
            && DeletingStay(s1, pool.State()) && CleanUpTo(pool.frames[..], pool.frames.Length)
  {
    ghost var s := pool.State();
    WorldAside(s, AllDurable(s.world));
    pool.world := AllDurable(pool.world);
    flushes := pool.FlushAllPages();
  }

  ghost predicate IsNewBase(s: Pool, actions: seq<E.Action>, s': Pool)
    requires TableOk(s.frames, s.table) && TableOk(s'.frames, s'.table)
  {
    && s'.world.base.Keys == (set p | p in s.world.disk.pages && p !in s.world.disk.freed)
    && (BaseIsAsRead(s, s') <==> !Stray(s))
    && (!Unwritten(s) ==> Does(s, actions, s') && forall a :: a in actions ==> !a.RetryAbort?)
  }

  ghost predicate BaseIsAsRead(s: Pool, s': Pool)
    requires TableOk(s.frames, s.table)
  {
    forall p :: p in s'.world.base && p in s.world.disk.pages ==> s'.world.base[p] == E.Current(Machine(s), p)
  }

  lemma CheckpointIs(s: Pool, s1: Pool, flushes: seq<E.Action>, s2: Pool)
    requires PoolOk(s) && PoolOk(s2) && E.EngineInv(Machine(s)) && s.world.txns == map[]
    requires s1 == s.(world := AllDurable(s.world)) && PoolOk(s1)
    requires Does(s1, flushes, s2) && (forall a :: a in flushes ==> a.FlushPage?)
    requires s2.table == s.table && s2.before == s.before && DeletingStay(s1, s2) && CleanUpTo(s2.frames, |s2.frames|)
    ensures var s3 := s2.(world := Truncated(WithCheckpoint(s2.world)));
            PoolOk(s3) && IsNewBase(s, [E.FlushLog(|s.world.log|)] + flushes + Finishing(s2.world), s3)
  {
    var s3 := s2.(world := Truncated(WithCheckpoint(s2.world)));
    WorldAside(s2, s3.world);
    WorldAside(s, s1.world);
    PoolMatches(s1);
    QuietRun(Machine(s1), flushes, Machine(s2));
    BaseIff(s, s1, s2);
    if !Unwritten(s) {
      CheckpointRuns(s, s1, flushes, s2);
    }
  }

  lemma BaseIff(s: Pool, s1: Pool, s2: Pool)
    requires PoolOk(s) && PoolOk(s1) && PoolOk(s2) && s1 == s.(world := AllDurable(s.world))
    requires s2.table == s.table && s2.before == s.before && DeletingStay(s1, s2) && CleanUpTo(s2.frames, |s2.frames|)
    requires ReadsSame(Machine(s1), Machine(s2))
    ensures var s3 := s2.(world := Truncated(WithCheckpoint(s2.world)));
            && s3.world.base.Keys == (set p | p in s.world.disk.pages && p !in s.world.disk.freed)
            && (BaseIsAsRead(s, s3) <==> !Stray(s))
  {
    SameStray(s, s1);
    DiskIsCurrentIff(s1, s2);
    SameCurrent(s, s1);
    var base := Truncated(WithCheckpoint(s2.world)).base;
    BaseIs(s2.world, base);
    assert s2.world.disk.pages.Keys == s.world.disk.pages.Keys && s2.world.disk.freed == s.world.disk.freed;
  }

  lemma BaseIs(world: E.Engine, base: map<nat, Image>)
    requires base == Truncated(WithCheckpoint(world)).base
    ensures base.Keys == (set p | p in world.disk.pages && p !in world.disk.freed)
    ensures forall p :: p in base ==> p in world.disk.pages && base[p] == world.disk.pages[p]
  {
  }

  lemma SameCurrent(s: Pool, s1: Pool)
    requires PoolOk(s) && PoolOk(s1) && s1 == s.(world := AllDurable(s.world))
    ensures forall p :: p in s.world.disk.pages ==> E.Current(Machine(s), p) == E.Current(Machine(s1), p)
  {
    forall p | p in s.world.disk.pages ensures E.Current(Machine(s), p) == E.Current(Machine(s1), p) {
      ReadsAs(s, p);
      ReadsAs(s1, p);
    }
  }

  lemma SameStray(s: Pool, s1: Pool)
    requires s1 == s.(world := AllDurable(s.world))
    ensures Stray(s) == Stray(s1)
  {
    assert forall i :: 0 <= i < |s.frames| ==> IsStray(s, i) == IsStray(s1, i);
  }

  lemma UnwrittenStays(s: Pool, s1: Pool, s2: Pool)
    requires s1.frames == s.frames && DeletingStay(s1, s2) && !Unwritten(s)
             && forall i :: 0 <= i < |s1.frames| && s2.frames[i].pageId != NO_PAGE ==> s1.frames[i].pageId != NO_PAGE
    ensures !Unwritten(s2)
  {
    forall i | 0 <= i < |s2.frames| && s2.frames[i].pageId != NO_PAGE && s2.frames[i].deleting
      ensures s2.frames[i] == s.frames[i]
    {
      assert s1.frames[i].deleting;
    }
  }

  lemma SameOccupied(s1: Pool, s2: Pool)
    requires PoolOk(s1) && PoolOk(s2) && s2.table == s1.table && |s1.frames| == |s2.frames|
    ensures forall i :: 0 <= i < |s1.frames| && s2.frames[i].pageId != NO_PAGE ==> s1.frames[i].pageId != NO_PAGE
  {
    forall i | 0 <= i < |s1.frames| && s2.frames[i].pageId != NO_PAGE ensures s1.frames[i].pageId != NO_PAGE {
      assert s2.table[s2.frames[i].pageId] == i;
    }
  }

  lemma CheckpointRuns(s: Pool, s1: Pool, flushes: seq<E.Action>, s2: Pool)
    requires PoolOk(s) && PoolOk(s1) && PoolOk(s2) && E.EngineInv(Machine(s)) && s.world.txns == map[]
    requires s1 == s.(world := AllDurable(s.world)) && !Unwritten(s) && ReadsSame(Machine(s1), Machine(s2))
    requires Does(s1, flushes, s2) && (forall a :: a in flushes ==> a.FlushPage?)
    requires s2.table == s.table && DeletingStay(s1, s2) && CleanUpTo(s2.frames, |s2.frames|)
    ensures var s3 := s2.(world := Truncated(WithCheckpoint(s2.world)));
            PoolOk(s3) && Does(s, [E.FlushLog(|s.world.log|)] + flushes + Finishing(s2.world), s3)
  {
    var s3, force := s2.(world := Truncated(WithCheckpoint(s2.world))), [E.FlushLog(|s.world.log|)];
    StillBounded(Machine(s), [], Machine(s));
    ForceIs(s);
    ViaJoin(E.Next, Machine(s), force, Machine(s1), flushes, Machine(s2));
    StillBounded(Machine(s), force + flushes, Machine(s2));
    SameOccupied(s1, s2);
    UnwrittenStays(s, s1, s2);
    FlushedPoolIsClean(s2);
    FinishIs(s2);
    ViaJoin(E.Next, Machine(s), force + flushes, Machine(s2), Finishing(s2.world), Machine(s3));
  }
}
