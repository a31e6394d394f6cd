/** What the engine's runs say about the buffer pool: fetching, evicting and flushing change no page, and whatever
    the pool does, a crash after it is recovered. */
module PoolRuns {
  import opened Wal
  import R = RecoveryMachine
  import RP = RecoveryProof
  import opened EngineMachine
  import opened CrashRuns
  import opened ActionRuns
  import opened PoolState
  import opened BufferPools

  /** A cached page without changes is as on disk. */
  ghost predicate CacheMatches(e: Engine) {
    forall p :: p in e.cache ==> p in e.disk.pages && (!e.cache[p].dirty ==> e.cache[p].image == e.disk.pages[p])
  }

  /** Every page reads as before; log, transactions and free list are the same. */
  ghost predicate ReadsSame(e: Engine, e': Engine) {
    && e' == e.(disk := R.Disk(e'.disk.pages, e.disk.freed), cache := e'.cache, durable := e'.durable)
    && e'.disk.pages.Keys == e.disk.pages.Keys
    && forall p :: p in e.disk.pages ==> Current(e', p) == Current(e, p)
  }

  lemma PoolMatches(s: Pool)
    requires PoolOk(s)
    ensures CacheMatches(Machine(s))
  {
    forall p | p in Machine(s).cache
      ensures p in s.world.disk.pages
              && (!Machine(s).cache[p].dirty ==> Machine(s).cache[p].image == s.world.disk.pages[p])
    {
      assert ImageOk(s, s.table[p]);
    }
  }

  lemma QuietFlush(e: Engine, p: nat)
    requires CacheMatches(e) && p in e.cache
    ensures CacheMatches(FlushFrame(e, p)) && ReadsSame(e, FlushFrame(e, p)) && !FlushFrame(e, p).cache[p].dirty
  {
  }

  lemma QuietEvict(e: Engine, e': Engine, p: nat)
    requires CacheMatches(e) && p in e.cache && !e.cache[p].dirty && e' == e.(cache := e.cache - {p})
    ensures CacheMatches(e') && ReadsSame(e, e')
  {
  }

  lemma QuietFetch(e: Engine, e': Engine, p: nat)
    requires CacheMatches(e) && p in e.disk.pages && p !in e.cache
    requires e' == e.(cache := e.cache[p := EngineMachine.Frame(e.disk.pages[p], false, INVALID_LSN)])
    ensures CacheMatches(e') && ReadsSame(e, e')
  {
  }

  lemma QuietStep(e: Engine, a: Action, e': Engine)
    requires CacheMatches(e) && IsCacheAction(a) && Next(e, a, e')
    ensures CacheMatches(e') && ReadsSame(e, e')
  {
    if a.Fetch? {
      QuietFetch(e, e', a.p);
    } else {
      QuietFlush(e, a.p);
      if a.Evict? { QuietEvict(FlushFrame(e, a.p), e', a.p); }
    }
  }

  lemma {:induction false} QuietRun(e: Engine, actions: seq<Action>, e': Engine)
    requires CacheMatches(e) && Via(Next, e, actions, e') && forall a :: a in actions ==> IsCacheAction(a)
    ensures CacheMatches(e') && ReadsSame(e, e')
    decreases |actions|
  {
    if actions != [] {
      var m :| Next(e, actions[0], m) && Via(Next, m, actions[1..], e');
      QuietStep(e, actions[0], m);
      QuietRun(m, actions[1..], e');
    }
  }

  /** Only guarded writes change what a page reads as: a fetch, whatever it loads, evicts or writes back, changes the
      content of no page. */
  lemma FetchReadsSame(s: Pool, p: nat, r: Fetched, actions: seq<Action>, s': Pool)
    requires PoolOk(s) && Fetches(s, p, r, actions, s')
    ensures ReadsSame(Machine(s), Machine(s'))
    ensures r.Pinned? ==> p in s.world.disk.pages && s'.frames[r.frame].page == Current(Machine(s), p)
  {
    PoolMatches(s);
    QuietRun(Machine(s), actions, Machine(s'));
  }

  lemma {:induction false} PoolRunKeepsInv(e: Engine, actions: seq<Action>, e': Engine)
    requires EngineInv(e) && Via(Next, e, actions, e') && forall a :: a in actions ==> !a.RetryAbort?
    ensures EngineInv(e')
    decreases |actions|
  {
    if actions != [] {
      var m :| Next(e, actions[0], m) && Via(Next, m, actions[1..], e');
      ActionKeepsInv(e, actions[0], m);
      PoolRunKeepsInv(m, actions[1..], e');
    }
  }

  /** The machine crashes after the pool has done whatever it does, with any part of the log that is not yet durable
      lost, and recovery runs to its end through any number of further crashes. Then every tracked page is as the
      log that was left promises. */
  lemma PoolCrashIsRecovered(s: Pool, actions: seq<Action>, s': Pool, c: nat, attempts: seq<R.State>)
    requires PoolOk(s) && PoolOk(s') && EngineInv(Machine(s))
    requires Does(s, actions, s') && (forall a :: a in actions ==> !a.RetryAbort?)
    requires s'.world.durable <= c <= |s'.world.log|
    requires RP.Attempts(attempts) && attempts[0] == R.Start(s'.world.log[..c], s'.world.disk)
             && attempts[|attempts| - 1].phase.Done?
    ensures var base, last := s'.world.base, attempts[|attempts| - 1];
            && (forall p :: R.Tracked(last.log, base, p) ==> R.Restored(last.log, last.disk, base, p))
            && (forall t :: t in s'.world.acked ==> HasCommit(s'.world.log, c, t))
  {
    PoolRunKeepsInv(Machine(s), actions, Machine(s'));
    CrashInv(Machine(s'), c);
    CommitsLast(s'.world.log, c, s'.world.acked);
    RP.AttemptsKeepInv(attempts, s'.world.base, |attempts| - 1);
  }

  lemma CommitsLast(log: Log, c: nat, acked: set<nat>)
    requires c <= |log| && forall t :: t in acked ==> HasCommit(log[..c], c, t)
    ensures forall t :: t in acked ==> HasCommit(log, c, t)
  {
    forall t | t in acked ensures HasCommit(log, c, t) {
      var i :| 0 <= i < c && log[..c][i].txnId == t && log[..c][i].recordType == Commit;
      assert log[i].txnId == t && log[i].recordType == Commit;
    }
  }
}
