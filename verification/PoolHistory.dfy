/** Runs of the buffer pool: any calls of its methods, in any order, with transactions coming and going between them. */
module PoolHistory {
  import opened Bytes
  import opened Wal
  import R = RecoveryMachine
  import E = EngineMachine
  import opened PoolState
  import opened BufferPools
  import opened PoolRuns

  /** A call that was made, with what it returned. */
  datatype Step =
    | Fetch(p: nat, fetched: Fetched, actions: seq<E.Action>)
    | FetchWrite(p: nat, t: nat, guarded: Guarded, actions: seq<E.Action>)
    | Modify(g: WriteGuard, image: Image)
    | ReleaseRead(i: nat, writeThrough: bool)
    | ReleaseWrite(g: WriteGuard, fails: bool, writeThrough: bool)
    | NewPage(t: nat, p: nat, i: nat)
    | FlushPage(p: nat)
    | FlushAll(actions: seq<E.Action>)
    | Restore(p: nat, image: Image)
    | Reserve(p: nat)
    | Unreserve(p: nat)
    | Drop(p: nat)
    | Refuse
    | Outside(world: E.Engine)

  /** What the contracts of the methods say. */
  ghost predicate Steps(s: Pool, a: Step, s': Pool)
    requires PoolOk(s)
  {
    && (!a.NewPage? ==> PoolOk(s'))
    && match a
       case Fetch(p, r, actions) => Fetches(s, p, r, actions, s')
       case FetchWrite(p, t, r, actions) => TakesGuard(s, p, t, r, actions, s')
       case Modify(g, image) => GuardOk(s, g) && s' == Changed(s, g.frame, image)
       case ReleaseRead(i, through) =>
         i < |s.frames| && s.frames[i].pins > 0 && i !in s.before && s' == Released(s, i, through)
       case ReleaseWrite(g, fails, through) =>
         && GuardOk(s, g) && E.AtWork(s.world, g.txnId) && E.Holds(s.world, g.txnId, g.pageId)
         && |Ended(s, g, fails).evictable| == |Ended(s, g, fails).frames| > g.frame
         && Ended(s, g, fails).frames[g.frame].pins > 0
         && s' == Released(Ended(s, g, fails), g.frame, through)
       case NewPage(t, p, i) =>
         && E.IsIn(s.world, t, E.Active) && IsDataPage(p) && Selectable(s, i)
         && E.FreePageId(s.world, p) && (p !in s.world.holder || s.world.holder[p] == t)
         && s' == Latch(Opened(s, i, t, p), i)
       case FlushPage(p) => p in s.table && s' == WriteBack(s, s.table[p])
       case FlushAll(actions) =>
         && s'.table == s.table && s'.failures == s.failures && s'.world.disk.freed == s.world.disk.freed
         && Does(s, actions, s') && forall b :: b in actions ==> b.FlushPage?
       case Restore(p, image) =>
         s'.failures == s.failures && Machine(s') == E.RestorePage(Machine(s), p, image)
       case Reserve(p) => s' == Reserved(s, p)
       case Unreserve(p) => s' == Unreserved(s, p)
       case Drop(p) => s'.failures == s.failures && Machine(s') == E.DeletePage(Machine(s), p)
       case Refuse => s' == s
       case Outside(world) => world.disk == s.world.disk && s' == s.(world := world)
  }

  ghost predicate PoolRun(states: seq<Pool>, steps: seq<Step>) {
    && |states| == |steps| + 1
    && forall k :: 0 <= k < |steps| ==> PoolOk(states[k]) && Steps(states[k], steps[k], states[k + 1])
  }

  // ----- the pages on the free list -----

  /** No page on the free list is in the pool. */
  ghost predicate Apart(s: Pool) {
    forall p :: p in s.table ==> p !in s.world.disk.freed
  }

  predicate FetchesFreed(s: Pool, a: Step) {
    (a.Fetch? || a.FetchWrite?) && a.p in s.world.disk.freed
  }

  /** The page handed out is already in another frame. */
  ghost predicate Doubles(s: Pool, a: Step) {
    a.NewPage? && ElsewhereCached(s, a.p, a.i)
  }

  lemma FlushKeepsFreed(s: Pool, i: nat)
    requires i < |s.frames|
    ensures WriteBack(s, i).world.disk.freed == s.world.disk.freed
  {
  }

  lemma FetchKeepsApart(s: Pool, a: Step, s': Pool)
    requires PoolOk(s) && Apart(s) && Steps(s, a, s') && !FetchesFreed(s, a) && (a.Fetch? || a.FetchWrite?)
    ensures Apart(s')
  {
    PoolMatches(s);
    QuietRun(Machine(s), a.actions, Machine(s'));
    var i := if a.Fetch? && a.fetched.Pinned? then a.fetched.frame
             else if a.FetchWrite? && a.guarded.Guard? then a.guarded.guard.frame else |s.frames|;
    forall p | p in s'.table ensures p !in s.world.disk.freed {
      assert p == a.p || p in s.table by { SamePages(s, s', a.p, i, p); }
    }
  }

  /** Only frame `i` can hold another page than before. */
  lemma SamePages(s: Pool, s': Pool, p: nat, i: nat, q: nat)
    requires TableOk(s.frames, s.table) && TableOk(s'.frames, s'.table) && q in s'.table
    requires s'.table == s.table || (OnlyFrameChanges(s, s', i) && i < |s'.frames| && s'.frames[i].pageId == p)
    ensures q == p || q in s.table
  {
  }

  lemma CachedIsOnDisk(s: Pool)
    requires PoolOk(s)
    ensures forall p :: p in s.table ==> p in s.world.disk.pages
  {
    forall p | p in s.table ensures p in s.world.disk.pages { assert ImageOk(s, s.table[p]); }
  }

  lemma NewPageKeepsApart(s: Pool, a: Step, s': Pool)
    requires PoolOk(s) && Apart(s) && Steps(s, a, s') && a.NewPage?
    ensures !Doubles(s, a) && PoolOk(s') && Apart(s')
  {
    CachedIsOnDisk(s);
    var actions := PageIsOpened(s, a.i, a.t, a.p);
    FlushKeepsFreed(s, a.i);
  }

  lemma SameKeys(s: Pool)
    requires PoolOk(s)
    ensures Machine(s).cache.Keys == s.table.Keys && Machine(s).disk == s.world.disk
  {
  }

  lemma OtherKeepsApart(s: Pool, a: Step, s': Pool)
    requires PoolOk(s) && Apart(s) && Steps(s, a, s')
    requires !a.Fetch? && !a.FetchWrite? && !a.NewPage? && !a.Restore? && !a.Drop?
    ensures Apart(s')
  {
    if a.ReleaseRead? || a.ReleaseWrite? { ReleaseKeepsApart(s, a, s'); }
  }

  lemma ReleaseKeepsApart(s: Pool, a: Step, s': Pool)
    requires PoolOk(s) && Apart(s) && Steps(s, a, s') && (a.ReleaseRead? || a.ReleaseWrite?)
    ensures Apart(s')
  {
  }

  lemma StepKeepsApart(s: Pool, a: Step, s': Pool)
    requires PoolOk(s) && Apart(s) && Steps(s, a, s') && !FetchesFreed(s, a)
    ensures !Doubles(s, a) && PoolOk(s') && Apart(s')
  {
    if a.Fetch? || a.FetchWrite? {
      FetchKeepsApart(s, a, s');
    } else if a.NewPage? {
      NewPageKeepsApart(s, a, s');
    } else if a.Restore? || a.Drop? {
      SameKeys(s);
      SameKeys(s');
    } else {
      OtherKeepsApart(s, a, s');
    }
  }

  /** A page is never in two frames, unless a page on the free list has been fetched. */
  lemma {:induction false} NoPageIsDoubled(states: seq<Pool>, steps: seq<Step>, k: nat)
    requires PoolRun(states, steps) && PoolOk(states[0]) && Apart(states[0]) && k <= |steps|
    requires forall j :: 0 <= j < |steps| ==> !FetchesFreed(states[j], steps[j])
    ensures PoolOk(states[k]) && Apart(states[k]) && (k < |steps| ==> !Doubles(states[k], steps[k]))
  {
    if k > 0 {
      NoPageIsDoubled(states, steps, k - 1);
      StepKeepsApart(states[k - 1], steps[k - 1], states[k]);
    }
    if k < |steps| { StepKeepsApart(states[k], steps[k], states[k + 1]); }
  }

  // ----- reads that failed -----

  /** What a fetch of `p` failed with. */
  predicate FailsWith(a: Step, p: nat, error: Error) {
    || (a.Fetch? && a.p == p && a.fetched == NotFetched(error))
    || (a.FetchWrite? && a.p == p && a.guarded == NoGuard(error))
  }

  /** Page `p` could not be read, and no fetch since has been told so. */
  ghost predicate Untold(steps: seq<Step>, p: nat) {
    exists k :: 0 <= k < |steps| && FailsWith(steps[k], p, NotOnDisk)
             && forall m :: k < m < |steps| ==> !FailsWith(steps[m], p, LoadFailed)
  }

  lemma StepFailures(s: Pool, a: Step, s': Pool, p: nat)
    requires PoolOk(s) && Steps(s, a, s')
    ensures p in s'.failures <==> FailsWith(a, p, NotOnDisk) || (p in s.failures && !FailsWith(a, p, LoadFailed))
  {
    if a.Fetch? || a.FetchWrite? {
      FetchFailures(s, a, s', p);
    } else {
      OtherFailures(s, a, s');
    }
  }

  lemma FetchFailures(s: Pool, a: Step, s': Pool, p: nat)
    requires PoolOk(s) && Steps(s, a, s') && (a.Fetch? || a.FetchWrite?)
    ensures p in s'.failures <==> FailsWith(a, p, NotOnDisk) || (p in s.failures && !FailsWith(a, p, LoadFailed))
  {
  }

  lemma OtherFailures(s: Pool, a: Step, s': Pool)
    requires PoolOk(s) && Steps(s, a, s') && !a.Fetch? && !a.FetchWrite?
    ensures s'.failures == s.failures
  {
  }

  lemma OneMoreStep(steps: seq<Step>, a: Step, p: nat)
    ensures Untold(steps + [a], p) <==> FailsWith(a, p, NotOnDisk) || (Untold(steps, p) && !FailsWith(a, p, LoadFailed))
  {
    var more := steps + [a];
    if Untold(steps, p) && !FailsWith(a, p, LoadFailed) {
      var k :| 0 <= k < |steps| && FailsWith(steps[k], p, NotOnDisk)
               && forall m :: k < m < |steps| ==> !FailsWith(steps[m], p, LoadFailed);
      assert more[k] == steps[k];
    }
    if FailsWith(a, p, NotOnDisk) { assert more[|steps|] == a; }
    if Untold(more, p) {
      var k :| 0 <= k < |more| && FailsWith(more[k], p, NotOnDisk)
               && forall m :: k < m < |more| ==> !FailsWith(more[m], p, LoadFailed);
      if k < |steps| {
        assert more[|steps|] == a && more[k] == steps[k];
        assert forall m :: k < m < |steps| ==> more[m] == steps[m];
      }
    }
  }

  lemma {:induction false} FailuresAreUntold(states: seq<Pool>, steps: seq<Step>, p: nat)
    requires PoolRun(states, steps) && states[0].failures == {}
    ensures p in states[|steps|].failures <==> Untold(steps, p)
    decreases |steps|
  {
    if steps != [] {
      var n := |steps| - 1;
      FailuresAreUntold(states[..n + 1], steps[..n], p);
      StepFailures(states[n], steps[n], states[n + 1], p);
      OneMoreStep(steps[..n], steps[n], p);
      assert steps[..n] + [steps[n]] == steps;
    }
  }

  /** A page that is on disk, with a frame to be had, still cannot be fetched if the last attempt to read it has failed:
      however long ago that was, and whatever has become of the page since. */
  lemma MissFailsIff(states: seq<Pool>, steps: seq<Step>, p: nat, r: Fetched, actions: seq<E.Action>, s': Pool)
    requires PoolRun(states, steps) && states[0].failures == {} && PoolOk(states[|steps|])
    requires var s := states[|steps|];
             && Fetches(s, p, r, actions, s') && IsDataPage(p) && !BlocksFetch(s, p) && p !in s.table && !AllTaken(s)
             && p in s.world.disk.pages
    ensures r.NotFetched? <==> Untold(steps, p)
    ensures r.NotFetched? ==> r.error == LoadFailed && p !in s'.failures
  {
    FailuresAreUntold(states, steps, p);
    if Untold(steps, p) { assert FetchFails(states[|steps|], p, LoadFailed); }
  }

  // ----- the methods take these steps -----

  datatype Call =
    | CallFetch(p: nat)
    | CallFetchWrite(p: nat, t: nat)
    | CallModify(g: WriteGuard, image: Image)
    | CallReleaseRead(i: nat)
    | CallReleaseWrite(g: WriteGuard, fails: bool)
    | CallNewPage(t: nat, p: nat)
    | CallFlushPage(p: nat)
    | CallFlushAll
    | CallRestore(p: nat, image: Image)
    | CallReserve(p: nat, expectedPins: nat)
    | CallUnreserve(p: nat)
    | CallDrop(p: nat)

  /** What the methods ask of their callers. */
  ghost predicate MayCall(s: Pool, c: Call)
    requires PoolOk(s)
  {
    match c
    case CallFetch(p) => p in s.table ==> s.table[p] !in s.before
    case CallFetchWrite(p, t) => t in s.world.txns && (p in s.table ==> s.frames[s.table[p]].pins == 0)
    case CallModify(g, image) => GuardOk(s, g) && |image| == PAGE_SIZE
    case CallReleaseRead(i) => i < |s.frames| && s.frames[i].pins > 0 && i !in s.before
    case CallReleaseWrite(g, fails) => GuardOk(s, g) && E.AtWork(s.world, g.txnId)
      && E.Holds(s.world, g.txnId, g.pageId)
    case CallNewPage(t, p) =>
      && t in s.world.txns && IsDataPage(p)
      && E.FreePageId(s.world, p) && (p !in s.world.holder || s.world.holder[p] == t)
    case CallFlushPage(p) => p in s.table && s.frames[s.table[p]].dirty ==> s.frames[s.table[p]].pins == 0
    case CallFlushAll => NoneInUse(s.frames)
    case _ => true
  }

  method GetPage(pool: BufferPool, c: Call) returns (ghost a: Step)
    requires pool.Valid() && MayCall(pool.State(), c) && (c.CallFetch? || c.CallFetchWrite? || c.CallNewPage?)
    modifies pool.Footprint()
    ensures pool.Shaped() && Steps(old(pool.State()), a, pool.State())
  {
    match c
    case CallFetch(p) =>
      var r; ghost var actions;
      r, actions := pool.FetchPage(p);
      a := Fetch(p, r, actions);
    case CallFetchWrite(p, t) =>
      var r; ghost var actions;
      r, actions := pool.FetchPageWrite(p, t);
      a := FetchWrite(p, t, r, actions);
    case CallNewPage(t, p) =>
      var r; ghost var i; ghost var actions;
      r, i, actions := pool.NewPage(t, p);
      a := if r.Guard? then NewPage(t, p, i) else Refuse;
  }

  method UsePage(pool: BufferPool, c: Call) returns (ghost a: Step)
    requires pool.Valid() && MayCall(pool.State(), c) && (c.CallModify? || c.CallReleaseRead? || c.CallReleaseWrite?)
    modifies pool.Footprint()
    ensures pool.Shaped() && Steps(old(pool.State()), a, pool.State())
  {
    match c
    case CallModify(g, image) =>
      var g' := pool.Modify(g, image);
      a := Modify(g, image);
    case CallReleaseRead(i) =>
      pool.ReleaseRead(i);
      a := ReleaseRead(i, pool.writeThrough);
    case CallReleaseWrite(g, fails) =>
      EndedOk(pool.State(), g, fails);
      var r; ghost var actions;
      r, actions := pool.ReleaseWrite(g, fails);
      a := ReleaseWrite(g, fails, pool.writeThrough);
  }

  method FlushPages(pool: BufferPool, c: Call) returns (ghost a: Step)
    requires pool.Valid() && MayCall(pool.State(), c) && (c.CallFlushPage? || c.CallFlushAll?)
    modifies pool.Footprint()
    ensures pool.Shaped() && Steps(old(pool.State()), a, pool.State())
  {
    match c
    case CallFlushPage(p) =>
      var r; ghost var actions;
      r, actions := pool.FlushPage(p);
      a := if actions == [] then Refuse else FlushPage(p);
    case CallFlushAll =>
      ghost var actions := pool.FlushAllPages();
      a := FlushAll(actions);
  }

  method ReplacePage(pool: BufferPool, c: Call) returns (ghost a: Step)
    requires pool.Valid() && (c.CallRestore? || c.CallReserve? || c.CallUnreserve? || c.CallDrop?)
    modifies pool.Footprint()
    ensures pool.Shaped() && Steps(old(pool.State()), a, pool.State())
  {
    var r;
    match c
    case CallRestore(p, image) =>
      r := pool.RestorePage(p, image);
      a := if r.Done? then Restore(p, image) else Refuse;
    case CallReserve(p, expectedPins) =>
      r := pool.BeginPageDeletion(p, expectedPins);
      a := if r.Done? then Reserve(p) else Refuse;
    case CallUnreserve(p) =>
      r := pool.CancelPageDeletion(p);
      a := if r.Done? then Unreserve(p) else Refuse;
    case CallDrop(p) =>
      r := pool.FinalizePageDeletion(p);
      a := if r.Done? then Drop(p) else Refuse;
  }

  /** Every call of a method is one step of a run. */
  method Perform(pool: BufferPool, c: Call) returns (ghost a: Step)
    requires pool.Valid() && MayCall(pool.State(), c)
    modifies pool.Footprint()
    ensures pool.Shaped() && Steps(old(pool.State()), a, pool.State())
  {
    if c.CallFetch? || c.CallFetchWrite? || c.CallNewPage? {
      a := GetPage(pool, c);
    } else if c.CallModify? || c.CallReleaseRead? || c.CallReleaseWrite? {
      a := UsePage(pool, c);
    } else if c.CallFlushPage? || c.CallFlushAll? {
      a := FlushPages(pool, c);
    } else {
      a := ReplacePage(pool, c);
    }
  }
}
