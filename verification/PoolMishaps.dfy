/** Two runs of the buffer pool that go wrong: a page that gets into two frames, and a page that can be read and yet is
    reported as missing. */
module PoolMishaps {
  import R = RecoveryMachine
  import E = EngineMachine
  import opened PoolState
  import opened BufferPools
  import opened PoolRuns

  // ----- a page in two frames -----

  lemma FetchIsQuiet(s: Pool, p: nat, r: Fetched, actions: seq<E.Action>, s': Pool)
    requires PoolOk(s) && Fetches(s, p, r, actions, s')
    ensures ReadsSame(Machine(s), Machine(s'))
    ensures s'.world.disk.freed == s.world.disk.freed && s'.world.disk.pages.Keys == s.world.disk.pages.Keys
    ensures s'.world.txns == s.world.txns && s'.world.holder == s.world.holder
  {
    FetchReadsSame(s, p, r, actions, s');
  }

  lemma EmptyFrame(s: Pool, p: nat, i: nat)
    requires PoolOk(s) && |s.frames| >= 2 && p in s.table && s.table[p] == i
    requires forall q :: q in s.table ==> q == p
    ensures s.free != []
  {
    var k := if i == 0 then 1 else 0;
    assert s.frames[k].pageId == NO_PAGE;
  }

  /** Of a pool without pages, or with the one page `p`, that nobody has pinned. */
  ghost predicate Idle(s: Pool) {
    s.before == map[] && s.pending == {}
  }

  ghost predicate OnlyPage(s: Pool, p: nat, pins: nat) {
    && s.table.Keys == {p} && s.table[p] < |s.frames|
    && s.frames[s.table[p]].pins == pins && s.frames[s.table[p]].pageId == p && !s.frames[s.table[p]].deleting
  }

  lemma FirstFetch(s: Pool, p: nat, r: Fetched, actions: seq<E.Action>, s': Pool)
    requires PoolOk(s) && Fetches(s, p, r, actions, s') && IsDataPage(p) && p in s.world.disk.pages
    requires s.table == map[] && Idle(s) && s.failures == {} && |s.frames| > 0
    ensures r.Pinned? && OnlyPage(s', p, 1) && s'.table[p] == r.frame && Idle(s') && s'.failures == {}
  {
    assert s.frames[0].pageId == NO_PAGE;
    var i := r.frame;
    forall q | q in s'.table ensures q == p {
      assert s'.table[q] == i;
    }
  }

  lemma OnlyPageReleased(s: Pool, p: nat, writeThrough: bool)
    requires PoolOk(s) && OnlyPage(s, p, 1)
    ensures var s' := Released(s, s.table[p], writeThrough);
            OnlyPage(s', p, 0) && s'.table == s.table && s'.before == s.before && s'.pending == s.pending
            && s'.failures == s.failures && s'.world.disk.freed == s.world.disk.freed
            && s'.world.disk.pages.Keys == s.world.disk.pages.Keys
            && s'.world.txns == s.world.txns && s'.world.holder == s.world.holder
  {
    assert ImageOk(s, s.table[p]);
  }

  /** The new pool reads one page. */
  method FetchFirst(pool: BufferPool, p: nat) returns (i: nat)
    requires pool.Valid() && IsDataPage(p) && p in pool.world.disk.pages && pool.frames.Length > 0
    requires pool.table == map[] && Idle(pool.State()) && pool.failures == {}
    modifies pool.Footprint()
    ensures pool.Valid() && OnlyPage(pool.State(), p, 0) && pool.table[p] == i && Idle(pool.State())
    ensures pool.world.disk.freed == old(pool.world.disk.freed)
    ensures pool.world.txns == old(pool.world.txns) && pool.world.holder == old(pool.world.holder)
  {
    ghost var s := pool.State();
    var r; ghost var actions;
    r, actions := pool.FetchPage(p);
    ghost var s' := pool.State();
    FetchIsQuiet(s, p, r, actions, s');
    FirstFetch(s, p, r, actions, s');
    OnlyPageReleased(s', p, pool.writeThrough);
    i := r.frame;
    pool.ReleaseRead(i);
  }

  /** A page on the free list is fetched and released, and then handed out as a new page: it is in two frames. */
  method DoublePage(world: E.Engine, size: nat, writeThrough: bool, t: nat, p: nat)
      returns (pool: BufferPool, i: nat, j: nat)
    requires size >= 2 && IsDataPage(p) && p in world.disk.pages && p in world.disk.freed
    requires E.IsIn(world, t, E.Active) && (p !in world.holder || world.holder[p] == t)
    ensures i < pool.frames.Length && j < pool.frames.Length && i != j
    ensures pool.frames[i].pageId == p && pool.frames[j].pageId == p
    ensures !TableOk(pool.State().frames, pool.table)
  {
    pool := new BufferPool(size, writeThrough, world);
    i := FetchFirst(pool, p);
    ghost var s := pool.State();
    EmptyFrame(s, p, i);
    var r; ghost var k; ghost var actions;
    r, k, actions := pool.NewPage(t, p);
    assert ElsewhereCached(s, p, k);
    j := pool.table[p];
  }

  // ----- a page that can be read and is reported as missing -----

  lemma FirstFails(s: Pool, p: nat, r: Fetched, actions: seq<E.Action>, s': Pool)
    requires PoolOk(s) && Fetches(s, p, r, actions, s') && IsDataPage(p) && p !in s.world.disk.pages
    requires s.table == map[] && Idle(s) && s.failures == {} && |s.frames| > 0
    ensures r == NotFetched(NotOnDisk) && s'.table == map[] && Idle(s') && s'.failures == {p}
  {
    assert s.frames[0].pageId == NO_PAGE;
    assert FetchFails(s, p, NotOnDisk);
  }

  lemma OpenedFirst(s: Pool, i: nat, t: nat, p: nat)
    requires PoolOk(s) && s.table == map[] && Idle(s) && Selectable(s, i)
    requires E.IsIn(s.world, t, E.Active) && IsDataPage(p)
    ensures var s' := Latch(Opened(s, i, t, p), i);
            && OnlyPage(s', p, 1) && s'.table[p] == i && s'.before.Keys == {i} && s'.pending == {}
            && s'.failures == s.failures && s'.world.disk.pages.Keys == s.world.disk.pages.Keys + {p}
            && E.AtWork(s'.world, t) && E.Holds(s'.world, t, p)
  {
    assert s.frames[i].pageId == NO_PAGE;
  }

  lemma NothingTaken(s: Pool, i: nat)
    requires PoolOk(s) && i < |s.frames| && s.frames[i].pins == 0 && !s.frames[i].deleting
    ensures !AllTaken(s)
  {
  }

  /** In a pool of one frame another page takes its place. */
  lemma NextFetch(s: Pool, p: nat, q: nat, r: Fetched, actions: seq<E.Action>, s': Pool)
    requires PoolOk(s) && Fetches(s, q, r, actions, s') && IsDataPage(q) && q in s.world.disk.pages
    requires |s.frames| == 1 && OnlyPage(s, p, 0) && Idle(s) && q != p && q !in s.failures
    ensures r.Pinned? && OnlyPage(s', q, 1) && s'.table[q] == r.frame && Idle(s') && s'.failures == s.failures
  {
    NothingTaken(s, s.table[p]);
  }

  lemma CleanRelease(s: Pool, g: WriteGuard, writeThrough: bool)
    requires PoolOk(s) && GuardOk(s, g) && !g.dirty && OnlyPage(s, g.pageId, 1) && s.table[g.pageId] == g.frame
    requires E.AtWork(s.world, g.txnId) && E.Holds(s.world, g.txnId, g.pageId) && s.before.Keys == {g.frame}
    ensures PoolOk(Ended(s, g, false)) && Ended(s, g, false).frames[g.frame].pins == 1
    ensures var s' := Released(Ended(s, g, false), g.frame, writeThrough);
            && OnlyPage(s', g.pageId, 0) && s'.before == map[] && s'.pending == s.pending && s'.failures == s.failures
            && s'.world.disk.pages.Keys == s.world.disk.pages.Keys
  {
    EndedOk(s, g, false);
    OnlyPageReleased(Ended(s, g, false), g.pageId, writeThrough);
  }

  /** Page `p` does not exist yet when it is fetched. Then it is handed out as a new page. */
  method FetchTooSoon(pool: BufferPool, t: nat, p: nat)
    requires pool.Valid() && IsDataPage(p) && p !in pool.world.disk.pages && pool.frames.Length == 1
    requires E.IsIn(pool.world, t, E.Active) && (p !in pool.world.holder || pool.world.holder[p] == t)
    requires pool.table == map[] && Idle(pool.State()) && pool.failures == {}
    modifies pool.Footprint()
    ensures pool.Valid() && OnlyPage(pool.State(), p, 0) && Idle(pool.State()) && pool.failures == {p}
    ensures pool.world.disk.pages.Keys == old(pool.world.disk.pages.Keys) + {p}
  {
    ghost var s := pool.State();
    var r; ghost var actions;
    r, actions := pool.FetchPage(p);
    ghost var s1 := pool.State();
    FetchIsQuiet(s, p, r, actions, s1);
    FirstFails(s, p, r, actions, s1);
    assert s1.frames[0].pageId == NO_PAGE;
    CreatePage(pool, t, p);
  }

  method CreatePage(pool: BufferPool, t: nat, p: nat)
    requires pool.Valid() && IsDataPage(p) && p !in pool.world.disk.pages && pool.frames.Length == 1
    requires E.IsIn(pool.world, t, E.Active) && (p !in pool.world.holder || pool.world.holder[p] == t)
    requires pool.table == map[] && Idle(pool.State()) && pool.free != []
    modifies pool.Footprint()
    ensures pool.Valid() && OnlyPage(pool.State(), p, 0) && Idle(pool.State()) && pool.failures == old(pool.failures)
    ensures pool.world.disk.pages.Keys == old(pool.world.disk.pages.Keys) + {p}
  {
    ghost var s := pool.State();
    var guarded; ghost var i; ghost var actions;
    guarded, i, actions := pool.NewPage(t, p);
    OpenedFirst(s, i, t, p);
    var g := guarded.guard;
    CleanRelease(pool.State(), g, pool.writeThrough);
    var r;
    r, actions := pool.ReleaseWrite(g, false);
  }

  /** The page in the only frame makes way for `q`. */
  method FetchOther(pool: BufferPool, p: nat, q: nat)
    requires pool.Valid() && IsDataPage(q) && q in pool.world.disk.pages && pool.frames.Length == 1
    requires OnlyPage(pool.State(), p, 0) && Idle(pool.State()) && q != p && q !in pool.failures
    modifies pool.Footprint()
    ensures pool.Valid() && OnlyPage(pool.State(), q, 0) && Idle(pool.State()) && pool.failures == old(pool.failures)
    ensures pool.world.disk.pages.Keys == old(pool.world.disk.pages.Keys)
  {
    ghost var s := pool.State();
    var r; ghost var actions;
    r, actions := pool.FetchPage(q);
    ghost var s' := pool.State();
    FetchIsQuiet(s, q, r, actions, s');
    NextFetch(s, p, q, r, actions, s');
    OnlyPageReleased(s', q, pool.writeThrough);
    pool.ReleaseRead(r.frame);
  }

  lemma FailsOnce(s: Pool, p: nat, late: Fetched, actions: seq<E.Action>, s': Pool)
    requires PoolOk(s) && Fetches(s, p, late, actions, s') && IsDataPage(p) && p !in s.table && p in s.failures
             && p !in s.pending
    ensures late == NotFetched(LoadFailed) && s' == s.(failures := s.failures - {p})
  {
    assert FetchFails(s, p, LoadFailed);
  }

  lemma ThenSucceeds(s: Pool, p: nat, again: Fetched, actions: seq<E.Action>, s': Pool)
    requires PoolOk(s) && Fetches(s, p, again, actions, s') && IsDataPage(p) && p !in s.table && p !in s.failures
             && p !in s.pending && p in s.world.disk.pages && !AllTaken(s)
    ensures again.Pinned?
  {
  }

  method FetchAndReplace(world: E.Engine, writeThrough: bool, t: nat, p: nat, q: nat) returns (pool: BufferPool)
    requires IsDataPage(p) && IsDataPage(q) && p !in world.disk.pages && q in world.disk.pages
    requires E.IsIn(world, t, E.Active) && (p !in world.holder || world.holder[p] == t)
    ensures pool.Valid() && fresh(pool.Footprint()) && OnlyPage(pool.State(), q, 0) && Idle(pool.State())
    ensures pool.failures == {p} && p in pool.world.disk.pages && p !in pool.table && !AllTaken(pool.State())
  {
    pool := new BufferPool(1, writeThrough, world);
    FetchTooSoon(pool, t, p);
    FetchOther(pool, p, q);
    NothingTaken(pool.State(), pool.table[q]);
  }

  /** A fetch of a page that does not exist yet fails. Later the page exists, and is no longer in the pool: the next
      fetch still fails, in the state `before`, and the one after it succeeds. */
  method ReportLate(world: E.Engine, writeThrough: bool, t: nat, p: nat, q: nat)
      returns (late: Fetched, again: Fetched, ghost before: Pool)
    requires IsDataPage(p) && IsDataPage(q) && p !in world.disk.pages && q in world.disk.pages
    requires E.IsIn(world, t, E.Active) && (p !in world.holder || world.holder[p] == t)
    ensures PoolOk(before) && p in before.world.disk.pages && p !in before.table && !AllTaken(before)
    ensures late == NotFetched(LoadFailed) && again.Pinned?
  {
    var pool := FetchAndReplace(world, writeThrough, t, p, q);
    before := pool.State();
    ghost var actions;
    late, actions := pool.FetchPage(p);
    ghost var s := pool.State();
    FailsOnce(before, p, late, actions, s);
    again, actions := pool.FetchPage(p);
    ThenSucceeds(s, p, again, actions, pool.State());
  }
}
