/** Runs of any machine, as sequences of its actions. */
module ActionRuns {

  /** The machine gets from `s` to `s'` by these actions. */
  ghost predicate Via<S(!new), A>(next: (S, A, S) -> bool, s: S, actions: seq<A>, s': S)
    decreases |actions|
  {
    if actions == [] then s == s'
    else exists m :: next(s, actions[0], m) && Via(next, m, actions[1..], s')
  }

  lemma ViaOne<S(!new), A>(next: (S, A, S) -> bool, s: S, a: A, s': S)
    requires next(s, a, s')
    ensures Via(next, s, [a], s')
  {
    assert Via(next, s', [a][1..], s');
  }

  lemma ViaTwo<S(!new), A>(next: (S, A, S) -> bool, s: S, a: A, m: S, b: A, s': S)
    requires next(s, a, m) && next(m, b, s')
    ensures Via(next, s, [a, b], s')
  {
    ViaOne(next, m, b, s');
    assert [a, b][1..] == [b];
  }

  lemma ViaThree<S(!new), A>(next: (S, A, S) -> bool, s: S, a: A, m: S, b: A, n: S, c: A, s': S)
    requires next(s, a, m) && next(m, b, n) && next(n, c, s')
    ensures Via(next, s, [a, b, c], s')
  {
    ViaTwo(next, m, b, n, c, s');
    assert [a, b, c][1..] == [b, c];
  }

  lemma {:induction false} ViaJoin<S(!new), A>(next: (S, A, S) -> bool, s: S, first: seq<A>, m: S, rest: seq<A>, s': S)
    requires Via(next, s, first, m) && Via(next, m, rest, s')
    ensures Via(next, s, first + rest, s')
    decreases |first|
  {
    if first == [] {
      assert first + rest == rest;
    } else {
      var m1 :| next(s, first[0], m1) && Via(next, m1, first[1..], m);
      ViaJoin(next, m1, first[1..], m, rest, s');
      assert (first + rest)[1..] == first[1..] + rest;
    }
  }
}

/** The state of the buffer pool as a value: what each of its operations makes of it, that frames and page table
    stay in step, and which actions of the engine's flat page cache the operation amounts to. */
module PoolState {
  import opened Bytes
  import opened Wal
  import R = RecoveryMachine
  import E = EngineMachine
  import opened ActionRuns

  /** An empty frame carries this page number. */
  const NO_PAGE: nat := 0xffff_ffff

  /** `deleting` is set while the page of the frame is reserved for deletion. */
  datatype Frame = Frame(pageId: nat, page: Image, pins: nat, dirty: bool, pageLsn: nat, deleting: bool)

  /** `before` gives the frames whose latch a write guard holds, with the image the page had when the guard was
      taken. `pending` are the pages about to be deleted, `failures` those whose last read failed. `world` is the
      rest of the engine: log, disk and transactions; its own cache is not used. */
  datatype Pool = Pool(
    frames: seq<Frame>,
    table: map<nat, nat>,
    free: seq<nat>,
    evictable: seq<bool>,
    pending: set<nat>,
    failures: set<nat>,
    before: map<nat, Image>,
    world: E.Engine)

  predicate IsDataPage(p: nat) { 0 < p < NO_PAGE }

  // ----- what holds between operations -----

  /** Page table and occupied frames are in bijection. */
  ghost predicate TableOk(fs: seq<Frame>, table: map<nat, nat>) {
    && (forall p :: p in table ==> table[p] < |fs| && fs[table[p]].pageId == p && p != NO_PAGE)
    && (forall i :: 0 <= i < |fs| && fs[i].pageId != NO_PAGE ==> fs[i].pageId in table && table[fs[i].pageId] == i)
  }

  ghost predicate FreeOk(fs: seq<Frame>, free: seq<nat>) {
    && (forall k :: 0 <= k < |free| ==> free[k] < |fs| && fs[free[k]].pageId == NO_PAGE)
    && (forall j, k :: 0 <= j < k < |free| ==> free[j] != free[k])
    && (forall i :: 0 <= i < |fs| && fs[i].pageId == NO_PAGE ==> i in free)
  }

  predicate MayEvict(f: Frame) { f.pageId != NO_PAGE && f.pins == 0 && !f.deleting }

  /** The candidates for eviction are the frames that nobody has pinned and whose page is not being deleted. */
  ghost predicate PinsOk(s: Pool) {
    && |s.evictable| == |s.frames|
    && (forall i :: 0 <= i < |s.frames| ==> (s.evictable[i] <==> MayEvict(s.frames[i])))
    && (forall i :: 0 <= i < |s.frames| && s.frames[i].pageId == NO_PAGE ==> s.frames[i].pins == 0)
    && (forall i :: i in s.before ==> i < |s.frames| && s.frames[i].pageId != NO_PAGE && s.frames[i].pins == 1)
  }

  /** What a frame holds, apart from changes not yet released by a write guard. */
  function Held(f: Frame, i: nat, before: map<nat, Image>): Image {
    if i in before then before[i] else f.page
  }

  /** A frame without a page LSN holds what the disk holds. */
  ghost predicate ImageOk(s: Pool, i: nat)
    requires i < |s.frames|
  {
    var f, disk := s.frames[i], s.world.disk;
    && f.pageId in disk.pages
    && (!f.dirty ==> f.pageLsn == INVALID_LSN)
    && (f.pageLsn == INVALID_LSN ==> Held(f, i, s.before) == disk.pages[f.pageId])
  }

  ghost predicate ImagesOk(s: Pool) {
    forall i :: 0 <= i < |s.frames| && s.frames[i].pageId != NO_PAGE ==> ImageOk(s, i)
  }

  ghost predicate PoolOk(s: Pool) {
    TableOk(s.frames, s.table) && FreeOk(s.frames, s.free) && PinsOk(s) && ImagesOk(s)
  }

  // ----- the flat page cache it implements -----

  function Seen(f: Frame, i: nat, before: map<nat, Image>): E.Frame {
    E.Frame(Held(f, i, before), f.dirty && f.pageLsn != INVALID_LSN, f.pageLsn)
  }

  ghost function Cached(fs: seq<Frame>, table: map<nat, nat>, before: map<nat, Image>): map<nat, E.Frame>
    requires TableOk(fs, table)
  {
    map p | p in table :: Seen(fs[table[p]], table[p], before)
  }

  ghost function Machine(s: Pool): E.Engine
    requires TableOk(s.frames, s.table)
  {
    s.world.(cache := Cached(s.frames, s.table, s.before))
  }

  ghost predicate Does(s: Pool, actions: seq<E.Action>, s': Pool)
    requires TableOk(s.frames, s.table) && TableOk(s'.frames, s'.table)
  {
    Via(E.Next, Machine(s), actions, Machine(s'))
  }

  // ----- what the engine's actions do, as runs of it -----

  function AllocatedWorld(world: E.Engine, t: nat, p: nat): E.Engine
    requires t in world.txns
  {
    E.AppendFor(world, t, E.Record(world, PageAllocate, t, p, [], [])).(
      disk := R.Disk(world.disk.pages[p := R.FreedImage()], world.disk.freed - {p}),
      holder := world.holder[p := t])
  }

  lemma FetchIs(e: E.Engine, p: nat, e': E.Engine)
    requires p in e.disk.pages && p !in e.cache
             && e' == e.(cache := e.cache[p := E.Frame(e.disk.pages[p], false, INVALID_LSN)])
    ensures E.Next(e, E.Fetch(p), e')
  {
  }

  lemma EvictIs(e: E.Engine, p: nat, e1: E.Engine, e': E.Engine)
    requires E.Next(e, E.FlushPage(p), e1) && e' == e1.(cache := e1.cache - {p})
    ensures E.Next(e, E.Evict(p), e')
  {
  }

  lemma AllocateIs(e: E.Engine, t: nat, p: nat, e': E.Engine)
    requires E.IsIn(e, t, E.Active) && E.FreePageId(e, p) && (p !in e.holder || e.holder[p] == t)
    requires e' == AllocatedWorld(e, t, p).(cache := e.cache[p := E.Frame(R.FreedImage(), false, INVALID_LSN)])
    ensures E.Next(e, E.Allocate(t, p), e')
  {
  }

  lemma WriteIs(e: E.Engine, t: nat, p: nat, image: Image, e': E.Engine)
    requires E.AtWork(e, t) && E.Holds(e, t, p) && p in e.cache && |image| == PAGE_SIZE
    requires e' == E.AppendFor(e, t, E.Record(e, PageUpdate, t, p, e.cache[p].image, image)).(
                     cache := e.cache[p := E.Frame(image, true, |e.log| + 1)])
    ensures E.Next(e, E.Write(t, p, image), e')
  {
  }

  lemma FetchRun(e: E.Engine, p: nat, e': E.Engine)
    requires p in e.disk.pages && p !in e.cache
             && e' == e.(cache := e.cache[p := E.Frame(e.disk.pages[p], false, INVALID_LSN)])
    ensures Via(E.Next, e, [E.Fetch(p)], e')
  {
    FetchIs(e, p, e');
    ViaOne(E.Next, e, E.Fetch(p), e');
  }

  /** Another page takes the place of one that was written back. */
  lemma EvictFetchRun(e: E.Engine, q: nat, e1: E.Engine, p: nat, e': E.Engine)
    requires E.Next(e, E.FlushPage(q), e1) && p in e1.disk.pages && p !in e1.cache
    requires e' == e1.(cache := (e1.cache - {q})[p := E.Frame(e1.disk.pages[p], false, INVALID_LSN)])
    ensures Via(E.Next, e, [E.Evict(q), E.Fetch(p)], e')
  {
    var m := e1.(cache := e1.cache - {q});
    EvictIs(e, q, e1, m);
    FetchIs(m, p, e');
    ViaTwo(E.Next, e, E.Evict(q), m, E.Fetch(p), e');
  }

  lemma AllocateRun(e: E.Engine, t: nat, p: nat, e': E.Engine)
    requires E.IsIn(e, t, E.Active) && E.FreePageId(e, p) && (p !in e.holder || e.holder[p] == t)
    requires e' == AllocatedWorld(e, t, p).(cache := e.cache[p := E.Frame(R.FreedImage(), false, INVALID_LSN)])
    ensures Via(E.Next, e, [E.Allocate(t, p)], e')
  {
    AllocateIs(e, t, p, e');
    ViaOne(E.Next, e, E.Allocate(t, p), e');
  }

  lemma EvictAllocateRun(e: E.Engine, q: nat, e1: E.Engine, t: nat, p: nat, e': E.Engine)
    requires E.Next(e, E.FlushPage(q), e1)
    requires E.IsIn(e1, t, E.Active) && E.FreePageId(e1, p) && (p !in e1.holder || e1.holder[p] == t)
    requires e' == AllocatedWorld(e1, t, p).(
                     cache := (e1.cache - {q})[p := E.Frame(R.FreedImage(), false, INVALID_LSN)])
    ensures Via(E.Next, e, [E.Evict(q), E.Allocate(t, p)], e')
  {
    var m := e1.(cache := e1.cache - {q});
    EvictIs(e, q, e1, m);
    AllocateIs(m, t, p, e');
    ViaTwo(E.Next, e, E.Evict(q), m, E.Allocate(t, p), e');
  }

  lemma WriteRun(e: E.Engine, t: nat, p: nat, image: Image, e': E.Engine)
    requires E.AtWork(e, t) && E.Holds(e, t, p) && p in e.cache && |image| == PAGE_SIZE
    requires e' == E.AppendFor(e, t, E.Record(e, PageUpdate, t, p, e.cache[p].image, image)).(
                     cache := e.cache[p := E.Frame(image, true, |e.log| + 1)])
    ensures Via(E.Next, e, [E.Write(t, p, image)], e')
  {
    WriteIs(e, t, p, image, e');
    ViaOne(E.Next, e, E.Write(t, p, image), e');
  }

  // ----- the operations on values -----

  function Pin(s: Pool, i: nat): Pool
    requires i < |s.frames| == |s.evictable|
  {
    s.(frames := s.frames[i := s.frames[i].(pins := s.frames[i].pins + 1)], evictable := s.evictable[i := false])
  }

  /** One pin less; the last one makes the frame a candidate, unless its page is being deleted. */
  function Unpin(s: Pool, i: nat): Pool
    requires i < |s.frames| == |s.evictable| && s.frames[i].pins > 0
  {
    var f := s.frames[i].(pins := s.frames[i].pins - 1);
    s.(frames := s.frames[i := f], evictable := s.evictable[i := MayEvict(f)])
  }

  /** WAL before data: the log is forced up to the page LSN before the page is written. */
  function FlushedWorld(s: Pool, i: nat): E.Engine
    requires i < |s.frames|
  {
    var f := s.frames[i];
    if f.dirty then
      s.world.(durable := E.Max(s.world.durable, f.pageLsn), disk := R.WritePage(s.world.disk, f.pageId, f.page))
    else s.world
  }

  function WriteBack(s: Pool, i: nat): Pool
    requires i < |s.frames|
  {
    s.(frames := s.frames[i := s.frames[i].(dirty := false, pageLsn := INVALID_LSN)], world := FlushedWorld(s, i))
  }

  /** A page takes over a frame that no page or a page just written back had. */
  function Placed(s: Pool, i: nat, p: nat, page: Image): Pool
    requires i < |s.frames| == |s.evictable|
  {
    s.(frames := s.frames[i := Frame(p, page, 1, false, INVALID_LSN, false)],
       table := (s.table - {s.frames[i].pageId})[p := i],
       evictable := s.evictable[i := false])
  }

  /** The read failed after the victim was written back: its page stays, with the dirty bit still set. */
  function KeepVictim(s: Pool, i: nat): Pool
    requires i < |s.frames| == |s.evictable|
  {
    var f := s.frames[i];
    s.(frames := s.frames[i := if f.dirty then f.(pageLsn := INVALID_LSN) else f], world := FlushedWorld(s, i))
  }

  /** The frame from the head of the free list goes to its end. */
  function RotateFree(s: Pool): Pool
    requires s.free != []
  {
    s.(free := s.free[1..] + [s.free[0]])
  }

  function TakeFree(s: Pool): Pool
    requires s.free != []
  {
    s.(free := s.free[1..])
  }

  // ----- pins -----

  lemma SameView(s: Pool, s': Pool)
    requires TableOk(s.frames, s.table) && s'.table == s.table && |s'.frames| == |s.frames| && s'.world == s.world
    requires forall i :: 0 <= i < |s.frames| ==> s'.frames[i].pageId == s.frames[i].pageId
    requires forall i :: 0 <= i < |s.frames| && s.frames[i].pageId != NO_PAGE ==>
               Seen(s'.frames[i], i, s'.before) == Seen(s.frames[i], i, s.before)
    ensures TableOk(s'.frames, s'.table) && Machine(s') == Machine(s)
  {
    SameCached(s.frames, s.table, s.before, s'.frames, s'.before);
  }

  lemma SameCached(fs: seq<Frame>, table: map<nat, nat>, before: map<nat, Image>, fs': seq<Frame>, before': map<nat,
                   Image>)
    requires TableOk(fs, table) && TableOk(fs', table) && |fs'| == |fs|
    requires forall i :: 0 <= i < |fs| && fs[i].pageId != NO_PAGE ==> Seen(fs'[i], i, before') == Seen(fs[i], i, before)
    ensures Cached(fs', table, before') == Cached(fs, table, before)
  {
  }

  lemma PinOk(s: Pool, i: nat)
    requires PoolOk(s) && i < |s.frames| && s.frames[i].pageId != NO_PAGE && i !in s.before
    ensures PoolOk(Pin(s, i)) && Machine(Pin(s, i)) == Machine(s)
  {
    var s' := Pin(s, i);
    forall k | 0 <= k < |s.frames| && s.frames[k].pageId != NO_PAGE ensures ImageOk(s', k) { assert ImageOk(s, k); }
    SameView(s, s');
  }

  lemma UnpinOk(s: Pool, i: nat)
    requires PoolOk(s) && i < |s.frames| && s.frames[i].pins > 0 && i !in s.before
    ensures PoolOk(Unpin(s, i)) && Machine(Unpin(s, i)) == Machine(s)
  {
    var s' := Unpin(s, i);
    forall k | 0 <= k < |s.frames| && s.frames[k].pageId != NO_PAGE ensures ImageOk(s', k) { assert ImageOk(s, k); }
    SameView(s, s');
  }

  // ----- writing back -----

  /** The disk after a write-back: only the page of the frame has changed. */
  lemma FlushedDisk(s: Pool, i: nat)
    requires PoolOk(s) && i < |s.frames| && s.frames[i].pageId != NO_PAGE && i !in s.before
    ensures var disk, p := FlushedWorld(s, i).disk, s.frames[i].pageId;
            && disk.pages.Keys == s.world.disk.pages.Keys && disk.freed == s.world.disk.freed
            && disk.pages[p] == s.frames[i].page
            && forall q :: q in disk.pages && q != p ==> disk.pages[q] == s.world.disk.pages[q]
  {
    assert ImageOk(s, i);
  }

  /** At most frame `i` has changed, and it still holds the same page. */
  ghost predicate OnlyFrame(fs: seq<Frame>, fs': seq<Frame>, i: nat) {
    && i < |fs| == |fs'| && fs'[i].pageId == fs[i].pageId != NO_PAGE
    && forall k :: 0 <= k < |fs| && k != i ==> fs'[k] == fs[k]
  }

  ghost predicate OnlyBefore(before: map<nat, Image>, before': map<nat, Image>, i: nat) {
    forall k :: k != i ==> (k in before' <==> k in before) && (k in before ==> before'[k] == before[k])
  }

  /** The flat cache when one frame has changed. */
  lemma OneFrameView(fs: seq<Frame>, table: map<nat, nat>, before: map<nat, Image>, fs': seq<Frame>, before': map<nat,
                     Image>, i: nat)
    requires TableOk(fs, table) && OnlyFrame(fs, fs', i) && OnlyBefore(before, before', i)
    ensures TableOk(fs', table)
    ensures Cached(fs', table, before') == Cached(fs, table, before)[fs[i].pageId := Seen(fs'[i], i, before')]
  {
    var p := fs[i].pageId;
    forall q | q in table && q != p
      ensures table[q] != i && Seen(fs'[table[q]], table[q], before') == Seen(fs[table[q]], table[q], before)
    {
    }
    var left, right := Cached(fs', table, before'), Cached(fs, table, before)[p := Seen(fs'[i], i, before')];
    assert left.Keys == right.Keys;
    assert left == right;
  }

  lemma FlushedImages(s: Pool, s': Pool, i: nat)
    requires PoolOk(s) && i < |s.frames| && s.frames[i].pageId != NO_PAGE && i !in s.before
    requires s'.world.disk == FlushedWorld(s, i).disk && s'.before == s.before && OnlyFrame(s.frames, s'.frames, i)
    requires s'.frames[i].page == s.frames[i].page && s'.frames[i].pageLsn == INVALID_LSN
    ensures ImagesOk(s')
  {
    FlushedDisk(s, i);
    forall k | 0 <= k < |s'.frames| && s'.frames[k].pageId != NO_PAGE ensures ImageOk(s', k) {
      assert ImageOk(s, k);
      if k != i { assert s'.frames[k].pageId != s'.frames[i].pageId by { assert s.table[s.frames[i].pageId] == i; } }
    }
  }

  /** Writing a frame back is the engine's FlushPage. */
  lemma FlushIs(s: Pool, s': Pool, i: nat)
    requires PoolOk(s) && i < |s.frames| && s.frames[i].pageId != NO_PAGE && i !in s.before
    requires s'.world == FlushedWorld(s, i) && s'.before == s.before && s'.table == s.table
    requires OnlyFrame(s.frames, s'.frames, i) && s'.frames[i].page == s.frames[i].page
             && s'.frames[i].pageLsn == INVALID_LSN
    ensures TableOk(s'.frames, s'.table) && E.Next(Machine(s), E.FlushPage(s.frames[i].pageId), Machine(s'))
  {
    var p, e := s.frames[i].pageId, Machine(s);
    assert ImageOk(s, i);
    assert e.cache[p] == Seen(s.frames[i], i, s.before);
    OneFrameView(s.frames, s.table, s.before, s'.frames, s'.before, i);
    SameDisk(s.world.disk, p);
    if !e.cache[p].dirty { assert e.cache[p := e.cache[p]] == e.cache; }
    assert Machine(s') == E.FlushFrame(e, p);
  }

  lemma SameDisk(disk: R.Disk, p: nat)
    requires p in disk.pages
    ensures R.WritePage(disk, p, disk.pages[p]) == disk
  {
    assert disk.pages[p := disk.pages[p]] == disk.pages;
  }

  /** Frame `i` has been written back; only its dirty bit is left open. */
  ghost predicate IsFlushed(s: Pool, s': Pool, i: nat) {
    && i < |s.frames| && s.frames[i].pageId != NO_PAGE && i !in s.before
    && s' == s.(frames := s'.frames, world := FlushedWorld(s, i)) && OnlyFrame(s.frames, s'.frames, i)
    && s'.frames[i] == s.frames[i].(dirty := s'.frames[i].dirty, pageLsn := INVALID_LSN)
  }

  lemma FlushedShape(s: Pool, s': Pool, i: nat)
    requires TableOk(s.frames, s.table) && FreeOk(s.frames, s.free) && PinsOk(s) && IsFlushed(s, s', i)
    ensures TableOk(s'.frames, s'.table) && FreeOk(s'.frames, s'.free) && PinsOk(s')
  {
  }

  lemma FlushedOk(s: Pool, s': Pool, i: nat)
    requires PoolOk(s) && IsFlushed(s, s', i)
    ensures PoolOk(s') && Does(s, [E.FlushPage(s.frames[i].pageId)], s')
  {
    FlushedShape(s, s', i);
    FlushedImages(s, s', i);
    FlushIs(s, s', i);
    ViaOne(E.Next, Machine(s), E.FlushPage(s.frames[i].pageId), Machine(s'));
  }

  lemma WriteBackOk(s: Pool, i: nat)
    requires PoolOk(s) && i < |s.frames| && s.frames[i].pageId != NO_PAGE && i !in s.before
    ensures PoolOk(WriteBack(s, i)) && Does(s, [E.FlushPage(s.frames[i].pageId)], WriteBack(s, i))
  {
    FlushedOk(s, WriteBack(s, i), i);
  }

  lemma KeepVictimOk(s: Pool, i: nat)
    requires PoolOk(s) && i < |s.frames| && s.frames[i].pageId != NO_PAGE && i !in s.before
    ensures PoolOk(KeepVictim(s, i)) && Does(s, [E.FlushPage(s.frames[i].pageId)], KeepVictim(s, i))
  {
    assert ImageOk(s, i);
    FlushedOk(s, KeepVictim(s, i), i);
  }

  // ----- loading a page -----

  lemma RotateOk(s: Pool)
    requires PoolOk(s) && s.free != []
    ensures PoolOk(RotateFree(s)) && Machine(RotateFree(s)) == Machine(s)
  {
    var free, s' := RotateFree(s).free, RotateFree(s);
    assert FreeOk(s.frames, free) by {
      forall i | 0 <= i < |s.frames| && s.frames[i].pageId == NO_PAGE ensures i in free {
        var k :| 0 <= k < |s.free| && s.free[k] == i;
        assert k > 0 ==> free[k - 1] == i;
      }
    }
    forall k | 0 <= k < |s.frames| && s.frames[k].pageId != NO_PAGE ensures ImageOk(s', k) { assert ImageOk(s, k); }
    SameView(s, s');
  }

  /** The frame is not in use by another page, and its own page, if any, is about to go. */
  ghost predicate MayTake(s: Pool, i: nat, p: nat) {
    && i < |s.frames| && s.frames[i].pins == 0
    && p != NO_PAGE && (p in s.table ==> s.table[p] == i)
    && (s.frames[i].pageId == NO_PAGE ==> s.free != [] && s.free[0] == i)
  }

  function Taken(s: Pool, i: nat): Pool
    requires i < |s.frames| && (s.frames[i].pageId == NO_PAGE ==> s.free != [])
  {
    if s.frames[i].pageId == NO_PAGE then TakeFree(s) else s
  }

  lemma LoadTable(s: Pool, i: nat, p: nat, page: Image)
    requires PoolOk(s) && MayTake(s, i, p)
    ensures var s' := Placed(Taken(s, i), i, p, page); TableOk(s'.frames, s'.table) && FreeOk(s'.frames, s'.free)
  {
    var q, s' := s.frames[i].pageId, Placed(Taken(s, i), i, p, page);
    forall r | r in s'.table ensures s'.table[r] < |s'.frames| && s'.frames[s'.table[r]].pageId == r {
      if r != p { assert r in s.table && r != q && s.table[r] != i; }
    }
    forall k | 0 <= k < |s'.frames| && s'.frames[k].pageId != NO_PAGE
      ensures s'.frames[k].pageId in s'.table && s'.table[s'.frames[k].pageId] == k
    {
      if k != i { assert s.table[s.frames[k].pageId] == k; }
    }
    LoadFree(s, i, p, s');
  }

  lemma LoadFree(s: Pool, i: nat, p: nat, s': Pool)
    requires FreeOk(s.frames, s.free) && MayTake(s, i, p) && |s'.frames| == |s.frames|
    requires s'.frames == s.frames[i := s'.frames[i]] && s'.frames[i].pageId == p && s'.free == Taken(s, i).free
    ensures FreeOk(s'.frames, s'.free)
  {
    var d := if s.frames[i].pageId == NO_PAGE then 1 else 0;
    forall k | 0 <= k < |s'.free| ensures s'.free[k] < |s'.frames| && s'.frames[s'.free[k]].pageId == NO_PAGE {
      assert s'.free[k] == s.free[k + d];
    }
    forall k | 0 <= k < |s'.frames| && s'.frames[k].pageId == NO_PAGE ensures k in s'.free {
      var j :| 0 <= j < |s.free| && s.free[j] == k;
      assert j >= d;
      assert s'.free[j - d] == k;
    }
  }

  /** The flat cache after a load: the page the frame held is gone, the new one is there. */
  lemma LoadCached(fs: seq<Frame>, table: map<nat, nat>, before: map<nat, Image>, i: nat, f: Frame, table': map<nat,
                   nat>)
    requires TableOk(fs, table) && i < |fs| && i !in before && f.pageId != NO_PAGE
             && (f.pageId in table ==> table[f.pageId] == i)
    requires table' == (table - {fs[i].pageId})[f.pageId := i] && TableOk(fs[i := f], table')
    ensures Cached(fs[i := f], table', before)
         == (Cached(fs, table, before) - {fs[i].pageId})[f.pageId := E.Frame(f.page, f.dirty
           && f.pageLsn != INVALID_LSN, f.pageLsn)]
  {
    var q, fs' := fs[i].pageId, fs[i := f];
    forall r | r in table && r != q ensures fs'[table[r]] == fs[table[r]] {
      assert table[r] != i;
    }
  }

  lemma LoadView(s: Pool, i: nat, p: nat, page: Image)
    requires PoolOk(s) && MayTake(s, i, p)
    ensures var s' := Placed(Taken(s, i), i, p, page);
            TableOk(s'.frames, s'.table)
            && Machine(s').cache == (Machine(s).cache - {s.frames[i].pageId})[p := E.Frame(page, false, INVALID_LSN)]
  {
    LoadTable(s, i, p, page);
    LoadCached(s.frames, s.table, s.before, i, Frame(p, page, 1, false, INVALID_LSN, false),
               Placed(Taken(s, i), i, p, page).table);
  }

  lemma LoadPins(s: Pool, i: nat, p: nat, page: Image)
    requires PoolOk(s) && MayTake(s, i, p)
    ensures PinsOk(Placed(Taken(s, i), i, p, page))
  {
  }

  lemma LoadImages(s: Pool, i: nat, p: nat, page: Image)
    requires PoolOk(s) && MayTake(s, i, p) && p in s.world.disk.pages && page == s.world.disk.pages[p]
    ensures ImagesOk(Placed(Taken(s, i), i, p, page))
  {
    var s' := Placed(Taken(s, i), i, p, page);
    assert i !in s.before;
    forall k | 0 <= k < |s'.frames| && s'.frames[k].pageId != NO_PAGE ensures ImageOk(s', k) {
      if k != i { assert ImageOk(s, k); }
    }
  }

  lemma LoadOk(s: Pool, i: nat, p: nat)
    requires PoolOk(s) && MayTake(s, i, p) && p in s.world.disk.pages
    ensures PoolOk(Placed(Taken(s, i), i, p, s.world.disk.pages[p]))
  {
    LoadTable(s, i, p, s.world.disk.pages[p]);
    LoadPins(s, i, p, s.world.disk.pages[p]);
    LoadImages(s, i, p, s.world.disk.pages[p]);
  }

  /** Reading a page into a free frame is the engine's Fetch. */
  lemma LoadIntoFree(s: Pool, p: nat)
    requires PoolOk(s) && s.free != [] && p != NO_PAGE && p !in s.table && p in s.world.disk.pages
    ensures var s' := Placed(TakeFree(s), s.free[0], p, s.world.disk.pages[p]);
            PoolOk(s') && Does(s, [E.Fetch(p)], s')
  {
    var i, page := s.free[0], s.world.disk.pages[p];
    var s' := Placed(TakeFree(s), i, p, page);
    assert MayTake(s, i, p) && Taken(s, i) == TakeFree(s);
    LoadOk(s, i, p);
    LoadView(s, i, p, page);
    var e := Machine(s);
    assert e.cache - {NO_PAGE} == e.cache;
    FetchRun(e, p, Machine(s'));
  }

  /** Reading a page over a victim is the engine's Evict and then its Fetch. */
  lemma LoadOverVictim(s: Pool, i: nat, p: nat)
    requires PoolOk(s) && i < |s.frames| && s.evictable[i] && p != NO_PAGE && p !in s.table && p in s.world.disk.pages
    ensures var s1 := WriteBack(s, i);
            p in s1.world.disk.pages
            && var s' := Placed(s1, i, p, s1.world.disk.pages[p]);
               PoolOk(s') && Does(s, [E.Evict(s.frames[i].pageId), E.Fetch(p)], s')
  {
    var q, s1 := s.frames[i].pageId, WriteBack(s, i);
    assert i !in s.before;
    WriteBackOk(s, i);
    FlushedDisk(s, i);
    var page := s1.world.disk.pages[p];
    var s' := Placed(s1, i, p, page);
    assert MayTake(s1, i, p) && Taken(s1, i) == s1;
    LoadOk(s1, i, p);
    LoadView(s1, i, p, page);
    FlushIs(s, s1, i);
    EvictFetchRun(Machine(s), q, Machine(s1), p, Machine(s'));
  }

  // ----- write guards -----

  /** A write guard takes the latch of a frame that only it has pinned. */
  function Latch(s: Pool, i: nat): Pool
    requires i < |s.frames|
  {
    s.(before := s.before[i := s.frames[i].page])
  }

  function Changed(s: Pool, i: nat, image: Image): Pool
    requires i < |s.frames|
  {
    s.(frames := s.frames[i := s.frames[i].(page := image)])
  }

  function Unlatch(s: Pool, i: nat): Pool { s.(before := s.before - {i}) }

  /** The guard is released after a change: the update is logged while the latch is held. */
  function Logged(s: Pool, i: nat, t: nat): Pool
    requires i < |s.frames| && i in s.before && t in s.world.txns
  {
    var f := s.frames[i];
    Unlatch(s, i).(
      frames := s.frames[i := f.(dirty := true, pageLsn := |s.world.log| + 1)],
      world := E.AppendFor(s.world, t, E.Record(s.world, PageUpdate, t, f.pageId, s.before[i], f.page)))
  }

  /** The update could not be logged: the page gets its old image back, and the transaction has failed. */
  function Reverted(s: Pool, i: nat, t: nat): Pool
    requires i < |s.frames| && i in s.before && t in s.world.txns
  {
    Unlatch(s, i).(
      frames := s.frames[i := s.frames[i].(page := s.before[i])],
      world := if s.world.txns[t].state.Active? then E.SetState(s.world, t, E.Marked) else s.world)
  }

  lemma LatchOk(s: Pool, i: nat)
    requires PoolOk(s) && i < |s.frames| && s.frames[i].pageId != NO_PAGE && s.frames[i].pins == 1 && i !in s.before
    ensures PoolOk(Latch(s, i)) && Machine(Latch(s, i)) == Machine(s)
  {
    var s' := Latch(s, i);
    forall k | 0 <= k < |s.frames| && s.frames[k].pageId != NO_PAGE ensures ImageOk(s', k) { assert ImageOk(s, k); }
    SameView(s, s');
  }

  lemma ChangedOk(s: Pool, i: nat, image: Image)
    requires PoolOk(s) && i in s.before
    ensures PoolOk(Changed(s, i, image)) && Machine(Changed(s, i, image)) == Machine(s)
  {
    var s' := Changed(s, i, image);
    forall k | 0 <= k < |s.frames| && s.frames[k].pageId != NO_PAGE ensures ImageOk(s', k) { assert ImageOk(s, k); }
    SameView(s, s');
  }

  lemma UnlatchOk(s: Pool, i: nat)
    requires PoolOk(s) && i in s.before && s.frames[i].page == s.before[i]
    ensures PoolOk(Unlatch(s, i)) && Machine(Unlatch(s, i)) == Machine(s)
  {
    var s' := Unlatch(s, i);
    forall k | 0 <= k < |s.frames| && s.frames[k].pageId != NO_PAGE ensures ImageOk(s', k) { assert ImageOk(s, k); }
    SameView(s, s');
  }

  lemma RevertedOk(s: Pool, i: nat, t: nat)
    requires PoolOk(s) && i in s.before && E.AtWork(s.world, t)
    ensures PoolOk(Reverted(s, i, t))
    ensures Does(s, if s.world.txns[t].state.Active? then [E.MarkFailed(t)] else [], Reverted(s, i, t))
  {
    var s1 := Changed(s, i, s.before[i]);
    ChangedOk(s, i, s.before[i]);
    UnlatchOk(s1, i);
    var s2 := Unlatch(s1, i);
    if s.world.txns[t].state.Active? {
      MarkIs(s2, t);
      ViaOne(E.Next, Machine(s), E.MarkFailed(t), Machine(Reverted(s, i, t)));
    }
  }

  lemma MarkIs(s: Pool, t: nat)
    requires PoolOk(s) && E.IsIn(s.world, t, E.Active)
    ensures var s' := s.(world := E.SetState(s.world, t, E.Marked));
            PoolOk(s') && E.Next(Machine(s), E.MarkFailed(t), Machine(s'))
  {
    var s' := s.(world := E.SetState(s.world, t, E.Marked));
    forall k | 0 <= k < |s.frames| && s.frames[k].pageId != NO_PAGE ensures ImageOk(s', k) { assert ImageOk(s, k); }
  }

  lemma LoggedOk(s: Pool, i: nat, t: nat)
    requires PoolOk(s) && i in s.before && E.AtWork(s.world, t)
    ensures PoolOk(Logged(s, i, t))
  {
    var s' := Logged(s, i, t);
    forall k | 0 <= k < |s.frames| && s.frames[k].pageId != NO_PAGE ensures ImageOk(s', k) { assert ImageOk(s, k); }
  }

  lemma LoggedView(s: Pool, i: nat, t: nat)
    requires PoolOk(s) && i in s.before && t in s.world.txns
    ensures TableOk(Logged(s, i, t).frames, Logged(s, i, t).table)
    ensures var e, p, image := Machine(s), s.frames[i].pageId, s.frames[i].page;
            && p in e.cache && e.cache[p].image == s.before[i]
            && Machine(Logged(s, i, t)) == E.AppendFor(e, t, E.Record(e, PageUpdate, t, p, s.before[i], image)).(
                                             cache := e.cache[p := E.Frame(image, true, |e.log| + 1)])
  {
    OneFrameView(s.frames, s.table, s.before, Logged(s, i, t).frames, Logged(s, i, t).before, i);
  }

  /** Releasing a changed page is the engine's Write. */
  lemma LoggedIs(s: Pool, i: nat, t: nat)
    requires PoolOk(s) && i in s.before && E.AtWork(s.world, t) && E.Holds(s.world, t, s.frames[i].pageId)
    requires |s.frames[i].page| == PAGE_SIZE
    ensures TableOk(Logged(s, i, t).frames, Logged(s, i, t).table)
    ensures Does(s, [E.Write(t, s.frames[i].pageId, s.frames[i].page)], Logged(s, i, t))
  {
    LoggedView(s, i, t);
    WriteRun(Machine(s), t, s.frames[i].pageId, s.frames[i].page, Machine(Logged(s, i, t)));
  }

  // ----- new pages -----

  /** The page that the disk has handed out takes over frame `i`, as zeros. */
  function Allocated(s: Pool, i: nat, t: nat, p: nat): Pool
    requires i < |s.frames| == |s.evictable| && (s.frames[i].pageId == NO_PAGE ==> s.free != []) && t in s.world.txns
  {
    Placed(Taken(s, i).(world := AllocatedWorld(s.world, t, p)), i, p, R.FreedImage())
  }

  /** Page table and frames stay in step exactly when no other frame holds the page that was handed out: nothing
      keeps a page on the free list from being fetched. */
  lemma AllocatedTableIff(s: Pool, i: nat, t: nat, p: nat)
    requires PoolOk(s) && i < |s.frames| && s.frames[i].pins == 0 && p != NO_PAGE && t in s.world.txns
    requires s.frames[i].pageId == NO_PAGE ==> s.free != [] && s.free[0] == i
    ensures TableOk(Allocated(s, i, t, p).frames, Allocated(s, i, t, p).table) <==> (p in s.table ==> s.table[p] == i)
  {
    var s' := Allocated(s, i, t, p);
    if p in s.table ==> s.table[p] == i {
      LoadTable(s, i, p, R.FreedImage());
    } else {
      var k := s.table[p];
      assert s'.frames[k].pageId == p && s'.table[p] == i != k;
    }
  }

  lemma AllocatedOk(s: Pool, i: nat, t: nat, p: nat)
    requires PoolOk(s) && MayTake(s, i, p) && t in s.world.txns
    ensures PoolOk(Allocated(s, i, t, p))
  {
    var s' := Allocated(s, i, t, p);
    LoadTable(s, i, p, R.FreedImage());
    LoadPins(s, i, p, R.FreedImage());
    assert i !in s.before;
    forall k | 0 <= k < |s'.frames| && s'.frames[k].pageId != NO_PAGE ensures ImageOk(s', k) {
      if k != i {
        assert ImageOk(s, k) && s.table[s.frames[k].pageId] == k;
      }
    }
  }

  lemma AllocatedView(s: Pool, i: nat, t: nat, p: nat)
    requires PoolOk(s) && MayTake(s, i, p) && t in s.world.txns
    ensures var s', e := Allocated(s, i, t, p), Machine(s);
            TableOk(s'.frames, s'.table)
            && Machine(s')
               == AllocatedWorld(e, t, p).(
                    cache := (e.cache - {s.frames[i].pageId})[p := E.Frame(R.FreedImage(), false, INVALID_LSN)])
  {
    LoadView(s, i, p, R.FreedImage());
  }

  lemma AllocatedFreeRun(s: Pool, t: nat, p: nat)
    requires PoolOk(s) && s.free != [] && MayTake(s, s.free[0], p) && s.frames[s.free[0]].pageId == NO_PAGE
    requires E.IsIn(s.world, t, E.Active) && E.FreePageId(s.world, p)
             && (p !in s.world.holder || s.world.holder[p] == t)
    ensures var s' := Allocated(s, s.free[0], t, p); TableOk(s'.frames, s'.table) && Does(s, [E.Allocate(t, p)], s')
  {
    var e := Machine(s);
    AllocatedView(s, s.free[0], t, p);
    assert e.cache - {NO_PAGE} == e.cache;
    AllocateRun(e, t, p, Machine(Allocated(s, s.free[0], t, p)));
  }

  lemma AllocatedInFree(s: Pool, t: nat, p: nat)
    requires PoolOk(s) && s.free != [] && p != NO_PAGE && p !in s.table && E.IsIn(s.world, t, E.Active)
    requires E.FreePageId(s.world, p) && (p !in s.world.holder || s.world.holder[p] == t)
    ensures var s' := Allocated(s, s.free[0], t, p); PoolOk(s') && Does(s, [E.Allocate(t, p)], s')
  {
    AllocatedOk(s, s.free[0], t, p);
    AllocatedFreeRun(s, t, p);
  }

  lemma AllocatedOverVictim(s: Pool, i: nat, t: nat, p: nat)
    requires PoolOk(s) && i < |s.frames| && s.evictable[i] && p != NO_PAGE && (p in s.table ==> s.table[p] == i)
    requires E.IsIn(s.world, t, E.Active)
    requires E.FreePageId(s.world, p) && (p !in s.world.holder || s.world.holder[p] == t)
    ensures var s' := Allocated(WriteBack(s, i), i, t, p);
            PoolOk(s') && Does(s, [E.Evict(s.frames[i].pageId), E.Allocate(t, p)], s')
  {
    var q, s1 := s.frames[i].pageId, WriteBack(s, i);
    WriteBackOk(s, i);
    FlushedDisk(s, i);
    var s' := Allocated(s1, i, t, p);
    AllocatedOk(s1, i, t, p);
    AllocatedView(s1, i, t, p);
    FlushIs(s, s1, i);
    EvictAllocateRun(Machine(s), q, Machine(s1), t, p, Machine(s'));
  }

  // ----- undo, and deletion -----

  /** Undo puts an image into the data file, and over a cached copy. */
  function Restored(s: Pool, p: nat, image: Image): Pool
    requires p in s.table ==> s.table[p] < |s.frames|
  {
    var world := s.world.(disk := R.WritePage(s.world.disk, p, image));
    if p in s.table then
      var i := s.table[p];
      s.(world := world, frames := s.frames[i := s.frames[i].(page := image, dirty := false, pageLsn := INVALID_LSN)])
    else s.(world := world)
  }

  lemma RestoredOk(s: Pool, p: nat, image: Image)
    requires PoolOk(s) && p != NO_PAGE && p in s.world.disk.pages && (p in s.table ==> s.frames[s.table[p]].pins == 0)
    ensures PoolOk(Restored(s, p, image)) && Machine(Restored(s, p, image)) == E.RestorePage(Machine(s), p, image)
  {
    var s' := Restored(s, p, image);
    forall k | 0 <= k < |s'.frames| && s'.frames[k].pageId != NO_PAGE ensures ImageOk(s', k) {
      assert ImageOk(s, k) && s.table[s.frames[k].pageId] == k;
    }
    if p in s.table {
      OneFrameView(s.frames, s.table, s.before, s'.frames, s'.before, s.table[p]);
    } else {
      SameCached(s.frames, s.table, s.before, s'.frames, s'.before);
    }
  }

  /** The page is reserved: its frame is no candidate for eviction any more. */
  function Reserved(s: Pool, p: nat): Pool
    requires p in s.table ==> s.table[p] < |s.frames| == |s.evictable|
  {
    var s1 := s.(pending := s.pending + {p});
    if p in s.table then
      var i := s.table[p];
      s1.(frames := s.frames[i := s.frames[i].(deleting := true)], evictable := s.evictable[i := false])
    else s1
  }

  function Unreserved(s: Pool, p: nat): Pool
    requires p in s.table ==> s.table[p] < |s.frames| == |s.evictable|
  {
    var s1 := s.(pending := s.pending - {p});
    if p in s.table then
      var i := s.table[p];
      s1.(frames := s.frames[i := s.frames[i].(deleting := false)], evictable := s.evictable[i := true])
    else s1
  }

  lemma ReservedOk(s: Pool, p: nat)
    requires PoolOk(s)
    ensures PoolOk(Reserved(s, p)) && Machine(Reserved(s, p)) == Machine(s)
  {
    var s' := Reserved(s, p);
    forall k | 0 <= k < |s.frames| && s.frames[k].pageId != NO_PAGE ensures ImageOk(s', k) { assert ImageOk(s, k); }
    SameView(s, s');
  }

  lemma UnreservedOk(s: Pool, p: nat)
    requires PoolOk(s) && (p in s.table ==> s.frames[s.table[p]].pins == 0)
    ensures PoolOk(Unreserved(s, p)) && Machine(Unreserved(s, p)) == Machine(s)
  {
    var s' := Unreserved(s, p);
    forall k | 0 <= k < |s.frames| && s.frames[k].pageId != NO_PAGE ensures ImageOk(s', k) { assert ImageOk(s, k); }
    SameView(s, s');
  }

  /** The page leaves the pool: written back if dirty, deallocated, its frame empty and at the end of the free
      list. */
  function Dropped(s: Pool, p: nat): Pool
    requires p in s.table ==> s.table[p] < |s.frames| == |s.evictable|
  {
    if p in s.table then
      var i := s.table[p];
      var world := FlushedWorld(s, i);
      s.(world := world.(disk := R.Deallocate(world.disk, p)),
         table := s.table - {p},
         frames := s.frames[i := s.frames[i].(pageId := NO_PAGE, page := R.FreedImage(), dirty := false,
                                              deleting := false)],
         free := s.free + [i],
         evictable := s.evictable[i := false],
         pending := s.pending - {p})
    else
      s.(world := s.world.(disk := R.Deallocate(s.world.disk, p)), pending := s.pending - {p})
  }

  lemma DroppedFree(fs: seq<Frame>, free: seq<nat>, i: nat, f: Frame)
    requires FreeOk(fs, free) && i < |fs| && fs[i].pageId != NO_PAGE && f.pageId == NO_PAGE
    ensures FreeOk(fs[i := f], free + [i])
  {
    forall k | 0 <= k < |fs| && fs[i := f][k].pageId == NO_PAGE ensures k in free + [i] {
      if k == i { assert (free + [i])[|free|] == i; } else { assert k in free; }
    }
  }

  lemma DroppedTable(s: Pool, p: nat)
    requires PoolOk(s) && p in s.table && s.frames[s.table[p]].pins == 0
    ensures var s' := Dropped(s, p); TableOk(s'.frames, s'.table) && FreeOk(s'.frames, s'.free) && PinsOk(s')
  {
    DroppedFree(s.frames, s.free, s.table[p], Dropped(s, p).frames[s.table[p]]);
  }

  lemma DroppedImages(s: Pool, p: nat)
    requires PoolOk(s) && (p in s.table ==> s.frames[s.table[p]].pins == 0)
    ensures ImagesOk(Dropped(s, p))
  {
    var s' := Dropped(s, p);
    if p in s.table { FlushedDisk(s, s.table[p]); }
    forall k | 0 <= k < |s'.frames| && s'.frames[k].pageId != NO_PAGE ensures ImageOk(s', k) {
      assert ImageOk(s, k) && s.table[s.frames[k].pageId] == k;
    }
  }

  lemma DropCached(fs: seq<Frame>, table: map<nat, nat>, before: map<nat, Image>, fs': seq<Frame>, p: nat)
    requires TableOk(fs, table) && p in table && TableOk(fs', table - {p}) && |fs'| == |fs|
    requires forall k :: 0 <= k < |fs| && k != table[p] ==> fs'[k] == fs[k]
    ensures Cached(fs', table - {p}, before) == Cached(fs, table, before) - {p}
  {
    forall r | r in table && r != p ensures table[r] != table[p] {
    }
  }

  lemma DroppedView(s: Pool, p: nat)
    requires PoolOk(s) && p in s.table && TableOk(Dropped(s, p).frames, s.table - {p}) && s.table[p] !in s.before
    ensures Machine(Dropped(s, p)) == E.DeletePage(Machine(s), p)
  {
    var i, s1 := s.table[p], WriteBack(s, s.table[p]);
    FlushIs(s, s1, i);
    DropCached(s1.frames, s1.table, s1.before, Dropped(s, p).frames, p);
    DeleteIs(Machine(s), p, Machine(s1));
  }

  lemma DeleteIs(e: E.Engine, p: nat, e1: E.Engine)
    requires E.Next(e, E.FlushPage(p), e1)
    ensures E.DeletePage(e, p) == e1.(disk := R.Deallocate(e1.disk, p), cache := e1.cache - {p})
  {
  }

  /** The pool drops a page just as the flat cache does. */
  lemma DroppedOk(s: Pool, p: nat)
    requires PoolOk(s) && (p in s.table ==> s.frames[s.table[p]].pins == 0)
    ensures PoolOk(Dropped(s, p)) && Machine(Dropped(s, p)) == E.DeletePage(Machine(s), p)
  {
    DroppedImages(s, p);
    if p in s.table {
      DroppedTable(s, p);
      DroppedView(s, p);
    } else {
      SameCached(s.frames, s.table, s.before, s.frames, s.before);
      assert Machine(s).cache - {p} == Machine(s).cache;
    }
  }
}
