/** The buffer pool: a fixed number of frames that cache pages of the data file. Its table, pins, CLOCK replacer and
    write-back implement the flat page cache of the engine. */
module BufferPools {
  import opened Bytes
  import opened Wal
  import R = RecoveryMachine
  import E = EngineMachine
  import C = ClockReplacement
  import opened ActionRuns
  import opened PoolState

  datatype Error =
    | InvalidPage
    | NotUsable
    | BeingDeleted
    | LoadFailed
    | NotOnDisk
    | NoFrame
    | NotCached
    | InUse
    | AlreadyReserved
    | NotReserved
    | NotLogged

  datatype Status = Done | Refused(error: Error)

  datatype Fetched = Pinned(frame: nat) | NotFetched(error: Error)

  datatype WriteGuard = WriteGuard(frame: nat, pageId: nat, txnId: nat, before: Image, dirty: bool)

  datatype Guarded = Guard(guard: WriteGuard) | NoGuard(error: Error)

  predicate IsCacheAction(a: E.Action) { a.Fetch? || a.Evict? || a.FlushPage? }

  /** Whoever has a page pinned keeps its frame, with the page in it; frame `i` gets one pin more. */
  ghost predicate PinnedStay(s: Pool, s': Pool, i: int) {
    && |s'.frames| == |s.frames| && s'.before == s.before
    && forall k :: 0 <= k < |s.frames| && s.frames[k].pins > 0 ==>
         s'.frames[k] == if k == i then s.frames[k].(pins := s.frames[k].pins + 1) else s.frames[k]
  }

  ghost predicate OnlyFrameChanges(s: Pool, s': Pool, i: nat) {
    |s'.frames| == |s.frames| && forall k :: 0 <= k < |s.frames| && k != i ==> s'.frames[k] == s.frames[k]
  }

  /** Every frame is pinned or holds a page that is being deleted. */
  ghost predicate AllTaken(s: Pool) {
    s.free == [] && forall k :: 0 <= k < |s.frames| ==> s.frames[k].pins > 0 || s.frames[k].deleting
  }

  ghost predicate BlocksFetch(s: Pool, p: nat)
    requires TableOk(s.frames, s.table)
  {
    p in s.pending || (p in s.table && s.frames[s.table[p]].deleting)
  }

  /** Why a fetch fails. */
  ghost predicate FetchFails(s: Pool, p: nat, error: Error)
    requires TableOk(s.frames, s.table)
  {
    if !IsDataPage(p) then error == InvalidPage
    else if BlocksFetch(s, p) then error == BeingDeleted
    else if p in s.table then false
    else if p in s.failures then error == LoadFailed
    else if AllTaken(s) then error == NoFrame
    else p !in s.world.disk.pages && error == NotOnDisk
  }

  /** Page `p` is in frame `i` and reads there as it does through the flat cache. */
  ghost predicate HasPage(s: Pool, p: nat, i: nat)
    requires TableOk(s.frames, s.table)
  {
    p in s.table && s.table[p] == i && p in s.world.disk.pages && s.frames[i].page == E.Current(Machine(s), p)
  }

  /** A failed read is remembered until the next fetch of the page reports it. */
  function FailuresAfter(failures: set<nat>, p: nat, r: Fetched): set<nat> {
    match r
    case NotFetched(NotOnDisk) => failures + {p}
    case NotFetched(LoadFailed) => failures - {p}
    case _ => failures
  }

  /** A fetch pins the page, or fails for one of the reasons above. Of the flat cache no more changes than that pages
      come and go, and no frame that is pinned is taken from its holder. */
  ghost predicate Fetches(s: Pool, p: nat, r: Fetched, actions: seq<E.Action>, s': Pool)
    requires TableOk(s.frames, s.table)
  {
    && PoolOk(s') && Does(s, actions, s') && (forall a :: a in actions ==> IsCacheAction(a)) && s'.pending == s.pending
    && s'.failures == FailuresAfter(s.failures, p, r)
    && match r
       case NotFetched(error) =>
         && FetchFails(s, p, error) && PinnedStay(s, s', -1) && s'.table == s.table
         && (error != NotOnDisk ==> s' == s.(failures := s'.failures))
       case Pinned(i) =>
         && (forall error :: !FetchFails(s, p, error)) && PinnedStay(s, s', i) && HasPage(s', p, i)
         && OnlyFrameChanges(s, s', i) && !s'.frames[i].deleting
         && s'.frames[i].pins == (if p in s.table then s.frames[s.table[p]].pins else 0) + 1
  }

  /** What a guard knows about its frame. */
  ghost predicate GuardOk(s: Pool, g: WriteGuard) {
    && g.frame in s.before && s.before[g.frame] == g.before
    && g.frame < |s.frames| && s.frames[g.frame].pageId == g.pageId
    && (if g.dirty then |s.frames[g.frame].page| == PAGE_SIZE else s.frames[g.frame].page == g.before)
  }

  class BufferPool {
    const writeThrough: bool
    const frames: array<Frame>
    const replacer: C.ClockReplacer
    var table: map<nat, nat>
    var free: seq<nat>
    var pending: set<nat>
    var failures: set<nat>
    var world: E.Engine
    ghost var before: map<nat, Image>

    ghost function Footprint(): set<object> {
      {this, frames, replacer, replacer.active, replacer.evictable, replacer.referenced}
    }

    ghost function State(): Pool
      reads this, frames, replacer.evictable
    {
      Pool(frames[..], table, free, replacer.evictable[..], pending, failures, before, world)
    }

    ghost predicate Shaped()
      reads Footprint()
    {
      && replacer.Valid() && replacer.capacity == frames.Length
      && (frames as object) !in {replacer.active as object, replacer.evictable, replacer.referenced}
    }

    ghost predicate Valid()
      reads Footprint()
    {
      Shaped() && PoolOk(State())
    }

    constructor (size: nat, writeThrough: bool, world: E.Engine)
      ensures Valid() && fresh(Footprint()) && this.writeThrough == writeThrough
      ensures frames.Length == size && this.world == world && Machine(State()) == world.(cache := map[])
      ensures table == map[] && before == map[] && pending == failures == {}
    {
      this.writeThrough := writeThrough;
      frames := new Frame[size](_ => Frame(NO_PAGE, R.FreedImage(), 0, false, INVALID_LSN, false));
      replacer := new C.ClockReplacer(size);
      table := map[];
      free := seq(size, i => i);
      pending := {};
      failures := {};
      this.world := world;
      before := map[];
      new;
      forall i | 0 <= i < size ensures i in free { assert free[i] == i; }
      assert Machine(State()).cache == map[];
    }

    // ----- one frame -----

    method SetFrame(i: nat, f: Frame)
      requires Shaped() && i < frames.Length
      modifies frames
      ensures Shaped() && State() == old(State()).(frames := old(frames[..])[i := f])
    {
      frames[i] := f;
      assert frames[..] == old(frames[..])[i := f];
    }

    method PinFrame(i: nat)
      requires Shaped() && i < frames.Length
      modifies Footprint() - {this}
      ensures Shaped() && State() == Pin(old(State()), i)
    {
      var r := replacer.Pin(i);
      SetFrame(i, frames[i].(pins := frames[i].pins + 1));
      r := replacer.RecordAccess(i);
    }

    method UnpinFrame(i: nat)
      requires Shaped() && i < frames.Length && frames[i].pins > 0 && frames[i].pageId != NO_PAGE
               && !replacer.evictable[i]
      modifies Footprint() - {this}
      ensures Shaped() && State() == Unpin(old(State()), i)
    {
      SetFrame(i, frames[i].(pins := frames[i].pins - 1));
      if frames[i].pins == 0 && !frames[i].deleting {
        var r := replacer.Unpin(i);
      } else {
        assert replacer.evictable[..] == old(replacer.evictable[..])[i := false];
      }
    }

    /** WAL before data. */
    method FlushFrame(i: nat)
      requires Shaped() && i < frames.Length && frames[i].dirty
      modifies this`world
      ensures Shaped() && State() == old(State()).(world := FlushedWorld(old(State()), i))
      ensures frames[i].pageLsn <= world.durable
    {
      if frames[i].pageLsn > world.durable { world := world.(durable := frames[i].pageLsn); }
      world := world.(disk := R.WritePage(world.disk, frames[i].pageId, frames[i].page));
    }

    method WriteFrameBack(i: nat)
      requires Shaped() && i < frames.Length && (!frames[i].dirty ==> frames[i].pageLsn == INVALID_LSN)
      modifies this`world, frames
      ensures Shaped() && State() == WriteBack(old(State()), i)
      ensures old(frames[i].dirty) ==> old(frames[i].pageLsn) <= world.durable
    {
      if frames[i].dirty {
        FlushFrame(i);
      }
      SetFrame(i, frames[i].(dirty := false, pageLsn := INVALID_LSN));
    }

    /** A free frame, or a victim of the replacer. */
    method SelectFrame() returns (found: bool, i: nat)
      requires Valid()
      modifies replacer, replacer.active, replacer.evictable, replacer.referenced
      ensures Shaped()
      ensures !found ==> AllTaken(State()) && State() == old(State())
      ensures found ==> i < frames.Length && !AllTaken(old(State()))
      ensures found && frames[i].pageId == NO_PAGE ==> free != [] && free[0] == i && State() == old(State())
      ensures found && frames[i].pageId != NO_PAGE ==>
                free == [] && old(replacer.evictable[i])
                  && State() == old(State()).(evictable := old(replacer.evictable[..])[i := false])
    {
      if free != [] {
        return true, free[0];
      }
      var r := replacer.FindVictim();
      match r
      case NoVictim =>
        forall k | 0 <= k < frames.Length ensures frames[k].pins > 0 || frames[k].deleting {
          assert !replacer.evictable[k];
        }
        return false, 0;
      case Frame(v) =>
        return true, v;
    }

    /** Page `p` takes over frame `i`. */
    method LoadFrame(i: nat, p: nat, page: Image)
      requires Shaped() && i < frames.Length && (frames[i].pageId == NO_PAGE ==> free != [])
      modifies Footprint()
      ensures Shaped() && State() == Placed(Taken(old(State()), i), i, p, page)
    {
      if frames[i].pageId == NO_PAGE { free := free[1..]; }
      table := (table - {frames[i].pageId})[p := i];
      SetFrame(i, Frame(p, page, 1, false, INVALID_LSN, false));
      var r := replacer.Remove(i);
      r := replacer.RecordAccess(i);
    }

    /** Nothing was read: a free frame goes back to the list, a victim stays. */
    method KeepFrame(i: nat)
      requires Shaped() && i < frames.Length && (frames[i].pageId == NO_PAGE ==> free != [] && free[0] == i)
      requires frames[i].pageId != NO_PAGE ==> !replacer.evictable[i]
      modifies Footprint()
      ensures Shaped()
      ensures State() == if old(frames[i].pageId) == NO_PAGE then RotateFree(old(State()))
                         else KeepVictim(old(State()), i).(evictable := old(replacer.evictable[..])[i := true])
    {
      if frames[i].pageId == NO_PAGE {
        free := free[1..] + [free[0]];
        return;
      }
      if frames[i].dirty {
        FlushFrame(i);
        SetFrame(i, frames[i].(pageLsn := INVALID_LSN));
      }
      var r := replacer.Unpin(i);
      assert frames[..] == KeepVictim(old(State()), i).frames;
    }

    // ----- fetching -----

    /** A reader waits while a write guard holds the latch of the page. */
    method FetchPage(p: nat) returns (r: Fetched, ghost actions: seq<E.Action>)
      requires Valid() && (p in table ==> table[p] !in before)
      modifies Footprint()
      ensures Valid() && Fetches(old(State()), p, r, actions, State())
      ensures forall g :: GuardOk(old(State()), g) ==> GuardOk(State(), g)
    {
      ghost var s := State();
      r, actions := FetchFrame(p);
      FetchKeepsLatched(s, p, r, actions, State());
      forall g | GuardOk(s, g) { GuardsStay(s, State(), g); }
    }

    method FetchFrame(p: nat) returns (r: Fetched, ghost actions: seq<E.Action>)
      requires Valid() && (p in table ==> table[p] !in before)
      modifies Footprint()
      ensures Valid() && Fetches(old(State()), p, r, actions, State())
    {
      ghost var s := State();
      if !IsDataPage(p) {
        FetchIsRefused(s, p, InvalidPage);
        return NotFetched(InvalidPage), [];
      }
      if p in pending || (p in table && frames[table[p]].deleting) {
        FetchIsRefused(s, p, BeingDeleted);
        return NotFetched(BeingDeleted), [];
      }
      if p in table {
        var i := table[p];
        PinFrame(i);
        FetchHits(s, p);
        return Pinned(i), [];
      }
      if p in failures {
        failures := failures - {p};
        FetchIsRefused(s, p, LoadFailed);
        return NotFetched(LoadFailed), [];
      }
      r, actions := Miss(p);
    }

    /** A page that is not in the pool is read into a free frame, or over a victim. */
    method Miss(p: nat) returns (r: Fetched, ghost actions: seq<E.Action>)
      requires Valid() && IsDataPage(p) && !BlocksFetch(State(), p) && p !in table && p !in failures
      modifies Footprint()
      ensures Valid() && Fetches(old(State()), p, r, actions, State())
    {
      ghost var s := State();
      var found, i := SelectFrame();
      if !found {
        FetchIsRefused(s, p, NoFrame);
        return NotFetched(NoFrame), [];
      }
      SelectedTwice(s, i, p);
      if p !in world.disk.pages {
        ReadNothing(i, p, s);
        actions := FetchFindsNothing(s, i, p);
        return NotFetched(NotOnDisk), actions;
      }
      ReadFrame(i, p);
      actions := FetchReads(s, i, p);
      return Pinned(i), actions;
    }

    /** The frame is kept, and the failure remembered. */
    method ReadNothing(i: nat, p: nat, ghost s: Pool)
      requires Shaped() && PoolOk(s) && Selectable(s, i)
      requires State() == if s.frames[i].pageId == NO_PAGE then s else s.(evictable := s.evictable[i := false])
      modifies Footprint()
      ensures Shaped() && State() == FoundNothing(s, i, p)
    {
      SelectedTwice(s, i, p);
      KeepFrame(i);
      failures := failures + {p};
    }

    /** The page is read into the frame, after a victim has been written back. */
    method ReadFrame(i: nat, p: nat)
      requires Shaped() && i < frames.Length && p in world.disk.pages
      requires if frames[i].pageId == NO_PAGE then free != [] else !frames[i].dirty ==> frames[i].pageLsn == INVALID_LSN
      modifies Footprint()
      ensures Shaped() && State() == Read(old(State()), i, p)
    {
      if frames[i].pageId != NO_PAGE { WriteFrameBack(i); }
      LoadFrame(i, p, world.disk.pages[p]);
    }

    // ----- guards -----

    /** A writer, who has the page lock, waits until nobody has the page pinned. */
    method FetchPageWrite(p: nat, t: nat) returns (r: Guarded, ghost actions: seq<E.Action>)
      requires Valid() && t in world.txns && (p in table ==> frames[table[p]].pins == 0)
      modifies Footprint()
      ensures Valid() && TakesGuard(old(State()), p, t, r, actions, State())
      ensures forall g :: GuardOk(old(State()), g) ==> GuardOk(State(), g)
    {
      ghost var s := State();
      r, actions := FetchLatched(p, t);
      GuardKeepsLatched(s, p, t, r, actions, State());
      forall g | GuardOk(s, g) { GuardsStay(s, State(), g); }
    }

    method FetchLatched(p: nat, t: nat) returns (r: Guarded, ghost actions: seq<E.Action>)
      requires Valid() && t in world.txns && (p in table ==> frames[table[p]].pins == 0)
      modifies Footprint()
      ensures Valid() && TakesGuard(old(State()), p, t, r, actions, State())
    {
      ghost var s := State();
      if !world.txns[t].state.Active? {
        NotUsableNow(s, p, t);
        return NoGuard(NotUsable), [];
      }
      var fetched;
      fetched, actions := FetchFrame(p);
      match fetched
      case NotFetched(error) =>
        r := NoGuard(error);
        NoGuardIsTaken(s, p, t, error, actions, State());
      case Pinned(i) =>
        GuardIsTaken(s, p, t, i, actions, State());
        var g := TakeLatch(i, p, t);
        r := Guard(g);
    }

    method TakeLatch(i: nat, p: nat, t: nat) returns (g: WriteGuard)
      requires Shaped() && i < frames.Length
      modifies this`before
      ensures Shaped() && State() == Latch(old(State()), i) && g == WriteGuard(i, p, t, frames[i].page, false)
    {
      before := before[i := frames[i].page];
      g := WriteGuard(i, p, t, frames[i].page, false);
    }

    /** The holder of a guard writes the page in place, and marks it dirty. */
    method Modify(g: WriteGuard, image: Image) returns (g': WriteGuard)
      requires Valid() && GuardOk(State(), g) && |image| == PAGE_SIZE
      modifies frames
      ensures Valid() && g' == g.(dirty := true) && GuardOk(State(), g')
      ensures State() == Changed(old(State()), g.frame, image) && Machine(State()) == Machine(old(State()))
    {
      ChangedOk(State(), g.frame, image);
      SetFrame(g.frame, frames[g.frame].(page := image));
      g' := g.(dirty := true);
    }

    method ReleaseFrame(i: nat)
      requires Valid() && i < frames.Length && frames[i].pins > 0 && i !in before
      modifies Footprint()
      ensures Valid() && State() == Released(old(State()), i, writeThrough)
      ensures Does(old(State()), Flushing(old(State()), i, writeThrough), State())
    {
      ReleasedOk(State(), i, writeThrough);
      if writeThrough && frames[i].dirty && frames[i].pins == 1 && !frames[i].deleting {
        WriteFrameBack(i);
      }
      UnpinFrame(i);
    }

    method ReleaseRead(i: nat)
      requires Valid() && i < frames.Length && frames[i].pins > 0 && i !in before
      modifies Footprint()
      ensures Valid() && State() == Released(old(State()), i, writeThrough)
      ensures Does(old(State()), Flushing(old(State()), i, writeThrough), State())
    {
      ReleaseFrame(i);
    }

    /** Releasing a guard logs what was changed under it, as one update with both images, before the page can be
        written or read by others. If that fails the page gets its old image back. */
    method ReleaseWrite(g: WriteGuard, fails: bool) returns (r: Status, ghost actions: seq<E.Action>)
      requires Valid() && GuardOk(State(), g) && E.AtWork(world, g.txnId) && E.Holds(world, g.txnId, g.pageId)
      modifies Footprint()
      ensures Valid() && r == if g.dirty && fails then Refused(NotLogged) else Done
      ensures State() == Released(Ended(old(State()), g, fails), g.frame, writeThrough)
      ensures actions == Ending(old(State()), g, fails) + Flushing(Ended(old(State()), g, fails), g.frame, writeThrough)
      ensures Does(old(State()), actions, State())
    {
      ghost var s := State();
      EndedOk(s, g, fails);
      r := EndUpdate(g, fails);
      ghost var s1 := State();
      ReleaseFrame(g.frame);
      actions := EndAndRelease(s, g, fails, s1, writeThrough, State());
    }

    method EndUpdate(g: WriteGuard, fails: bool) returns (r: Status)
      requires Shaped() && GuardOk(State(), g) && g.txnId in world.txns
      modifies this`world, this`before, frames
      ensures Shaped() && State() == Ended(old(State()), g, fails)
      ensures r == if g.dirty && fails then Refused(NotLogged) else Done
    {
      var t, i := g.txnId, g.frame;
      r := Done;
      if g.dirty {
        if fails {
          SetFrame(i, frames[i].(page := g.before));
          if world.txns[t].state.Active? { world := E.SetState(world, t, E.Marked); }
          r := Refused(NotLogged);
        } else {
          var record := E.Record(world, PageUpdate, t, g.pageId, g.before, frames[i].page);
          SetFrame(i, frames[i].(dirty := true, pageLsn := |world.log| + 1));
          world := E.AppendFor(world, t, record);
        }
      }
      before := before - {i};
    }

    /** `p` is the page that the data file hands out, and whose lock the transaction gets. Page table and frames are
        in step afterwards exactly when no other frame had that page. */
    method NewPage(t: nat, p: nat) returns (r: Guarded, ghost i: nat, ghost actions: seq<E.Action>)
      requires Valid() && t in world.txns && IsDataPage(p)
      requires E.FreePageId(world, p) && (p !in world.holder || world.holder[p] == t)
      modifies Footprint()
      ensures Shaped()
      ensures r == NoGuard(NotUsable) <==> !E.IsIn(old(world), t, E.Active)
      ensures r.NoGuard? && r.error != NotUsable <==> E.IsIn(old(world), t, E.Active) && AllTaken(old(State()))
      ensures r.NoGuard? ==> State() == old(State()) && r.error in {NotUsable, NoFrame}
      ensures r.Guard? ==> Selectable(old(State()), i) && State() == Latch(Opened(old(State()), i, t, p), i)
      ensures r.Guard? && !ElsewhereCached(old(State()), p, i) ==>
                Valid() && Does(old(State()), actions, State()) && GuardOk(State(), r.guard)
                && r.guard == WriteGuard(i, p, t, R.FreedImage(), false)
      ensures r.Guard? && ElsewhereCached(old(State()), p, i) ==> !TableOk(State().frames, State().table)
    {
      ghost var s := State();
      if !world.txns[t].state.Active? { return NoGuard(NotUsable), 0, []; }
      var found, f := SelectFrame();
      if !found { return NoGuard(NoFrame), 0, []; }
      SelectedTwice(s, f, p);
      actions := PageIsOpened(s, f, t, p);
      OpenFrame(f, t, p);
      var g := TakeLatch(f, p, t);
      return Guard(g), f, actions;
    }

    method OpenFrame(i: nat, t: nat, p: nat)
      requires Shaped() && i < frames.Length && t in world.txns
      requires if frames[i].pageId == NO_PAGE then free != [] else !frames[i].dirty ==> frames[i].pageLsn == INVALID_LSN
      modifies Footprint()
      ensures Shaped() && State() == Opened(old(State()), i, t, p)
    {
      if frames[i].pageId != NO_PAGE { WriteFrameBack(i); }
      world := AllocatedWorld(world, t, p);
      LoadFrame(i, p, R.FreedImage());
    }

    // ----- flushing -----

    /** A changed page is written when nobody has it pinned; a pinned page without changes is left. */
    method FlushPage(p: nat) returns (r: Status, ghost actions: seq<E.Action>)
      requires Valid() && (p in table && frames[table[p]].dirty ==> frames[table[p]].pins == 0)
      modifies Footprint()
      ensures Valid() && r == FlushStatus(old(State()), p)
      ensures actions == (if r.Done? && old(frames[table[p]].pins) == 0 then [E.FlushPage(p)] else [])
      ensures State() == if actions == [] then old(State()) else WriteBack(old(State()), old(table[p]))
      ensures Does(old(State()), actions, State())
    {
      if p !in table { return Refused(NotCached), []; }
      var i := table[p];
      if frames[i].deleting { return Refused(BeingDeleted), []; }
      if frames[i].pins > 0 { return Done, []; }
      WriteBackOk(State(), i);
      assert ImageOk(State(), i);
      WriteFrameBack(i);
      return Done, [E.FlushPage(p)];
    }

    /** Every page that is not being deleted is written, if it has changed; none is loaded or evicted. */
    method FlushAllPages() returns (ghost actions: seq<E.Action>)
      requires Valid() && NoneInUse(frames[..])
      modifies Footprint()
      ensures Valid() && Does(old(State()), actions, State()) && forall a :: a in actions ==> a.FlushPage?
      ensures table == old(table) && failures == old(failures) && before == old(before)
      ensures DeletingStay(old(State()), State()) && CleanUpTo(frames[..], frames.Length)
    {
      actions := [];
      ghost var s := State();
      var k := 0;
      while k < frames.Length
        invariant 0 <= k <= frames.Length && Valid() && table == s.table && NoneInUse(frames[..])
        invariant failures == s.failures && before == s.before && DeletingStay(s, State())
        invariant Does(s, actions, State()) && forall a :: a in actions ==> a.FlushPage?
        invariant CleanUpTo(frames[..], k)
      {
        ghost var s1 := State();
        ghost var more := FlushAt(k);
        ViaJoin(E.Next, Machine(s), actions, Machine(s1), more, Machine(State()));
        StaysAgain(s, s1, State());
        actions := actions + more;
        k := k + 1;
      }
    }

    method FlushAt(k: nat) returns (ghost actions: seq<E.Action>)
      requires Valid() && k < frames.Length && NoneInUse(frames[..]) && CleanUpTo(frames[..], k)
      modifies Footprint()
      ensures Valid() && table == old(table) && NoneInUse(frames[..]) && CleanUpTo(frames[..], k + 1)
      ensures failures == old(failures) && before == old(before) && DeletingStay(old(State()), State())
      ensures Does(old(State()), actions, State()) && forall a :: a in actions ==> a.FlushPage?
    {
      actions := [];
      if frames[k].pageId != NO_PAGE {
        var r;
        ghost var s := State();
        r, actions := FlushPage(frames[k].pageId);
        if actions != [] { WriteBackStays(s, k); }
      }
    }

    // ----- undo, and deletion -----

    /** Undo writes the page at once, and only if nobody has it pinned. */
    method RestorePage(p: nat, image: Image) returns (r: Status)
      requires Valid()
      modifies Footprint()
      ensures Valid() && r == RestoreStatus(old(State()), p)
      ensures r.Refused? ==> State() == old(State())
      ensures r.Done? ==> Machine(State()) == E.RestorePage(Machine(old(State())), p, image)
      ensures failures == old(failures)
    {
      if !IsDataPage(p) { return Refused(InvalidPage); }
      if p in table && (frames[table[p]].deleting || frames[table[p]].pins != 0) { return Refused(InUse); }
      if p !in world.disk.pages { return Refused(NotOnDisk); }
      RestoredOk(State(), p, image);
      world := world.(disk := R.WritePage(world.disk, p, image));
      if p in table {
        var i := table[p];
        SetFrame(i, frames[i].(page := image, dirty := false, pageLsn := INVALID_LSN));
      }
      return Done;
    }

    /** The page is reserved for deletion if exactly as many guards as expected hold it. */
    method BeginPageDeletion(p: nat, expectedPins: nat) returns (r: Status)
      requires Valid()
      modifies Footprint()
      ensures Valid() && r == ReserveStatus(old(State()), p, expectedPins)
      ensures State() == (if r.Done? then Reserved(old(State()), p) else old(State()))
      ensures Machine(State()) == Machine(old(State()))
    {
      if !IsDataPage(p) { return Refused(InvalidPage); }
      if p in pending { return Refused(AlreadyReserved); }
      if p in table && (frames[table[p]].deleting || frames[table[p]].pins != expectedPins) { return Refused(InUse); }
      ReservedOk(State(), p);
      pending := pending + {p};
      if p in table {
        var i := table[p];
        var pinned := replacer.Pin(i);
        SetFrame(i, frames[i].(deleting := true));
      }
      return Done;
    }

    method CancelPageDeletion(p: nat) returns (r: Status)
      requires Valid()
      modifies Footprint()
      ensures Valid() && r == FinishStatus(old(State()), p)
      ensures State() == (if r.Done? then Unreserved(old(State()), p) else old(State()))
      ensures Machine(State()) == Machine(old(State()))
    {
      if p !in pending { return Refused(NotReserved); }
      if p in table && (!frames[table[p]].deleting || frames[table[p]].pins != 0) { return Refused(InUse); }
      UnreservedOk(State(), p);
      if p in table { UnmarkFrame(table[p]); }
      pending := pending - {p};
      return Done;
    }

    method UnmarkFrame(i: nat)
      requires Shaped() && i < frames.Length
      modifies Footprint() - {this}
      ensures Shaped()
      ensures State() == old(State()).(frames := old(frames[..])[i := old(frames[i]).(deleting := false)],
                                       evictable := old(replacer.evictable[..])[i := true])
    {
      SetFrame(i, frames[i].(deleting := false));
      var r := replacer.Unpin(i);
      assert replacer.evictable[..] == old(replacer.evictable[..])[i := true];
    }

    /** The reserved page is written back if dirty, given back to the data file, and its frame is free. */
    method FinalizePageDeletion(p: nat) returns (r: Status)
      requires Valid()
      modifies Footprint()
      ensures Valid()
      ensures r == if FinishStatus(old(State()), p).Done? && p !in old(world.disk.pages) then Refused(NotOnDisk)
                   else FinishStatus(old(State()), p)
      ensures r.Refused? ==> State() == old(State())
      ensures r.Done? ==> Machine(State()) == E.DeletePage(Machine(old(State())), p)
      ensures r.Done? ==> p !in table && p !in pending
      ensures failures == old(failures)
    {
      ghost var s := State();
      if p !in pending { return Refused(NotReserved); }
      if p in table && (!frames[table[p]].deleting || frames[table[p]].pins != 0) { return Refused(InUse); }
      assert p in table ==> ImageOk(s, table[p]);
      if p !in world.disk.pages { return Refused(NotOnDisk); }
      DroppedOk(s, p);
      DropPage(p);
      return Done;
    }

    method DropPage(p: nat)
      requires Shaped() && (p in table ==> table[p] < frames.Length && frames[table[p]].pageId != NO_PAGE)
      modifies Footprint()
      ensures Shaped() && State() == Dropped(old(State()), p)
    {
      if p in table {
        var i := table[p];
        if frames[i].dirty { FlushFrame(i); }
        world := world.(disk := R.Deallocate(world.disk, p));
        table := table - {p};
        SetFrame(i, frames[i].(pageId := NO_PAGE, page := R.FreedImage(), dirty := false, deleting := false));
        free := free + [i];
        var r := replacer.Remove(i);
      } else {
        world := world.(disk := R.Deallocate(world.disk, p));
      }
      pending := pending - {p};
    }
  }

  // ----- new pages, flushing and deletion, on values -----

  /** The page is in a frame other than `i`. */
  ghost predicate ElsewhereCached(s: Pool, p: nat, i: nat) { p in s.table && s.table[p] != i }

  function Opened(s: Pool, i: nat, t: nat, p: nat): Pool
    requires i < |s.frames| == |s.evictable| && (s.frames[i].pageId == NO_PAGE ==> s.free != []) && t in s.world.txns
  {
    Allocated(if s.frames[i].pageId == NO_PAGE then s else WriteBack(s, i), i, t, p)
  }

  lemma PageIsOpened(s: Pool, i: nat, t: nat, p: nat) returns (actions: seq<E.Action>)
    requires PoolOk(s) && Selectable(s, i) && E.IsIn(s.world, t, E.Active) && IsDataPage(p)
    requires E.FreePageId(s.world, p) && (p !in s.world.holder || s.world.holder[p] == t)
    ensures var s' := Latch(Opened(s, i, t, p), i);
            if ElsewhereCached(s, p, i) then !TableOk(s'.frames, s'.table)
            else PoolOk(s') && Does(s, actions, s') && GuardOk(s', WriteGuard(i, p, t, R.FreedImage(), false))
    ensures Opened(s, i, t, p).frames[i].page == R.FreedImage()
  {
    actions := [];
    if ElsewhereCached(s, p, i) {
      NoStep(s, i, t, p);
    } else {
      actions := OpenRuns(s, i, t, p);
      LatchOk(Opened(s, i, t, p), i);
    }
  }

  lemma NoStep(s: Pool, i: nat, t: nat, p: nat)
    requires PoolOk(s) && Selectable(s, i) && t in s.world.txns && IsDataPage(p) && ElsewhereCached(s, p, i)
    ensures var s' := Opened(s, i, t, p); !TableOk(s'.frames, s'.table)
  {
    if s.frames[i].pageId != NO_PAGE { WriteBackOk(s, i); }
    AllocatedTableIff(if s.frames[i].pageId == NO_PAGE then s else WriteBack(s, i), i, t, p);
  }

  lemma OpenRuns(s: Pool, i: nat, t: nat, p: nat) returns (actions: seq<E.Action>)
    requires PoolOk(s) && Selectable(s, i) && E.IsIn(s.world, t, E.Active) && IsDataPage(p) && !ElsewhereCached(s, p, i)
    requires E.FreePageId(s.world, p) && (p !in s.world.holder || s.world.holder[p] == t)
    ensures PoolOk(Opened(s, i, t, p)) && Does(s, actions, Opened(s, i, t, p)) && i !in s.before
  {
    if s.frames[i].pageId == NO_PAGE {
      AllocatedInFree(s, t, p);
      actions := [E.Allocate(t, p)];
    } else {
      AllocatedOverVictim(s, i, t, p);
      actions := [E.Evict(s.frames[i].pageId), E.Allocate(t, p)];
    }
  }

  ghost predicate NoneInUse(fs: seq<Frame>) {
    forall i :: 0 <= i < |fs| && fs[i].dirty ==> fs[i].pins == 0
  }

  /** The first frames hold no changes, unless their page is being deleted. */
  ghost predicate CleanUpTo(fs: seq<Frame>, k: nat)
    requires k <= |fs|
  {
    forall i :: 0 <= i < k && fs[i].pageId != NO_PAGE && fs[i].dirty ==> fs[i].deleting
  }

  /** The pages that are being deleted stay as they are, in the pool and on disk. */
  ghost predicate DeletingStay(s: Pool, s': Pool) {
    && |s'.frames| == |s.frames| && s'.world.disk.freed == s.world.disk.freed
    && (forall i :: 0 <= i < |s.frames| ==> s'.frames[i].deleting == s.frames[i].deleting)
    && forall i :: 0 <= i < |s.frames| && s.frames[i].pageId != NO_PAGE && s.frames[i].deleting ==>
         && s'.frames[i] == s.frames[i]
         && s.frames[i].pageId in s.world.disk.pages && s.frames[i].pageId in s'.world.disk.pages
         && s'.world.disk.pages[s.frames[i].pageId] == s.world.disk.pages[s.frames[i].pageId]
  }

  lemma WriteBackStays(s: Pool, i: nat)
    requires PoolOk(s) && i < |s.frames| && s.frames[i].pageId != NO_PAGE && !s.frames[i].deleting && i !in s.before
    ensures DeletingStay(s, WriteBack(s, i))
  {
    FlushedDisk(s, i);
    forall k | 0 <= k < |s.frames| && s.frames[k].pageId != NO_PAGE && s.frames[k].deleting
      ensures s.frames[k].pageId in s.world.disk.pages && s.frames[k].pageId != s.frames[i].pageId
    {
      assert ImageOk(s, k) && s.table[s.frames[k].pageId] == k;
    }
  }

  lemma StaysAgain(s: Pool, s1: Pool, s2: Pool)
    requires DeletingStay(s, s1) && DeletingStay(s1, s2)
    ensures DeletingStay(s, s2)
  {
  }

  function FlushStatus(s: Pool, p: nat): Status
    requires p in s.table ==> s.table[p] < |s.frames|
  {
    if p !in s.table then Refused(NotCached) else if s.frames[s.table[p]].deleting then Refused(BeingDeleted) else Done
  }

  function RestoreStatus(s: Pool, p: nat): Status
    requires p in s.table ==> s.table[p] < |s.frames|
  {
    if !IsDataPage(p) then Refused(InvalidPage)
    else if p in s.table && (s.frames[s.table[p]].deleting || s.frames[s.table[p]].pins != 0) then Refused(InUse)
    else if p !in s.world.disk.pages then Refused(NotOnDisk)
    else Done
  }

  function ReserveStatus(s: Pool, p: nat, expectedPins: nat): Status
    requires p in s.table ==> s.table[p] < |s.frames|
  {
    if !IsDataPage(p) then Refused(InvalidPage)
    else if p in s.pending then Refused(AlreadyReserved)
    else if p in s.table
      && (s.frames[s.table[p]].deleting || s.frames[s.table[p]].pins != expectedPins) then Refused(InUse)
    else Done
  }

  function FinishStatus(s: Pool, p: nat): Status
    requires p in s.table ==> s.table[p] < |s.frames|
  {
    if p !in s.pending then Refused(NotReserved)
    else if p in s.table && (!s.frames[s.table[p]].deleting || s.frames[s.table[p]].pins != 0) then Refused(InUse)
    else Done
  }

  // ----- guards, on values -----

  ghost predicate TakesGuard(s: Pool, p: nat, t: nat, r: Guarded, actions: seq<E.Action>, s': Pool)
    requires TableOk(s.frames, s.table)
  {
    && PoolOk(s') && Does(s, actions, s') && (forall a :: a in actions ==> IsCacheAction(a)) && s'.pending == s.pending
    && match r
       case NoGuard(error) =>
         && PinnedStay(s, s', -1) && s'.table == s.table
         && s'.failures == FailuresAfter(s.failures, p, NotFetched(error))
         && if E.IsIn(s.world, t, E.Active) then FetchFails(s, p, error) else error == NotUsable && s' == s
       case Guard(g) =>
         && s'.failures == s.failures && OnlyFrameChanges(s, s', g.frame)
         && E.IsIn(s.world, t, E.Active) && (forall error :: !FetchFails(s, p, error))
         && g == WriteGuard(g.frame, p, t, g.before, false) && GuardOk(s', g)
         && p in s'.world.disk.pages && g.before == E.Current(Machine(s'), p)
         && g.frame !in s.before && PinnedStay(s, s'.(before := s.before), g.frame)
           && s'.before == s.before[g.frame := g.before]
  }

  lemma GuardIsTaken(s: Pool, p: nat, t: nat, i: nat, actions: seq<E.Action>, s1: Pool)
    requires PoolOk(s) && Fetches(s, p, Pinned(i), actions, s1) && E.IsIn(s.world, t, E.Active)
    requires p in s.table ==> s.frames[s.table[p]].pins == 0
    ensures TakesGuard(s, p, t, Guard(WriteGuard(i, p, t, s1.frames[i].page, false)), actions, Latch(s1, i))
  {
    assert i !in s.before;
    LatchOk(s1, i);
  }

  lemma NoGuardIsTaken(s: Pool, p: nat, t: nat, error: Error, actions: seq<E.Action>, s': Pool)
    requires PoolOk(s) && Fetches(s, p, NotFetched(error), actions, s') && E.IsIn(s.world, t, E.Active)
    ensures TakesGuard(s, p, t, NoGuard(error), actions, s')
  {
  }

  lemma NotUsableNow(s: Pool, p: nat, t: nat)
    requires PoolOk(s) && !E.IsIn(s.world, t, E.Active)
    ensures TakesGuard(s, p, t, NoGuard(NotUsable), [], s)
  {
  }

  /** Latched frames and what is known of them stay. */
  ghost predicate LatchedStay(s: Pool, s': Pool) {
    && |s'.frames| == |s.frames|
    && forall k :: k in s.before && k < |s.frames| ==>
         k in s'.before && s'.before[k] == s.before[k] && s'.frames[k] == s.frames[k]
  }

  /** Whatever is fetched, the guards of others stay good. */
  lemma GuardsStay(s: Pool, s': Pool, g: WriteGuard)
    requires LatchedStay(s, s') && GuardOk(s, g)
    ensures GuardOk(s', g)
  {
  }

  lemma PinnedIsLatched(s: Pool, s': Pool, i: int)
    requires PinsOk(s) && PinnedStay(s, s'.(before := s.before), i) && i !in s.before
    requires forall k :: k in s.before ==> k in s'.before && s'.before[k] == s.before[k]
    ensures LatchedStay(s, s')
  {
  }

  lemma FetchKeepsLatched(s: Pool, p: nat, r: Fetched, actions: seq<E.Action>, s': Pool)
    requires PoolOk(s) && Fetches(s, p, r, actions, s') && (p in s.table ==> s.table[p] !in s.before)
    ensures LatchedStay(s, s')
  {
    var i := if r.Pinned? then r.frame else -1;
    assert s'.(before := s.before) == s';
    if r.Pinned? { NotLatched(s, p, r.frame, s'); }
    PinnedIsLatched(s, s', i);
  }

  lemma NotLatched(s: Pool, p: nat, i: nat, s': Pool)
    requires PoolOk(s) && TableOk(s'.frames, s'.table) && (p in s.table ==> s.table[p] !in s.before)
    requires PinnedStay(s, s', i) && p in s'.table && s'.table[p] == i
    ensures i !in s.before
  {
  }

  lemma GuardKeepsLatched(s: Pool, p: nat, t: nat, r: Guarded, actions: seq<E.Action>, s': Pool)
    requires PoolOk(s) && TakesGuard(s, p, t, r, actions, s')
    ensures LatchedStay(s, s')
  {
    var i := if r.Guard? then r.guard.frame else -1;
    assert s'.(before := s'.before) == s';
    PinnedIsLatched(s, s', i);
  }

  function Released(s: Pool, i: nat, writeThrough: bool): Pool
    requires i < |s.frames| == |s.evictable| && s.frames[i].pins > 0
  {
    if writeThrough && s.frames[i].dirty && s.frames[i].pins == 1
      && !s.frames[i].deleting then Unpin(WriteBack(s, i), i)
    else Unpin(s, i)
  }

  function Flushing(s: Pool, i: nat, writeThrough: bool): seq<E.Action>
    requires i < |s.frames|
  {
    if writeThrough && s.frames[i].dirty && s.frames[i].pins == 1
      && !s.frames[i].deleting then [E.FlushPage(s.frames[i].pageId)]
    else []
  }

  lemma ReleasedOk(s: Pool, i: nat, writeThrough: bool)
    requires PoolOk(s) && i < |s.frames| && s.frames[i].pins > 0 && i !in s.before
    ensures PoolOk(Released(s, i, writeThrough)) && Does(s, Flushing(s, i, writeThrough), Released(s, i, writeThrough))
    ensures s.frames[i].pageId != NO_PAGE && !s.evictable[i] && ImageOk(s, i)
  {
    assert ImageOk(s, i);
    if Flushing(s, i, writeThrough) == [] {
      UnpinOk(s, i);
    } else {
      WriteBackOk(s, i);
      UnpinOk(WriteBack(s, i), i);
    }
  }

  /** The update is logged, or the change taken back; the latch is free. */
  function Ended(s: Pool, g: WriteGuard, fails: bool): Pool
    requires g.frame < |s.frames| && g.frame in s.before && g.txnId in s.world.txns
  {
    if !g.dirty then Unlatch(s, g.frame)
    else if fails then Reverted(s, g.frame, g.txnId)
    else Logged(s, g.frame, g.txnId)
  }

  function Ending(s: Pool, g: WriteGuard, fails: bool): seq<E.Action>
    requires g.frame < |s.frames| && g.txnId in s.world.txns
  {
    if !g.dirty then []
    else if !fails then [E.Write(g.txnId, g.pageId, s.frames[g.frame].page)]
    else if s.world.txns[g.txnId].state.Active? then [E.MarkFailed(g.txnId)]
    else []
  }

  lemma EndedOk(s: Pool, g: WriteGuard, fails: bool)
    requires PoolOk(s) && GuardOk(s, g) && E.AtWork(s.world, g.txnId) && E.Holds(s.world, g.txnId, g.pageId)
    ensures PoolOk(Ended(s, g, fails)) && Does(s, Ending(s, g, fails), Ended(s, g, fails))
    ensures Ended(s, g, fails).frames[g.frame].pins == 1
  {
    if !g.dirty {
      UnlatchOk(s, g.frame);
    } else if fails {
      RevertedOk(s, g.frame, g.txnId);
    } else {
      LoggedOk(s, g.frame, g.txnId);
      LoggedIs(s, g.frame, g.txnId);
    }
  }

  function Read(s: Pool, i: nat, p: nat): Pool
    requires i < |s.frames| == |s.evictable| && (s.frames[i].pageId == NO_PAGE ==> s.free != [])
             && p in s.world.disk.pages
  {
    var s1 := if s.frames[i].pageId == NO_PAGE then s else WriteBack(s, i);
    Placed(Taken(s1, i), i, p, s1.world.disk.pages[p])
  }

  /** A frame that may be selected: the first of the free list, or, if there is none, a candidate for eviction. */
  ghost predicate Selectable(s: Pool, i: nat) {
    && i < |s.frames| == |s.evictable| && !AllTaken(s)
    && if s.frames[i].pageId == NO_PAGE then s.free != [] && s.free[0] == i else s.free == [] && s.evictable[i]
  }

  lemma SelectedTwice(s: Pool, i: nat, p: nat)
    requires PoolOk(s) && Selectable(s, i)
    ensures s.evictable[i := false][i := false] == s.evictable[i := false]
    ensures s.frames[i].pageId != NO_PAGE ==> s.evictable[i := false][i := true] == s.evictable && ImageOk(s, i)
  {
  }

  lemma FailuresAside(s: Pool, failures: set<nat>)
    requires PoolOk(s)
    ensures PoolOk(s.(failures := failures)) && Machine(s.(failures := failures)) == Machine(s)
  {
    var s' := s.(failures := failures);
    forall k | 0 <= k < |s.frames| && s.frames[k].pageId != NO_PAGE ensures ImageOk(s', k) { assert ImageOk(s, k); }
  }

  /** Outside the latched frames, a page reads in the pool as in the flat cache. */
  lemma ReadsAsFlat(s: Pool, p: nat)
    requires PoolOk(s) && p in s.table && s.table[p] !in s.before
    ensures HasPage(s, p, s.table[p])
  {
    var i := s.table[p];
    assert ImageOk(s, i);
    assert Machine(s).cache[p] == Seen(s.frames[i], i, s.before);
  }

  lemma FetchIsRefused(s: Pool, p: nat, error: Error)
    requires PoolOk(s) && FetchFails(s, p, error) && error != NotOnDisk
    ensures Fetches(s, p, NotFetched(error), [], s.(failures := FailuresAfter(s.failures, p, NotFetched(error))))
  {
    FailuresAside(s, FailuresAfter(s.failures, p, NotFetched(error)));
  }

  lemma FetchHits(s: Pool, p: nat)
    requires PoolOk(s) && p in s.table && s.table[p] !in s.before && IsDataPage(p) && !BlocksFetch(s, p)
    ensures Fetches(s, p, Pinned(s.table[p]), [], Pin(s, s.table[p]))
  {
    PinOk(s, s.table[p]);
    ReadsAsFlat(Pin(s, s.table[p]), p);
  }

  function FoundNothing(s: Pool, i: nat, p: nat): Pool
    requires i < |s.frames| == |s.evictable| && (s.frames[i].pageId == NO_PAGE ==> s.free != [])
  {
    var s1 := if s.frames[i].pageId == NO_PAGE then RotateFree(s) else KeepVictim(s, i);
    s1.(failures := s.failures + {p})
  }

  /** The failed read leaves the flat cache, except that the victim may have been written back. */
  lemma FetchFindsNothing(s: Pool, i: nat, p: nat) returns (actions: seq<E.Action>)
    requires PoolOk(s) && Selectable(s, i) && FetchFails(s, p, NotOnDisk)
    ensures Fetches(s, p, NotFetched(NotOnDisk), actions, FoundNothing(s, i, p))
  {
    actions := NothingRuns(s, i, p);
    NothingShape(s, i, p);
  }

  lemma NothingRuns(s: Pool, i: nat, p: nat) returns (actions: seq<E.Action>)
    requires PoolOk(s) && Selectable(s, i)
    ensures var s' := FoundNothing(s, i, p);
            PoolOk(s') && Does(s, actions, s') && forall a :: a in actions ==> IsCacheAction(a)
  {
    if s.frames[i].pageId == NO_PAGE {
      RotateOk(s);
      FailuresAside(RotateFree(s), s.failures + {p});
      actions := [];
    } else {
      KeepVictimOk(s, i);
      FailuresAside(KeepVictim(s, i), s.failures + {p});
      actions := [E.FlushPage(s.frames[i].pageId)];
    }
  }

  lemma NothingShape(s: Pool, i: nat, p: nat)
    requires PoolOk(s) && Selectable(s, i)
    ensures var s' := FoundNothing(s, i, p);
            PinnedStay(s, s', -1) && s'.table == s.table && s'.pending == s.pending
            && s'.failures == s.failures + {p}
  {
  }

  lemma ReadRuns(s: Pool, i: nat, p: nat) returns (actions: seq<E.Action>)
    requires PoolOk(s) && Selectable(s, i) && IsDataPage(p) && p !in s.table && p in s.world.disk.pages
    ensures PoolOk(Read(s, i, p)) && Does(s, actions, Read(s, i, p)) && forall a :: a in actions ==> IsCacheAction(a)
  {
    if s.frames[i].pageId == NO_PAGE {
      LoadIntoFree(s, p);
      actions := [E.Fetch(p)];
    } else {
      LoadOverVictim(s, i, p);
      actions := [E.Evict(s.frames[i].pageId), E.Fetch(p)];
    }
  }

  lemma FetchReads(s: Pool, i: nat, p: nat) returns (actions: seq<E.Action>)
    requires PoolOk(s) && Selectable(s, i) && IsDataPage(p) && p !in s.table && p in s.world.disk.pages
    requires forall error :: !FetchFails(s, p, error)
    ensures Fetches(s, p, Pinned(i), actions, Read(s, i, p))
  {
    actions := ReadRuns(s, i, p);
    ReadShape(s, i, p);
    ReadsAsFlat(Read(s, i, p), p);
  }

  lemma ReadShape(s: Pool, i: nat, p: nat)
    requires PoolOk(s) && Selectable(s, i) && p in s.world.disk.pages
    ensures var s' := Read(s, i, p);
            && PinnedStay(s, s', i) && OnlyFrameChanges(s, s', i) && s'.frames[i].pins == 1 && !s'.frames[i].deleting
            && s'.pending == s.pending && s'.failures == s.failures && p in s'.table && s'.table[p] == i
              && i !in s'.before
  {
    assert s.frames[i].pins == 0;
  }

  lemma EndAndRelease(s: Pool, g: WriteGuard, fails: bool, s1: Pool, writeThrough: bool, s': Pool)
      returns (actions: seq<E.Action>)
    requires TableOk(s.frames, s.table) && TableOk(s1.frames, s1.table) && TableOk(s'.frames, s'.table)
    requires g.frame < |s.frames| && g.txnId in s.world.txns && g.frame < |s1.frames|
    requires Does(s, Ending(s, g, fails), s1) && Does(s1, Flushing(s1, g.frame, writeThrough), s')
    ensures actions == Ending(s, g, fails) + Flushing(s1, g.frame, writeThrough) && Does(s, actions, s')
  {
    actions := Ending(s, g, fails) + Flushing(s1, g.frame, writeThrough);
    ViaJoin(E.Next, Machine(s), Ending(s, g, fails), Machine(s1), Flushing(s1, g.frame, writeThrough), Machine(s'));
  }
}
