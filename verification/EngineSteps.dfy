/** The engine invariant, action by action: those that append nothing. */
module EngineSteps {
  import opened Wal
  import opened WalFacts
  import R = RecoveryMachine
  import opened EngineMachine
  import opened EngineProof

  // ----- the parts of the invariant, when the log stays as it is -----

  /** Same log and checkpoint, and at least as much durable and acknowledged. */
  ghost predicate SameHistory(e: Engine, e': Engine) {
    && e'.log == e.log && e'.base == e.base && e'.nextTxn == e.nextTxn
    && e.durable <= e'.durable <= |e.log| && e'.acked >= e.acked
  }

  lemma TxnsPart(e: Engine, e': Engine)
    requires e.durable <= |e.log| && TxnsOk(e) && SameHistory(e, e') && e'.txns == e.txns && e'.acked == e.acked
    ensures TxnsOk(e')
  {
    forall u | u in e.txns ensures TxnOk(e', u) { OtherTxnOk(e, e', u); }
    forall u | u in e.acked ensures HasCommit(e.log, e'.durable, u) {
      CommitStays(e.log, e.log, e.durable, e'.durable, u);
    }
  }

  lemma OneTxnPart(e: Engine, e': Engine, t: nat)
    requires e.durable <= |e.log| && TxnsOk(e) && SameHistory(e, e') && t in e.txns && t in e'.txns && TxnOk(e', t)
    requires e'.txns == e.txns[t := e'.txns[t]]
    requires forall u :: u in e'.acked && u !in e.acked ==> HasCommit(e.log, e'.durable, u)
    ensures TxnsOk(e')
  {
    forall u | u in e.txns && u != t ensures TxnOk(e', u) { OtherTxnOk(e, e', u); }
    forall u | u in e'.acked ensures HasCommit(e.log, e'.durable, u) {
      if u in e.acked { CommitStays(e.log, e.log, e.durable, e'.durable, u); }
    }
  }

  lemma FreedPart(e: Engine, e': Engine)
    requires e.durable <= |e.log| && FreedOk(e) && SameHistory(e, e') && e'.disk.freed == e.disk.freed
    ensures FreedOk(e')
  {
    forall p | p in e.base && p in e.disk.freed ensures Named(e.log, e'.durable, p) {
      NamedStays(e.log, e.log, e.durable, e'.durable, p);
    }
  }

  /** The same transactions, and their Aborts logged as before. */
  ghost predicate SameAborts(e: Engine, e': Engine) {
    e'.txns.Keys == e.txns.Keys && forall u :: u in e.txns.Keys ==> e'.txns[u].abortLsn == e.txns[u].abortLsn
  }

  lemma LocksPart(e: Engine, e': Engine)
    requires LocksOk(e) && e'.log == e.log && e'.holder == e.holder && SameAborts(e, e')
    ensures LocksOk(e')
  {
    forall p | p in e'.holder ensures e'.holder[p] in e'.txns { assert e'.holder[p] in e.txns.Keys; }
    forall i, p | 0 <= i < |e'.log| && Updates(e'.log[i], p) && AbortLogged(e', e'.log[i].txnId)
      ensures StillOwns(e', i, p)
    {
      assert e.log[i].txnId in e.txns.Keys && StillOwns(e, i, p);
    }
  }

  /** The cache entries of `e'` that are also in `e`, over a disk that still has what they need. */
  ghost predicate SameFrames(e: Engine, e': Engine) {
    && e'.cache.Keys <= e.cache.Keys
    && forall p :: p in e'.cache ==>
         && e'.cache[p] == e.cache[p]
         && (p in e.disk.pages ==> p in e'.disk.pages && (!e.cache[p].dirty ==> e'.disk.pages[p] == e.disk.pages[p]))
  }

  lemma CachePart(e: Engine, e': Engine)
    requires CacheOk(e) && e'.log == e.log && e'.txns == e.txns && SameFrames(e, e')
    ensures CacheOk(e')
  {
    forall p | p in e'.cache ensures FrameOk(e', p) { SameFrame(e, e', p); }
  }

  ghost predicate SameReads(e: Engine, e': Engine) {
    forall p :: p in e.disk.pages ==> p in e'.disk.pages && Current(e', p) == Current(e, p)
  }

  lemma ContentsPart(e: Engine, e': Engine)
    requires SizesOk(e) && SizesOk(e') && ContentsOk(e) && e'.log == e.log && e'.base == e.base
    requires e'.txns == e.txns && e'.holder == e.holder && SameReads(e, e')
    ensures ContentsOk(e')
  {
    forall p | R.Tracked(e.log, e.base, p) ensures ContentOk(e', p) { assert ContentOk(e, p); SameContent(e, e', p); }
  }

  lemma SafePart(e: Engine, e': Engine)
    requires R.CrashSafe(e.log, e.durable, e.disk, e.base) && SameHistory(e, e') && e'.disk == e.disk
    ensures R.CrashSafe(e'.log, e'.durable, e'.disk, e'.base)
  {
  }

  // ----- page cache -----

  lemma OnlyDurable(e: Engine, d: nat)
    requires EngineInv(e) && e.durable <= d <= |e.log|
    ensures EngineInv(e.(durable := d))
  {
    var e' := e.(durable := d);
    SafePart(e, e');
    FreedPart(e, e');
    TxnsPart(e, e');
    CachePart(e, e');
    LocksPart(e, e');
    ContentsPart(e, e');
  }

  lemma FetchFrames(e: Engine, p: nat, e': Engine)
    requires CacheOk(e) && SizesOk(e) && p in e.disk.pages && p !in e.cache
    requires e' == e.(cache := e.cache[p := Frame(e.disk.pages[p], false, INVALID_LSN)])
    ensures CacheOk(e')
  {
    forall q | q in e'.cache ensures FrameOk(e', q) {
      if q != p { SameFrame(e, e', q); }
    }
  }

  lemma FetchKeepsInv(e: Engine, p: nat, e': Engine)
    requires EngineInv(e) && Next(e, Fetch(p), e')
    ensures EngineInv(e')
  {
    TxnsPart(e, e');
    FetchFrames(e, p, e');
    LocksPart(e, e');
    ContentsPart(e, e');
  }

  lemma FlushSafeAt(e: Engine, p: nat, c: nat, q: nat)
    requires p in e.cache && e.cache[p].dirty && FrameOk(e, p) && c <= |e.log| && e.cache[p].pageLsn <= c
    requires R.DiskOk(e.log, c, e.disk, e.base) && q in e.base && !Named(e.log, c, q) && !Touched(e.log, c, q)
    ensures q != p && q in e.disk.pages && e.disk.pages[q] == e.base[q]
  {
    var i := e.cache[p].pageLsn - 1;
    assert Updates(e.log[i], p) && !HasAbort(e.log, c, e.log[i].txnId);
  }

  lemma FlushSafe(e: Engine, p: nat)
    requires R.CrashSafe(e.log, e.durable, e.disk, e.base) && p in e.cache && e.cache[p].dirty && FrameOk(e, p)
    ensures var e' := FlushFrame(e, p); R.CrashSafe(e'.log, e'.durable, e'.disk, e'.base)
  {
    var e' := FlushFrame(e, p);
    forall c | e'.durable <= c <= |e.log| ensures R.DiskOk(e.log, c, e'.disk, e.base) {
      assert R.DiskOk(e.log, c, e.disk, e.base);
      forall q | q in e.base && !Named(e.log, c, q) && !Touched(e.log, c, q) { FlushSafeAt(e, p, c, q); }
    }
  }

  lemma FlushFrames(e: Engine, p: nat)
    requires CacheOk(e) && p in e.cache && e.cache[p].dirty
    ensures CacheOk(FlushFrame(e, p))
  {
    var e' := FlushFrame(e, p);
    assert FrameOk(e, p);
    forall q | q in e.cache ensures FrameOk(e', q) {
      assert FrameOk(e, q);
      if q != p { SameFrame(e, e', q); }
    }
  }

  lemma FlushKeepsInv(e: Engine, p: nat)
    requires EngineInv(e) && p in e.cache
    ensures EngineInv(FlushFrame(e, p))
  {
    if e.cache[p].dirty {
      assert FrameOk(e, p);
      var e' := FlushFrame(e, p);
      FlushSafe(e, p);
      FreedPart(e, e');
      FlushFrames(e, p);
      TxnsPart(e, e');
      LocksPart(e, e');
      ContentsPart(e, e');
    }
  }

  lemma DropKeepsInv(e: Engine, p: nat)
    requires EngineInv(e) && p in e.cache && !e.cache[p].dirty
    ensures EngineInv(e.(cache := e.cache - {p}))
  {
    var e' := e.(cache := e.cache - {p});
    assert FrameOk(e, p);
    CachePart(e, e');
    TxnsPart(e, e');
    LocksPart(e, e');
    ContentsPart(e, e');
  }

  lemma EvictKeepsInv(e: Engine, p: nat, e': Engine)
    requires EngineInv(e) && Next(e, Evict(p), e')
    ensures EngineInv(e')
  {
    FlushKeepsInv(e, p);
    DropKeepsInv(FlushFrame(e, p), p);
  }

  // ----- locks -----

  lemma LockedPart(e: Engine, e': Engine, t: nat, p: nat)
    requires LocksOk(e) && t in e.txns && (p in e.holder ==> e.holder[p] == t) && e' == e.(holder := e.holder[p := t])
    ensures LocksOk(e')
  {
    forall i, q | 0 <= i < |e.log| && Updates(e.log[i], q) && Loser(e.log, |e.log|, e.log[i].txnId)
      ensures Holds(e', e.log[i].txnId, q)
    {
      assert Holds(e, e.log[i].txnId, q);
    }
    forall i, q | 0 <= i < |e.log| && Updates(e.log[i], q) && AbortLogged(e', e.log[i].txnId)
      ensures StillOwns(e', i, q)
    {
      assert StillOwns(e, i, q);
    }
  }

  lemma OwnerHolds(e: Engine, t: nat, p: nat)
    requires LocksOk(e)
    ensures HasUpdate(e.log, |e.log|, t, p) && AbortLogged(e, t) ==> Holds(e, t, p)
  {
    if HasUpdate(e.log, |e.log|, t, p) && AbortLogged(e, t) {
      var i :| 0 <= i < |e.log| && e.log[i].txnId == t && Updates(e.log[i], p);
      assert StillOwns(e, i, p);
    }
  }

  lemma LoserHolds(e: Engine, t: nat, p: nat)
    requires LocksOk(e)
    ensures HasUpdate(e.log, |e.log|, t, p) && Loser(e.log, |e.log|, t) ==> Holds(e, t, p)
  {
  }

  /** Whoever takes a free lock has not written the page. */
  lemma LockedContent(e: Engine, e': Engine, t: nat, p: nat, q: nat)
    requires LocksOk(e) && (p in e.holder ==> e.holder[p] == t) && e' == e.(holder := e.holder[p := t])
    requires q in e.base && q in e.disk.pages && ContentOk(e, q)
    ensures ContentOk(e', q)
  {
    if q != p || p in e.holder {
      SameContent(e, e', q);
    } else {
      LoserHolds(e, t, p);
      OwnerHolds(e, t, p);
    }
  }

  lemma LockKeepsInv(e: Engine, t: nat, p: nat, e': Engine)
    requires EngineInv(e) && Next(e, LockPage(t, p), e')
    ensures EngineInv(e')
  {
    TxnsPart(e, e');
    CachePart(e, e');
    LockedPart(e, e', t, p);
    forall q | R.Tracked(e.log, e.base, q) ensures ContentOk(e', q) { LockedContent(e, e', t, p, q); }
  }

  // ----- deallocation -----

  lemma DeallocateSafe(e: Engine, p: nat)
    requires R.CrashSafe(e.log, e.durable, e.disk, e.base) && Named(e.log, e.durable, p)
    ensures R.CrashSafe(e.log, e.durable, R.Deallocate(e.disk, p), e.base)
  {
    forall c | e.durable <= c <= |e.log| ensures R.DiskOk(e.log, c, R.Deallocate(e.disk, p), e.base) {
      assert R.DiskOk(e.log, c, e.disk, e.base);
      NamedStays(e.log, e.log, e.durable, c, p);
    }
  }

  lemma DeallocateContents(e: Engine, e': Engine, p: nat)
    requires SizesOk(e) && SizesOk(e') && ContentsOk(e) && Named(e.log, |e.log|, p)
    requires e' == e.(disk := R.Deallocate(e.disk, p), cache := e.cache - {p})
    ensures ContentsOk(e')
  {
    forall q | R.Tracked(e.log, e.base, q) ensures ContentOk(e', q) { assert ContentOk(e, q); SameContent(e, e', q); }
  }

  /** Deallocating a page the durable log names and the cache does not hold dirty. */
  lemma DeallocateKeepsInv(e: Engine, p: nat)
    requires EngineInv(e) && Named(e.log, e.durable, p) && (p in e.cache ==> !e.cache[p].dirty)
    ensures EngineInv(e.(disk := R.Deallocate(e.disk, p), cache := e.cache - {p}))
  {
    var e' := e.(disk := R.Deallocate(e.disk, p), cache := e.cache - {p});
    DeallocateSafe(e, p);
    TxnsPart(e, e');
    LocksPart(e, e');
    CachePart(e, e');
    NamedStays(e.log, e.log, e.durable, |e.log|, p);
    DeallocateContents(e, e', p);
  }

  lemma DeletePageKeepsInv(e: Engine, p: nat)
    requires EngineInv(e) && Named(e.log, e.durable, p)
    ensures EngineInv(DeletePage(e, p))
  {
    if p in e.cache {
      FlushKeepsInv(e, p);
      NamedStays(e.log, e.log, e.durable, FlushFrame(e, p).durable, p);
      DeallocateKeepsInv(FlushFrame(e, p), p);
    } else {
      DeallocateKeepsInv(e, p);
    }
  }

  // ----- a transaction changes state -----

  /** Only the entry of `t` changes, and perhaps more is durable or acknowledged. */
  ghost predicate Changes(e: Engine, e': Engine, t: nat) {
    && t in e.txns && t in e'.txns
    && e' == e.(txns := e.txns[t := e'.txns[t]], durable := e'.durable, acked := e'.acked)
  }

  /** Dirty pages of an aborting transaction have not been passed by its undo. */
  ghost predicate DirtyAhead(e: Engine, e': Engine, t: nat)
    requires t in e'.txns
  {
    e'.txns[t].state.Aborting? ==>
      forall p :: p in e.cache && e.cache[p].dirty && FrameOk(e, p) && e.log[e.cache[p].pageLsn - 1].txnId == t
        ==> e.cache[p].pageLsn <= e'.txns[t].state.next
  }

  ghost predicate OwnPagesOk(e: Engine, e': Engine, t: nat)
    requires SizesOk(e')
  {
    forall p :: R.Tracked(e'.log, e'.base, p) && OwnedBy(e, t, p) ==> ContentOk(e', p)
  }

  /** `t` holds and has updated the page, and has not committed. */
  ghost predicate OwnedBy(e: Engine, t: nat, p: nat) {
    Holds(e, t, p) && HasUpdate(e.log, |e.log|, t, p) && (Loser(e.log, |e.log|, t) || AbortLogged(e, t))
  }

  lemma ChangedFrames(e: Engine, e': Engine, t: nat)
    requires CacheOk(e) && Changes(e, e', t) && DirtyAhead(e, e', t)
    ensures CacheOk(e')
  {
    forall p | p in e.cache ensures FrameOk(e', p) { assert FrameOk(e, p); SameFrame(e, e', p); }
  }

  lemma ChangedContents(e: Engine, e': Engine, t: nat)
    requires SizesOk(e) && SizesOk(e') && ContentsOk(e) && Changes(e, e', t) && OwnPagesOk(e, e', t)
             && SameAborts(e, e')
    ensures ContentsOk(e')
  {
    forall p | R.Tracked(e.log, e.base, p) ensures ContentOk(e', p) {
      assert ContentOk(e, p);
      if !OwnedBy(e, t, p) { UnownedContent(e, e', t, p); }
    }
  }

  lemma UnownedContent(e: Engine, e': Engine, t: nat, p: nat)
    requires p in e.base && p in e.disk.pages && ContentOk(e, p) && Changes(e, e', t) && SameAborts(e, e')
             && !OwnedBy(e, t, p)
    ensures ContentOk(e', p)
  {
    if !(Holds(e, t, p) && HasUpdate(e.log, |e.log|, t, p)) { SameContent(e, e', p); }
  }

  /** What a change of state of `t` has to respect. */
  ghost predicate MayChange(e: Engine, e': Engine, t: nat)
    requires SizesOk(e')
  {
    && Changes(e, e', t) && SameHistory(e, e') && TxnOk(e', t)
    && (forall u :: u in e'.acked && u !in e.acked ==> HasCommit(e.log, e'.durable, u))
    && DirtyAhead(e, e', t) && OwnPagesOk(e, e', t) && SameAborts(e, e')
  }

  lemma StateChange(e: Engine, e': Engine, t: nat)
    requires EngineInv(e) && SizesOk(e') && MayChange(e, e', t)
    ensures EngineInv(e')
  {
    SafePart(e, e');
    FreedPart(e, e');
    OneTxnPart(e, e', t);
    LocksPart(e, e');
    ChangedFrames(e, e', t);
    ChangedContents(e, e', t);
  }

  /** A change of state alone leaves what the log says about `t`. */
  ghost predicate StateOk(e: Engine, x: Txn, t: nat) {
    match x.state
    case Active => x.commitLsn == INVALID_LSN && x.abortLsn == INVALID_LSN
    case Marked => x.commitLsn == INVALID_LSN && x.abortLsn == INVALID_LSN
    case Failed => x.commitLsn == INVALID_LSN
    case Committing => x.abortLsn == INVALID_LSN
    case CommitUncertain => x.commitLsn != INVALID_LSN
    case Committed => x.commitLsn != INVALID_LSN && x.commitLsn <= e.durable && t in e.acked
    case Aborting(next) =>
      && x.commitLsn == INVALID_LSN && next <= x.lastLsn
      && (0 < next ==> next <= |e.log| && e.log[next - 1].txnId == t && x.abortLsn == INVALID_LSN)
      && (x.abortLsn == INVALID_LSN ==> x.lastLsn <= e.durable)
    case Retrying(next) =>
      && x.commitLsn == INVALID_LSN && x.abortLsn != INVALID_LSN && next <= x.lastLsn <= e.durable
      && (0 < next ==> next <= |e.log| && e.log[next - 1].txnId == t)
      && e.durable <= |e.log| && SafeToRetry(e.log, e.durable, e.base, t)
    case Aborted => x.abortLsn != INVALID_LSN
  }

  lemma TxnStateOk(e: Engine, e': Engine, t: nat, state: TxnState)
    requires e.durable <= |e.log| && t in e.txns && TxnOk(e, t) && SameHistory(e, e') && t in e'.txns
    requires e'.txns[t] == e.txns[t].(state := state) && StateOk(e', e'.txns[t], t)
    ensures TxnOk(e', t)
  {
  }

  lemma DirtyBeforeLast(e: Engine, e': Engine, t: nat)
    requires e.durable <= |e.log| && t in e.txns && TxnOk(e, t) && t in e'.txns
    requires e'.txns[t].state == Aborting(e.txns[t].lastLsn)
    ensures DirtyAhead(e, e', t)
  {
  }

  lemma UndoneContent(e: Engine, e': Engine, t: nat, p: nat)
    requires e.durable <= |e.log| && t in e.txns && TxnOk(e, t) && t in e'.txns && Changes(e, e', t)
    requires e'.txns[t].state == Aborting(e.txns[t].lastLsn)
    requires p in e.base && p in e.disk.pages && Holds(e, t, p) && HasUpdate(e.log, |e.log|, t, p)
             && Loser(e.log, |e.log|, t)
    requires e.txns[t].abortLsn == INVALID_LSN && Undoes(e, t)
    ensures ContentOk(e', p)
  {
    var i :| 0 <= i < |e.log| && e.log[i].txnId == t && Updates(e.log[i], p);
    assert !UndoneBelow(e', t, p, e.txns[t].lastLsn);
  }

  /** `t` is not back where undo would have nothing to do. */
  ghost predicate Undoes(e: Engine, t: nat)
    requires t in e.txns
  {
    forall i :: 0 <= i < |e.log| && e.log[i].txnId == t ==> i < e.txns[t].lastLsn
  }

  lemma MayBeginAbort(e: Engine, t: nat, e': Engine)
    requires e.durable <= |e.log| && SizesOk(e) && SizesOk(e') && t in e.txns && TxnOk(e, t)
    requires (AtWork(e, t) || IsIn(e, t, Failed)) && e.txns[t].abortLsn == INVALID_LSN
    requires e' == SetState(e, t, Aborting(e.txns[t].lastLsn)).(durable := |e.log|)
    ensures MayChange(e, e', t)
  {
    TxnStateOk(e, e', t, Aborting(e.txns[t].lastLsn));
    DirtyBeforeLast(e, e', t);
    forall p | R.Tracked(e.log, e.base, p) && OwnedBy(e, t, p) ensures ContentOk(e', p) {
      UndoneContent(e, e', t, p);
    }
  }

  lemma BeginAbortKeepsInv(e: Engine, t: nat, e': Engine)
    requires EngineInv(e) && Next(e, BeginAbort(t), e')
    ensures EngineInv(e')
  {
    assert TxnOk(e, t);
    MayBeginAbort(e, t, e');
    StateChange(e, e', t);
  }

  /** Moving between states that promise no more about the pages of `t`. */
  lemma MayMove(e: Engine, t: nat, state: TxnState, e': Engine)
    requires e.durable <= |e.log| && SizesOk(e) && SizesOk(e') && ContentsOk(e) && t in e.txns && TxnOk(e, t)
    requires e' == SetState(e, t, state) && StateOk(e', e'.txns[t], t) && !state.Aborting?
    requires state.Failed? || ((state.Committing? || state.Marked?) && e.txns[t].state.Active?)
    ensures MayChange(e, e', t)
  {
    TxnStateOk(e, e', t, state);
    forall p | R.Tracked(e.log, e.base, p) && OwnedBy(e, t, p) ensures ContentOk(e', p) {
      assert ContentOk(e, p);
    }
  }

  lemma MoveKeepsInv(e: Engine, t: nat, state: TxnState)
    requires EngineInv(e) && t in e.txns && StateOk(e, e.txns[t].(state := state), t)
    requires state.Failed? || ((state.Committing? || state.Marked?) && e.txns[t].state.Active?)
    ensures EngineInv(SetState(e, t, state))
  {
    assert TxnOk(e, t);
    MayMove(e, t, state, SetState(e, t, state));
    StateChange(e, SetState(e, t, state), t);
  }

  predicate IsSimple(a: Action) {
    a.MarkFailed? || a.BeginCommit? || a.AppendCommitFails? || a.UndoFails? || a.RetryFails?
  }

  lemma SimpleIsMove(e: Engine, a: Action, e': Engine)
    requires Next(e, a, e') && IsSimple(a)
    ensures a.t in e.txns && !e.txns[a.t].state.Committed?
    ensures e' == SetState(e, a.t, if a.BeginCommit? then Committing else if a.MarkFailed? then Marked else Failed)
    ensures a.BeginCommit? || a.MarkFailed? ==> e.txns[a.t].state.Active?
    ensures e.durable <= |e.log| && TxnOk(e, a.t) ==> StateOk(e, e'.txns[a.t], a.t)
  {
  }

  lemma SimpleStateKeepsInv(e: Engine, a: Action, e': Engine)
    requires EngineInv(e) && Next(e, a, e') && IsSimple(a)
    ensures EngineInv(e')
  {
    SimpleIsMove(e, a, e');
    assert TxnOk(e, a.t);
    MoveKeepsInv(e, a.t, e'.txns[a.t].state);
  }

  lemma CommitIndex(e: Engine, t: nat, d: nat)
    requires e.durable <= |e.log| && t in e.txns && TxnOk(e, t) && e.txns[t].commitLsn != INVALID_LSN
    requires e.txns[t].commitLsn <= d <= |e.log|
    ensures HasCommit(e.log, d, t) && !Loser(e.log, |e.log|, t)
  {
    var i :| 0 <= i < |e.log| && e.log[i].txnId == t && e.log[i].recordType == Commit;
  }

  lemma MayFinish(e: Engine, t: nat, state: TxnState, e': Engine)
    requires e.durable <= |e.log| && SizesOk(e) && SizesOk(e') && ContentsOk(e) && t in e.txns && TxnOk(e, t)
    requires Changes(e, e', t) && SameHistory(e, e') && e'.txns[t] == e.txns[t].(state := state)
    requires StateOk(e', e'.txns[t], t) && !state.Aborting? && !state.Retrying?
    requires !Loser(e.log, |e.log|, t) && !InRetry(e.txns[t])
    requires forall u :: u in e'.acked && u !in e.acked ==> HasCommit(e.log, e'.durable, u)
    ensures MayChange(e, e', t)
  {
    TxnStateOk(e, e', t, state);
    forall p | R.Tracked(e.log, e.base, p) && OwnedBy(e, t, p) ensures ContentOk(e', p) { assert ContentOk(e, p); }
  }

  /** The outcome of a flush at the end of a transaction is published. */
  ghost predicate Finishes(e: Engine, t: nat, state: TxnState, e': Engine) {
    && t in e.txns && (state.Committed? || state.CommitUncertain? || state.Aborted? || state.Failed?)
    && Changes(e, e', t) && SameHistory(e, e') && e'.txns[t] == e.txns[t].(state := state)
    && (state.Committed? || state.CommitUncertain? ==> e.txns[t].commitLsn != INVALID_LSN)
    && (state.Committed? ==> e'.durable == Max(e.durable, e.txns[t].commitLsn) && e'.acked == e.acked + {t})
    && (state.Aborted? || state.Failed? ==> e.txns[t].state == Aborting(0) && e.txns[t].abortLsn != INVALID_LSN)
    && (!state.Committed? ==> e'.acked == e.acked)
  }

  lemma FinishesOk(e: Engine, t: nat, state: TxnState, e': Engine)
    requires e.durable <= |e.log| && SizesOk(e) && SizesOk(e') && ContentsOk(e) && Finishes(e, t, state, e')
             && TxnOk(e, t)
    requires LogInv(e.log, e.base)
    ensures MayChange(e, e', t)
  {
    if state.Committed? || state.CommitUncertain? {
      CommitIndex(e, t, Max(e.durable, e.txns[t].commitLsn));
      NeverBothEnds(e.log, e.base, |e.log|, t);
      CommitStays(e.log, e.log, Max(e.durable, e.txns[t].commitLsn), |e.log|, t);
    }
    MayFinish(e, t, state, e');
  }

  lemma FinishKeepsInv(e: Engine, t: nat, state: TxnState, e': Engine)
    requires EngineInv(e) && Finishes(e, t, state, e')
    ensures EngineInv(e')
  {
    assert TxnOk(e, t);
    FinishesOk(e, t, state, e');
    StateChange(e, e', t);
  }

  lemma FlushCommitFinishes(e: Engine, t: nat, ok: bool, e': Engine)
    requires Next(e, FlushCommit(t, ok), e') && e.durable <= |e.log| && TxnOk(e, t)
    ensures Finishes(e, t, if ok then Committed else CommitUncertain, e')
  {
  }

  lemma FlushAbortFinishes(e: Engine, t: nat, ok: bool, e': Engine)
    requires Next(e, FlushAbort(t, ok), e') && e.durable <= |e.log| && TxnOk(e, t)
    ensures Finishes(e, t, if ok then Aborted else Failed, e')
  {
  }

  lemma FlushCommitKeepsInv(e: Engine, t: nat, ok: bool, e': Engine)
    requires EngineInv(e) && Next(e, FlushCommit(t, ok), e')
    ensures EngineInv(e')
  {
    assert TxnOk(e, t);
    FlushCommitFinishes(e, t, ok, e');
    FinishKeepsInv(e, t, if ok then Committed else CommitUncertain, e');
  }

  lemma FlushAbortKeepsInv(e: Engine, t: nat, ok: bool, e': Engine)
    requires EngineInv(e) && Next(e, FlushAbort(t, ok), e')
    ensures EngineInv(e')
  {
    assert TxnOk(e, t);
    FlushAbortFinishes(e, t, ok, e');
    FinishKeepsInv(e, t, if ok then Aborted else Failed, e');
  }

  /** PageFree records of a committed transaction are durable. */
  lemma DeferredNamed(e: Engine, t: nat, p: nat)
    requires e.durable <= |e.log| && t in e.txns && TxnOk(e, t) && IsIn(e, t, Committed) && p in e.txns[t].deferred
    ensures Named(e.log, e.durable, p)
  {
    var i :| 0 <= i < |e.log| && e.log[i].txnId == t && e.log[i].recordType == PageFree && e.log[i].pageId == p;
    assert i < e.txns[t].lastLsn <= e.durable;
  }

  lemma FewerDeferred(e: Engine, e': Engine, t: nat)
    requires e.durable <= |e.log| && t in e.txns && TxnOk(e, t) && IsIn(e, t, Committed) && e.txns[t].deferred != []
    requires e' == e.(txns := e.txns[t := e.txns[t].(deferred := e.txns[t].deferred[1..])])
    ensures TxnOk(e', t)
  {
    forall q | q in e'.txns[t].deferred
      ensures exists i ::
                0 <= i < |e'.log| && e'.log[i].txnId == t && e'.log[i].recordType == PageFree && e'.log[i].pageId == q
    {
      assert q in e.txns[t].deferred;
    }
  }

  lemma FinalizeDeleteKeepsInv(e: Engine, t: nat, e': Engine)
    requires EngineInv(e) && Next(e, FinalizeDelete(t), e')
    ensures EngineInv(e')
  {
    var p := e.txns[t].deferred[0];
    assert TxnOk(e, t);
    DeferredNamed(e, t, p);
    DeletePageKeepsInv(e, p);
    ShortenDeferred(DeletePage(e, p), t, e');
  }

  lemma ShortenDeferred(e: Engine, t: nat, e': Engine)
    requires EngineInv(e) && IsIn(e, t, Committed) && e.txns[t].deferred != []
    requires e' == e.(txns := e.txns[t := e.txns[t].(deferred := e.txns[t].deferred[1..])])
    ensures EngineInv(e')
  {
    assert TxnOk(e, t);
    FewerDeferred(e, e', t);
    CommitIndex(e, t, |e.log|);
    StateChange(e, e', t);
  }

  // ----- release -----

  ghost predicate Releases(e: Engine, e': Engine, t: nat) {
    && t in e.txns
    && e' == e.(txns := e.txns - {t}, holder := map p | p in e.holder && e.holder[p] != t :: e.holder[p])
  }

  lemma ReleasedTxn(e: Engine, e': Engine, t: nat, u: nat)
    requires e.durable <= |e.log| && TxnsOk(e) && Releases(e, e', t) && u in e'.txns
    ensures TxnOk(e', u)
  {
    assert TxnOk(e, u);
    OtherTxnOk(e, e', u);
  }

  lemma ReleaseTxns(e: Engine, e': Engine, t: nat)
    requires e.durable <= |e.log| && TxnsOk(e) && Releases(e, e', t) && !Loser(e.log, |e.log|, t)
    ensures TxnsOk(e')
  {
    forall u | u in e'.txns ensures TxnOk(e', u) { ReleasedTxn(e, e', t, u); }
  }

  lemma ReleaseLocks(e: Engine, e': Engine, t: nat)
    requires LocksOk(e) && Releases(e, e', t) && !Loser(e.log, |e.log|, t)
    ensures LocksOk(e')
  {
    forall i, p | 0 <= i < |e'.log| && Updates(e'.log[i], p) && AbortLogged(e', e'.log[i].txnId)
      ensures StillOwns(e', i, p)
    {
      assert StillOwns(e, i, p);
    }
  }

  lemma ReleaseFrames(e: Engine, e': Engine, t: nat)
    requires CacheOk(e) && Releases(e, e', t)
    ensures CacheOk(e')
  {
    forall p | p in e'.cache ensures FrameOk(e', p) { SameFrame(e, e', p); }
  }

  lemma ReleaseContents(e: Engine, e': Engine, t: nat)
    requires SizesOk(e) && SizesOk(e') && ContentsOk(e) && Releases(e, e', t)
    requires !Loser(e.log, |e.log|, t) && !InRetry(e.txns[t])
    ensures ContentsOk(e')
  {
    forall p | R.Tracked(e.log, e.base, p) ensures ContentOk(e', p) {
      assert ContentOk(e, p);
      if !Holds(e, t, p) { SameContent(e, e', p); }
    }
  }

  lemma ReleaseKeepsInv(e: Engine, t: nat, e': Engine)
    requires EngineInv(e) && Next(e, Release(t), e')
    ensures EngineInv(e')
  {
    assert TxnOk(e, t);
    assert !Loser(e.log, |e.log|, t);
    assert Releases(e, e', t) && !InRetry(e.txns[t]);
    ReleaseTxns(e, e', t);
    ReleaseLocks(e, e', t);
    ReleaseFrames(e, e', t);
    ReleaseContents(e, e', t);
  }
}
