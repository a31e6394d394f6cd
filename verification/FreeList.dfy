/** Which pages come to the free list while the engine runs: those that a committed transaction freed and those that a
    rolled back one allocated, and no others. */
module FreeList {
  import opened Wal
  import opened WalFacts
  import R = RecoveryMachine
  import opened EngineMachine
  import opened CrashRuns

  /** Undo of a transaction in this state has dealt with record `i`. */
  predicate HasUndone(state: TxnState, i: nat) {
    match state
    case Aborting(next) => next <= i
    case Retrying(next) => next <= i
    case Aborted => true
    case _ => false
  }

  predicate IsOf(r: LogRecord, t: nat, kind: RecordType) { r.txnId == t && r.recordType == kind }

  /** Pages that `t` freed are its own until they are deleted, which happens only after it has committed. */
  ghost predicate FreesAreKept(e: Engine, t: nat)
    requires t in e.txns
  {
    forall i :: 0 <= i < |e.log| && IsOf(e.log[i], t, PageFree) ==> FreeIsKept(e, t, e.log[i].pageId)
  }

  ghost predicate FreeIsKept(e: Engine, t: nat, p: nat)
    requires t in e.txns
  {
    Holds(e, t, p) && (p in e.txns[t].deferred || (e.txns[t].state.Committed? && p in e.disk.freed))
  }

  /** Pages that `t` allocated are its own, and on the free list once that has been undone. */
  ghost predicate AllocationsAreUndone(e: Engine, t: nat)
    requires t in e.txns
  {
    forall i :: 0 <= i < |e.log| && IsOf(e.log[i], t, PageAllocate) ==> AllocationIsUndone(e, t, i)
  }

  ghost predicate AllocationIsUndone(e: Engine, t: nat, i: nat)
    requires t in e.txns && i < |e.log|
  {
    Holds(e, t, e.log[i].pageId) && (HasUndone(e.txns[t].state, i) ==> e.log[i].pageId in e.disk.freed)
  }

  ghost predicate TxnPages(e: Engine, t: nat)
    requires t in e.txns
  {
    FreesAreKept(e, t) && AllocationsAreUndone(e, t)
  }

  ghost predicate ListInv(e: Engine) { forall t :: t in e.txns ==> TxnPages(e, t) }

  // ----- what most actions leave alone -----

  ghost predicate NothingNew(e: Engine, e': Engine, t: nat) {
    e.log <= e'.log
    && forall i :: |e.log| <= i < |e'.log| ==> !IsOf(e'.log[i], t, PageFree) && !IsOf(e'.log[i], t, PageAllocate)
  }

  /** Pages of `t` stay its own, and on the free list if they are there. */
  ghost predicate StaysOwn(e: Engine, e': Engine, t: nat) {
    forall p :: Holds(e, t, p) ==> Holds(e', t, p) && (p in e.disk.freed ==> p in e'.disk.freed)
  }

  lemma Carried(e: Engine, e': Engine, t: nat)
    requires t in e.txns && t in e'.txns && TxnPages(e, t) && NothingNew(e, e', t) && StaysOwn(e, e', t)
    requires e'.txns[t].deferred == e.txns[t].deferred
    requires e.txns[t].state.Committed? ==> e'.txns[t].state.Committed?
    requires forall i: nat :: i < |e.log| && HasUndone(e'.txns[t].state, i) ==> HasUndone(e.txns[t].state, i)
    ensures TxnPages(e', t)
  {
    forall i | 0 <= i < |e'.log| && IsOf(e'.log[i], t, PageFree) ensures FreeIsKept(e', t, e'.log[i].pageId) {
      assert e'.log[i] == e.log[i] && FreeIsKept(e, t, e.log[i].pageId);
    }
    forall i | 0 <= i < |e'.log| && IsOf(e'.log[i], t, PageAllocate) ensures AllocationIsUndone(e', t, i) {
      assert e'.log[i] == e.log[i] && AllocationIsUndone(e, t, i);
    }
  }

  // ----- the free list and the locks -----

  predicate ChangesList(a: Action) { a.Allocate? || a.FinalizeDelete? || a.UndoOne? || a.RetryOne? }

  lemma UndoneList(e: Engine, r: LogRecord)
    ensures UndoRecord(e, r).disk.freed == if r.recordType
            == PageAllocate then e.disk.freed + {r.pageId} else e.disk.freed
    ensures UndoRecord(e, r).txns == e.txns && UndoRecord(e, r).holder == e.holder && UndoRecord(e, r).log == e.log
  {
  }

  /** Actions that change neither the pages a transaction has freed nor those it has allocated. */
  predicate IsPlain(a: Action) {
    || a.LockPage? || a.Write? || a.MarkFailed? || a.BeginCommit? || a.AppendCommit? || a.AppendCommitFails?
    || a.FlushCommit? || a.UndoFails? || a.AppendAbort? || a.FlushAbort? || a.RetryFails? || a.AppendAbortAgain?
  }

  /** The transaction an action is about. */
  function Actor(a: Action): nat {
    match a
    case LockPage(t, _) => t
    case Write(t, _, _) => t
    case Allocate(t, _) => t
    case Free(t, _) => t
    case MarkFailed(t) => t
    case BeginCommit(t) => t
    case AppendCommit(t) => t
    case AppendCommitFails(t) => t
    case FlushCommit(t, _) => t
    case FinalizeDelete(t) => t
    case Release(t) => t
    case BeginAbort(t) => t
    case UndoOne(t) => t
    case UndoFails(t) => t
    case AppendAbort(t) => t
    case FlushAbort(t, _) => t
    case RetryAbort(t) => t
    case RetryOne(t) => t
    case RetryFails(t) => t
    case AppendAbortAgain(t) => t
    case _ => INVALID_TXN
  }

  /** Actions that leave the free list alone. */
  lemma ListIsSame(e: Engine, a: Action, e': Engine)
    requires Next(e, a, e') && !ChangesList(a)
    ensures e'.disk.freed == e.disk.freed
  {
    if IsPlain(a) { PlainList(e, a, e'); }
  }

  lemma PlainList(e: Engine, a: Action, e': Engine)
    requires Next(e, a, e') && IsPlain(a)
    ensures e'.disk.freed == e.disk.freed
  {
  }

  predicate TakesLock(a: Action) { a.LockPage? || a.Allocate? }

  lemma HoldersStay(e: Engine, a: Action, e': Engine, t: nat)
    requires Next(e, a, e') && t in e'.txns && t in e.txns && !a.Truncate?
    ensures forall p :: Holds(e, t, p) ==> Holds(e', t, p)
  {
    if TakesLock(a) || a.Release? { LocksMove(e, a, e', t); } else { LocksStay(e, a, e'); }
  }

  lemma LocksMove(e: Engine, a: Action, e': Engine, t: nat)
    requires Next(e, a, e') && t in e'.txns && t in e.txns && (TakesLock(a) || a.Release?)
    ensures forall p :: Holds(e, t, p) ==> Holds(e', t, p)
  {
  }

  lemma LocksStay(e: Engine, a: Action, e': Engine)
    requires Next(e, a, e') && !a.Truncate? && !TakesLock(a) && !a.Release?
    ensures e'.holder == e.holder
  {
    if IsPlain(a) {
      LocksStayPlain(e, a, e');
    } else if a.UndoOne? || a.RetryOne? {
      UndoneList(e, e.log[e.txns[a.t].state.next - 1]);
    }
  }

  lemma LocksStayPlain(e: Engine, a: Action, e': Engine)
    requires Next(e, a, e') && IsPlain(a) && !a.LockPage?
    ensures e'.holder == e.holder
  {
  }

  /** No action takes a page of `t` from the free list, unless it is `t` itself that allocates it. */
  lemma OwnPagesStay(e: Engine, a: Action, e': Engine, t: nat)
    requires Next(e, a, e') && t in e'.txns && t in e.txns && !a.Truncate? && !(a.Allocate? && a.t == t)
    ensures StaysOwn(e, e', t)
  {
    HoldersStay(e, a, e', t);
    if !ChangesList(a) { ListIsSame(e, a, e'); } else { ListGrows(e, a, e'); }
  }

  lemma ListGrows(e: Engine, a: Action, e': Engine)
    requires Next(e, a, e') && ChangesList(a)
    ensures forall p :: p in e.disk.freed && !(a.Allocate? && p == a.p) ==> p in e'.disk.freed
  {
    if a.UndoOne? { UndoneList(e, e.log[e.txns[a.t].state.next - 1]); }
    if a.RetryOne? { UndoneList(e, e.log[e.txns[a.t].state.next - 1]); }
  }

  /** An action adds at most one record, for the transaction it is about. */
  lemma OthersUnchanged(e: Engine, a: Action, e': Engine, t: nat)
    requires Next(e, a, e') && t in e'.txns && t in e.txns && !a.Truncate? && t != Actor(a) && t != INVALID_TXN
    requires a.BeginTxn? ==> t != e.nextTxn
    ensures NothingNew(e, e', t) && e'.txns[t] == e.txns[t]
  {
    OthersLog(e, a, e', t);
    OthersEntry(e, a, e', t);
  }

  lemma OthersLog(e: Engine, a: Action, e': Engine, t: nat)
    requires Next(e, a, e') && t in e'.txns && t in e.txns && !a.Truncate? && t != Actor(a) && t != INVALID_TXN
    ensures NothingNew(e, e', t)
  {
    if ChangesList(a) { ListLog(e, a, e', t); }
  }

  lemma ListLog(e: Engine, a: Action, e': Engine, t: nat)
    requires Next(e, a, e') && ChangesList(a) && t != Actor(a)
    ensures NothingNew(e, e', t)
  {
    if a.UndoOne? { UndoneList(e, e.log[e.txns[a.t].state.next - 1]); }
    if a.RetryOne? { UndoneList(e, e.log[e.txns[a.t].state.next - 1]); }
  }

  lemma OthersEntry(e: Engine, a: Action, e': Engine, t: nat)
    requires Next(e, a, e') && t in e'.txns && t in e.txns && t != Actor(a) && (a.BeginTxn? ==> t != e.nextTxn)
    ensures e'.txns[t] == e.txns[t]
  {
    if IsPlain(a) {
      PlainOthers(e, a, e', t);
    } else if a.UndoOne? || a.RetryOne? {
      UndoOthers(e, a, e', t);
    }
  }

  lemma PlainOthers(e: Engine, a: Action, e': Engine, t: nat)
    requires Next(e, a, e') && IsPlain(a) && t in e'.txns && t in e.txns && t != Actor(a)
    ensures e'.txns[t] == e.txns[t]
  {
  }

  lemma UndoOthers(e: Engine, a: Action, e': Engine, t: nat)
    requires Next(e, a, e') && (a.UndoOne? || a.RetryOne?) && t in e'.txns && t in e.txns && t != Actor(a)
    ensures e'.txns[t] == e.txns[t]
  {
    UndoneList(e, e.log[e.txns[a.t].state.next - 1]);
  }

  // ----- the transaction itself -----

  lemma PlainKeeps(e: Engine, a: Action, e': Engine, t: nat)
    requires Next(e, a, e') && IsPlain(a) && Actor(a) == t && t in e.txns && TxnPages(e, t)
    ensures t in e'.txns && TxnPages(e', t)
  {
    PlainChanges(e, a, e', t);
    OwnPagesStay(e, a, e', t);
    Carried(e, e', t);
  }

  lemma PlainChanges(e: Engine, a: Action, e': Engine, t: nat)
    requires Next(e, a, e') && IsPlain(a) && Actor(a) == t && t in e.txns
    ensures t in e'.txns && NothingNew(e, e', t) && e'.txns[t].deferred == e.txns[t].deferred
    ensures e.txns[t].state.Committed? ==> e'.txns[t].state.Committed?
    ensures forall i: nat :: HasUndone(e'.txns[t].state, i) ==> HasUndone(e.txns[t].state, i)
  {
    if IsEnd(a) { EndChanges(e, a, e', t); } else { WorkChanges(e, a, e', t); }
  }

  predicate IsEnd(a: Action) { a.AppendAbort? || a.FlushAbort? || a.RetryFails? || a.AppendAbortAgain? || a.UndoFails? }

  lemma EndChanges(e: Engine, a: Action, e': Engine, t: nat)
    requires Next(e, a, e') && IsEnd(a) && Actor(a) == t && t in e.txns
    ensures t in e'.txns && NothingNew(e, e', t) && e'.txns[t].deferred == e.txns[t].deferred
    ensures !e.txns[t].state.Committed?
    ensures forall i: nat :: HasUndone(e'.txns[t].state, i) ==> HasUndone(e.txns[t].state, i)
  {
  }

  lemma WorkChanges(e: Engine, a: Action, e': Engine, t: nat)
    requires Next(e, a, e') && IsPlain(a) && !IsEnd(a) && Actor(a) == t && t in e.txns
    ensures t in e'.txns && NothingNew(e, e', t) && e'.txns[t].deferred == e.txns[t].deferred
    ensures e.txns[t].state.Committed? ==> e'.txns[t].state.Committed?
    ensures forall i: nat :: HasUndone(e'.txns[t].state, i) ==> HasUndone(e.txns[t].state, i)
  {
  }

  lemma AllocateKeeps(e: Engine, t: nat, p: nat, e': Engine)
    requires Next(e, Allocate(t, p), e') && TxnPages(e, t)
    ensures t in e'.txns && TxnPages(e', t)
  {
    forall i | 0 <= i < |e'.log| && IsOf(e'.log[i], t, PageFree) ensures FreeIsKept(e', t, e'.log[i].pageId) {
      assert e'.log[i] == e.log[i] && FreeIsKept(e, t, e.log[i].pageId);
    }
    forall i | 0 <= i < |e'.log| && IsOf(e'.log[i], t, PageAllocate) ensures AllocationIsUndone(e', t, i) {
      if i < |e.log| { assert e'.log[i] == e.log[i] && AllocationIsUndone(e, t, i); }
    }
  }

  lemma FreeKeeps(e: Engine, t: nat, p: nat, e': Engine)
    requires Next(e, Free(t, p), e') && TxnPages(e, t)
    ensures t in e'.txns && TxnPages(e', t)
  {
    forall i | 0 <= i < |e'.log| && IsOf(e'.log[i], t, PageFree) ensures FreeIsKept(e', t, e'.log[i].pageId) {
      if i < |e.log| { assert e'.log[i] == e.log[i] && FreeIsKept(e, t, e.log[i].pageId); }
    }
    forall i | 0 <= i < |e'.log| && IsOf(e'.log[i], t, PageAllocate) ensures AllocationIsUndone(e', t, i) {
      assert e'.log[i] == e.log[i] && AllocationIsUndone(e, t, i);
    }
  }

  lemma FinalizeKeeps(e: Engine, t: nat, e': Engine)
    requires Next(e, FinalizeDelete(t), e') && TxnPages(e, t)
    ensures t in e'.txns && TxnPages(e', t)
  {
    var p := e.txns[t].deferred[0];
    assert e'.disk.freed == e.disk.freed + {p} && e'.log == e.log && e'.holder == e.holder;
    forall i | 0 <= i < |e'.log| && IsOf(e'.log[i], t, PageFree) ensures FreeIsKept(e', t, e'.log[i].pageId) {
      assert FreeIsKept(e, t, e.log[i].pageId);
      assert e.txns[t].deferred == [p] + e.txns[t].deferred[1..];
    }
    forall i | 0 <= i < |e'.log| && IsOf(e'.log[i], t, PageAllocate) ensures AllocationIsUndone(e', t, i) {
      assert AllocationIsUndone(e, t, i);
    }
  }

  /** The rollback starts behind all records of the transaction. */
  lemma UndoStartsLast(e: Engine, a: Action, t: nat, e': Engine)
    requires (a == BeginAbort(t) || a == RetryAbort(t)) && Next(e, a, e') && TxnPages(e, t)
    requires e.txns[t].lastLsn == LastLsn(e.log, |e.log|, t)
    ensures t in e'.txns && TxnPages(e', t)
  {
    var next := LastLsn(e.log, |e.log|, t);
    forall i | 0 <= i < |e'.log| && IsOf(e'.log[i], t, PageFree) ensures FreeIsKept(e', t, e'.log[i].pageId) {
      assert FreeIsKept(e, t, e.log[i].pageId);
    }
    forall i | 0 <= i < |e'.log| && IsOf(e'.log[i], t, PageAllocate) ensures AllocationIsUndone(e', t, i) {
      assert AllocationIsUndone(e, t, i) && i < next;
    }
  }

  /** Where the transaction stands that is being rolled back. */
  function Standing(state: TxnState): nat
    requires state.Aborting? || state.Retrying?
  {
    state.next
  }

  lemma UndoIs(e: Engine, a: Action, t: nat, e': Engine)
    requires (a == UndoOne(t) || a == RetryOne(t)) && Next(e, a, e')
    ensures t in e.txns && t in e'.txns && e'.log == e.log && e'.holder == e.holder
    ensures e'.txns[t].deferred == e.txns[t].deferred && !e.txns[t].state.Committed?
    ensures (e.txns[t].state.Aborting? || e.txns[t].state.Retrying?) && 0 < Standing(e.txns[t].state) <= |e.log|
    ensures var n := Standing(e.txns[t].state);
            var r := e.log[n - 1];
            && (forall i: nat :: HasUndone(e'.txns[t].state, i) <==> r.prevLsn <= i)
            && (forall i: nat :: HasUndone(e.txns[t].state, i) <==> n <= i)
            && e'.disk.freed == if r.recordType == PageAllocate then e.disk.freed + {r.pageId} else e.disk.freed
  {
    UndoneList(e, e.log[e.txns[t].state.next - 1]);
  }

  /** One record is undone. */
  lemma UndoKeeps(e: Engine, a: Action, t: nat, e': Engine)
    requires (a == UndoOne(t) || a == RetryOne(t)) && Next(e, a, e') && TxnPages(e, t)
    requires var r := e.log[Standing(e.txns[t].state) - 1];
             r.txnId == t && r.prevLsn == LastLsn(e.log, Standing(e.txns[t].state) - 1, t)
    ensures t in e'.txns && TxnPages(e', t)
  {
    UndoIs(e, a, t, e');
    UndoneKeeps(e, t, e', Standing(e.txns[t].state));
  }

  lemma UndoneKeeps(e: Engine, t: nat, e': Engine, n: nat)
    requires t in e.txns && t in e'.txns && TxnPages(e, t) && e'.log == e.log && e'.holder == e.holder
    requires e'.txns[t].deferred == e.txns[t].deferred && !e.txns[t].state.Committed? && 0 < n <= |e.log|
    requires var r := e.log[n - 1];
             && (forall i: nat :: HasUndone(e'.txns[t].state, i) <==> r.prevLsn <= i)
             && (forall i: nat :: HasUndone(e.txns[t].state, i) <==> n <= i)
             && e'.disk.freed == if r.recordType == PageAllocate then e.disk.freed + {r.pageId} else e.disk.freed
    requires e.log[n - 1].txnId == t && e.log[n - 1].prevLsn == LastLsn(e.log, n - 1, t)
    ensures TxnPages(e', t)
  {
    forall i | 0 <= i < |e'.log| && IsOf(e'.log[i], t, PageFree) ensures FreeIsKept(e', t, e'.log[i].pageId) {
      assert FreeIsKept(e, t, e.log[i].pageId);
    }
    forall i | 0 <= i < |e'.log| && IsOf(e'.log[i], t, PageAllocate) ensures AllocationIsUndone(e', t, i) {
      assert AllocationIsUndone(e, t, i);
    }
  }

  lemma BeginKeeps(e: Engine, e': Engine)
    requires Next(e, BeginTxn, e') && (forall t: nat :: HasRecord(e.log, |e.log|, t) ==> t < e.nextTxn)
    ensures e.nextTxn in e'.txns && TxnPages(e', e.nextTxn)
  {
    var t := e.nextTxn;
    forall i | 0 <= i < |e'.log| ensures !IsOf(e'.log[i], t, PageFree) && !IsOf(e'.log[i], t, PageAllocate) {
      if i < |e.log| { assert e'.log[i] == e.log[i] && HasRecord(e.log, |e.log|, e.log[i].txnId); }
    }
  }

  // ----- all actions -----

  lemma ActorFacts(e: Engine, t: nat)
    requires EngineInv(e) && t in e.txns
    ensures t != INVALID_TXN && t < e.nextTxn && e.txns[t].lastLsn == LastLsn(e.log, |e.log|, t)
    ensures var x := e.txns[t].state;
            (x.Aborting? || x.Retrying?) && 0 < Standing(x) <= |e.log| ==>
              var r := e.log[Standing(x) - 1];
              r.txnId == t && r.prevLsn == LastLsn(e.log, Standing(x) - 1, t)
  {
    assert TxnOk(e, t);
    var x := e.txns[t].state;
    if (x.Aborting? || x.Retrying?) && 0 < Standing(x) <= |e.log| {
      assert RecordOk(e.log, Standing(x) - 1, e.base);
    }
  }

  lemma ActorKeeps(e: Engine, a: Action, e': Engine, t: nat)
    requires Next(e, a, e') && t in e.txns && t in e'.txns && TxnPages(e, t) && Actor(a) == t && t != INVALID_TXN
    requires e.txns[t].lastLsn == LastLsn(e.log, |e.log|, t)
    requires var x := e.txns[t].state;
             (x.Aborting? || x.Retrying?) && 0 < Standing(x) <= |e.log| ==>
               var r := e.log[Standing(x) - 1];
               r.txnId == t && r.prevLsn == LastLsn(e.log, Standing(x) - 1, t)
    ensures TxnPages(e', t)
  {
    if IsPlain(a) { PlainKeeps(e, a, e', t); }
    else if a.Allocate? { AllocateKeeps(e, t, a.p, e'); }
    else if a.Free? { FreeKeeps(e, t, a.p, e'); }
    else if a.FinalizeDelete? { FinalizeKeeps(e, t, e'); }
    else if a.BeginAbort? || a.RetryAbort? { UndoStartsLast(e, a, t, e'); }
    else if a.UndoOne? || a.RetryOne? { UndoKeeps(e, a, t, e'); }
    else { Released(e, a, e', t); }
  }

  lemma Released(e: Engine, a: Action, e': Engine, t: nat)
    requires Next(e, a, e') && t in e'.txns
    ensures a != Release(t)
  {
  }

  /** Every action keeps the invariant. */
  lemma ActionKeepsList(e: Engine, a: Action, e': Engine)
    requires EngineInv(e) && ListInv(e) && Next(e, a, e')
    ensures ListInv(e')
  {
    forall t | t in e'.txns ensures TxnPages(e', t) {
      if t in e.txns {
        ActorFacts(e, t);
        KnownTxnKeeps(e, a, e', t);
      } else {
        NewTxn(e, a, e', t);
        BeginKeeps(e, e');
      }
    }
  }

  lemma NewTxn(e: Engine, a: Action, e': Engine, t: nat)
    requires Next(e, a, e') && t in e'.txns && t !in e.txns
    ensures a == BeginTxn && t == e.nextTxn
  {
    if !a.BeginTxn? {
      if ChangesList(a) || IsPlain(a) { NoNewTxn(e, a, e', t); } else { NoTxnBegins(e, a, e', t); }
    }
  }

  lemma NoNewTxn(e: Engine, a: Action, e': Engine, t: nat)
    requires Next(e, a, e') && t !in e.txns && (ChangesList(a) || IsPlain(a))
    ensures t !in e'.txns
  {
    if a.UndoOne? || a.RetryOne? { NoNewTxnUndone(e, a, e', t); } else if IsPlain(a) { NoNewTxnPlain(e, a, e', t); }
  }

  lemma NoNewTxnUndone(e: Engine, a: Action, e': Engine, t: nat)
    requires Next(e, a, e') && t !in e.txns && (a.UndoOne? || a.RetryOne?)
    ensures t !in e'.txns
  {
    UndoneList(e, e.log[e.txns[a.t].state.next - 1]);
  }

  lemma NoNewTxnPlain(e: Engine, a: Action, e': Engine, t: nat)
    requires Next(e, a, e') && t !in e.txns && IsPlain(a)
    ensures t !in e'.txns
  {
  }

  lemma NoTxnBegins(e: Engine, a: Action, e': Engine, t: nat)
    requires Next(e, a, e') && t !in e.txns && !ChangesList(a) && !IsPlain(a) && !a.BeginTxn?
    ensures t !in e'.txns
  {
  }

  lemma NotTruncated(e: Engine, a: Action, e': Engine, t: nat)
    requires Next(e, a, e') && t in e.txns
    ensures !a.Truncate? && (a.BeginTxn? ==> t != e.nextTxn)
  {
  }

  lemma KnownTxnKeeps(e: Engine, a: Action, e': Engine, t: nat)
    requires Next(e, a, e') && t in e.txns && t in e'.txns && TxnPages(e, t) && t != INVALID_TXN
    requires e.txns[t].lastLsn == LastLsn(e.log, |e.log|, t)
    requires var x := e.txns[t].state;
             (x.Aborting? || x.Retrying?) && 0 < Standing(x) <= |e.log| ==>
               var r := e.log[Standing(x) - 1];
               r.txnId == t && r.prevLsn == LastLsn(e.log, Standing(x) - 1, t)
    ensures TxnPages(e', t)
  {
    if Actor(a) == t {
      ActorKeeps(e, a, e', t);
    } else {
      NotTruncated(e, a, e', t);
      OthersUnchanged(e, a, e', t);
      OwnPagesStay(e, a, e', t);
      Carried(e, e', t);
    }
  }

  /** In every state of every run the invariant holds. */
  lemma {:induction false} RunKeepsList(run: seq<System>, k: nat)
    requires SafeRun(run) && k < |run| && run[k].Running?
    ensures ListInv(run[k].engine)
  {
    if k > 0 {
      var m := k - 1;
      assert SafeStep(run[m], run[k]);
      if run[m].Running? {
        RunKeepsList(run, m);
        RunKeepsInv(run, m);
        var a :| Next(run[m].engine, a, run[k].engine) && IsSafe(run[m].engine, a);
        ActionKeepsList(run[m].engine, a, run[k].engine);
      } else {
        ResumedIsQuiet(run[m], run[k]);
      }
    }
  }

  lemma ResumedIsQuiet(s: System, s': System)
    requires s.Recovering? && s'.Running? && SystemStep(s, s')
    ensures s'.engine.txns == map[]
  {
  }

  /** How a transaction ended that lets go of its locks. */
  lemma ReleaseState(e: Engine, t: nat)
    requires EngineInv(e) && t in e.txns
    ensures HasCommit(e.log, |e.log|, t) ==> !e.txns[t].state.Aborted?
    ensures HasAbort(e.log, |e.log|, t) ==> !e.txns[t].state.Committed?
  {
    assert TxnOk(e, t);
    NeverBothEnds(e.log, e.base, |e.log|, t);
  }

  lemma ReleaseIs(e: Engine, t: nat, e': Engine)
    requires Next(e, Release(t), e')
    ensures t in e.txns && e'.disk == e.disk
    ensures (e.txns[t].state.Committed? && e.txns[t].deferred == []) || e.txns[t].state.Aborted?
  {
  }

  lemma PagesOnList(e: Engine, t: nat, i: nat)
    requires t in e.txns && TxnPages(e, t) && i < |e.log|
    ensures IsOf(e.log[i], t, PageFree) && e.txns[t].state.Committed? && e.txns[t].deferred == [] ==>
              e.log[i].pageId in e.disk.freed
    ensures IsOf(e.log[i], t, PageAllocate) && e.txns[t].state.Aborted? ==> e.log[i].pageId in e.disk.freed
  {
    if IsOf(e.log[i], t, PageFree) { assert FreeIsKept(e, t, e.log[i].pageId); }
    if IsOf(e.log[i], t, PageAllocate) { assert AllocationIsUndone(e, t, i); }
  }

  /** When a transaction lets go of its locks, the pages it freed are on the free list if it has committed, and the
      pages it allocated if it was rolled back. */
  lemma ReleasedPages(run: seq<System>, k: nat, t: nat, i: nat)
    requires SafeRun(run) && k + 1 < |run| && run[k].Running? && run[k + 1].Running?
    requires Next(run[k].engine, Release(t), run[k + 1].engine) && i < |run[k].engine.log|
    ensures var e, e' := run[k].engine, run[k + 1].engine;
            && (IsOf(e.log[i], t, PageFree) && HasCommit(e.log, |e.log|, t) ==> e.log[i].pageId in e'.disk.freed)
            && (IsOf(e.log[i], t, PageAllocate) && HasAbort(e.log, |e.log|, t) ==> e.log[i].pageId in e'.disk.freed)
  {
    RunKeepsList(run, k);
    RunKeepsInv(run, k);
    var e := run[k].engine;
    ReleaseIs(e, t, run[k + 1].engine);
    ReleaseState(e, t);
    PagesOnList(e, t, i);
  }

  /** Why a page may come to the free list: a committed transaction freed it, or one that is being rolled back had
      allocated it. */
  ghost predicate MayBeFreed(e: Engine, p: nat) {
    exists i :: 0 <= i < |e.log| && e.log[i].pageId == p && e.log[i].txnId in e.txns
      && var x := e.txns[e.log[i].txnId].state;
         (e.log[i].recordType == PageFree && x.Committed? && HasCommit(e.log, |e.log|, e.log[i].txnId))
         || (e.log[i].recordType == PageAllocate && (x.Aborting? || x.Retrying?))
  }

  /** Nothing comes to the free list without reason. */
  lemma FreedForAReason(e: Engine, a: Action, e': Engine, p: nat)
    requires EngineInv(e) && Next(e, a, e') && p in e'.disk.freed && p !in e.disk.freed
    ensures MayBeFreed(e, p)
  {
    if !ChangesList(a) { ListIsSame(e, a, e'); } else { FreedByActor(e, a, e', p); }
  }

  lemma FreedByActor(e: Engine, a: Action, e': Engine, p: nat)
    requires EngineInv(e) && Next(e, a, e') && p in e'.disk.freed && p !in e.disk.freed && ChangesList(a)
    ensures MayBeFreed(e, p)
  {
    ActorIsKnown(e, a, e');
    var t := Actor(a);
    if a == FinalizeDelete(t) {
      DeletedIs(e, t, e', p);
      DeferredIsFree(e, t, p);
    } else {
      ActorFacts(e, t);
      UndoneForAReason(e, a, t, e', p);
    }
  }

  lemma ActorIsKnown(e: Engine, a: Action, e': Engine)
    requires Next(e, a, e') && ChangesList(a)
    ensures Actor(a) in e.txns
  {
  }

  lemma AllocateTakes(e: Engine, a: Action, e': Engine)
    requires Next(e, a, e') && a.Allocate?
    ensures e'.disk.freed <= e.disk.freed
  {
  }

  lemma UndoneForAReason(e: Engine, a: Action, t: nat, e': Engine, p: nat)
    requires Next(e, a, e') && ChangesList(a) && !a.FinalizeDelete? && Actor(a) == t && t in e.txns
    requires p in e'.disk.freed && p !in e.disk.freed
    requires var x := e.txns[t].state;
             (x.Aborting? || x.Retrying?) && 0 < Standing(x) <= |e.log| ==> e.log[Standing(x) - 1].txnId == t
    ensures MayBeFreed(e, p)
  {
    if a.Allocate? {
      AllocateTakes(e, a, e');
    } else {
      UndoIs(e, a, t, e');
      assert e.log[Standing(e.txns[t].state) - 1].pageId == p;
    }
  }

  lemma DeletedIs(e: Engine, t: nat, e': Engine, p: nat)
    requires Next(e, FinalizeDelete(t), e') && p in e'.disk.freed && p !in e.disk.freed
    ensures t in e.txns && e.txns[t].state.Committed? && p in e.txns[t].deferred
  {
  }

  lemma DeferredIsFree(e: Engine, t: nat, p: nat)
    requires EngineInv(e) && t in e.txns && e.txns[t].state.Committed? && p in e.txns[t].deferred
    ensures MayBeFreed(e, p)
  {
    assert TxnOk(e, t);
    var i :| 0 <= i < |e.log| && e.log[i].txnId == t && e.log[i].recordType == PageFree && e.log[i].pageId == p;
  }
}
