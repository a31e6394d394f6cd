/** The running engine: transactions writing through page guards, a page cache that may be flushed
    at any time, commit, rollback, checkpoint - and crashes. Each action is one critical section of
    the source. */
module EngineMachine {
  import opened Bytes
  import opened Wal
  import R = RecoveryMachine

  /** `Aborting` and `Retrying` stand at the record to undo next. `Retrying` is an abort whose Abort record
      was logged before, but not made durable. `Marked` and `Failed` are one state of the source: a transaction
      that was marked failed at work may still hold write guards, and these log their updates when released. */
  datatype TxnState =
    | Active
    | Marked
    | Failed
    | Committing
    | CommitUncertain
    | Committed
    | Aborting(next: nat)
    | Retrying(next: nat)
    | Aborted

  /** commitLsn and abortLsn are INVALID_LSN until the record is appended. */
  datatype Txn = Txn(state: TxnState, lastLsn: nat, commitLsn: nat, abortLsn: nat, deferred: seq<nat>)

  datatype Frame = Frame(image: Image, dirty: bool, pageLsn: nat)

  /** `holder` gives the transaction holding the X lock of a page. `base` and `acked` are history:
      the page images of the last checkpoint, and the transactions whose COMMIT returned Ok since. */
  datatype Engine = Engine(
    log: Log,
    durable: nat,
    disk: R.Disk,
    cache: map<nat, Frame>,
    txns: map<nat, Txn>,
    holder: map<nat, nat>,
    nextTxn: nat,
    base: map<nat, Image>,
    acked: set<nat>)

  datatype Action =
    | BeginTxn
    | LockPage(t: nat, p: nat)
    | Fetch(p: nat)
    | Evict(p: nat)
    | Write(t: nat, p: nat, image: Image)
    | FlushPage(p: nat)
    | FlushLog(upTo: nat)
    | Allocate(t: nat, p: nat)
    | Free(t: nat, p: nat)
    | MarkFailed(t: nat)
    | BeginCommit(t: nat)
    | AppendCommit(t: nat)
    | AppendCommitFails(t: nat)
    | FlushCommit(t: nat, ok: bool)
    | FinalizeDelete(t: nat)
    | Release(t: nat)
    | BeginAbort(t: nat)
    | UndoOne(t: nat)
    | UndoFails(t: nat)
    | AppendAbort(t: nat)
    | FlushAbort(t: nat, ok: bool)
    | RetryAbort(t: nat)
    | RetryOne(t: nat)
    | RetryFails(t: nat)
    | AppendAbortAgain(t: nat)
    | AppendCheckpoint
    | Truncate

  function Record(e: Engine, kind: RecordType, t: nat, p: nat, before: Image, after: Image): LogRecord {
    LogRecord(kind, |e.log| + 1, t, if t in e.txns then e.txns[t].lastLsn else INVALID_LSN, p, INVALID_LSN, Checkpoint,
              before, after)
  }

  /** Append a record for `t`; its chain tail moves with it. */
  function AppendFor(e: Engine, t: nat, r: LogRecord): Engine
    requires t in e.txns
  {
    e.(log := e.log + [r], txns := e.txns[t := e.txns[t].(lastLsn := |e.log| + 1)])
  }

  function SetState(e: Engine, t: nat, state: TxnState): Engine
    requires t in e.txns
  {
    e.(txns := e.txns[t := e.txns[t].(state := state)])
  }

  function Max(a: nat, b: nat): nat { if a < b then b else a }

  /** WAL before data: the log is forced up to the page LSN before the page is written. */
  function FlushFrame(e: Engine, p: nat): Engine
    requires p in e.cache
  {
    var f := e.cache[p];
    if f.dirty then
      e.(durable := Max(e.durable, f.pageLsn),
         disk := R.WritePage(e.disk, p, f.image),
         cache := e.cache[p := Frame(f.image, false, INVALID_LSN)])
    else e
  }

  /** Undo writes the page to disk at once and replaces a cached copy. */
  function RestorePage(e: Engine, p: nat, image: Image): Engine {
    e.(disk := R.WritePage(e.disk, p, image),
       cache := if p in e.cache then e.cache[p := Frame(image, false, INVALID_LSN)] else e.cache)
  }

  /** Remove a page: flush it, deallocate it, drop its frame. */
  function DeletePage(e: Engine, p: nat): Engine {
    var e1 := if p in e.cache then FlushFrame(e, p) else e;
    e1.(disk := R.Deallocate(e1.disk, p), cache := e1.cache - {p})
  }

  function UndoRecord(e: Engine, r: LogRecord): Engine {
    if r.recordType == PageUpdate then RestorePage(e, r.pageId, r.beforeImage)
    else if r.recordType == PageAllocate then DeletePage(e, r.pageId)
    else e
  }

  predicate IsIn(e: Engine, t: nat, state: TxnState) {
    t in e.txns && e.txns[t].state == state
  }

  predicate Holds(e: Engine, t: nat, p: nat) {
    p in e.holder && e.holder[p] == t
  }

  predicate AtWork(e: Engine, t: nat) {
    t in e.txns && (e.txns[t].state.Active? || e.txns[t].state.Marked?)
  }

  predicate FreePageId(e: Engine, p: nat) {
    p !in e.disk.pages || p in e.disk.freed
  }

  ghost predicate Next(e: Engine, a: Action, e': Engine) {
    match a
    case BeginTxn =>
      var t := e.nextTxn;
      && t !in e.txns
      && e' == e.(log := e.log + [Record(e, RecordType.Begin, t, 0, [], [])],
                  txns := e.txns[t := Txn(Active, |e.log| + 1, INVALID_LSN, INVALID_LSN, [])],
                  nextTxn := t + 1)
    case LockPage(t, p) =>
      && IsIn(e, t, Active)
      && (p !in e.holder || e.holder[p] == t)
      && e' == e.(holder := e.holder[p := t])
    case Fetch(p) =>
      && p in e.disk.pages && p !in e.cache
      && e' == e.(cache := e.cache[p := Frame(e.disk.pages[p], false, INVALID_LSN)])
    case Evict(p) =>
      && p in e.cache
      && var e1 := FlushFrame(e, p); e' == e1.(cache := e1.cache - {p})
    case Write(t, p, image) =>
      && AtWork(e, t) && Holds(e, t, p) && p in e.cache && |image| == PAGE_SIZE
      && e' == AppendFor(e, t, Record(e, PageUpdate, t, p, e.cache[p].image, image)).(
                 cache := e.cache[p := Frame(image, true, |e.log| + 1)])
    case FlushPage(p) =>
      p in e.cache && e' == FlushFrame(e, p)
    case FlushLog(upTo) =>
      e.durable <= upTo <= |e.log| && e' == e.(durable := upTo)
    case Allocate(t, p) =>
      && IsIn(e, t, Active) && FreePageId(e, p) && (p !in e.holder || e.holder[p] == t)
      && e' == AppendFor(e, t, Record(e, PageAllocate, t, p, [], [])).(
                 disk := R.Disk(e.disk.pages[p := R.FreedImage()], e.disk.freed - {p}),
                 cache := e.cache[p := Frame(R.FreedImage(), false, INVALID_LSN)],
                 holder := e.holder[p := t])
    case Free(t, p) =>
      && IsIn(e, t, Active) && Holds(e, t, p) && p !in e.txns[t].deferred
      && var e1 := AppendFor(e, t, Record(e, PageFree, t, p, [], []));
         e' == e1.(txns := e1.txns[t := e1.txns[t].(deferred := e.txns[t].deferred + [p])])
    case MarkFailed(t) =>
      IsIn(e, t, Active) && e' == SetState(e, t, Marked)
    case BeginCommit(t) =>
      IsIn(e, t, Active) && e' == SetState(e, t, Committing)
    case AppendCommit(t) =>
      && IsIn(e, t, Committing) && e.txns[t].commitLsn == INVALID_LSN
      && var e1 := AppendFor(e, t, Record(e, Commit, t, 0, [], []));
         e' == e1.(txns := e1.txns[t := e1.txns[t].(commitLsn := |e.log| + 1)])
    case AppendCommitFails(t) =>
      IsIn(e, t, Committing) && e.txns[t].commitLsn == INVALID_LSN && e' == SetState(e, t, Failed)
    case FlushCommit(t, ok) =>
      && (IsIn(e, t, Committing) || IsIn(e, t, CommitUncertain)) && e.txns[t].commitLsn != INVALID_LSN
      && e' == if ok then SetState(e, t, Committed).(durable := Max(e.durable, e.txns[t].commitLsn),
                                                     acked := e.acked + {t})
               else SetState(e, t, CommitUncertain)
    case FinalizeDelete(t) =>
      && IsIn(e, t, Committed) && e.txns[t].deferred != []
      && var e1 := DeletePage(e, e.txns[t].deferred[0]);
         e' == e1.(txns := e.txns[t := e.txns[t].(deferred := e.txns[t].deferred[1..])])
    case Release(t) =>
      && ((IsIn(e, t, Committed) && e.txns[t].deferred == []) || IsIn(e, t, Aborted))
      && e' == e.(txns := e.txns - {t}, holder := map p | p in e.holder && e.holder[p] != t :: e.holder[p])
    case BeginAbort(t) =>
      // reading the log for undo drains the append buffer
      && (AtWork(e, t) || IsIn(e, t, Failed)) && e.txns[t].abortLsn == INVALID_LSN
      && e' == SetState(e, t, Aborting(e.txns[t].lastLsn)).(durable := |e.log|)
    case UndoOne(t) =>
      && t in e.txns && e.txns[t].state.Aborting? && 0 < e.txns[t].state.next <= |e.log|
      && var r := e.log[e.txns[t].state.next - 1];
         e' == SetState(UndoRecord(e, r), t, Aborting(r.prevLsn))
    case UndoFails(t) =>
      t in e.txns && e.txns[t].state.Aborting? && e' == SetState(e, t, Failed)
    case AppendAbort(t) =>
      && IsIn(e, t, Aborting(0)) && e.txns[t].abortLsn == INVALID_LSN
      && var e1 := AppendFor(e, t, Record(e, Abort, t, 0, [], []));
         e' == e1.(txns := e1.txns[t := e1.txns[t].(abortLsn := |e.log| + 1)])
    case FlushAbort(t, ok) =>
      && IsIn(e, t, Aborting(0)) && e.txns[t].abortLsn != INVALID_LSN
      && e' == if ok then SetState(e, t, Aborted).(durable := Max(e.durable, e.txns[t].abortLsn))
               else SetState(e, t, Failed)
    case RetryAbort(t) =>
      && IsIn(e, t, Failed) && e.txns[t].abortLsn != INVALID_LSN
      && e' == SetState(e, t, Retrying(e.txns[t].lastLsn)).(durable := |e.log|)
    case RetryOne(t) =>
      && t in e.txns && e.txns[t].state.Retrying? && 0 < e.txns[t].state.next <= |e.log|
      && var r := e.log[e.txns[t].state.next - 1];
         e' == SetState(UndoRecord(e, r), t, Retrying(r.prevLsn))
    case RetryFails(t) =>
      t in e.txns && e.txns[t].state.Retrying? && e' == SetState(e, t, Failed)
    case AppendAbortAgain(t) =>
      && IsIn(e, t, Retrying(0))
      && var e1 := AppendFor(e, t, Record(e, Abort, t, 0, [], []));
         e' == e1.(txns := e1.txns[t := e1.txns[t].(state := Aborting(0), abortLsn := |e.log| + 1)])
    case AppendCheckpoint =>
      e.txns == map[] && e' == e.(log := e.log + [Record(e, Checkpoint, INVALID_TXN, 0, [], [])])
    case Truncate =>
      && e.txns == map[]
      && (forall p :: p in e.cache ==> !e.cache[p].dirty)
      && |e.log| > 0 && e.log[|e.log| - 1].recordType == Checkpoint && e.durable == |e.log|
      && e' == e.(log := [], durable := 0, acked := {},
                  base := map p | p in e.disk.pages && p !in e.disk.freed :: e.disk.pages[p])
  }

  // ----- the invariant -----

  function Current(e: Engine, p: nat): Image
    requires p in e.disk.pages
  {
    if p in e.cache then e.cache[p].image else e.disk.pages[p]
  }

  ghost predicate SizesOk(e: Engine) {
    && (forall p :: p in e.disk.pages ==> |e.disk.pages[p]| == PAGE_SIZE)
    && (forall p :: p in e.base ==> p in e.disk.pages)
  }

  /** Deallocated checkpoint pages are known to the durable log. */
  ghost predicate FreedOk(e: Engine)
    requires e.durable <= |e.log|
  {
    forall p :: p in e.base && p in e.disk.freed ==> Named(e.log, e.durable, p)
  }

  /** `i` is the last update of `p` in the log. */
  ghost predicate LastUpdate(log: Log, i: int, p: nat) {
    0 <= i < |log| && Updates(log[i], p) && forall k :: i < k < |log| ==> !Updates(log[k], p)
  }

  ghost predicate DirtyOk(e: Engine, p: nat)
    requires p in e.cache
  {
    var f := e.cache[p];
    && 0 < f.pageLsn <= |e.log|
    && LastUpdate(e.log, f.pageLsn - 1, p)
    && e.log[f.pageLsn - 1].afterImage == f.image
    && var t := e.log[f.pageLsn - 1].txnId;
       && !HasAbort(e.log, |e.log|, t)
       && (t in e.txns && e.txns[t].state.Aborting? ==> f.pageLsn <= e.txns[t].state.next)
  }

  ghost predicate FrameOk(e: Engine, p: nat)
    requires p in e.cache
  {
    && p in e.disk.pages
    && |e.cache[p].image| == PAGE_SIZE
    && (if e.cache[p].dirty then DirtyOk(e, p) else e.cache[p].image == e.disk.pages[p])
  }

  ghost predicate CacheOk(e: Engine) {
    forall p :: p in e.cache ==> FrameOk(e, p)
  }

  ghost predicate DeferredOk(e: Engine, t: nat)
    requires t in e.txns
  {
    forall p :: p in e.txns[t].deferred ==>
      exists i :: 0 <= i < |e.log| && e.log[i].txnId == t && e.log[i].recordType == PageFree && e.log[i].pageId == p
  }

  ghost predicate TxnOk(e: Engine, t: nat)
    requires t in e.txns && e.durable <= |e.log|
  {
    var x := e.txns[t];
    var n := |e.log|;
    && t != INVALID_TXN && t < e.nextTxn
    && x.lastLsn == LastLsn(e.log, n, t) > 0
    && !HasClr(e.log, n, t)
    && (x.commitLsn != INVALID_LSN <==> HasCommit(e.log, n, t))
    && (x.abortLsn != INVALID_LSN <==> HasAbort(e.log, n, t))
    && (x.commitLsn != INVALID_LSN ==> x.commitLsn == x.lastLsn)
    && (x.abortLsn != INVALID_LSN ==> x.abortLsn == x.lastLsn)
    && DeferredOk(e, t)
    && match x.state
       case Active => x.commitLsn == INVALID_LSN && x.abortLsn == INVALID_LSN
       case Marked => x.commitLsn == INVALID_LSN && x.abortLsn == INVALID_LSN
       case Failed => x.commitLsn == INVALID_LSN
       case Committing => x.abortLsn == INVALID_LSN
       case CommitUncertain => x.commitLsn != INVALID_LSN
       case Committed => x.commitLsn != INVALID_LSN && x.commitLsn <= e.durable && t in e.acked
       case Aborting(next) =>
         && x.commitLsn == INVALID_LSN
         && next <= x.lastLsn
         && (next > 0 ==> e.log[next - 1].txnId == t && x.abortLsn == INVALID_LSN)
         && (x.abortLsn == INVALID_LSN ==> x.lastLsn <= e.durable)
       case Retrying(next) =>
         && x.commitLsn == INVALID_LSN && x.abortLsn != INVALID_LSN
         && next <= x.lastLsn <= e.durable
         && (next > 0 ==> e.log[next - 1].txnId == t)
         && SafeToRetry(e.log, e.durable, e.base, t)
       case Aborted => x.abortLsn != INVALID_LSN
  }

  /** A transaction that has committed updated the page. */
  ghost predicate WonBy(log: Log, n: nat, p: nat)
    requires n <= |log|
  {
    exists i :: 0 <= i < n && Updates(log[i], p) && HasCommit(log, n, log[i].txnId)
  }

  /** Undoing `t` once more is safe: every page it updated is untracked, is one that recovery will redo, or gets
      its checkpoint image back from each undone update. */
  ghost predicate SafeToRetry(log: Log, n: nat, base: map<nat, Image>, t: nat)
    requires n <= |log|
  {
    forall i :: 0 <= i < |log| && log[i].txnId == t && log[i].recordType == PageUpdate ==>
      UndoIsHarmless(log, n, base, log[i])
  }

  ghost predicate UndoIsHarmless(log: Log, n: nat, base: map<nat, Image>, r: LogRecord)
    requires n <= |log|
  {
    r.pageId !in base || Named(log, n, r.pageId) || WonBy(log, n, r.pageId) || r.beforeImage == base[r.pageId]
  }

  ghost predicate TxnsOk(e: Engine)
    requires e.durable <= |e.log|
  {
    && 0 < e.nextTxn
    && (forall t :: t in e.txns ==> TxnOk(e, t))
    && (forall t: nat :: HasRecord(e.log, |e.log|, t) ==> t < e.nextTxn)
    && (forall t :: Loser(e.log, |e.log|, t) ==> t in e.txns)
    && (forall t :: t in e.acked ==> HasCommit(e.log, e.durable, t))
  }

  /** `t` is still in the table, its Abort logged. */
  ghost predicate AbortLogged(e: Engine, t: nat) { t in e.txns && e.txns[t].abortLsn != INVALID_LSN }

  /** Nobody else updated `p` after record `i`. */
  ghost predicate OnlyAfter(log: Log, i: nat, p: nat)
    requires i < |log|
  {
    forall k :: i < k < |log| && Updates(log[k], p) ==> log[k].txnId == log[i].txnId
  }

  ghost predicate LocksOk(e: Engine) {
    && (forall p :: p in e.holder ==> e.holder[p] in e.txns)
    && (forall i, p :: 0 <= i < |e.log| && Updates(e.log[i], p) && Loser(e.log, |e.log|, e.log[i].txnId) ==>
        Holds(e, e.log[i].txnId, p))
    && (forall i, p :: 0 <= i < |e.log| && Updates(e.log[i], p) && AbortLogged(e, e.log[i].txnId) ==>
        StillOwns(e, i, p))
  }

  /** Who updated `p` at record `i` has held it ever since. */
  ghost predicate StillOwns(e: Engine, i: nat, p: nat)
    requires i < |e.log|
  {
    Holds(e, e.log[i].txnId, p) && OnlyAfter(e.log, i, p)
  }

  /** The Abort is logged, but undo may run again. */
  predicate InRetry(x: Txn) { x.abortLsn != INVALID_LSN && (x.state.Failed? || x.state.Retrying?) }

  /** Whoever holds `p` has updated it and is not done with it. */
  ghost predicate Unsettled(e: Engine, p: nat) {
    p in e.holder
    && var t := e.holder[p];
       t in e.txns && HasUpdate(e.log, |e.log|, t, p) && (Loser(e.log, |e.log|, t) || InRetry(e.txns[t]))
  }

  /** What the newest copy of a page holds. While a transaction owns the page its own last image
      counts; otherwise the committed image. */
  ghost predicate ContentOk(e: Engine, p: nat)
    requires p in e.base && p in e.disk.pages
  {
    if Unsettled(e, p) then
      var t := e.holder[p];
      match e.txns[t].state
      case Active => OwnImage(e, p)
      case Marked => OwnImage(e, p)
      case Committing => OwnImage(e, p)
      case Aborting(next) => UndoneBelow(e, t, p, next) ==> Current(e, p) == Final(e.log, p, e.base[p])
      case Retrying(next) => UndoneBelow(e, t, p, next) ==> Current(e, p) == Final(e.log, p, e.base[p])
      case _ => true
    else
      Current(e, p) == Final(e.log, p, e.base[p])
  }

  ghost predicate OwnImage(e: Engine, p: nat)
    requires p in e.disk.pages
  {
    forall i :: LastUpdate(e.log, i, p) ==> Current(e, p) == e.log[i].afterImage
  }

  /** No update of `p` by `t` is left to undo. */
  ghost predicate UndoneBelow(e: Engine, t: nat, p: nat, next: nat) {
    forall i :: 0 <= i < |e.log| && e.log[i].txnId == t && Updates(e.log[i], p) ==> next <= i
  }

  ghost predicate ContentsOk(e: Engine)
    requires SizesOk(e)
  {
    forall p :: R.Tracked(e.log, e.base, p) ==> ContentOk(e, p)
  }

  ghost predicate EngineInv(e: Engine) {
    && R.CrashSafe(e.log, e.durable, e.disk, e.base)
    && SizesOk(e)
    && FreedOk(e)
    && CacheOk(e)
    && TxnsOk(e)
    && LocksOk(e)
    && ContentsOk(e)
  }
}
