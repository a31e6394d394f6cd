/** The engine invariant across the retry of a rollback whose Abort record was not made durable. */
module EngineRetry {
  import opened Bytes
  import opened Wal
  import opened WalFacts
  import R = RecoveryMachine
  import RP = RecoveryProof
  import opened EngineMachine
  import opened EngineProof
  import opened EngineSteps
  import opened EngineAppends

  // ----- starting -----

  lemma NoDirtyOfAborted(e: Engine, t: nat, p: nat)
    requires e.durable <= |e.log| && t in e.txns && TxnOk(e, t) && AbortLogged(e, t) && p in e.cache && e.cache[p].dirty
             && FrameOk(e, p)
    ensures e.log[e.cache[p].pageLsn - 1].txnId != t
  {
  }

  lemma RetryStarts(e: Engine, t: nat, p: nat, e': Engine)
    requires e.durable <= |e.log| && t in e.txns && TxnOk(e, t) && AbortLogged(e, t) && OwnedBy(e, t, p)
    requires e' == SetState(e, t, Retrying(e.txns[t].lastLsn)).(durable := |e.log|)
    requires p in e.base && p in e.disk.pages
    ensures ContentOk(e', p)
  {
    var i :| 0 <= i < |e.log| && e.log[i].txnId == t && Updates(e.log[i], p);
    assert i < e.txns[t].lastLsn;
    assert !UndoneBelow(e', t, p, e.txns[t].lastLsn);
  }

  lemma MayRetry(e: Engine, t: nat, e': Engine)
    requires e.durable <= |e.log| && SizesOk(e) && SizesOk(e') && t in e.txns && TxnOk(e, t)
    requires IsIn(e, t, Failed) && AbortLogged(e, t) && SafeToRetry(e.log, |e.log|, e.base, t)
    requires e' == SetState(e, t, Retrying(e.txns[t].lastLsn)).(durable := |e.log|)
    ensures MayChange(e, e', t)
  {
    TxnStateOk(e, e', t, Retrying(e.txns[t].lastLsn));
    forall p | R.Tracked(e.log, e.base, p) && OwnedBy(e, t, p) ensures ContentOk(e', p) { RetryStarts(e, t, p, e'); }
  }

  lemma RetryAbortKeepsInv(e: Engine, t: nat, e': Engine)
    requires EngineInv(e) && Next(e, RetryAbort(t), e') && SafeToRetry(e.log, |e.log|, e.base, t)
    ensures EngineInv(e')
  {
    assert TxnOk(e, t);
    MayRetry(e, t, e');
    StateChange(e, e', t);
  }

  // ----- undoing one record again -----

  /** Where a retry stands: at a durable record of its transaction. */
  lemma RetryingAt(e: Engine, t: nat)
    requires R.CrashSafe(e.log, e.durable, e.disk, e.base) && t in e.txns && TxnOk(e, t)
    requires e.txns[t].state.Retrying? && e.txns[t].state.next > 0
    ensures var next := e.txns[t].state.next;
            && next <= e.txns[t].lastLsn <= e.durable && e.log[next - 1].txnId == t && AbortLogged(e, t)
            && e.log[next - 1].prevLsn == LastLsn(e.log, next - 1, t) && HasAbort(e.log, e.durable, t)
            && (e.log[next - 1].recordType == PageUpdate ==> |e.log[next - 1].beforeImage| == PAGE_SIZE)
            && (e.log[next - 1].recordType == PageUpdate ==> UndoIsHarmless(e.log, e.durable, e.base, e.log[next - 1]))
  {
    assert RecordOk(e.log, e.txns[t].state.next - 1, e.base);
    var i :| 0 <= i < |e.log| && e.log[i].txnId == t && e.log[i].recordType == Abort;
    assert i < e.txns[t].lastLsn;
  }

  /** A harmless undo leaves every crash repairable. */
  lemma HarmlessSafe(e: Engine, r: LogRecord)
    requires R.CrashSafe(e.log, e.durable, e.disk, e.base) && UndoIsHarmless(e.log, e.durable, e.base, r)
    ensures R.CrashSafe(e.log, e.durable, R.WritePage(e.disk, r.pageId, r.beforeImage), e.base)
  {
    var disk', p := R.WritePage(e.disk, r.pageId, r.beforeImage), r.pageId;
    forall c | e.durable <= c <= |e.log| ensures R.DiskOk(e.log, c, disk', e.base) {
      assert R.DiskOk(e.log, c, e.disk, e.base);
      if Named(e.log, e.durable, p) { NamedStays(e.log, e.log, e.durable, c, p); }
      if WonBy(e.log, e.durable, p) { WonIsTouched(e.log, e.base, e.durable, c, p); }
    }
  }

  lemma WonIsTouched(log: Log, base: map<nat, Image>, n: nat, c: nat, p: nat)
    requires LogInv(log, base) && n <= c <= |log| && WonBy(log, n, p)
    ensures Touched(log, c, p)
  {
    var i :| 0 <= i < n && Updates(log[i], p) && HasCommit(log, n, log[i].txnId);
    CommitStays(log, log, n, c, log[i].txnId);
    NeverBothEnds(log, base, c, log[i].txnId);
  }

  lemma RetryContents(e: Engine, t: nat, i: nat, p: nat, image: Image)
    requires LocksOk(e) && SizesOk(e) && ContentsOk(e) && |image| == PAGE_SIZE && AbortLogged(e, t)
    requires e.txns[t].state.Retrying? && i < e.txns[t].state.next
    requires i < |e.log| && e.log[i].txnId == t && Updates(e.log[i], p)
    ensures SizesOk(RestorePage(e, p, image)) && ContentsOk(RestorePage(e, p, image))
  {
    var e' := RestorePage(e, p, image);
    assert HasUpdate(e.log, |e.log|, t, p);
    assert StillOwns(e, i, p);
    forall q | R.Tracked(e.log, e.base, q) ensures ContentOk(e', q) {
      assert ContentOk(e, q);
      if q == p {
        assert !UndoneBelow(e', t, p, e.txns[t].state.next);
      } else {
        SameContent(e, e', q);
      }
    }
  }

  lemma RestoreAgainKeepsInv(e: Engine, t: nat, i: nat, r: LogRecord)
    requires EngineInv(e) && AbortLogged(e, t) && e.txns[t].state.Retrying? && i < e.txns[t].state.next && i < |e.log|
    requires e.log[i] == r && r.txnId == t && r.recordType == PageUpdate && |r.beforeImage| == PAGE_SIZE
    requires UndoIsHarmless(e.log, e.durable, e.base, r)
    ensures EngineInv(RestorePage(e, r.pageId, r.beforeImage))
  {
    var e' := RestorePage(e, r.pageId, r.beforeImage);
    HarmlessSafe(e, r);
    RestoreFrames(e, r.pageId, r.beforeImage);
    TxnsPart(e, e');
    LocksPart(e, e');
    RetryContents(e, t, i, r.pageId, r.beforeImage);
  }

  lemma RetryRecordKeepsInv(e: Engine, t: nat)
    requires EngineInv(e) && t in e.txns && e.txns[t].state.Retrying? && 0 < e.txns[t].state.next <= |e.log|
    ensures EngineInv(UndoRecord(e, e.log[e.txns[t].state.next - 1]))
  {
    assert TxnOk(e, t);
    RetryingAt(e, t);
    var i := e.txns[t].state.next - 1;
    var r := e.log[i];
    if r.recordType == PageUpdate {
      RestoreAgainKeepsInv(e, t, i, r);
    } else if r.recordType == PageAllocate {
      assert Named(e.log, e.durable, r.pageId);
      DeletePageKeepsInv(e, r.pageId);
    }
  }

  /** The first before image of an aborted transaction that kept the page is the committed one. */
  lemma FirstBeforeOfAborted(log: Log, base: map<nat, Image>, f: nat, p: nat)
    requires LogInv(log, base) && f < |log| && FirstUpdate(log, f, p) && OnlyAfter(log, f, p)
    requires p in base && !Named(log, |log|, p) && HasAbort(log, |log|, log[f].txnId)
    ensures log[f].beforeImage == Final(log, p, base[p])
  {
    var t, n := log[f].txnId, |log|;
    assert RecordOk(log, f, base);
    NeverBothEnds(log, base, n, t);
    forall i | f <= i < n && Updates(log[i], p) ensures !HasCommit(log, n, log[i].txnId) {
      assert log[i].txnId == t;
    }
    SkipNonWinners(log, n, f, n, p, base[p]);
    SettledImage(log, base, f, n, f, p, base[p]);
  }

  /** Undoing the first update of a page once more gives the committed image. */
  lemma RetriedFirst(e: Engine, t: nat, i: nat, p: nat)
    requires LogInv(e.log, e.base) && e.durable <= |e.log| && LocksOk(e) && AbortLogged(e, t)
             && HasAbort(e.log, e.durable, t)
    requires i < |e.log| && e.log[i].txnId == t && Updates(e.log[i], p) && !HasUpdate(e.log, i, t, p)
    requires R.Tracked(e.log, e.base, p)
    ensures e.log[i].beforeImage == Final(e.log, p, e.base[p])
  {
    assert StillOwns(e, i, p);
    AbortIsWhole(e, t);
    FirstBeforeOfAborted(e.log, e.base, i, p);
  }

  lemma RetriedContentMoves(e: Engine, e': Engine, t: nat, p: nat)
    requires R.CrashSafe(e.log, e.durable, e.disk, e.base) && LocksOk(e) && t in e.txns && TxnOk(e, t)
    requires R.Tracked(e.log, e.base, p) && e.txns[t].state.Retrying? && p in e.disk.pages && ContentOk(e, p)
    requires 0 < e.txns[t].state.next <= |e.log| && Applied(e, e.log[e.txns[t].state.next - 1])
    requires e' == SetState(e, t, Retrying(e.log[e.txns[t].state.next - 1].prevLsn))
    requires Holds(e, t, p) && HasUpdate(e.log, |e.log|, t, p)
    ensures ContentOk(e', p)
  {
    RetryingAt(e, t);
    var i := e.txns[t].state.next - 1;
    if UndoneBelow(e', t, p, e.log[i].prevLsn) {
      if Updates(e.log[i], p) {
        assert !HasUpdate(e.log, i, t, p);
        RetriedFirst(e, t, i, p);
      } else {
        assert UndoneBelow(e, t, p, i + 1);
      }
    }
  }

  lemma AbortIsWhole(e: Engine, t: nat)
    requires e.durable <= |e.log| && HasAbort(e.log, e.durable, t)
    ensures HasAbort(e.log, |e.log|, t)
  {
  }

  lemma RetryMovesTxn(e: Engine, e': Engine, t: nat)
    requires R.CrashSafe(e.log, e.durable, e.disk, e.base) && t in e.txns && TxnOk(e, t)
    requires e.txns[t].state.Retrying? && 0 < e.txns[t].state.next <= |e.log|
    requires e' == SetState(e, t, Retrying(e.log[e.txns[t].state.next - 1].prevLsn))
    ensures TxnOk(e', t)
  {
    RetryingAt(e, t);
    TxnStateOk(e, e', t, e'.txns[t].state);
  }

  lemma MayRetryOne(e: Engine, e': Engine, t: nat)
    requires R.CrashSafe(e.log, e.durable, e.disk, e.base) && SizesOk(e) && SizesOk(e') && LocksOk(e) && ContentsOk(e)
    requires t in e.txns && TxnOk(e, t) && e.txns[t].state.Retrying? && 0 < e.txns[t].state.next <= |e.log|
    requires Applied(e, e.log[e.txns[t].state.next - 1])
    requires e' == SetState(e, t, Retrying(e.log[e.txns[t].state.next - 1].prevLsn))
    ensures MayChange(e, e', t)
  {
    RetryMovesTxn(e, e', t);
    forall p | R.Tracked(e.log, e.base, p) && OwnedBy(e, t, p) ensures ContentOk(e', p) {
      RetriedContentMoves(e, e', t, p);
    }
  }

  lemma RetryMoves(e: Engine, t: nat)
    requires EngineInv(e) && t in e.txns && e.txns[t].state.Retrying? && 0 < e.txns[t].state.next <= |e.log|
    requires Applied(e, e.log[e.txns[t].state.next - 1])
    ensures EngineInv(SetState(e, t, Retrying(e.log[e.txns[t].state.next - 1].prevLsn)))
  {
    var e' := SetState(e, t, Retrying(e.log[e.txns[t].state.next - 1].prevLsn));
    assert TxnOk(e, t);
    MayRetryOne(e, e', t);
    StateChange(e, e', t);
  }

  lemma RetryOneKeepsInv(e: Engine, t: nat, e': Engine)
    requires EngineInv(e) && Next(e, RetryOne(t), e')
    ensures EngineInv(e')
  {
    RetryOneIs(e, t, e');
    RetryStepKeepsInv(e, t, e.log[e.txns[t].state.next - 1]);
  }

  lemma RetryOneIs(e: Engine, t: nat, e': Engine)
    requires Next(e, RetryOne(t), e')
    ensures t in e.txns && e.txns[t].state.Retrying? && 0 < e.txns[t].state.next <= |e.log|
    ensures var r := e.log[e.txns[t].state.next - 1]; e' == SetState(UndoRecord(e, r), t, Retrying(r.prevLsn))
  {
  }

  lemma RetryStepKeepsInv(e: Engine, t: nat, r: LogRecord)
    requires EngineInv(e) && t in e.txns && e.txns[t].state.Retrying? && 0 < e.txns[t].state.next <= |e.log|
    requires r == e.log[e.txns[t].state.next - 1]
    ensures EngineInv(SetState(UndoRecord(e, r), t, Retrying(r.prevLsn)))
  {
    RetryRecordKeepsInv(e, t);
    UndoIsApplied(e, r);
    RetryMoves(UndoRecord(e, r), t);
  }

  // ----- the second Abort record -----

  ghost predicate AbortsOnceMore(e: Engine, r: LogRecord, e': Engine) {
    && IsIn(e, r.txnId, Retrying(0)) && r == Record(e, Abort, r.txnId, 0, [], [])
    && e' == e.(log := e.log + [r],
                txns := e.txns[r.txnId := e.txns[r.txnId].(lastLsn := |e.log| + 1, state := Aborting(0),
                                                           abortLsn := |e.log| + 1)])
  }

  lemma AbortAgainRecordOk(e: Engine, r: LogRecord, e': Engine)
    requires e.durable <= |e.log| && AbortsOnceMore(e, r, e') && TxnOk(e, r.txnId)
    ensures RecordOk(e.log + [r], |e.log|, e.base) && HasAbort(e.log, |e.log|, r.txnId)
  {
    AgreeOnTxn(e.log, e.log + [r], |e.log|, r.txnId);
  }

  /** One more Abort of a transaction that has aborted changes nothing for recovery. */
  lemma AbortAgainSafe(e: Engine, r: LogRecord, e': Engine)
    requires R.CrashSafe(e.log, e.durable, e.disk, e.base) && AbortsOnceMore(e, r, e') && TxnOk(e, r.txnId)
    ensures R.CrashSafe(e'.log, e'.durable, e'.disk, e'.base)
  {
    AbortAgainRecordOk(e, r, e');
    AbortAgainDisk(e.log, r, e.disk, e.base);
    RP.AppendCrashSafe(e.log, r, e.durable, e.disk, e.base);
  }

  lemma AbortAgainDisk(log: Log, r: LogRecord, disk: R.Disk, base: map<nat, Image>)
    requires R.DiskOk(log, |log|, disk, base) && r.recordType == Abort && HasAbort(log, |log|, r.txnId)
    ensures R.DiskOk(log + [r], |log| + 1, disk, base)
  {
    forall p | p in base && !Named(log + [r], |log| + 1, p) && !Touched(log + [r], |log| + 1, p)
      ensures p in disk.pages && disk.pages[p] == base[p]
    {
      AppendPage(log, r, p);
      if Touched(log, |log|, p) { TouchedAsBefore(log, r, p); }
    }
  }

  lemma TouchedAsBefore(log: Log, r: LogRecord, p: nat)
    requires r.recordType == Abort && HasAbort(log, |log|, r.txnId) && Touched(log, |log|, p)
    ensures Touched(log + [r], |log| + 1, p)
  {
    var l := log + [r];
    var i :| 0 <= i < |log| && Updates(log[i], p) && !HasAbort(log, |log|, log[i].txnId);
    AppendStatus(log, r, log[i].txnId);
    assert l[i] == log[i];
  }

  lemma AbortAgainTxn(e: Engine, r: LogRecord, e': Engine)
    requires e.durable <= |e.log| && AbortsOnceMore(e, r, e') && TxnOk(e, r.txnId)
    ensures TxnOk(e', r.txnId)
  {
    var t := r.txnId;
    AppendStatus(e.log, r, t);
    AppendClr(e.log, r, t);
    forall p | p in e'.txns[t].deferred
      ensures exists i ::
                0 <= i < |e'.log| && e'.log[i].txnId == t && e'.log[i].recordType == PageFree && e'.log[i].pageId == p
    {
      var i :| 0 <= i < |e.log| && e.log[i].txnId == t && e.log[i].recordType == PageFree && e.log[i].pageId == p;
      assert e'.log[i] == e.log[i];
    }
  }

  lemma AbortAgainContent(e: Engine, r: LogRecord, e': Engine, p: nat)
    requires AbortsOnceMore(e, r, e') && AbortLogged(e, r.txnId) && HasAbort(e.log, |e.log|, r.txnId)
    requires p in e.base && p in e.disk.pages && ContentOk(e, p) && HasUpdate(e.log, |e.log|, r.txnId, p)
             && Holds(e, r.txnId, p)
    ensures ContentOk(e', p)
  {
    assert UndoneBelow(e, r.txnId, p, 0);
    AppendStatus(e.log, r, r.txnId);
    AppendFinal(e.log, r, p, e.base[p]);
  }

  lemma AbortAgainContents(e: Engine, r: LogRecord, e': Engine)
    requires SizesOk(e) && SizesOk(e') && LocksOk(e) && ContentsOk(e) && AbortsOnceMore(e, r, e') && r.txnId < e.nextTxn
    requires AbortLogged(e, r.txnId) && HasAbort(e.log, |e.log|, r.txnId)
    ensures ContentsOk(e')
  {
    forall p | R.Tracked(e'.log, e.base, p) ensures ContentOk(e', p) {
      AppendPage(e.log, r, p);
      assert ContentOk(e, p);
      OwnerHolds(e, r.txnId, p);
      if HasUpdate(e.log, |e.log|, r.txnId, p) {
        AbortAgainContent(e, r, e', p);
      } else {
        AbortAgainOther(e, r, e', p);
      }
    }
  }

  lemma AbortAgainOther(e: Engine, r: LogRecord, e': Engine, p: nat)
    requires LocksOk(e) && AbortsOnceMore(e, r, e') && r.txnId < e.nextTxn
    requires p in e.base && p in e.disk.pages && ContentOk(e, p) && !HasUpdate(e.log, |e.log|, r.txnId, p)
    ensures ContentOk(e', p)
  {
    GrownIsPrefix(e.log, r);
    SameContent(e, e', p);
  }

  lemma AbortAgainFrames(e: Engine, r: LogRecord, e': Engine)
    requires e.durable <= |e.log| && CacheOk(e) && AbortsOnceMore(e, r, e') && TxnOk(e, r.txnId)
    ensures CacheOk(e')
  {
    GrownIsPrefix(e.log, r);
    forall q | q in e'.cache ensures FrameOk(e', q) {
      assert FrameOk(e, q);
      if e.cache[q].dirty {
        NoDirtyOfAborted(e, r.txnId, q);
        AppendStatus(e.log, r, e.log[e.cache[q].pageLsn - 1].txnId);
      }
      SameFrame(e, e', q);
    }
  }

  lemma AbortAgainHistory(e: Engine, r: LogRecord, e': Engine)
    requires R.CrashSafe(e.log, e.durable, e.disk, e.base) && FreedOk(e) && TxnsOk(e) && LocksOk(e)
             && AbortsOnceMore(e, r, e')
    ensures R.CrashSafe(e'.log, e'.durable, e'.disk, e'.base) && FreedOk(e') && TxnsOk(e') && LocksOk(e')
    ensures TxnOk(e, r.txnId) && r.txnId < e.nextTxn && AbortLogged(e, r.txnId) && HasAbort(e.log, |e.log|, r.txnId)
  {
    assert TxnOk(e, r.txnId);
    AbortAgainSafe(e, r, e');
    AbortAgainTxn(e, r, e');
    EndHistory(e, e', r);
  }

  lemma AbortAgainKeepsInv(e: Engine, t: nat, e': Engine)
    requires EngineInv(e) && Next(e, AppendAbortAgain(t), e')
    ensures EngineInv(e')
  {
    var r := Record(e, Abort, t, 0, [], []);
    AbortAgainIs(e, t, e');
    AbortAgainHistory(e, r, e');
    AbortAgainFrames(e, r, e');
    AbortAgainContents(e, r, e');
  }

  lemma AbortAgainIs(e: Engine, t: nat, e': Engine)
    requires Next(e, AppendAbortAgain(t), e')
    ensures AbortsOnceMore(e, Record(e, Abort, t, 0, [], []), e')
  {
  }
}
