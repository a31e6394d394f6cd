/** The engine invariant, action by action: those that append to the log. */
module EngineAppends {
  import opened Bytes
  import opened Wal
  import opened WalFacts
  import R = RecoveryMachine
  import RP = RecoveryProof
  import opened EngineMachine
  import opened EngineProof
  import opened EngineSteps

  /** `e'` has one more record, written by `t`. */
  ghost predicate Appended(e: Engine, e': Engine, r: LogRecord) {
    && e'.log == e.log + [r] && e'.base == e.base && e'.durable == e.durable && e'.acked == e.acked
    && e.nextTxn <= e'.nextTxn && r.txnId < e'.nextTxn && r.recordType != Compensation
  }

  lemma GrownIsPrefix(log: Log, r: LogRecord)
    ensures (log + [r])[..|log|] == log && (log + [r])[|log|] == r
  {
  }

  lemma GrownFreed(e: Engine, e': Engine, r: LogRecord)
    requires e.durable <= |e.log| && FreedOk(e) && Appended(e, e', r) && e'.disk.freed <= e.disk.freed
    ensures FreedOk(e')
  {
    forall p | p in e.base && p in e.disk.freed ensures Named(e'.log, e.durable, p) {
      NamedStays(e.log, e'.log, e.durable, e.durable, p);
    }
  }

  lemma GrownTxns(e: Engine, e': Engine, r: LogRecord)
    requires e.durable <= |e.log| && TxnsOk(e) && Appended(e, e', r) && r.txnId in e'.txns
    requires e'.txns == e.txns[r.txnId := e'.txns[r.txnId]] && TxnOk(e', r.txnId)
    ensures TxnsOk(e')
  {
    GrownIsPrefix(e.log, r);
    OthersTxnsOk(e, e', r.txnId);
  }

  lemma GrownLocks(e: Engine, e': Engine, r: LogRecord)
    requires LocksOk(e) && Appended(e, e', r) && e'.txns.Keys >= e.txns.Keys && AbortsFrom(e, e')
    requires r.recordType == PageUpdate ==> !AbortLogged(e', r.txnId)
    requires forall p :: p in e.holder ==> p in e'.holder && e'.holder[p] == e.holder[p]
    requires forall p :: p in e'.holder && p !in e.holder ==> e'.holder[p] in e'.txns
    requires r.recordType == PageUpdate ==> Holds(e', r.txnId, r.pageId)
    ensures LocksOk(e')
  {
    GrownIsPrefix(e.log, r);
    forall p | p in e'.holder ensures e'.holder[p] in e'.txns {
      if p in e.holder { assert e.holder[p] in e.txns.Keys; }
    }
    StillLocked(e, e', r.txnId);
  }

  /** Every frame but that of the record's page is as before. */
  lemma GrownFrames(e: Engine, e': Engine, r: LogRecord, p: nat)
    requires CacheOk(e) && Appended(e, e', r)
    requires forall q :: q in e'.cache && q != p ==> q in e.cache && e'.cache[q] == e.cache[q]
    requires forall q :: q in e.disk.pages && q != p ==> q in e'.disk.pages && e'.disk.pages[q] == e.disk.pages[q]
    requires forall q :: Updates(r, q) ==> q == p
    requires forall u :: u in e'.txns && e'.txns[u].state.Aborting? ==>
               u in e.txns && e'.txns[u].state == e.txns[u].state
    requires r.recordType == Abort ==> forall q :: q in e.cache && e.cache[q].dirty && DirtyOk(e, q) ==>
               e.log[e.cache[q].pageLsn - 1].txnId != r.txnId
    requires p in e'.cache ==> FrameOk(e', p)
    ensures CacheOk(e')
  {
    GrownIsPrefix(e.log, r);
    forall q | q in e'.cache && q != p ensures FrameOk(e', q) {
      assert FrameOk(e, q);
      if e.cache[q].dirty { AppendStatus(e.log, r, e.log[e.cache[q].pageLsn - 1].txnId); }
      SameFrame(e, e', q);
    }
  }

  /** A page the record does not concern still has the right content. */
  lemma GrownContent(e: Engine, e': Engine, r: LogRecord, p: nat)
    requires p in e.base && p in e.disk.pages && ContentOk(e, p) && Appended(e, e', r)
    requires p in e'.disk.pages && Current(e', p) == Current(e, p)
    requires !Updates(r, p) && (r.recordType in {Commit, Abort} ==> !HasUpdate(e.log, |e.log|, r.txnId, p))
    requires p in e'.holder <==> p in e.holder
    requires p in e.holder ==> e'.holder[p] == e.holder[p] && e.holder[p] in e.txns && e.holder[p] in e'.txns
    requires p in e.holder && e.holder[p] in e.txns ==> e'.txns[e.holder[p]].state == e.txns[e.holder[p]].state
    requires p in e.holder && HasUpdate(e.log, |e.log|, e.holder[p], p) ==>
               e'.txns[e.holder[p]].abortLsn == e.txns[e.holder[p]].abortLsn
    ensures ContentOk(e', p)
  {
    GrownIsPrefix(e.log, r);
    SameContent(e, e', p);
  }

  // ----- begin -----

  lemma NoRecordYet(log: Log, n: nat, t: nat)
    requires n <= |log| && !HasRecord(log, n, t)
    ensures LastLsn(log, n, t) == INVALID_LSN && !Terminated(log, n, t) && !HasClr(log, n, t)
  {
  }

  /** Record checks on an appended record look at the old log. */
  lemma AppendedOk(log: Log, r: LogRecord, base: map<nat, Image>)
    requires r.lsn == |log| + 1 && r.recordType !in {PageUpdate, Compensation}
    requires r.prevLsn == (if r.txnId == INVALID_TXN then INVALID_LSN else LastLsn(log, |log|, r.txnId))
    requires r.txnId == INVALID_TXN <==> r.recordType == Checkpoint
    requires (r.txnId != INVALID_TXN ==> !Terminated(log, |log|, r.txnId)) && ShapeOk(r)
    requires r.recordType == RecordType.Begin ==> !HasRecord(log, |log|, r.txnId)
    requires r.recordType != Abort ==> !HasClr(log, |log|, r.txnId)
    ensures RecordOk(log + [r], |log|, base)
  {
    AgreeOnTxn(log, log + [r], |log|, r.txnId);
  }

  lemma BeginSafe(e: Engine, t: nat, r: LogRecord)
    requires R.CrashSafe(e.log, e.durable, e.disk, e.base) && TxnsOk(e) && t == e.nextTxn && t !in e.txns
    requires r == Record(e, RecordType.Begin, t, 0, [], [])
    ensures R.CrashSafe(e.log + [r], e.durable, e.disk, e.base)
  {
    NoRecordYet(e.log, |e.log|, t);
    AppendedOk(e.log, r, e.base);
    AppendSafe(e, r);
  }

  lemma BeginTxnOk(e: Engine, e': Engine, r: LogRecord)
    requires e.durable <= |e.log| && TxnsOk(e) && Appended(e, e', r)
             && r == Record(e, RecordType.Begin, e.nextTxn, 0, [], [])
    requires e'.txns == e.txns[e.nextTxn := Txn(Active, |e.log| + 1, INVALID_LSN, INVALID_LSN, [])]
    ensures TxnOk(e', e.nextTxn)
  {
    NoRecordYet(e.log, |e.log|, e.nextTxn);
    AppendStatus(e.log, r, e.nextTxn);
    AppendClr(e.log, r, e.nextTxn);
  }

  lemma BeginKeepsInv(e: Engine, e': Engine)
    requires EngineInv(e) && Next(e, BeginTxn, e')
    ensures EngineInv(e')
  {
    var t := e.nextTxn;
    var r := Record(e, RecordType.Begin, t, 0, [], []);
    BeginSafe(e, t, r);
    GrownFreed(e, e', r);
    BeginTxnOk(e, e', r);
    GrownTxns(e, e', r);
    GrownLocks(e, e', r);
    BeginRest(e, e', r);
  }

  lemma BeginRest(e: Engine, e': Engine, r: LogRecord)
    requires SizesOk(e) && SizesOk(e') && CacheOk(e) && LocksOk(e) && ContentsOk(e) && e.nextTxn !in e.txns
             && Appended(e, e', r)
    requires r == Record(e, RecordType.Begin, e.nextTxn, 0, [], [])
    requires var started := Txn(Active, |e.log| + 1, INVALID_LSN, INVALID_LSN, []);
             e' == e.(log := e'.log, txns := e.txns[e.nextTxn := started], nextTxn := e.nextTxn + 1)
    ensures CacheOk(e') && ContentsOk(e')
  {
    forall q | q in e'.cache ensures FrameOk(e', q) {
      assert FrameOk(e, q);
      if e.cache[q].dirty { AppendStatus(e.log, r, e.log[e.cache[q].pageLsn - 1].txnId); }
      GrownIsPrefix(e.log, r);
      SameFrame(e, e', q);
    }
    forall q | R.Tracked(e'.log, e.base, q) ensures ContentOk(e', q) {
      AppendPage(e.log, r, q);
      GrownContent(e, e', r, q);
    }
  }

  // ----- a guarded update -----

  /** A transaction that has neither committed nor aborted. */
  lemma ActiveIsLoser(e: Engine, t: nat)
    requires e.durable <= |e.log| && t in e.txns && TxnOk(e, t)
    requires e.txns[t].commitLsn == INVALID_LSN && e.txns[t].abortLsn == INVALID_LSN
    ensures Loser(e.log, |e.log|, t) && !HasClr(e.log, |e.log|, t) && t != INVALID_TXN
    ensures e.txns[t].lastLsn == LastLsn(e.log, |e.log|, t)
  {
  }

  lemma NamesATxn(log: Log, base: map<nat, Image>, i: nat)
    requires LogInv(log, base) && i < |log|
    ensures log[i].txnId == INVALID_TXN <==> log[i].recordType == Checkpoint
  {
    assert RecordOk(log, i, base);
  }

  /** Everyone else who updated the page has finished. */
  lemma HolderIsAlone(e: Engine, t: nat, p: nat)
    requires LogInv(e.log, e.base) && LocksOk(e) && Holds(e, t, p)
    ensures Exclusive(e.log, |e.log|, t, p)
  {
    forall i | 0 <= i < |e.log| && Updates(e.log[i], p) && e.log[i].txnId != t
      ensures Terminated(e.log, |e.log|, e.log[i].txnId)
    {
      NamesATxn(e.log, e.base, i);
      assert !Holds(e, e.log[i].txnId, p);
    }
  }

  lemma UpdateRecordOk(e: Engine, t: nat, p: nat, r: LogRecord)
    requires LogInv(e.log, e.base) && SizesOk(e) && LocksOk(e) && ContentsOk(e) && Holds(e, t, p)
             && Loser(e.log, |e.log|, t)
    requires !HasClr(e.log, |e.log|, t) && p in e.cache && p in e.disk.pages
             && |e.cache[p].image| == PAGE_SIZE == |r.afterImage|
    requires r.recordType == PageUpdate && r.lsn == |e.log| + 1 && r.txnId == t && r.pageId == p
    requires r.prevLsn == LastLsn(e.log, |e.log|, t) && r.beforeImage == e.cache[p].image && ShapeOk(r)
    ensures RecordOk(e.log + [r], |e.log|, e.base)
  {
    var l, n := e.log + [r], |e.log|;
    AgreeOnTxn(e.log, l, n, t);
    AgreeOnPage(e.log, l, n, p);
    HolderIsAlone(e, t, p);
    if p in e.base && !Named(e.log, n, p) && !HasUpdate(e.log, n, t, p) {
      assert R.Tracked(e.log, e.base, p);
      assert ContentOk(e, p);
      AgreeOnImage(e.log, l, n, n, p, e.base[p]);
    }
  }

  lemma AppendKeepsTxn(e: Engine, e': Engine, r: LogRecord)
    requires e.durable <= |e.log| && r.txnId in e.txns && TxnOk(e, r.txnId) && Appended(e, e', r) && r.txnId in e'.txns
    requires r.recordType !in {Commit, Abort}
    requires e'.txns[r.txnId] == e.txns[r.txnId].(lastLsn := |e.log| + 1, deferred := e'.txns[r.txnId].deferred)
    requires AtWork(e, r.txnId)
    requires forall p :: p in e'.txns[r.txnId].deferred && p !in e.txns[r.txnId].deferred ==>
               r.recordType == PageFree && r.pageId == p
    ensures TxnOk(e', r.txnId)
  {
    var t := r.txnId;
    AppendStatus(e.log, r, t);
    AppendClr(e.log, r, t);
    forall p | p in e'.txns[t].deferred
      ensures exists i ::
                0 <= i < |e'.log| && e'.log[i].txnId == t && e'.log[i].recordType == PageFree && e'.log[i].pageId == p
    {
      if p in e.txns[t].deferred {
        var i :| 0 <= i < |e.log| && e.log[i].txnId == t && e.log[i].recordType == PageFree && e.log[i].pageId == p;
        assert e'.log[i] == e.log[i];
      } else {
        assert e'.log[|e.log|] == r;
      }
    }
  }

  lemma WriteFrame(e: Engine, e': Engine, r: LogRecord, p: nat)
    requires Appended(e, e', r) && Updates(r, p) && p in e.disk.pages && e'.disk == e.disk
             && |r.afterImage| == PAGE_SIZE
    requires Loser(e.log, |e.log|, r.txnId) && r.txnId in e'.txns && !e'.txns[r.txnId].state.Aborting?
    requires p in e'.cache && e'.cache[p] == Frame(r.afterImage, true, |e.log| + 1)
    ensures FrameOk(e', p)
  {
    AppendStatus(e.log, r, r.txnId);
    GrownIsPrefix(e.log, r);
  }

  lemma WriteContent(e: Engine, e': Engine, r: LogRecord, p: nat)
    requires Appended(e, e', r) && Updates(r, p) && p in e.base && p in e'.disk.pages
    requires Loser(e.log, |e.log|, r.txnId) && AtWork(e', r.txnId) && Holds(e', r.txnId, p)
    requires p in e'.cache && e'.cache[p].image == r.afterImage
    ensures ContentOk(e', p)
  {
    AppendStatus(e.log, r, r.txnId);
    GrownIsPrefix(e.log, r);
    assert HasUpdate(e'.log, |e'.log|, r.txnId, p);
    forall i | LastUpdate(e'.log, i, p) ensures i == |e.log| {
      assert Updates(e'.log[|e.log|], p);
    }
  }

  lemma WriteContents(e: Engine, e': Engine, r: LogRecord, p: nat)
    requires SizesOk(e) && SizesOk(e') && LocksOk(e) && ContentsOk(e) && Appended(e, e', r) && Updates(r, p)
    requires Loser(e.log, |e.log|, r.txnId) && AtWork(e, r.txnId) && Holds(e, r.txnId, p)
    requires p in e.cache && e'.cache == e.cache[p := Frame(r.afterImage, true, |e.log| + 1)] && e'.disk == e.disk
    requires e'.holder == e.holder && e'.txns == e.txns[r.txnId := e.txns[r.txnId].(lastLsn := |e.log| + 1)]
    ensures ContentsOk(e')
  {
    forall q | R.Tracked(e'.log, e.base, q) ensures ContentOk(e', q) {
      AppendPage(e.log, r, q);
      if q == p { WriteContent(e, e', r, p); } else { GrownContent(e, e', r, q); }
    }
  }

  /** A transaction at work appends a record other than Commit and Abort. */
  ghost predicate Works(e: Engine, e': Engine, r: LogRecord) {
    && Appended(e, e', r) && AtWork(e, r.txnId) && r.recordType !in {Commit, Abort}
    && r.txnId in e'.txns && e'.txns == e.txns[r.txnId := e'.txns[r.txnId]]
    && e'.txns[r.txnId] == e.txns[r.txnId].(lastLsn := |e.log| + 1, deferred := e'.txns[r.txnId].deferred)
    && (forall p :: p in e'.txns[r.txnId].deferred && p !in e.txns[r.txnId].deferred ==>
        r.recordType == PageFree && r.pageId == p)
    && (e'.holder == e.holder
      || (r.recordType == PageAllocate && r.pageId !in e.holder && e'.holder == e.holder[r.pageId := r.txnId]))
    && (r.recordType == PageUpdate ==> Holds(e, r.txnId, r.pageId))
    && e'.disk.freed <= e.disk.freed
  }

  lemma WorkTxns(e: Engine, e': Engine, r: LogRecord)
    requires e.durable <= |e.log| && TxnsOk(e) && Works(e, e', r)
    ensures TxnsOk(e')
  {
    assert TxnOk(e, r.txnId);
    AppendKeepsTxn(e, e', r);
    GrownTxns(e, e', r);
  }

  lemma WorkLocks(e: Engine, e': Engine, r: LogRecord)
    requires LocksOk(e) && Works(e, e', r) && !AbortLogged(e, r.txnId)
    ensures LocksOk(e')
  {
    GrownLocks(e, e', r);
  }

  lemma WorkHistory(e: Engine, e': Engine, r: LogRecord)
    requires e.durable <= |e.log| && FreedOk(e) && TxnsOk(e) && LocksOk(e) && Works(e, e', r)
    ensures FreedOk(e') && TxnsOk(e') && LocksOk(e')
  {
    assert TxnOk(e, r.txnId);
    GrownFreed(e, e', r);
    WorkTxns(e, e', r);
    WorkLocks(e, e', r);
  }

  lemma WritePages(e: Engine, r: LogRecord, p: nat, e': Engine)
    requires SizesOk(e) && SizesOk(e') && CacheOk(e) && LocksOk(e) && ContentsOk(e)
    requires AtWork(e, r.txnId) && Holds(e, r.txnId, p) && p in e.cache
    requires Loser(e.log, |e.log|, r.txnId) && Updates(r, p) && |r.afterImage| == PAGE_SIZE && r.txnId < e.nextTxn
    requires e' == AppendFor(e, r.txnId, r).(cache := e.cache[p := Frame(r.afterImage, true, |e.log| + 1)])
    ensures CacheOk(e') && ContentsOk(e')
  {
    assert FrameOk(e, p);
    WriteFrame(e, e', r, p);
    GrownFrames(e, e', r, p);
    WriteContents(e, e', r, p);
  }

  ghost predicate Writes(e: Engine, r: LogRecord, e': Engine) {
    && AtWork(e, r.txnId) && Holds(e, r.txnId, r.pageId) && r.pageId in e.cache && |r.afterImage| == PAGE_SIZE
    && r == Record(e, PageUpdate, r.txnId, r.pageId, e.cache[r.pageId].image, r.afterImage)
    && e' == AppendFor(e, r.txnId, r).(cache := e.cache[r.pageId := Frame(r.afterImage, true, |e.log| + 1)])
  }

  lemma WriteIs(e: Engine, t: nat, p: nat, image: Image, e': Engine)
    requires Next(e, Write(t, p, image), e')
    ensures Writes(e, Record(e, PageUpdate, t, p, e.cache[p].image, image), e')
  {
  }

  lemma WriteSafe(e: Engine, r: LogRecord, e': Engine)
    requires R.CrashSafe(e.log, e.durable, e.disk, e.base) && SizesOk(e) && CacheOk(e) && TxnsOk(e) && LocksOk(e)
             && ContentsOk(e)
    requires Writes(e, r, e')
    ensures R.CrashSafe(e'.log, e'.durable, e'.disk, e'.base) && Loser(e.log, |e.log|, r.txnId) && r.txnId < e.nextTxn
  {
    assert TxnOk(e, r.txnId);
    assert FrameOk(e, r.pageId);
    ActiveIsLoser(e, r.txnId);
    UpdateRecordOk(e, r.txnId, r.pageId, r);
    AppendSafe(e, r);
  }

  lemma WriteHistory(e: Engine, r: LogRecord, e': Engine)
    requires R.CrashSafe(e.log, e.durable, e.disk, e.base) && SizesOk(e) && FreedOk(e) && CacheOk(e) && TxnsOk(e)
             && LocksOk(e)
    requires ContentsOk(e) && Writes(e, r, e')
    ensures R.CrashSafe(e'.log, e'.durable, e'.disk, e'.base) && FreedOk(e') && TxnsOk(e') && LocksOk(e')
    ensures Loser(e.log, |e.log|, r.txnId) && r.txnId < e.nextTxn
  {
    WriteSafe(e, r, e');
    WorkHistory(e, e', r);
  }

  lemma WriteRecordKeepsInv(e: Engine, r: LogRecord, e': Engine)
    requires EngineInv(e) && Writes(e, r, e')
    ensures EngineInv(e')
  {
    WriteHistory(e, r, e');
    WritePages(e, r, r.pageId, e');
  }

  lemma WriteKeepsInv(e: Engine, t: nat, p: nat, image: Image, e': Engine)
    requires EngineInv(e) && Next(e, Write(t, p, image), e')
    ensures EngineInv(e')
  {
    WriteIs(e, t, p, image, e');
    WriteRecordKeepsInv(e, Record(e, PageUpdate, t, p, e.cache[p].image, image), e');
  }

  /** A record by an active transaction that carries no image. */
  lemma PlainRecordOk(e: Engine, r: LogRecord)
    requires e.durable <= |e.log| && TxnsOk(e) && IsIn(e, r.txnId, Active)
    requires r.recordType in {PageAllocate, PageFree} && r == Record(e, r.recordType, r.txnId, r.pageId, [], [])
    ensures RecordOk(e.log + [r], |e.log|, e.base) && r.txnId < e.nextTxn
  {
    assert TxnOk(e, r.txnId);
    ActiveIsLoser(e, r.txnId);
    AppendedOk(e.log, r, e.base);
  }

  // ----- page allocation -----

  lemma AllocationSafe(e: Engine, r: LogRecord, p: nat)
    requires R.CrashSafe(e.log, e.durable, e.disk, e.base) && SizesOk(e) && FreedOk(e) && FreePageId(e, p)
    requires RecordOk(e.log + [r], |e.log|, e.base) && r.recordType == PageAllocate && r.pageId == p
    ensures R.CrashSafe(e.log + [r], e.durable, R.Disk(e.disk.pages[p := R.FreedImage()], e.disk.freed - {p}), e.base)
  {
    var l := e.log + [r];
    var disk' := R.Disk(e.disk.pages[p := R.FreedImage()], e.disk.freed - {p});
    AppendSafe(e, r);
    forall c | e.durable <= c <= |l| ensures R.DiskOk(l, c, disk', e.base) {
      assert R.DiskOk(l, c, e.disk, e.base);
      if p in e.base { NamedStays(e.log, l, e.durable, c, p); }
    }
  }

  lemma OtherPagesKeep(e: Engine, e': Engine, r: LogRecord, p: nat)
    requires SizesOk(e) && SizesOk(e') && LocksOk(e) && ContentsOk(e) && Appended(e, e', r)
    requires r.recordType in {PageAllocate, PageFree} && r.pageId == p && r.txnId in e.txns
    requires forall q :: q in e.disk.pages && q != p ==> q in e'.disk.pages && Current(e', q) == Current(e, q)
    requires forall q :: q != p ==>
               (q in e'.holder <==> q in e.holder) && (q in e.holder ==> e'.holder[q] == e.holder[q])
    requires SameAborts(e, e') && forall u :: u in e.txns.Keys ==> e'.txns[u].state == e.txns[u].state
    ensures ContentsOk(e')
  {
    forall q | R.Tracked(e'.log, e.base, q) ensures ContentOk(e', q) {
      AppendPage(e.log, r, q);
      assert q != p;
      assert ContentOk(e, q);
      if q in e.holder { assert e.holder[q] in e.txns && e.holder[q] in e'.txns.Keys; }
      GrownContent(e, e', r, q);
    }
  }

  ghost predicate Allocates(e: Engine, r: LogRecord, e': Engine) {
    && r.recordType == PageAllocate && IsIn(e, r.txnId, Active) && r.txnId < e.nextTxn
    && (r.pageId !in e.holder || e.holder[r.pageId] == r.txnId)
    && e' == AppendFor(e, r.txnId, r).(
                 disk := R.Disk(e.disk.pages[r.pageId := R.FreedImage()], e.disk.freed - {r.pageId}),
                 cache := e.cache[r.pageId := Frame(R.FreedImage(), false, INVALID_LSN)],
                 holder := e.holder[r.pageId := r.txnId])
  }

  lemma AllocateHolder(e: Engine, r: LogRecord, e': Engine)
    requires Allocates(e, r, e')
    ensures Works(e, e', r)
  {
    if r.pageId in e.holder { assert e.holder[r.pageId := r.txnId] == e.holder; }
  }

  lemma AllocatePages(e: Engine, r: LogRecord, e': Engine)
    requires SizesOk(e) && SizesOk(e') && CacheOk(e) && LocksOk(e) && ContentsOk(e) && Allocates(e, r, e')
    ensures CacheOk(e') && ContentsOk(e')
  {
    GrownFrames(e, e', r, r.pageId);
    OtherPagesKeep(e, e', r, r.pageId);
  }

  lemma AllocateRecordKeepsInv(e: Engine, r: LogRecord, e': Engine)
    requires EngineInv(e) && Allocates(e, r, e') && FreePageId(e, r.pageId)
             && r == Record(e, PageAllocate, r.txnId, r.pageId, [], [])
    ensures EngineInv(e')
  {
    AllocateHistory(e, r, e');
    AllocateSizes(e, r, e');
    AllocatePages(e, r, e');
  }

  lemma AllocateHistory(e: Engine, r: LogRecord, e': Engine)
    requires R.CrashSafe(e.log, e.durable, e.disk, e.base) && SizesOk(e) && FreedOk(e) && TxnsOk(e) && LocksOk(e)
    requires Allocates(e, r, e') && FreePageId(e, r.pageId) && r == Record(e, PageAllocate, r.txnId, r.pageId, [], [])
    ensures R.CrashSafe(e'.log, e'.durable, e'.disk, e'.base) && FreedOk(e') && TxnsOk(e') && LocksOk(e')
  {
    PlainRecordOk(e, r);
    AllocationSafe(e, r, r.pageId);
    AllocateHolder(e, r, e');
    WorkHistory(e, e', r);
  }

  lemma AllocateSizes(e: Engine, r: LogRecord, e': Engine)
    requires SizesOk(e) && Allocates(e, r, e')
    ensures SizesOk(e')
  {
  }

  lemma AllocateIs(e: Engine, t: nat, p: nat, e': Engine)
    requires Next(e, Allocate(t, p), e') && t < e.nextTxn
    ensures Allocates(e, Record(e, PageAllocate, t, p, [], []), e') && FreePageId(e, p)
  {
  }

  lemma AllocateKeepsInv(e: Engine, t: nat, p: nat, e': Engine)
    requires EngineInv(e) && Next(e, Allocate(t, p), e')
    ensures EngineInv(e')
  {
    assert TxnOk(e, t);
    AllocateIs(e, t, p, e');
    AllocateRecordKeepsInv(e, Record(e, PageAllocate, t, p, [], []), e');
  }

  ghost predicate Frees(e: Engine, r: LogRecord, e': Engine) {
    && r.recordType == PageFree && IsIn(e, r.txnId, Active) && r.txnId < e.nextTxn
    && e' == e.(log := e.log + [r],
                txns := e.txns[r.txnId := e.txns[r.txnId].(lastLsn := |e.log| + 1,
                                                           deferred := e.txns[r.txnId].deferred + [r.pageId])])
  }

  lemma FreePages(e: Engine, r: LogRecord, e': Engine)
    requires SizesOk(e) && SizesOk(e') && CacheOk(e) && LocksOk(e) && ContentsOk(e) && Frees(e, r, e')
    ensures CacheOk(e') && ContentsOk(e')
  {
    NoUpdateFrames(e, e', r);
    OtherPagesKeep(e, e', r, r.pageId);
  }

  lemma NoUpdateFrames(e: Engine, e': Engine, r: LogRecord)
    requires CacheOk(e) && Appended(e, e', r) && r.recordType != PageUpdate && e'.cache == e.cache && e'.disk == e.disk
    requires forall u :: u in e'.txns && e'.txns[u].state.Aborting? ==>
               u in e.txns && e'.txns[u].state == e.txns[u].state
    requires r.recordType == Abort ==> forall q :: q in e.cache && e.cache[q].dirty && DirtyOk(e, q) ==>
               e.log[e.cache[q].pageLsn - 1].txnId != r.txnId
    ensures CacheOk(e')
  {
    GrownIsPrefix(e.log, r);
    forall q | q in e'.cache ensures FrameOk(e', q) {
      assert FrameOk(e, q);
      if e.cache[q].dirty { AppendStatus(e.log, r, e.log[e.cache[q].pageLsn - 1].txnId); }
      SameFrame(e, e', q);
    }
  }

  lemma FreeKeepsInv(e: Engine, t: nat, p: nat, e': Engine)
    requires EngineInv(e) && Next(e, Free(t, p), e')
    ensures EngineInv(e')
  {
    assert TxnOk(e, t);
    FreeIs(e, t, p, e');
    FreeRecordKeepsInv(e, Record(e, PageFree, t, p, [], []), e');
  }

  lemma FreeIs(e: Engine, t: nat, p: nat, e': Engine)
    requires Next(e, Free(t, p), e') && t < e.nextTxn
    ensures Frees(e, Record(e, PageFree, t, p, [], []), e')
  {
  }

  lemma FreeRecordKeepsInv(e: Engine, r: LogRecord, e': Engine)
    requires EngineInv(e) && Frees(e, r, e') && r == Record(e, PageFree, r.txnId, r.pageId, [], [])
    ensures EngineInv(e')
  {
    PlainRecordOk(e, r);
    AppendSafe(e, r);
    WorkHistory(e, e', r);
    FreePages(e, r, e');
  }

  // ----- commit -----

  /** The last writer of a page is the loser that updated it. */
  lemma LoserWroteLast(log: Log, base: map<nat, Image>, t: nat, i: nat, p: nat)
    requires LogInv(log, base) && Loser(log, |log|, t) && HasUpdate(log, |log|, t, p) && LastUpdate(log, i, p)
    ensures log[i].txnId == t
  {
    var k :| 0 <= k < |log| && log[k].txnId == t && Updates(log[k], p);
    assert RecordOk(log, i, base);
    assert k <= i;
  }

  lemma {:induction false} LastUpdateExists(log: Log, n: nat, t: nat, p: nat) returns (i: nat)
    requires n <= |log| && HasUpdate(log, n, t, p)
    ensures i < n && Updates(log[i], p) && forall k :: i < k < n ==> !Updates(log[k], p)
  {
    if Updates(log[n - 1], p) {
      i := n - 1;
    } else {
      i := LastUpdateExists(log, n - 1, t, p);
    }
  }

  /** A page's final image is that of its last update if the writer commits. */
  lemma LastUpdateIsFinal(log: Log, i: nat, p: nat, image: Image)
    requires LastUpdate(log, i, p) && HasCommit(log, |log|, log[i].txnId)
    ensures Final(log, p, image) == log[i].afterImage
  {
    SkipNonWinners(log, |log|, i + 1, |log|, p, image);
  }

  ghost predicate Commits(e: Engine, r: LogRecord, e': Engine) {
    && IsIn(e, r.txnId, Committing) && e.txns[r.txnId].commitLsn == INVALID_LSN
      && e.txns[r.txnId].abortLsn == INVALID_LSN
    && r == Record(e, Commit, r.txnId, 0, [], [])
    && e' == e.(log := e.log + [r],
                txns := e.txns[r.txnId := e.txns[r.txnId].(lastLsn := |e.log| + 1, commitLsn := |e.log| + 1)])
  }

  lemma CommitContent(e: Engine, r: LogRecord, e': Engine, p: nat)
    requires LogInv(e.log, e.base) && LocksOk(e) && Loser(e.log, |e.log|, r.txnId) && Commits(e, r, e')
    requires p in e.base && p in e.disk.pages && ContentOk(e, p) && HasUpdate(e.log, |e.log|, r.txnId, p)
    ensures ContentOk(e', p)
  {
    var t := r.txnId;
    LoserHolds(e, t, p);
    var i := LastUpdateExists(e.log, |e.log|, t, p);
    LoserWroteLast(e.log, e.base, t, i, p);
    AppendStatus(e.log, r, t);
    GrownIsPrefix(e.log, r);
    assert LastUpdate(e'.log, i, p);
    LastUpdateIsFinal(e'.log, i, p, e.base[p]);
  }

  lemma CommitContents(e: Engine, r: LogRecord, e': Engine)
    requires LogInv(e.log, e.base) && SizesOk(e) && SizesOk(e') && LocksOk(e) && ContentsOk(e)
    requires Loser(e.log, |e.log|, r.txnId) && Commits(e, r, e') && r.txnId < e.nextTxn
    ensures ContentsOk(e')
  {
    forall p | R.Tracked(e'.log, e.base, p) ensures ContentOk(e', p) {
      AppendPage(e.log, r, p);
      assert ContentOk(e, p);
      if HasUpdate(e.log, |e.log|, r.txnId, p) { CommitContent(e, r, e', p); } else { GrownContent(e, e', r, p); }
    }
  }

  lemma EndTxnOk(e: Engine, e': Engine, r: LogRecord)
    requires e.durable <= |e.log| && r.txnId in e.txns && TxnOk(e, r.txnId) && Appended(e, e', r) && r.txnId in e'.txns
    requires e.txns[r.txnId].commitLsn == INVALID_LSN && e.txns[r.txnId].abortLsn == INVALID_LSN
    requires
      || (r.recordType == Commit && e.txns[r.txnId].state == Committing
          && e'.txns[r.txnId] == e.txns[r.txnId].(lastLsn := |e.log| + 1, commitLsn := |e.log| + 1))
      || (r.recordType == Abort && e.txns[r.txnId].state == Aborting(0)
          && e'.txns[r.txnId] == e.txns[r.txnId].(lastLsn := |e.log| + 1, abortLsn := |e.log| + 1))
    ensures TxnOk(e', r.txnId)
  {
    var t := r.txnId;
    AppendStatus(e.log, r, t);
    AppendClr(e.log, r, t);
    forall p | p in e'.txns[t].deferred
      ensures exists i ::
                0 <= i < |e'.log| && e'.log[i].txnId == t && e'.log[i].recordType == PageFree && e'.log[i].pageId == p
    {
      var i :| 0 <= i < |e.log| && e.log[i].txnId == t && e.log[i].recordType == PageFree && e.log[i].pageId == p;
      assert e'.log[i] == e.log[i];
    }
  }

  lemma EndHistory(e: Engine, e': Engine, r: LogRecord)
    requires e.durable <= |e.log| && FreedOk(e) && TxnsOk(e) && LocksOk(e) && Appended(e, e', r)
    requires r.txnId in e'.txns && e'.txns == e.txns[r.txnId := e'.txns[r.txnId]] && TxnOk(e', r.txnId)
    requires e'.holder == e.holder && e'.disk.freed == e.disk.freed && r.recordType in {Commit, Abort}
             && AbortsFrom(e, e')
    ensures FreedOk(e') && TxnsOk(e') && LocksOk(e')
  {
    GrownFreed(e, e', r);
    GrownTxns(e, e', r);
    GrownLocks(e, e', r);
  }

  lemma CommitPages(e: Engine, r: LogRecord, e': Engine)
    requires LogInv(e.log, e.base) && SizesOk(e) && SizesOk(e') && CacheOk(e) && LocksOk(e) && ContentsOk(e)
    requires Loser(e.log, |e.log|, r.txnId) && Commits(e, r, e') && r.txnId < e.nextTxn
    ensures CacheOk(e') && ContentsOk(e')
  {
    NoUpdateFrames(e, e', r);
    CommitContents(e, r, e');
  }

  lemma CommitKeepsInv(e: Engine, r: LogRecord, e': Engine)
    requires EngineInv(e) && Commits(e, r, e')
    ensures EngineInv(e')
  {
    CommitHistory(e, r, e');
    CommitPages(e, r, e');
  }

  lemma CommitHistory(e: Engine, r: LogRecord, e': Engine)
    requires R.CrashSafe(e.log, e.durable, e.disk, e.base) && FreedOk(e) && TxnsOk(e) && LocksOk(e) && Commits(e, r, e')
    ensures R.CrashSafe(e'.log, e'.durable, e'.disk, e'.base) && FreedOk(e') && TxnsOk(e') && LocksOk(e')
    ensures Loser(e.log, |e.log|, r.txnId) && r.txnId < e.nextTxn
  {
    CommitSafe(e, r, e');
    EndTxnOk(e, e', r);
    EndHistory(e, e', r);
  }

  lemma CommitSafe(e: Engine, r: LogRecord, e': Engine)
    requires R.CrashSafe(e.log, e.durable, e.disk, e.base) && TxnsOk(e) && Commits(e, r, e')
    ensures R.CrashSafe(e'.log, e'.durable, e'.disk, e'.base) && TxnOk(e, r.txnId)
    ensures Loser(e.log, |e.log|, r.txnId) && r.txnId < e.nextTxn
  {
    assert TxnOk(e, r.txnId);
    ActiveIsLoser(e, r.txnId);
    AppendedOk(e.log, r, e.base);
    AppendSafe(e, r);
  }

  lemma AppendCommitIs(e: Engine, t: nat, e': Engine)
    requires Next(e, AppendCommit(t), e') && e.txns[t].abortLsn == INVALID_LSN
    ensures Commits(e, Record(e, Commit, t, 0, [], []), e')
  {
  }

  lemma AppendCommitKeepsInv(e: Engine, t: nat, e': Engine)
    requires EngineInv(e) && Next(e, AppendCommit(t), e')
    ensures EngineInv(e')
  {
    assert TxnOk(e, t);
    AppendCommitIs(e, t, e');
    CommitKeepsInv(e, Record(e, Commit, t, 0, [], []), e');
  }

  // ----- rollback complete -----

  ghost predicate Aborts(e: Engine, r: LogRecord, e': Engine) {
    && IsIn(e, r.txnId, Aborting(0)) && e.txns[r.txnId].commitLsn == INVALID_LSN
      && e.txns[r.txnId].abortLsn == INVALID_LSN
    && r == Record(e, Abort, r.txnId, 0, [], [])
    && e' == e.(log := e.log + [r],
                txns := e.txns[r.txnId := e.txns[r.txnId].(lastLsn := |e.log| + 1, abortLsn := |e.log| + 1)])
  }

  /** A dirty page is not one that a finished undo has restored. */
  lemma NoDirtyLeft(e: Engine, t: nat, p: nat)
    requires IsIn(e, t, Aborting(0)) && p in e.cache && e.cache[p].dirty && FrameOk(e, p)
    ensures e.log[e.cache[p].pageLsn - 1].txnId != t
  {
  }

  lemma UndoneIsRestored(e: Engine, t: nat, p: nat)
    requires LogInv(e.log, e.base) && LocksOk(e) && CacheOk(e) && IsIn(e, t, Aborting(0)) && Loser(e.log, |e.log|, t)
    requires p in e.base && p in e.disk.pages && ContentOk(e, p) && HasUpdate(e.log, |e.log|, t, p)
    ensures R.Restored(e.log, e.disk, e.base, p)
  {
    LoserHolds(e, t, p);
    assert UndoneBelow(e, t, p, 0);
    if p in e.cache {
      assert FrameOk(e, p);
      if e.cache[p].dirty {
        LoserWroteLast(e.log, e.base, t, e.cache[p].pageLsn - 1, p);
      }
    }
  }

  lemma AbortSafe(e: Engine, r: LogRecord, e': Engine)
    requires R.CrashSafe(e.log, e.durable, e.disk, e.base) && SizesOk(e) && CacheOk(e) && LocksOk(e) && ContentsOk(e)
    requires Aborts(e, r, e') && Loser(e.log, |e.log|, r.txnId) && r == R.AbortFor(e.log, r.txnId)
    ensures R.CrashSafe(e'.log, e'.durable, e'.disk, e'.base)
  {
    forall p | R.Tracked(e.log, e.base, p) && HasUpdate(e.log, |e.log|, r.txnId, p)
      ensures R.Restored(e.log, e.disk, e.base, p)
    {
      assert ContentOk(e, p);
      UndoneIsRestored(e, r.txnId, p);
    }
    RP.AbortAppend(e.log, e.base, r.txnId);
    assert R.DiskOk(e.log, |e.log|, e.disk, e.base);
    RP.AbortDiskOk(e.log, e.base, r.txnId, e.disk);
    RP.AppendCrashSafe(e.log, r, e.durable, e.disk, e.base);
  }

  lemma AbortContent(e: Engine, r: LogRecord, e': Engine, p: nat)
    requires LocksOk(e) && Loser(e.log, |e.log|, r.txnId) && Aborts(e, r, e')
    requires p in e.base && p in e.disk.pages && ContentOk(e, p) && HasUpdate(e.log, |e.log|, r.txnId, p)
    ensures ContentOk(e', p)
  {
    LoserHolds(e, r.txnId, p);
    assert UndoneBelow(e, r.txnId, p, 0);
    AppendStatus(e.log, r, r.txnId);
    AppendFinal(e.log, r, p, e.base[p]);
  }

  lemma AbortContents(e: Engine, r: LogRecord, e': Engine)
    requires SizesOk(e) && SizesOk(e') && LocksOk(e) && ContentsOk(e)
    requires Loser(e.log, |e.log|, r.txnId) && Aborts(e, r, e') && r.txnId < e.nextTxn
    ensures ContentsOk(e')
  {
    forall p | R.Tracked(e'.log, e.base, p) ensures ContentOk(e', p) {
      AppendPage(e.log, r, p);
      assert ContentOk(e, p);
      if HasUpdate(e.log, |e.log|, r.txnId, p) { AbortContent(e, r, e', p); } else { GrownContent(e, e', r, p); }
    }
  }

  lemma AbortPages(e: Engine, r: LogRecord, e': Engine)
    requires SizesOk(e) && SizesOk(e') && CacheOk(e) && LocksOk(e) && ContentsOk(e)
    requires Loser(e.log, |e.log|, r.txnId) && Aborts(e, r, e') && r.txnId < e.nextTxn
    ensures CacheOk(e') && ContentsOk(e')
  {
    forall q | q in e.cache && e.cache[q].dirty && DirtyOk(e, q)
      ensures e.log[e.cache[q].pageLsn - 1].txnId != r.txnId
    {
      assert FrameOk(e, q);
      NoDirtyLeft(e, r.txnId, q);
    }
    NoUpdateFrames(e, e', r);
    AbortContents(e, r, e');
  }

  lemma AbortRecordKeepsInv(e: Engine, r: LogRecord, e': Engine)
    requires EngineInv(e) && Aborts(e, r, e')
    ensures EngineInv(e')
  {
    AbortHistory(e, r, e');
    AbortPages(e, r, e');
  }

  lemma AbortHistory(e: Engine, r: LogRecord, e': Engine)
    requires R.CrashSafe(e.log, e.durable, e.disk, e.base) && SizesOk(e) && FreedOk(e) && CacheOk(e) && TxnsOk(e)
             && LocksOk(e)
    requires ContentsOk(e) && Aborts(e, r, e')
    ensures R.CrashSafe(e'.log, e'.durable, e'.disk, e'.base) && FreedOk(e') && TxnsOk(e') && LocksOk(e')
    ensures Loser(e.log, |e.log|, r.txnId) && r.txnId < e.nextTxn
  {
    AbortIsSafe(e, r, e');
    EndTxnOk(e, e', r);
    EndHistory(e, e', r);
  }

  lemma AbortIsSafe(e: Engine, r: LogRecord, e': Engine)
    requires R.CrashSafe(e.log, e.durable, e.disk, e.base) && SizesOk(e) && CacheOk(e) && TxnsOk(e) && LocksOk(e)
             && ContentsOk(e)
    requires Aborts(e, r, e')
    ensures R.CrashSafe(e'.log, e'.durable, e'.disk, e'.base) && TxnOk(e, r.txnId)
    ensures Loser(e.log, |e.log|, r.txnId) && r.txnId < e.nextTxn
  {
    assert TxnOk(e, r.txnId);
    ActiveIsLoser(e, r.txnId);
    AbortSafe(e, r, e');
  }

  lemma AppendAbortIs(e: Engine, t: nat, e': Engine)
    requires Next(e, AppendAbort(t), e') && e.txns[t].commitLsn == INVALID_LSN
    ensures Aborts(e, Record(e, Abort, t, 0, [], []), e')
  {
  }

  lemma AppendAbortKeepsInv(e: Engine, t: nat, e': Engine)
    requires EngineInv(e) && Next(e, AppendAbort(t), e')
    ensures EngineInv(e')
  {
    assert TxnOk(e, t);
    AppendAbortIs(e, t, e');
    AbortRecordKeepsInv(e, Record(e, Abort, t, 0, [], []), e');
  }

  // ----- undo, one record -----

  /** Undoing an update of `t` that the durable log holds. */
  lemma RestoreSafe(e: Engine, t: nat, i: nat, p: nat, image: Image)
    requires R.CrashSafe(e.log, e.durable, e.disk, e.base) && Loser(e.log, |e.log|, t)
    requires i < e.durable && e.log[i].txnId == t && Updates(e.log[i], p)
    ensures R.CrashSafe(e.log, e.durable, R.WritePage(e.disk, p, image), e.base)
  {
    forall c | e.durable <= c <= |e.log| ensures R.DiskOk(e.log, c, R.WritePage(e.disk, p, image), e.base) {
      assert R.DiskOk(e.log, c, e.disk, e.base);
      assert !HasAbort(e.log, c, t);
    }
  }

  lemma RestoreFrames(e: Engine, p: nat, image: Image)
    requires CacheOk(e) && |image| == PAGE_SIZE
    ensures CacheOk(RestorePage(e, p, image))
  {
    var e' := RestorePage(e, p, image);
    forall q | q in e'.cache ensures FrameOk(e', q) {
      assert FrameOk(e, q);
      if q != p { SameFrame(e, e', q); }
    }
  }

  /** The page being undone is not claimed yet; no other page changes. */
  lemma RestoreContents(e: Engine, t: nat, i: nat, p: nat, image: Image)
    requires LocksOk(e) && SizesOk(e) && ContentsOk(e) && |image| == PAGE_SIZE && Loser(e.log, |e.log|, t)
    requires t in e.txns && e.txns[t].state.Aborting? && i < e.txns[t].state.next
    requires i < |e.log| && e.log[i].txnId == t && Updates(e.log[i], p)
    ensures SizesOk(RestorePage(e, p, image)) && ContentsOk(RestorePage(e, p, image))
  {
    var e' := RestorePage(e, p, image);
    assert HasUpdate(e.log, |e.log|, t, p);
    LoserHolds(e, t, p);
    forall q | R.Tracked(e.log, e.base, q) ensures ContentOk(e', q) {
      assert ContentOk(e, q);
      if q == p {
        assert !UndoneBelow(e', t, p, e.txns[t].state.next);
      } else {
        SameContent(e, e', q);
      }
    }
  }

  lemma RestoreKeepsInv(e: Engine, t: nat, i: nat, p: nat, image: Image)
    requires EngineInv(e) && |image| == PAGE_SIZE && Loser(e.log, |e.log|, t)
    requires t in e.txns && e.txns[t].state.Aborting? && i < e.txns[t].state.next
    requires i < e.durable && e.log[i].txnId == t && Updates(e.log[i], p)
    ensures EngineInv(RestorePage(e, p, image))
  {
    var e' := RestorePage(e, p, image);
    RestoreSafe(e, t, i, p, image);
    RestoreFrames(e, p, image);
    TxnsPart(e, e');
    LocksPart(e, e');
    RestoreContents(e, t, i, p, image);
  }

  /** Where an abort stands: at a durable record of its transaction. */
  lemma AbortingAt(e: Engine, t: nat)
    requires R.CrashSafe(e.log, e.durable, e.disk, e.base) && t in e.txns && TxnOk(e, t)
    requires e.txns[t].state.Aborting? && e.txns[t].state.next > 0
    ensures var next := e.txns[t].state.next;
            && next <= e.durable && e.log[next - 1].txnId == t && Loser(e.log, |e.log|, t)
            && e.txns[t].abortLsn == INVALID_LSN && e.txns[t].commitLsn == INVALID_LSN
            && e.log[next - 1].prevLsn == LastLsn(e.log, next - 1, t)
            && e.txns[t].lastLsn <= e.durable && next <= e.txns[t].lastLsn
            && (e.log[next - 1].recordType == PageUpdate ==> |e.log[next - 1].beforeImage| == PAGE_SIZE)
  {
    assert RecordOk(e.log, e.txns[t].state.next - 1, e.base);
  }

  lemma UndoRecordKeepsInv(e: Engine, t: nat)
    requires EngineInv(e) && t in e.txns && e.txns[t].state.Aborting? && e.txns[t].state.next > 0
    ensures e.txns[t].state.next <= |e.log|
    ensures EngineInv(UndoRecord(e, e.log[e.txns[t].state.next - 1]))
  {
    assert TxnOk(e, t);
    AbortingAt(e, t);
    var i := e.txns[t].state.next - 1;
    var r := e.log[i];
    if r.recordType == PageUpdate {
      RestoreKeepsInv(e, t, i, r.pageId, r.beforeImage);
    } else if r.recordType == PageAllocate {
      assert Named(e.log, e.durable, r.pageId);
      DeletePageKeepsInv(e, r.pageId);
    }
  }

  /** The record under undo has had its effect. */
  ghost predicate Applied(e: Engine, r: LogRecord) {
    r.recordType == PageUpdate ==>
      && (r.pageId in e.cache ==> !e.cache[r.pageId].dirty)
      && (r.pageId in e.disk.pages ==> Current(e, r.pageId) == r.beforeImage)
  }

  lemma UndoneContentMoves(e: Engine, e': Engine, t: nat, p: nat)
    requires R.CrashSafe(e.log, e.durable, e.disk, e.base) && t in e.txns && TxnOk(e, t) && R.Tracked(e.log, e.base, p)
    requires e.txns[t].state.Aborting? && e.txns[t].state.next > 0 && p in e.disk.pages && ContentOk(e, p)
    requires e.txns[t].state.next <= |e.log| && Applied(e, e.log[e.txns[t].state.next - 1])
    requires e' == SetState(e, t, Aborting(e.log[e.txns[t].state.next - 1].prevLsn))
    requires Holds(e, t, p) && HasUpdate(e.log, |e.log|, t, p)
    ensures ContentOk(e', p)
  {
    AbortingAt(e, t);
    var i := e.txns[t].state.next - 1;
    if UndoneBelow(e', t, p, e.log[i].prevLsn) {
      if Updates(e.log[i], p) {
        assert !HasUpdate(e.log, i, t, p);
        FirstBeforeIsCommitted(e.log, e.base, |e.log|, i, p);
      } else {
        assert UndoneBelow(e, t, p, i + 1);
      }
    }
  }

  lemma UndoMovesFrames(e: Engine, e': Engine, t: nat)
    requires R.CrashSafe(e.log, e.durable, e.disk, e.base) && t in e.txns && TxnOk(e, t)
    requires e.txns[t].state.Aborting? && e.txns[t].state.next > 0
    requires e.txns[t].state.next <= |e.log| && Applied(e, e.log[e.txns[t].state.next - 1])
    requires e' == SetState(e, t, Aborting(e.log[e.txns[t].state.next - 1].prevLsn))
    ensures DirtyAhead(e, e', t)
  {
    AbortingAt(e, t);
  }

  lemma UndoMovesTxn(e: Engine, e': Engine, t: nat)
    requires R.CrashSafe(e.log, e.durable, e.disk, e.base) && t in e.txns && TxnOk(e, t)
    requires e.txns[t].state.Aborting? && e.txns[t].state.next > 0 && e.txns[t].state.next <= |e.log|
    requires e' == SetState(e, t, Aborting(e.log[e.txns[t].state.next - 1].prevLsn))
    ensures TxnOk(e', t)
  {
    AbortingAt(e, t);
    TxnStateOk(e, e', t, e'.txns[t].state);
  }

  lemma MayUndo(e: Engine, e': Engine, t: nat)
    requires R.CrashSafe(e.log, e.durable, e.disk, e.base) && SizesOk(e) && SizesOk(e') && ContentsOk(e) && t in e.txns
             && TxnOk(e, t)
    requires e.txns[t].state.Aborting? && e.txns[t].state.next > 0
    requires e.txns[t].state.next <= |e.log| && Applied(e, e.log[e.txns[t].state.next - 1])
    requires e' == SetState(e, t, Aborting(e.log[e.txns[t].state.next - 1].prevLsn))
    ensures MayChange(e, e', t)
  {
    UndoMovesTxn(e, e', t);
    UndoMovesFrames(e, e', t);
    forall p | R.Tracked(e.log, e.base, p) && Holds(e, t, p) && HasUpdate(e.log, |e.log|, t, p)
      && Loser(e.log, |e.log|, t)
      ensures ContentOk(e', p)
    {
      UndoneContentMoves(e, e', t, p);
    }
  }

  lemma UndoMoves(e: Engine, t: nat)
    requires EngineInv(e) && t in e.txns && e.txns[t].state.Aborting? && e.txns[t].state.next > 0
    requires e.txns[t].state.next <= |e.log| && Applied(e, e.log[e.txns[t].state.next - 1])
    ensures EngineInv(SetState(e, t, Aborting(e.log[e.txns[t].state.next - 1].prevLsn)))
  {
    var e' := SetState(e, t, Aborting(e.log[e.txns[t].state.next - 1].prevLsn));
    assert TxnOk(e, t);
    MayUndo(e, e', t);
    StateChange(e, e', t);
  }

  lemma UndoIsApplied(e: Engine, r: LogRecord)
    ensures Applied(UndoRecord(e, r), r)
    ensures UndoRecord(e, r).log == e.log && UndoRecord(e, r).txns == e.txns
  {
  }

  lemma UndoOneKeepsInv(e: Engine, t: nat, e': Engine)
    requires EngineInv(e) && Next(e, UndoOne(t), e')
    ensures EngineInv(e')
  {
    var r := e.log[e.txns[t].state.next - 1];
    UndoRecordKeepsInv(e, t);
    UndoIsApplied(e, r);
    UndoMoves(UndoRecord(e, r), t);
  }

  // ----- checkpoint -----

  lemma CheckpointHistory(e: Engine, e': Engine, r: LogRecord)
    requires e.durable <= |e.log| && FreedOk(e) && TxnsOk(e) && LocksOk(e) && e.txns == map[]
    requires r == Record(e, Checkpoint, INVALID_TXN, 0, [], []) && e' == e.(log := e.log + [r])
    ensures FreedOk(e') && TxnsOk(e') && LocksOk(e')
  {
    GrownFreed(e, e', r);
    GrownIsPrefix(e.log, r);
    OthersTxnsOk(e, e', INVALID_TXN);
    GrownLocks(e, e', r);
  }

  lemma CheckpointPages(e: Engine, e': Engine, r: LogRecord)
    requires SizesOk(e) && SizesOk(e') && CacheOk(e) && LocksOk(e) && ContentsOk(e) && e.txns == map[] && 0 < e.nextTxn
    requires r == Record(e, Checkpoint, INVALID_TXN, 0, [], []) && e' == e.(log := e.log + [r])
    ensures CacheOk(e') && ContentsOk(e')
  {
    NoUpdateFrames(e, e', r);
    forall p | R.Tracked(e'.log, e.base, p) ensures ContentOk(e', p) {
      AppendPage(e.log, r, p);
      assert ContentOk(e, p);
      GrownContent(e, e', r, p);
    }
  }

  lemma CheckpointKeepsInv(e: Engine, e': Engine)
    requires EngineInv(e) && Next(e, AppendCheckpoint, e')
    ensures EngineInv(e')
  {
    var r := Record(e, Checkpoint, INVALID_TXN, 0, [], []);
    NoClrYet(e.log, e.base, |e.log|);
    AppendedOk(e.log, r, e.base);
    AppendSafe(e, r);
    CheckpointHistory(e, e', r);
    CheckpointPages(e, e', r);
  }

  lemma NoClrYet(log: Log, base: map<nat, Image>, n: nat)
    requires LogInv(log, base) && n <= |log|
    ensures !HasClr(log, n, INVALID_TXN)
  {
    forall i | 0 <= i < n && log[i].txnId == INVALID_TXN ensures log[i].recordType != Compensation {
      NamesATxn(log, base, i);
    }
  }

  /** With nothing live and nothing dirty the disk is the new checkpoint. */
  lemma TruncateKeepsInv(e: Engine, e': Engine)
    requires EngineInv(e) && Next(e, Truncate, e')
    ensures EngineInv(e')
  {
    forall p | p in e'.cache ensures FrameOk(e', p) { assert FrameOk(e, p); }
    TruncateContents(e, e');
  }

  lemma TruncateContents(e: Engine, e': Engine)
    requires CacheOk(e) && Next(e, Truncate, e') && SizesOk(e')
    ensures ContentsOk(e')
  {
    forall p | R.Tracked(e'.log, e'.base, p) ensures ContentOk(e', p) {
      if p in e.cache { assert FrameOk(e, p); }
    }
  }
}
