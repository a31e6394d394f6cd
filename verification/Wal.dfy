/** The write-ahead log: its records, what a log says about each transaction and page, and the
    invariant that every log written by the engine satisfies.

    All predicates look at the first `n` records of a log, so they can be evaluated at every point
    where a crash might cut the log. */
module Wal {
  import opened Bytes

  type Image = seq<Byte>

  const INVALID_LSN: nat := 0
  const INVALID_TXN: nat := 0

  datatype RecordType = Begin | PageUpdate | PageAllocate | PageFree | Commit | Abort | Checkpoint | Compensation

  datatype LogRecord = LogRecord(
    recordType: RecordType,
    lsn: nat,
    txnId: nat,
    prevLsn: nat,
    pageId: nat,
    undoNextLsn: nat,
    compensationType: RecordType,
    beforeImage: Image,
    afterImage: Image)

  type Log = seq<LogRecord>

  // ----- what a record does -----

  predicate Updates(r: LogRecord, p: nat) {
    r.recordType == PageUpdate && r.pageId == p
  }

  predicate Undoable(r: LogRecord) {
    r.recordType in {PageUpdate, PageAllocate, PageFree}
  }

  /** A CLR whose redo writes the image of page `p`. */
  predicate Compensates(r: LogRecord, p: nat) {
    r.recordType == Compensation && r.compensationType == PageUpdate && r.pageId == p
  }

  // ----- what the first n records say about a transaction -----

  ghost predicate HasRecord(log: Log, n: nat, t: nat)
    requires n <= |log|
  {
    exists i :: 0 <= i < n && log[i].txnId == t
  }

  ghost predicate HasCommit(log: Log, n: nat, t: nat)
    requires n <= |log|
  {
    exists i :: 0 <= i < n && log[i].txnId == t && log[i].recordType == Commit
  }

  ghost predicate HasAbort(log: Log, n: nat, t: nat)
    requires n <= |log|
  {
    exists i :: 0 <= i < n && log[i].txnId == t && log[i].recordType == Abort
  }

  ghost predicate Terminated(log: Log, n: nat, t: nat)
    requires n <= |log|
  {
    HasCommit(log, n, t) || HasAbort(log, n, t)
  }

  ghost predicate HasClr(log: Log, n: nat, t: nat)
    requires n <= |log|
  {
    exists i :: 0 <= i < n && log[i].txnId == t && log[i].recordType == Compensation
  }

  /** A transaction that started but neither committed nor aborted. */
  ghost predicate Loser(log: Log, n: nat, t: nat)
    requires n <= |log|
  {
    t != INVALID_TXN && HasRecord(log, n, t) && !Terminated(log, n, t)
  }

  /** The LSN of the last record of `t`, or INVALID_LSN. */
  function LastLsn(log: Log, n: nat, t: nat): (l: nat)
    requires n <= |log|
    ensures l <= n
    ensures l > 0 ==> log[l - 1].txnId == t
    ensures forall i :: l <= i < n ==> log[i].txnId != t
  {
    if n == 0 then INVALID_LSN else if log[n - 1].txnId == t then n else LastLsn(log, n - 1, t)
  }

  /** The next record of `t` that undo has to look at: a CLR says where to go on. */
  function Cursor(log: Log, n: nat, t: nat): nat
    requires n <= |log|
  {
    var l := LastLsn(log, n, t);
    if l > 0 && log[l - 1].recordType == Compensation then log[l - 1].undoNextLsn else l
  }

  // ----- what the first n records say about a page -----

  /** Pages whose allocation state changes; their content is not tracked. */
  ghost predicate Named(log: Log, n: nat, p: nat)
    requires n <= |log|
  {
    exists i :: 0 <= i < n && log[i].pageId == p && log[i].recordType in {PageAllocate, PageFree}
  }

  ghost predicate HasUpdate(log: Log, n: nat, t: nat, p: nat)
    requires n <= |log|
  {
    exists i :: 0 <= i < n && log[i].txnId == t && Updates(log[i], p)
  }

  /** Page `p` was updated by a transaction that was not rolled back. */
  ghost predicate Touched(log: Log, n: nat, p: nat)
    requires n <= |log|
  {
    exists i :: 0 <= i < n && Updates(log[i], p) && !HasAbort(log, n, log[i].txnId)
  }

  /** Some update of `p` by a loser has not been compensated. */
  ghost predicate Pending(log: Log, n: nat, p: nat)
    requires n <= |log|
  {
    exists i :: 0 <= i < n && Updates(log[i], p) && Loser(log, n, log[i].txnId) && i < Cursor(log, n, log[i].txnId)
  }

  /** The image of `p` after the last update, among the first `k` records, of a transaction that
      commits within the first `n` records; `image` if there is none. */
  ghost function CommittedImage(log: Log, n: nat, k: nat, p: nat, image: Image): Image
    requires k <= n <= |log|
  {
    if k == 0 then image
    else if Updates(log[k - 1], p) && HasCommit(log, n, log[k - 1].txnId) then log[k - 1].afterImage
    else CommittedImage(log, n, k - 1, p, image)
  }

  /** What recovery must leave on page `p`. */
  ghost function Final(log: Log, p: nat, image: Image): Image {
    CommittedImage(log, |log|, |log|, p, image)
  }

  // ----- the log invariant -----

  /** Page X locks are held to the end: whoever updated `p` before has finished. */
  ghost predicate Exclusive(log: Log, j: nat, t: nat, p: nat)
    requires j <= |log|
  {
    forall i :: 0 <= i < j && Updates(log[i], p) && log[i].txnId != t ==> Terminated(log, j, log[i].txnId)
  }

  ghost predicate CompensationOk(log: Log, j: nat)
    requires j < |log|
  {
    var r := log[j];
    var c := Cursor(log, j, r.txnId);
    && 0 < c <= j
    && log[c - 1].txnId == r.txnId
    && Undoable(log[c - 1])
    && r.pageId == log[c - 1].pageId
    && r.compensationType == log[c - 1].recordType
    && r.undoNextLsn == log[c - 1].prevLsn
    && r.afterImage == (if log[c - 1].recordType == PageUpdate then log[c - 1].beforeImage else [])
  }

  /** A rollback that could not be made durable is retried, and logged once more. */
  ghost predicate AbortsAgain(log: Log, j: nat)
    requires j < |log|
  {
    log[j].recordType == Abort && HasAbort(log, j, log[j].txnId)
  }

  /** Only updates and compensations carry images, and only compensations say where undo goes on. */
  predicate ShapeOk(r: LogRecord) {
    && (r.recordType !in {PageUpdate, Compensation} ==> r.afterImage == [])
    && (r.recordType != PageUpdate ==> r.beforeImage == [])
    && (r.recordType != Compensation ==> r.undoNextLsn == INVALID_LSN && r.compensationType == Checkpoint)
  }

  /** What record `j` owes to the records before it. `base` holds the page images of the last
      checkpoint. */
  ghost predicate RecordOk(log: Log, j: nat, base: map<nat, Image>)
    requires j < |log|
  {
    var r := log[j];
    && r.lsn == j + 1
    && r.prevLsn == (if r.txnId == INVALID_TXN then INVALID_LSN else LastLsn(log, j, r.txnId))
    && (r.txnId == INVALID_TXN <==> r.recordType == Checkpoint)
    && (r.txnId != INVALID_TXN ==> !Terminated(log, j, r.txnId) || AbortsAgain(log, j))
    && ShapeOk(r)
    && (r.recordType == Begin ==> !HasRecord(log, j, r.txnId))
    && (r.recordType !in {Abort, Compensation} ==> !HasClr(log, j, r.txnId))
    && (r.recordType == Compensation ==> CompensationOk(log, j))
    && (r.recordType == PageUpdate ==>
          && |r.beforeImage| == |r.afterImage| == PAGE_SIZE
          && Exclusive(log, j, r.txnId, r.pageId)
          && (r.pageId in base && !Named(log, j, r.pageId) && !HasUpdate(log, j, r.txnId, r.pageId) ==>
                r.beforeImage == CommittedImage(log, j, j, r.pageId, base[r.pageId])))
  }

  ghost predicate LogInv(log: Log, base: map<nat, Image>) {
    forall j :: 0 <= j < |log| ==> RecordOk(log, j, base)
  }

  // ----- two logs with a common prefix agree on all of the above -----

  ghost predicate Agree(a: Log, b: Log, n: nat) {
    n <= |a| && n <= |b| && forall i :: 0 <= i < n ==> a[i] == b[i]
  }

  lemma {:induction false} LastLsnAgrees(a: Log, b: Log, n: nat, t: nat)
    requires Agree(a, b, n)
    ensures LastLsn(a, n, t) == LastLsn(b, n, t)
  {
    if n > 0 {
      var m := n - 1;
      LastLsnAgrees(a, b, m, t);
    }
  }

  lemma HasRecordAgrees(a: Log, b: Log, n: nat, t: nat)
    requires Agree(a, b, n)
    ensures HasRecord(a, n, t) == HasRecord(b, n, t)
  {
    if HasRecord(a, n, t) { var i :| 0 <= i < n && a[i].txnId == t; assert b[i].txnId == t; }
    if HasRecord(b, n, t) { var i :| 0 <= i < n && b[i].txnId == t; assert a[i].txnId == t; }
  }

  lemma HasCommitAgrees(a: Log, b: Log, n: nat, t: nat)
    requires Agree(a, b, n)
    ensures HasCommit(a, n, t) == HasCommit(b, n, t)
  {
    if HasCommit(a, n, t) { var i :| 0 <= i < n && a[i].txnId == t && a[i].recordType == Commit; assert b[i] == a[i]; }
    if HasCommit(b, n, t) { var i :| 0 <= i < n && b[i].txnId == t && b[i].recordType == Commit; assert b[i] == a[i]; }
  }

  lemma HasAbortAgrees(a: Log, b: Log, n: nat, t: nat)
    requires Agree(a, b, n)
    ensures HasAbort(a, n, t) == HasAbort(b, n, t)
  {
    if HasAbort(a, n, t) { var i :| 0 <= i < n && a[i].txnId == t && a[i].recordType == Abort; assert b[i] == a[i]; }
    if HasAbort(b, n, t) { var i :| 0 <= i < n && b[i].txnId == t && b[i].recordType == Abort; assert b[i] == a[i]; }
  }

  lemma HasClrAgrees(a: Log, b: Log, n: nat, t: nat)
    requires Agree(a, b, n)
    ensures HasClr(a, n, t) == HasClr(b, n, t)
  {
    if HasClr(a, n, t) {
      var i :| 0 <= i < n && a[i].txnId == t && a[i].recordType == Compensation;
      assert b[i] == a[i];
    }
    if HasClr(b, n, t) {
      var i :| 0 <= i < n && b[i].txnId == t && b[i].recordType == Compensation;
      assert b[i] == a[i];
    }
  }

  lemma AgreeOnTxn(a: Log, b: Log, n: nat, t: nat)
    requires Agree(a, b, n)
    ensures HasRecord(a, n, t) == HasRecord(b, n, t)
    ensures HasCommit(a, n, t) == HasCommit(b, n, t)
    ensures HasAbort(a, n, t) == HasAbort(b, n, t)
    ensures HasClr(a, n, t) == HasClr(b, n, t)
    ensures Loser(a, n, t) == Loser(b, n, t)
    ensures LastLsn(a, n, t) == LastLsn(b, n, t)
    ensures Cursor(a, n, t) == Cursor(b, n, t)
  {
    LastLsnAgrees(a, b, n, t);
    HasRecordAgrees(a, b, n, t);
    HasCommitAgrees(a, b, n, t);
    HasAbortAgrees(a, b, n, t);
    HasClrAgrees(a, b, n, t);
  }

  lemma AgreeOnImage(a: Log, b: Log, n: nat, k: nat, p: nat, image: Image)
    requires Agree(a, b, n) && k <= n
    ensures CommittedImage(a, n, k, p, image) == CommittedImage(b, n, k, p, image)
  {
    if k > 0 {
      AgreeOnTxn(a, b, n, a[k - 1].txnId);
      AgreeOnImage(a, b, n, k - 1, p, image);
    }
  }

  lemma NamedAgrees(a: Log, b: Log, n: nat, p: nat)
    requires Agree(a, b, n)
    ensures Named(a, n, p) == Named(b, n, p)
  {
    if Named(a, n, p) {
      var i :| 0 <= i < n && a[i].pageId == p && a[i].recordType in {PageAllocate, PageFree};
      assert b[i] == a[i];
    }
    if Named(b, n, p) {
      var i :| 0 <= i < n && b[i].pageId == p && b[i].recordType in {PageAllocate, PageFree};
      assert b[i] == a[i];
    }
  }

  lemma HasUpdateAgrees(a: Log, b: Log, n: nat, t: nat, p: nat)
    requires Agree(a, b, n)
    ensures HasUpdate(a, n, t, p) == HasUpdate(b, n, t, p)
  {
    if HasUpdate(a, n, t, p) { var i :| 0 <= i < n && a[i].txnId == t && Updates(a[i], p); assert b[i] == a[i]; }
    if HasUpdate(b, n, t, p) { var i :| 0 <= i < n && b[i].txnId == t && Updates(b[i], p); assert b[i] == a[i]; }
  }

  lemma ExclusiveAgrees(a: Log, b: Log, n: nat, t: nat, p: nat)
    requires Agree(a, b, n)
    ensures Exclusive(a, n, t, p) == Exclusive(b, n, t, p)
  {
    forall i | 0 <= i < n ensures a[i] == b[i] && Terminated(a, n, a[i].txnId) == Terminated(b, n, b[i].txnId) {
      AgreeOnTxn(a, b, n, a[i].txnId);
    }
  }

  lemma TouchedAgrees(a: Log, b: Log, n: nat, p: nat)
    requires Agree(a, b, n)
    ensures Touched(a, n, p) == Touched(b, n, p)
  {
    forall i | 0 <= i < n ensures a[i] == b[i] && HasAbort(a, n, a[i].txnId) == HasAbort(b, n, b[i].txnId) {
      AgreeOnTxn(a, b, n, a[i].txnId);
    }
    if Touched(a, n, p) {
      var i :| 0 <= i < n && Updates(a[i], p) && !HasAbort(a, n, a[i].txnId);
      assert Updates(b[i], p);
    }
    if Touched(b, n, p) {
      var i :| 0 <= i < n && Updates(b[i], p) && !HasAbort(b, n, b[i].txnId);
      assert Updates(a[i], p);
    }
  }

  lemma PendingAgrees(a: Log, b: Log, n: nat, p: nat)
    requires Agree(a, b, n)
    ensures Pending(a, n, p) == Pending(b, n, p)
  {
    forall i | 0 <= i < n
      ensures a[i] == b[i] && Loser(a, n, a[i].txnId) == Loser(b, n, b[i].txnId)
      ensures Cursor(a, n, a[i].txnId) == Cursor(b, n, b[i].txnId)
    {
      AgreeOnTxn(a, b, n, a[i].txnId);
    }
    if Pending(a, n, p) {
      var i :| 0 <= i < n && Updates(a[i], p) && Loser(a, n, a[i].txnId) && i < Cursor(a, n, a[i].txnId);
      assert Updates(b[i], p);
    }
    if Pending(b, n, p) {
      var i :| 0 <= i < n && Updates(b[i], p) && Loser(b, n, b[i].txnId) && i < Cursor(b, n, b[i].txnId);
      assert Updates(a[i], p);
    }
  }

  lemma AgreeOnPage(a: Log, b: Log, n: nat, p: nat)
    requires Agree(a, b, n)
    ensures Named(a, n, p) == Named(b, n, p)
    ensures forall t :: HasUpdate(a, n, t, p) == HasUpdate(b, n, t, p)
    ensures forall t :: Exclusive(a, n, t, p) == Exclusive(b, n, t, p)
    ensures Touched(a, n, p) == Touched(b, n, p)
    ensures Pending(a, n, p) == Pending(b, n, p)
  {
    NamedAgrees(a, b, n, p);
    TouchedAgrees(a, b, n, p);
    PendingAgrees(a, b, n, p);
    forall t
      ensures HasUpdate(a, n, t, p) == HasUpdate(b, n, t, p)
      ensures Exclusive(a, n, t, p) == Exclusive(b, n, t, p)
    {
      HasUpdateAgrees(a, b, n, t, p);
      ExclusiveAgrees(a, b, n, t, p);
    }
  }

  /** Record checks look only at the prefix, so a cut of a good log is good. */
  lemma RecordAgrees(a: Log, b: Log, j: nat, base: map<nat, Image>)
    requires Agree(a, b, j + 1)
    requires RecordOk(a, j, base)
    ensures RecordOk(b, j, base)
  {
    var r := a[j];
    AgreeOnTxn(a, b, j, r.txnId);
    AgreeOnPage(a, b, j, r.pageId);
    if r.pageId in base { AgreeOnImage(a, b, j, j, r.pageId, base[r.pageId]); }
  }

  lemma CutKeepsLogInv(log: Log, c: nat, base: map<nat, Image>)
    requires LogInv(log, base) && c <= |log|
    ensures LogInv(log[..c], base)
  {
    forall j | 0 <= j < c ensures RecordOk(log[..c], j, base) {
      RecordAgrees(log, log[..c], j, base);
    }
  }

  lemma AppendKeepsLogInv(log: Log, r: LogRecord, base: map<nat, Image>)
    requires LogInv(log, base) && RecordOk(log + [r], |log|, base)
    ensures LogInv(log + [r], base)
  {
    forall j | 0 <= j < |log + [r]| ensures RecordOk(log + [r], j, base) {
      if j < |log| { RecordAgrees(log, log + [r], j, base); }
    }
  }
}
