/** Every step of recovery, and every crash during it, keeps the recovery invariant. */
module RecoveryProof {
  import opened Wal
  import opened WalFacts
  import opened RecoveryMachine

  // ----- appending a record that neither updates a page nor commits -----

  predicate IsQuiet(r: LogRecord) {
    r.recordType in {Begin, Compensation, Abort, Checkpoint}
  }

  lemma QuietStatus(log: Log, r: LogRecord, t: nat)
    requires IsQuiet(r)
    ensures HasCommit(log + [r], |log| + 1, t) == HasCommit(log, |log|, t)
    ensures HasAbort(log + [r], |log| + 1, t) == (HasAbort(log, |log|, t) || (t == r.txnId && r.recordType == Abort))
    ensures HasRecord(log + [r], |log| + 1, t) == (HasRecord(log, |log|, t) || t == r.txnId)
    ensures t != r.txnId ==> Cursor(log + [r], |log| + 1, t) == Cursor(log, |log|, t)
  {
    var l := log + [r];
    AgreeOnTxn(log, l, |log|, t);
    assert l[|log|] == r;
    OneMore(l, |log|, t);
  }

  /** What one more record adds. */
  lemma OneMore(l: Log, n: nat, t: nat)
    requires n < |l|
    ensures HasCommit(l, n + 1, t) == (HasCommit(l, n, t) || (l[n].txnId == t && l[n].recordType == Commit))
    ensures HasAbort(l, n + 1, t) == (HasAbort(l, n, t) || (l[n].txnId == t && l[n].recordType == Abort))
    ensures HasRecord(l, n + 1, t) == (HasRecord(l, n, t) || l[n].txnId == t)
  {
  }

  lemma QuietImage(log: Log, r: LogRecord, k: nat, p: nat, image: Image)
    requires IsQuiet(r) && k <= |log|
    ensures CommittedImage(log + [r], |log| + 1, k, p, image) == CommittedImage(log, |log|, k, p, image)
  {
    if k > 0 {
      QuietImage(log, r, k - 1, p, image);
      QuietStatus(log, r, log[k - 1].txnId);
    }
  }

  lemma QuietAppend(log: Log, r: LogRecord, p: nat, image: Image)
    requires IsQuiet(r)
    ensures Final(log + [r], p, image) == Final(log, p, image)
    ensures Named(log + [r], |log| + 1, p) == Named(log, |log|, p)
    ensures r.recordType != Abort ==> Touched(log + [r], |log| + 1, p) == Touched(log, |log|, p)
  {
    var l := log + [r];
    QuietImage(log, r, |log|, p, image);
    AgreeOnPage(log, l, |log|, p);
    assert forall i :: 0 <= i < |log| ==> l[i] == log[i];
    forall t ensures r.recordType != Abort ==> HasAbort(l, |l|, t) == HasAbort(log, |log|, t) {
      QuietStatus(log, r, t);
    }
  }

  /** DiskOk looks at a prefix only. */
  lemma DiskOkAgrees(a: Log, b: Log, n: nat, disk: Disk, base: map<nat, Image>)
    requires Agree(a, b, n) && DiskOk(a, n, disk, base)
    ensures DiskOk(b, n, disk, base)
  {
    forall p { AgreeOnPage(a, b, n, p); }
  }

  /** Appending keeps a state crash safe if the new log as a whole is. */
  lemma AppendCrashSafe(log: Log, r: LogRecord, durable: nat, disk: Disk, base: map<nat, Image>)
    requires CrashSafe(log, durable, disk, base)
    requires RecordOk(log + [r], |log|, base) && DiskOk(log + [r], |log| + 1, disk, base)
    ensures CrashSafe(log + [r], durable, disk, base)
  {
    AppendKeepsLogInv(log, r, base);
    forall c | durable <= c <= |log| ensures DiskOk(log + [r], c, disk, base) {
      DiskOkAgrees(log, log + [r], c, disk, base);
    }
  }

  /** A cut of a crash-safe log is crash safe. */
  lemma CutCrashSafe(log: Log, durable: nat, disk: Disk, base: map<nat, Image>, c: nat)
    requires CrashSafe(log, durable, disk, base) && durable <= c <= |log|
    ensures CrashSafe(log[..c], c, disk, base)
  {
    CutKeepsLogInv(log, c, base);
    DiskOkAgrees(log, log[..c], c, disk, base);
  }

  // ----- start -----

  lemma UntouchedFinal(log: Log, base: map<nat, Image>, p: nat)
    requires LogInv(log, base) && p in base && !Touched(log, |log|, p)
    ensures Final(log, p, base[p]) == base[p]
  {
    forall i | 0 <= i < |log| && Updates(log[i], p) ensures !HasCommit(log, |log|, log[i].txnId) {
      NeverBothEnds(log, base, |log|, log[i].txnId);
    }
    SkipNonWinners(log, |log|, 0, |log|, p, base[p]);
  }

  /** A loser whose updates of `p` are all compensated left a CLR that redo will replay. */
  lemma CompensatedLoser(log: Log, base: map<nat, Image>, t: nat, p: nat) returns (m: nat)
    requires LogInv(log, base) && Tracked(log, base, p)
    requires Loser(log, |log|, t) && HasUpdate(log, |log|, t, p) && !Pending(log, |log|, p)
    ensures m < |log| && RedoTarget(log, m, p) && log[m].txnId == t
    ensures log[m].afterImage == Final(log, p, base[p])
    ensures forall i :: m < i < |log| && log[i].txnId == t ==> !Compensates(log[i], p)
  {
    var f := FirstUpdateExists(log, |log|, t, p);
    m := LastClrRestoresFirst(log, base, |log|, f, p);
    FirstBeforeIsCommitted(log, base, |log|, f, p);
  }

  lemma StartInv(log: Log, disk: Disk, base: map<nat, Image>)
    requires CrashSafe(log, |log|, disk, base)
    ensures Inv(Start(log, disk), base)
  {
    forall p | Tracked(log, base, p) && !RedoLeft(log, 0, p) && !Pending(log, |log|, p)
      ensures Restored(log, disk, base, p)
    {
      assert DiskOk(log, |log|, disk, base);
      if Touched(log, |log|, p) {
        var i :| 0 <= i < |log| && Updates(log[i], p) && !HasAbort(log, |log|, log[i].txnId);
        assert RecordOk(log, i, base);
        if HasCommit(log, |log|, log[i].txnId) {
          assert RedoTarget(log, i, p);
        } else {
          var m := CompensatedLoser(log, base, log[i].txnId, p);
        }
      } else {
        UntouchedFinal(log, base, p);
      }
    }
  }

  lemma CrashKeepsInv(s: State, s': State, base: map<nat, Image>)
    requires Inv(s, base) && CrashStep(s, s')
    ensures Inv(s', base)
  {
    var c :| s.scanned <= c <= |s.log| && s' == Start(s.log[..c], s.disk);
    CutCrashSafe(s.log, s.scanned, s.disk, base, c);
    StartInv(s.log[..c], s.disk, base);
  }

  // ----- redo -----

  /** The only pages a redone record can change. */
  lemma RedoChanges(log: Log, base: map<nat, Image>, i: nat, disk: Disk, p: nat)
    requires LogInv(log, base) && i < |log| && IsRedone(log, |log|, log[i]) && Tracked(log, base, p)
    requires !RedoTarget(log, i, p)
    ensures p in disk.pages ==> p in RedoEffect(disk, log[i]).pages
    ensures p in disk.pages ==> RedoEffect(disk, log[i]).pages[p] == disk.pages[p]
  {
    if log[i].recordType == Compensation {
      var c := ClrTarget(log, base, i);
    }
  }

  /** Redo only writes pages that some winner or loser updated. */
  lemma RedoTargetTouched(log: Log, base: map<nat, Image>, i: nat, p: nat)
    requires LogInv(log, base) && i < |log| && RedoTarget(log, i, p)
    ensures Touched(log, |log|, p)
  {
    var t := log[i].txnId;
    NeverBothEnds(log, base, |log|, t);
    if log[i].recordType == Compensation {
      var c := ClrTarget(log, base, i);
      assert Updates(log[c - 1], p) && !HasAbort(log, |log|, log[c - 1].txnId);
    } else {
      assert Updates(log[i], p) && !HasAbort(log, |log|, log[i].txnId);
    }
  }

  /** A transaction with a CLR writes nothing but CLRs and an Abort afterwards. */
  lemma CompensatedNeverCommits(log: Log, base: map<nat, Image>, i: nat)
    requires LogInv(log, base) && i < |log| && log[i].recordType == Compensation && log[i].txnId != INVALID_TXN
    ensures !HasCommit(log, |log|, log[i].txnId)
  {
    var t := log[i].txnId;
    NoEndBefore(log, base, i);
    forall k | 0 <= k < |log| && log[k].txnId == t && log[k].recordType == Commit ensures false {
      CommitAfterNoClr(log, base, k);
    }
  }

  lemma NoEndBefore(log: Log, base: map<nat, Image>, i: nat)
    requires LogInv(log, base) && i < |log| && log[i].txnId != INVALID_TXN && log[i].recordType != Abort
    ensures !Terminated(log, i, log[i].txnId)
  {
    assert RecordOk(log, i, base);
  }

  lemma CommitAfterNoClr(log: Log, base: map<nat, Image>, k: nat)
    requires LogInv(log, base) && k < |log| && log[k].recordType == Commit
    ensures !HasClr(log, k, log[k].txnId)
  {
    assert RecordOk(log, k, base);
  }

  /** The last image redo writes to a settled page is the right one. */
  lemma LastRedoIsFinal(log: Log, base: map<nat, Image>, i: nat, p: nat)
    requires LogInv(log, base) && i < |log| && Tracked(log, base, p)
    requires RedoTarget(log, i, p) && !RedoLeft(log, i + 1, p) && !Pending(log, |log|, p)
    ensures log[i].afterImage == Final(log, p, base[p])
  {
    var t := log[i].txnId;
    if log[i].recordType == Compensation {
      var c := ClrTarget(log, base, i);
      CompensatedNeverCommits(log, base, i);
      assert Updates(log[c - 1], p);
      var m := CompensatedLoser(log, base, t, p);
      assert m == i;
    } else {
      forall k | i + 1 <= k < |log| && Updates(log[k], p) ensures !HasCommit(log, |log|, log[k].txnId) {
        assert !RedoTarget(log, k, p);
      }
      SkipNonWinners(log, |log|, i + 1, |log|, p, base[p]);
      assert RecordOk(log, i, base);
    }
  }

  lemma RedoKeepsInv(s: State, s': State, base: map<nat, Image>)
    requires Inv(s, base) && s.phase.Redo? && s.phase.pos < s.scanned && RecoverStep(s, s')
    ensures Inv(s', base)
  {
    var log, pos := s.log, s.phase.pos;
    var r := log[pos];
    forall p | p in base && !Named(log, |log|, p) && !Touched(log, |log|, p)
      ensures p in s'.disk.pages && s'.disk.pages[p] == base[p]
    {
      assert DiskOk(log, |log|, s.disk, base);
      if IsRedone(log, |log|, r) {
        if RedoTarget(log, pos, p) { RedoTargetTouched(log, base, pos, p); }
        RedoChanges(log, base, pos, s.disk, p);
      }
    }
    assert DiskOk(log, |log|, s'.disk, base);
    forall p | Tracked(log, base, p) && !RedoLeft(log, pos + 1, p) && !Pending(log, |log|, p)
      ensures Restored(log, s'.disk, base, p)
    {
      if RedoTarget(log, pos, p) {
        LastRedoIsFinal(log, base, pos, p);
      } else {
        assert !RedoLeft(log, pos, p);
        if IsRedone(log, |log|, r) { RedoChanges(log, base, pos, s.disk, p); }
      }
    }
  }

  lemma StartUndoKeepsInv(s: State, s': State, base: map<nat, Image>)
    requires Inv(s, base) && s.phase.Redo? && s.phase.pos == s.scanned && RecoverStep(s, s')
    ensures Inv(s', base)
  {
    forall p | Tracked(s.log, base, p) ensures !RedoLeft(s.log, s.phase.pos, p) {}
    forall t | t in s'.phase.next ensures StandsAt(s.log, t, s'.phase.next[t]) {}
  }

  // ----- undo -----

  /** A loser's records before a CLR or an undoable record of it are originals, not CLRs. */
  lemma OriginalsFirst(log: Log, base: map<nat, Image>, j: nat)
    requires LogInv(log, base) && j < |log| && log[j].recordType !in {Abort, Compensation}
    ensures forall i :: 0 <= i < j && log[i].txnId == log[j].txnId ==> log[i].recordType != Compensation
  {
    assert RecordOk(log, j, base);
  }

  /** A record of a live loser that undo passes over without logging is its Begin. */
  lemma PassedOverIsBegin(log: Log, base: map<nat, Image>, t: nat, j: nat)
    requires LogInv(log, base) && Loser(log, |log|, t) && j < |log| && log[j].txnId == t
    requires log[j].recordType != Compensation && !Undoable(log[j])
    ensures log[j].recordType == Begin && log[j].prevLsn == INVALID_LSN
  {
    assert RecordOk(log, j, base);
  }

  /** The cursor points to a record of the transaction that is not a CLR. */
  lemma CursorIsOriginal(log: Log, base: map<nat, Image>, n: nat, t: nat)
    requires LogInv(log, base) && n <= |log|
    ensures var c := Cursor(log, n, t);
            c <= n && (c > 0 ==> log[c - 1].txnId == t && log[c - 1].recordType != Compensation)
  {
    var l := LastLsn(log, n, t);
    if l > 0 && log[l - 1].recordType == Compensation {
      var c := ClrTarget(log, base, l - 1);
      OriginalsFirst(log, base, c - 1);
    }
  }

  lemma PassOverClr(log: Log, base: map<nat, Image>, t: nat, n: nat)
    requires LogInv(log, base) && StandsAt(log, t, n) && n > 0 && log[n - 1].recordType == Compensation
    ensures StandsAt(log, t, log[n - 1].undoNextLsn)
  {
    CursorIsOriginal(log, base, |log|, t);
  }

  lemma PassOverBegin(log: Log, base: map<nat, Image>, t: nat, n: nat)
    requires LogInv(log, base) && Loser(log, |log|, t) && StandsAt(log, t, n) && n > 0
    requires log[n - 1].recordType != Compensation && !Undoable(log[n - 1])
    ensures StandsAt(log, t, log[n - 1].prevLsn)
  {
    PassedOverIsBegin(log, base, t, n - 1);
  }

  lemma PassOver(log: Log, base: map<nat, Image>, next: map<nat, nat>, t: nat, n: nat)
    requires LogInv(log, base) && AllStand(log, next) && t in next && next[t] > 0
    requires var r := log[next[t] - 1];
             !Undoable(r) && n == if r.recordType == Compensation then r.undoNextLsn else r.prevLsn
    ensures AllStand(log, next[t := n])
  {
    assert StandsAt(log, t, next[t]);
    if log[next[t] - 1].recordType == Compensation {
      PassOverClr(log, base, t, next[t]);
    } else {
      PassOverBegin(log, base, t, next[t]);
    }
  }

  lemma PassOverKeepsInv(s: State, s': State, base: map<nat, Image>, t: nat)
    requires Inv(s, base) && s.phase.Undo? && UndoStep(s, s', s.phase.next, t) && s'.phase.Undo?
    ensures Inv(s', base)
  {
    PassOver(s.log, base, s.phase.next, t, s'.phase.next[t]);
    assert s'.phase.next.Keys == s.phase.next.Keys;
  }

  /** `target` is the record of loser `t` that is to be compensated next. */
  ghost predicate NextToUndo(log: Log, target: nat, t: nat) {
    && 0 < target <= |log| && Loser(log, |log|, t)
    && log[target - 1].txnId == t && Undoable(log[target - 1]) && Cursor(log, |log|, t) == target
  }

  lemma ClrRecordOk(log: Log, base: map<nat, Image>, target: nat, t: nat)
    requires LogInv(log, base) && NextToUndo(log, target, t)
    ensures RecordOk(log + [ClrFor(log, log[target - 1])], |log|, base)
  {
    var l := log + [ClrFor(log, log[target - 1])];
    AgreeOnTxn(log, l, |log|, t);
    assert CompensationOk(l, |log|);
  }

  lemma PrevIsLast(log: Log, base: map<nat, Image>, j: nat)
    requires LogInv(log, base) && j < |log| && log[j].txnId != INVALID_TXN
    ensures log[j].prevLsn == LastLsn(log, j, log[j].txnId)
  {
    assert RecordOk(log, j, base);
  }

  lemma ClrMovesCursor(log: Log, base: map<nat, Image>, target: nat, t: nat)
    requires LogInv(log, base) && NextToUndo(log, target, t)
    ensures var l := log + [ClrFor(log, log[target - 1])];
            Cursor(l, |l|, t) == log[target - 1].prevLsn == LastLsn(l, target - 1, t) < target
  {
    PrevIsLast(log, base, target - 1);
    LastLsnAgrees(log, log + [ClrFor(log, log[target - 1])], target - 1, t);
  }

  lemma ClrKeepsLosers(log: Log, target: nat, t: nat, u: nat)
    requires NextToUndo(log, target, t)
    ensures var l := log + [ClrFor(log, log[target - 1])]; Loser(l, |l|, u) == Loser(log, |log|, u)
  {
    QuietStatus(log, ClrFor(log, log[target - 1]), u);
  }

  /** Compensating one record settles at most the page of that record. */
  lemma ClrSettles(log: Log, base: map<nat, Image>, target: nat, t: nat, p: nat)
    requires LogInv(log, base) && NextToUndo(log, target, t)
    requires Pending(log, |log|, p) && !Updates(log[target - 1], p)
    ensures var l := log + [ClrFor(log, log[target - 1])]; Pending(l, |l|, p)
  {
    var r := ClrFor(log, log[target - 1]);
    var l := log + [r];
    var i :| 0 <= i < |log| && Updates(log[i], p) && Loser(log, |log|, log[i].txnId)
      && i < Cursor(log, |log|, log[i].txnId);
    var u := log[i].txnId;
    ClrKeepsLosers(log, target, t, u);
    if u == t {
      ClrMovesCursor(log, base, target, t);
    } else {
      QuietStatus(log, r, u);
    }
    assert Updates(l[i], p) && i < Cursor(l, |l|, l[i].txnId);
  }

  lemma ClrStandsSelf(log: Log, base: map<nat, Image>, target: nat, t: nat)
    requires LogInv(log, base) && NextToUndo(log, target, t)
    ensures var r := log[target - 1]; StandsAt(log + [ClrFor(log, r)], t, r.prevLsn)
  {
    ClrMovesCursor(log, base, target, t);
    OriginalsFirst(log, base, target - 1);
  }

  lemma ClrStandsOther(log: Log, base: map<nat, Image>, r: LogRecord, u: nat, n: nat)
    requires LogInv(log, base) && StandsAt(log, u, n) && u != r.txnId && IsQuiet(r)
    ensures StandsAt(log + [r], u, n)
  {
    QuietStatus(log, r, u);
    CursorIsOriginal(log, base, |log|, u);
  }

  lemma ClrStandsOne(log: Log, base: map<nat, Image>, next: map<nat, nat>, t: nat, u: nat)
    requires LogInv(log, base) && t in next && u in next && NextToUndo(log, next[t], t)
    requires Loser(log, |log|, u) && StandsAt(log, u, next[u])
    ensures var r := log[next[t] - 1];
            var l := log + [ClrFor(log, r)];
            Loser(l, |l|, u) && StandsAt(l, u, next[t := r.prevLsn][u])
  {
    ClrKeepsLosers(log, next[t], t, u);
    if u == t {
      ClrStandsSelf(log, base, next[t], t);
    } else {
      ClrStandsOther(log, base, ClrFor(log, log[next[t] - 1]), u, next[u]);
    }
  }

  lemma ClrStands(log: Log, base: map<nat, Image>, next: map<nat, nat>, t: nat)
    requires LogInv(log, base) && AllStand(log, next) && t in next && NextToUndo(log, next[t], t)
    ensures var r := log[next[t] - 1]; AllStand(log + [ClrFor(log, r)], next[t := r.prevLsn])
  {
    forall u | u in next { ClrStandsOne(log, base, next, t, u); }
  }

  lemma ClrSafe(log: Log, base: map<nat, Image>, durable: nat, disk: Disk, target: nat, t: nat)
    requires CrashSafe(log, durable, disk, base) && NextToUndo(log, target, t)
    ensures CrashSafe(log + [ClrFor(log, log[target - 1])], durable, disk, base)
  {
    var r := ClrFor(log, log[target - 1]);
    ClrRecordOk(log, base, target, t);
    assert DiskOk(log + [r], |log| + 1, disk, base) by {
      assert DiskOk(log, |log|, disk, base);
      forall p | p in base { QuietAppend(log, r, p, base[p]); }
    }
    AppendCrashSafe(log, r, durable, disk, base);
  }

  lemma ClrSettled(log: Log, base: map<nat, Image>, disk: Disk, target: nat, t: nat)
    requires LogInv(log, base) && NextToUndo(log, target, t) && Settled(log, disk, base, {})
    ensures Settled(log + [ClrFor(log, log[target - 1])], disk, base, BusyPage(log[target - 1]))
  {
    var r := ClrFor(log, log[target - 1]);
    var l := log + [r];
    forall p | Tracked(l, base, p) && !Pending(l, |l|, p) && p !in BusyPage(log[target - 1])
      ensures Restored(l, disk, base, p)
    {
      QuietAppend(log, r, p, base[p]);
      assert !Updates(log[target - 1], p);
      if Pending(log, |log|, p) { ClrSettles(log, base, target, t, p); }
      assert Restored(log, disk, base, p);
    }
  }

  lemma ClrLosersIn(log: Log, target: nat, t: nat, ts: set<nat>)
    requires NextToUndo(log, target, t) && EveryLoserIn(log, ts)
    ensures EveryLoserIn(log + [ClrFor(log, log[target - 1])], ts)
  {
    var l := log + [ClrFor(log, log[target - 1])];
    forall u | Loser(l, |l|, u) ensures u in ts { ClrKeepsLosers(log, target, t, u); }
  }

  lemma NextIsUndoTarget(log: Log, scanned: nat, next: map<nat, nat>, t: nat)
    requires AllStand(log, next) && t in next && next[t] > 0 && OwnRecords(log, scanned)
    requires Undoable(log[next[t] - 1])
    ensures NextToUndo(log, next[t], t) && next[t] <= scanned
  {
    assert StandsAt(log, t, next[t]);
  }

  /** All of the above: the state after the CLR of loser `t` is logged. */
  lemma LogClr(log: Log, base: map<nat, Image>, scanned: nat, disk: Disk, next: map<nat, nat>, t: nat)
    requires CrashSafe(log, scanned, disk, base) && OwnRecords(log, scanned) && EveryLoserIn(log, next.Keys)
    requires AllStand(log, next) && Settled(log, disk, base, {}) && t in next && next[t] > 0
             && Undoable(log[next[t] - 1])
    ensures var r := log[next[t] - 1];
            var l := log + [ClrFor(log, r)];
            && CrashSafe(l, scanned, disk, base) && OwnRecords(l, scanned) && EveryLoserIn(l, next.Keys)
            && AllStand(l, next[t := r.prevLsn]) && Settled(l, disk, base, BusyPage(r))
            && Compensated(l, scanned, next[t := r.prevLsn], next[t])
  {
    NextIsUndoTarget(log, scanned, next, t);
    ClrSafe(log, base, scanned, disk, next[t], t);
    ClrStands(log, base, next, t);
    ClrSettled(log, base, disk, next[t], t);
    ClrMovesCursor(log, base, next[t], t);
    ClrLosersIn(log, next[t], t, next.Keys);
  }

  lemma LogClrKeepsInv(s: State, s': State, base: map<nat, Image>, t: nat)
    requires Inv(s, base) && s.phase.Undo? && UndoStep(s, s', s.phase.next, t) && s'.phase.UndoApply?
    ensures Inv(s', base)
  {
    var next := s.phase.next;
    var r := s.log[next[t] - 1];
    UndoApplyInv(s.log, base, s.scanned, s.disk, next, t);
  }

  lemma UndoApplyInv(log: Log, base: map<nat, Image>, scanned: nat, disk: Disk, next: map<nat, nat>, t: nat)
    requires CrashSafe(log, scanned, disk, base) && OwnRecords(log, scanned) && EveryLoserIn(log, next.Keys)
    requires AllStand(log, next) && Settled(log, disk, base, {}) && t in next && next[t] > 0
             && Undoable(log[next[t] - 1])
    ensures var r := log[next[t] - 1];
            Inv(State(log + [ClrFor(log, r)], scanned, disk, UndoApply(next[t := r.prevLsn], next[t])), base)
  {
    LogClr(log, base, scanned, disk, next, t);
    assert next[t := log[next[t] - 1].prevLsn].Keys == next.Keys;
  }

  lemma ApplySafe(log: Log, base: map<nat, Image>, scanned: nat, disk: Disk, target: nat)
    requires CrashSafe(log, scanned, disk, base) && 0 < target <= scanned && Undoable(log[target - 1])
    requires Loser(log, |log|, log[target - 1].txnId)
    ensures CrashSafe(log, scanned, UndoEffect(disk, log[target - 1]), base)
  {
    var r := log[target - 1];
    var disk' := UndoEffect(disk, r);
    forall c | scanned <= c <= |log| ensures DiskOk(log, c, disk', base) {
      assert DiskOk(log, c, disk, base);
      assert !HasAbort(log, c, r.txnId);
      forall p | p in base && !Named(log, c, p) && !Touched(log, c, p)
        ensures p in disk'.pages && disk'.pages[p] == base[p]
      {
        assert !Updates(r, p);
      }
    }
  }

  /** Undoing the first update of a page restores its final image. */
  lemma ApplySettles(log: Log, base: map<nat, Image>, scanned: nat, disk: Disk, next: map<nat, nat>, target: nat)
    requires LogInv(log, base) && Compensated(log, scanned, next, target) && Loser(log, |log|, log[target - 1].txnId)
    requires Settled(log, disk, base, BusyPage(log[target - 1]))
    ensures Settled(log, UndoEffect(disk, log[target - 1]), base, {})
  {
    var r := log[target - 1];
    forall p | Tracked(log, base, p) && !Pending(log, |log|, p) ensures Restored(log, UndoEffect(disk, r), base, p) {
      if Updates(r, p) {
        assert FirstUpdate(log, target - 1, p);
        FirstBeforeIsCommitted(log, base, |log|, target - 1, p);
      } else {
        assert Restored(log, disk, base, p);
      }
    }
  }

  lemma ApplyKeepsInv(s: State, s': State, base: map<nat, Image>)
    requires Inv(s, base) && s.phase.UndoApply? && RecoverStep(s, s')
    ensures Inv(s', base)
  {
    ApplySafe(s.log, base, s.scanned, s.disk, s.phase.target);
    ApplySettles(s.log, base, s.scanned, s.disk, s.phase.next, s.phase.target);
  }

  /** With every loser's undo at its end nothing is pending. */
  lemma UndoDoneKeepsInv(s: State, s': State, base: map<nat, Image>)
    requires Inv(s, base) && s.phase.Undo? && (forall t :: t in s.phase.next ==> s.phase.next[t] == 0)
             && RecoverStep(s, s')
    ensures Inv(s', base)
  {
    var log := s.log;
    forall p | Tracked(log, base, p) ensures !Pending(log, |log|, p) {
      forall i | 0 <= i < |log| && Updates(log[i], p) && Loser(log, |log|, log[i].txnId)
        ensures Cursor(log, |log|, log[i].txnId) <= i
      {
        var t := log[i].txnId;
        var c := Cursor(log, |log|, t);
        assert StandsAt(log, t, s.phase.next[t]);
        ExhaustedPassedAll(log, base, t, i);
      }
    }
  }

  lemma NothingBeforeBegin(log: Log, base: map<nat, Image>, b: nat)
    requires LogInv(log, base) && b < |log| && log[b].recordType == Begin
    ensures forall i :: 0 <= i < b ==> log[i].txnId != log[b].txnId
  {
    assert RecordOk(log, b, base);
  }

  lemma BeginIsFirst(log: Log, base: map<nat, Image>, t: nat, b: nat, i: nat)
    requires LogInv(log, base) && Loser(log, |log|, t) && b < |log| && i < |log| && log[b].txnId == log[i].txnId == t
    requires log[b].recordType != Compensation && !Undoable(log[b]) && Undoable(log[i])
    ensures b < i
  {
    PassedOverIsBegin(log, base, t, b);
    NothingBeforeBegin(log, base, b);
  }

  lemma ExhaustedPassedAll(log: Log, base: map<nat, Image>, t: nat, i: nat)
    requires LogInv(log, base) && Loser(log, |log|, t) && UndoExhausted(log, t)
    requires i < |log| && log[i].txnId == t && Undoable(log[i])
    ensures Cursor(log, |log|, t) <= i
  {
    CursorIsOriginal(log, base, |log|, t);
    var c := Cursor(log, |log|, t);
    if c > 0 {
      BeginIsFirst(log, base, t, c - 1, i);
    }
  }

  // ----- finish -----

  lemma AbortAppend(log: Log, base: map<nat, Image>, t: nat)
    requires LogInv(log, base) && Loser(log, |log|, t)
    ensures var l := log + [AbortFor(log, t)];
            && RecordOk(l, |log|, base)
            && (forall u :: Loser(l, |l|, u) <==> Loser(log, |log|, u) && u != t)
  {
    var r := AbortFor(log, t);
    var l := log + [r];
    AgreeOnTxn(log, l, |log|, t);
    forall u { QuietStatus(log, r, u); }
  }

  /** A page whose last toucher is rolled back may be left alone once it holds its final image. */
  lemma AbortDiskOk(log: Log, base: map<nat, Image>, t: nat, disk: Disk)
    requires LogInv(log, base) && Loser(log, |log|, t) && DiskOk(log, |log|, disk, base)
    requires forall p :: Tracked(log, base, p) && HasUpdate(log, |log|, t, p) ==> Restored(log, disk, base, p)
    ensures DiskOk(log + [AbortFor(log, t)], |log| + 1, disk, base)
  {
    var r := AbortFor(log, t);
    var l := log + [r];
    AbortAppend(log, base, t);
    AppendKeepsLogInv(log, r, base);
    forall p | p in base && !Named(l, |l|, p) && !Touched(l, |l|, p)
      ensures p in disk.pages && disk.pages[p] == base[p]
    {
      QuietAppend(log, r, p, base[p]);
      UntouchedFinal(l, base, p);
      if Touched(log, |log|, p) {
        var i :| 0 <= i < |log| && Updates(log[i], p) && !HasAbort(log, |log|, log[i].txnId);
        QuietStatus(log, r, log[i].txnId);
        assert l[i] == log[i];
        assert HasUpdate(log, |log|, t, p);
      }
    }
  }

  lemma FinishOne(log: Log, base: map<nat, Image>, durable: nat, disk: Disk, t: nat)
    requires CrashSafe(log, durable, disk, base) && Loser(log, |log|, t) && AllRestored(log, disk, base)
    ensures CrashSafe(log + [AbortFor(log, t)], durable, disk, base)
    ensures AllRestored(log + [AbortFor(log, t)], disk, base)
  {
    var r := AbortFor(log, t);
    AbortAppend(log, base, t);
    assert DiskOk(log, |log|, disk, base);
    AbortDiskOk(log, base, t, disk);
    AppendCrashSafe(log, r, durable, disk, base);
    forall p | Tracked(log + [r], base, p) ensures Restored(log + [r], disk, base, p) {
      QuietAppend(log, r, p, base[p]);
      assert Restored(log, disk, base, p);
    }
  }

  /** Who is still unfinished once one loser's Abort is logged. */
  lemma FinishLosers(log: Log, base: map<nat, Image>, t: nat, left: set<nat>)
    requires LogInv(log, base) && Loser(log, |log|, t) && EveryLoserIn(log, left)
    requires forall u :: u in left ==> Loser(log, |log|, u)
    ensures var l := log + [AbortFor(log, t)];
            EveryLoserIn(l, left - {t}) && forall u :: u in left - {t} ==> Loser(l, |l|, u)
  {
    var r := AbortFor(log, t);
    var l := log + [r];
    forall u ensures Loser(l, |l|, u) <==> Loser(log, |log|, u) && u != t {
      AgreeOnTxn(log, l, |log|, u);
      OneMore(l, |log|, u);
    }
  }

  lemma FinishOneKeepsInv(s: State, base: map<nat, Image>, left: set<nat>, t: nat)
    requires Inv(s, base) && s.phase == Finish(left) && t in left
    ensures Inv(s.(phase := Finish(left - {t}), log := s.log + [AbortFor(s.log, t)]), base)
  {
    FinishOne(s.log, base, s.scanned, s.disk, t);
    FinishLosers(s.log, base, t, left);
  }

  lemma FinishKeepsInv(s: State, s': State, base: map<nat, Image>)
    requires Inv(s, base) && s.phase.Finish? && RecoverStep(s, s')
    ensures Inv(s', base)
  {
    var left := s.phase.left;
    if left != {} {
      var t :| t in left && s' == s.(phase := Finish(left - {t}), log := s.log + [AbortFor(s.log, t)]);
      FinishOneKeepsInv(s, base, left, t);
    }
  }

  // ----- all steps -----

  lemma UndoKeepsInv(s: State, s': State, base: map<nat, Image>)
    requires Inv(s, base) && s.phase.Undo? && RecoverStep(s, s')
    ensures Inv(s', base)
  {
    var next := s.phase.next;
    if forall t :: t in next ==> next[t] == 0 {
      UndoDoneKeepsInv(s, s', base);
    } else {
      var t :| t in next && UndoStep(s, s', next, t);
      if s'.phase.Undo? { PassOverKeepsInv(s, s', base, t); } else { LogClrKeepsInv(s, s', base, t); }
    }
  }

  lemma RecoverKeepsInv(s: State, s': State, base: map<nat, Image>)
    requires Inv(s, base) && RecoverStep(s, s')
    ensures Inv(s', base)
  {
    match s.phase
    case Redo(pos) =>
      if pos < s.scanned { RedoKeepsInv(s, s', base); } else { StartUndoKeepsInv(s, s', base); }
    case Undo(_) => UndoKeepsInv(s, s', base);
    case UndoApply(_, _) => ApplyKeepsInv(s, s', base);
    case Finish(_) => FinishKeepsInv(s, s', base);
    case Done =>
  }

  /** A run of recovery attempts: each step is one device operation or one more crash. */
  ghost predicate Attempts(run: seq<State>) {
    |run| > 0 && forall i :: 0 <= i < |run| - 1 ==> RecoverStep(run[i], run[i + 1]) || CrashStep(run[i], run[i + 1])
  }

  lemma AttemptKeepsInv(s: State, s': State, base: map<nat, Image>)
    requires Inv(s, base) && (RecoverStep(s, s') || CrashStep(s, s'))
    ensures Inv(s', base)
  {
    if RecoverStep(s, s') { RecoverKeepsInv(s, s', base); } else { CrashKeepsInv(s, s', base); }
  }

  lemma {:induction false} AttemptsKeepInv(run: seq<State>, base: map<nat, Image>, k: nat)
    requires Attempts(run) && Inv(run[0], base) && k < |run|
    ensures Inv(run[k], base)
  {
    if k > 0 {
      var m := k - 1;
      AttemptsKeepInv(run, base, m);
      AttemptKeepsInv(run[m], run[k], base);
    }
  }
}
