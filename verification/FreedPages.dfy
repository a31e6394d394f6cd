/** Which pages recovery gives back: those that winners freed and those that losers allocated. */
module FreedPages {
  import opened Wal
  import opened WalFacts
  import opened RecoveryMachine
  import opened RecoveryProof

  // ----- what the log says -----

  /** Record `i` leaves its page to be given back: a committed free, or an allocation that was never committed. */
  ghost predicate Owes(log: Log, i: nat)
    requires i < |log|
  {
    || (log[i].recordType == PageFree && HasCommit(log, |log|, log[i].txnId))
    || (log[i].recordType == PageAllocate && Loser(log, |log|, log[i].txnId))
  }

  ghost predicate GivenBack(log: Log, p: nat) {
    exists i :: 0 <= i < |log| && log[i].pageId == p && Owes(log, i)
  }

  /** Exactly these pages have come to the free list. */
  ghost predicate FreesExactly(log: Log, freed: set<nat>, freed': set<nat>) {
    forall p :: p in freed' <==> p in freed || GivenBack(log, p)
  }

  // ----- later logs -----

  /** `b` is `a` with some records of recovery's own. */
  ghost predicate AddsQuiet(a: Log, b: Log) {
    a <= b && forall i :: |a| <= i < |b| ==> IsQuiet(b[i])
  }

  lemma SameWinners(log: Log, later: Log, t: nat)
    requires AddsQuiet(log, later)
    ensures HasCommit(later, |later|, t) == HasCommit(log, |log|, t)
    ensures HasAbort(log, |log|, t) ==> HasAbort(later, |later|, t)
  {
    if HasCommit(log, |log|, t) {
      var i :| 0 <= i < |log| && log[i].txnId == t && log[i].recordType == Commit;
      assert later[i] == log[i];
    }
    if HasAbort(log, |log|, t) {
      var i :| 0 <= i < |log| && log[i].txnId == t && log[i].recordType == Abort;
      assert later[i] == log[i];
    }
    if HasCommit(later, |later|, t) {
      var i :| 0 <= i < |later| && later[i].txnId == t && later[i].recordType == Commit;
      assert later[i] == log[i];
    }
  }

  /** What the log of a later attempt owes, the first one owed. */
  lemma OwedBefore(log: Log, later: Log, i: nat)
    requires AddsQuiet(log, later) && i < |later| && later[i].recordType in {PageFree, PageAllocate} && Owes(later, i)
    ensures i < |log| && log[i] == later[i] && Owes(log, i)
  {
    assert i < |log|;
    assert later[i] == log[i];
    SameWinners(log, later, log[i].txnId);
  }

  // ----- compensated records -----

  /** A CLR of `t` that gives page `p` back. */
  predicate ReturnsPage(r: LogRecord, t: nat, p: nat) {
    r.recordType == Compensation && r.compensationType == PageAllocate && r.txnId == t && r.pageId == p
  }

  /** Once undo has passed a record there is a CLR for it. */
  lemma {:induction false} PassedHasClr(log: Log, base: map<nat, Image>, n: nat, i: nat) returns (j: nat)
    requires LogInv(log, base) && i < n <= |log| && log[i].recordType == PageAllocate
    requires Cursor(log, n, log[i].txnId) <= i
    ensures i < j < n && ReturnsPage(log[j], log[i].txnId, log[i].pageId)
  {
    var t, m := log[i].txnId, n - 1;
    if log[m].txnId != t {
      j := PassedHasClr(log, base, m, i);
    } else {
      var c := ClrTarget(log, base, m);
      if c <= i {
        j := PassedHasClr(log, base, m, i);
      } else {
        assert c - 1 == i;
        j := m;
      }
    }
  }

  // ----- the invariant -----

  /** Undo of `t` has yet to come to record `i`. */
  ghost predicate Ahead(log: Log, i: nat)
    requires i < |log|
  {
    log[i].recordType == PageAllocate && Loser(log, |log|, log[i].txnId) && i < Cursor(log, |log|, log[i].txnId)
  }

  ghost predicate ClrAhead(log: Log, pos: nat, i: nat)
    requires i < |log|
  {
    Loser(log, |log|, log[i].txnId)
    && exists j :: pos <= j < |log| && ReturnsPage(log[j], log[i].txnId, log[i].pageId)
  }

  /** The page of record `i` is still to be given back. */
  ghost predicate Later(s: State, i: nat)
    requires i < |s.log|
  {
    match s.phase
    case Redo(pos) =>
      if s.log[i].recordType == PageFree then pos <= i else Ahead(s.log, i) || ClrAhead(s.log, pos, i)
    case Undo(_) => Ahead(s.log, i)
    case UndoApply(_, target) => Ahead(s.log, i) || (target == i + 1 && s.log[i].recordType == PageAllocate)
    case Finish(_) => false
    case Done => false
  }

  ghost predicate Paid(s: State, i: nat)
    requires i < |s.log|
  {
    s.log[i].pageId in s.disk.freed || Later(s, i)
  }

  /** Nothing is freed without reason, and what is owed is paid or will be. */
  ghost predicate FreedInv(log: Log, freed: set<nat>, s: State) {
    && AddsQuiet(log, s.log) && |log| <= s.scanned <= |s.log|
    && freed <= s.disk.freed
    && (forall p :: p in s.disk.freed ==> p in freed || GivenBack(log, p))
    && forall i :: 0 <= i < |log| && Owes(log, i) ==> Paid(s, i)
  }

  lemma StartFreed(log: Log, disk: Disk, base: map<nat, Image>)
    requires LogInv(log, base)
    ensures FreedInv(log, disk.freed, Start(log, disk))
  {
    forall i | 0 <= i < |log| && Owes(log, i) ensures Paid(Start(log, disk), i) {
      if log[i].recordType == PageAllocate { AheadOrClr(log, base, i); }
    }
  }

  lemma AheadOrClr(log: Log, base: map<nat, Image>, i: nat)
    requires LogInv(log, base) && i < |log|
    requires log[i].recordType == PageAllocate && Loser(log, |log|, log[i].txnId)
    ensures Ahead(log, i) || ClrAhead(log, 0, i)
  {
    if !Ahead(log, i) {
      var j := PassedHasClr(log, base, |log|, i);
    }
  }

  // ----- redo -----

  /** The page that redo gives back for a record, if any. */
  lemma RedoFrees(disk: Disk, r: LogRecord)
    ensures var p := r.pageId;
            RedoEffect(disk, r).freed
            == if r.recordType == PageFree || (r.recordType == Compensation && r.compensationType == PageAllocate) then
                 disk.freed + {p}
               else disk.freed
  {
  }

  /** Redo gives a page back only for a record that owes it. */
  lemma RedoOwes(log: Log, base: map<nat, Image>, i: nat) returns (c: nat)
    requires LogInv(log, base) && i < |log| && IsRedone(log, |log|, log[i])
    requires log[i].recordType == PageFree
             || (log[i].recordType == Compensation && log[i].compensationType == PageAllocate)
    ensures c <= i && Owes(log, c) && log[c].pageId == log[i].pageId && log[c].recordType in {PageFree, PageAllocate}
  {
    c := i;
    if log[i].recordType == Compensation {
      var target := ClrTarget(log, base, i);
      CompensatedNeverCommits(log, base, i);
      c := target - 1;
    }
  }

  lemma RedoKeepsPaid(s: State, s': State, base: map<nat, Image>, i: nat)
    requires Inv(s, base) && s.phase.Redo? && s.phase.pos < s.scanned && RecoverStep(s, s')
    requires i < |s.log| && Paid(s, i)
    requires s.log[i].recordType == PageAllocate
             || (s.log[i].recordType == PageFree && HasCommit(s.log, |s.log|, s.log[i].txnId))
    ensures Paid(s', i)
  {
    var log, pos, p := s.log, s.phase.pos, s.log[i].pageId;
    RedoFrees(s.disk, log[pos]);
    if log[i].recordType == PageAllocate && p !in s.disk.freed && !Ahead(log, i) {
      var j :| pos <= j < |log| && ReturnsPage(log[j], log[i].txnId, p);
      assert j == pos ==> IsRedone(log, |log|, log[pos]);
    }
  }

  lemma RedoKeepsFreed(log: Log, freed: set<nat>, s: State, s': State, base: map<nat, Image>)
    requires Inv(s, base) && FreedInv(log, freed, s) && s.phase.Redo? && s.phase.pos < s.scanned && RecoverStep(s, s')
    ensures FreedInv(log, freed, s')
  {
    var pos := s.phase.pos;
    RedoFrees(s.disk, s.log[pos]);
    forall p | p in s'.disk.freed && p !in s.disk.freed ensures GivenBack(log, p) {
      var c := RedoOwes(s.log, base, pos);
      OwedBefore(log, s.log, c);
    }
    forall i | 0 <= i < |log| && Owes(log, i) ensures Paid(s', i) {
      SameWinners(log, s.log, log[i].txnId);
      RedoKeepsPaid(s, s', base, i);
    }
  }

  // ----- undo -----

  /** After the CLR of record `target` the others of its transaction are as they were. */
  lemma ClrKeepsAhead(log: Log, base: map<nat, Image>, target: nat, t: nat, i: nat)
    requires LogInv(log, base) && NextToUndo(log, target, t) && i < |log| && Ahead(log, i)
    ensures var l := log + [ClrFor(log, log[target - 1])]; Ahead(l, i) || target == i + 1
  {
    var r := ClrFor(log, log[target - 1]);
    var l := log + [r];
    ClrKeepsLosers(log, target, t, log[i].txnId);
    if log[i].txnId == t {
      ClrMovesCursor(log, base, target, t);
      if i + 1 < target { assert l[i].txnId == t; }
    } else {
      QuietStatus(log, r, log[i].txnId);
    }
  }

  lemma TurnKeepsAhead(s: State, s': State, base: map<nat, Image>, t: nat, i: nat)
    requires LogInv(s.log, base) && OwnRecords(s.log, s.scanned) && s.phase.Undo? && AllStand(s.log, s.phase.next)
    requires t in s.phase.next && s.phase.next[t] > 0 && UndoStep(s, s', s.phase.next, t)
    requires i < |s.log| && Ahead(s.log, i)
    ensures |s.log| <= |s'.log| && s'.log[i] == s.log[i] && Later(s', i)
  {
    if s'.phase.UndoApply? {
      NextIsUndoTarget(s.log, s.scanned, s.phase.next, t);
      ClrKeepsAhead(s.log, base, s.phase.next[t], t, i);
    }
  }

  lemma UndoKeepsAhead(s: State, s': State, base: map<nat, Image>, i: nat)
    requires Inv(s, base) && s.phase.Undo? && RecoverStep(s, s') && i < |s.log| && Ahead(s.log, i)
    ensures |s.log| <= |s'.log| && s'.log[i] == s.log[i] && Later(s', i)
  {
    if forall t :: t in s.phase.next ==> s.phase.next[t] == 0 {
      NothingAhead(s, base, i);
    } else {
      var t := TurnOf(s, s');
      TurnKeepsAhead(s, s', base, t, i);
    }
  }

  lemma TurnOf(s: State, s': State) returns (t: nat)
    requires s.phase.Undo? && RecoverStep(s, s') && exists t :: t in s.phase.next && s.phase.next[t] != 0
    ensures t in s.phase.next && s.phase.next[t] > 0 && UndoStep(s, s', s.phase.next, t)
  {
    t :| t in s.phase.next && UndoStep(s, s', s.phase.next, t);
  }

  lemma UndoKeepsFreed(log: Log, freed: set<nat>, s: State, s': State, base: map<nat, Image>)
    requires Inv(s, base) && FreedInv(log, freed, s) && s.phase.Undo? && RecoverStep(s, s')
    requires AddsQuiet(log, s'.log)
    ensures FreedInv(log, freed, s')
  {
    UndoChangesNothing(s, s');
    forall i | 0 <= i < |log| && Owes(log, i) ensures Paid(s', i) {
      assert Paid(s, i) && s'.log[i] == log[i];
      if Later(s, i) { UndoKeepsAhead(s, s', base, i); }
    }
  }

  lemma UndoChangesNothing(s: State, s': State)
    requires s.phase.Undo? && RecoverStep(s, s')
    ensures s'.disk == s.disk && s'.scanned == s.scanned && |s.log| <= |s'.log|
  {
  }

  lemma NothingAhead(s: State, base: map<nat, Image>, i: nat)
    requires Inv(s, base) && s.phase.Undo? && (forall t :: t in s.phase.next ==> s.phase.next[t] == 0) && i < |s.log|
    ensures !Ahead(s.log, i)
  {
    var t := s.log[i].txnId;
    if Ahead(s.log, i) {
      assert StandsAt(s.log, t, s.phase.next[t]);
      ExhaustedPassedAll(s.log, base, t, i);
    }
  }

  /** The page that is given back when a record is undone. */
  lemma UndoFrees(disk: Disk, r: LogRecord)
    ensures UndoEffect(disk, r).freed == if r.recordType == PageAllocate then disk.freed + {r.pageId} else disk.freed
  {
  }

  lemma ApplyPays(log: Log, freed: set<nat>, s: State, s': State, next: map<nat, nat>, target: nat)
    requires FreedInv(log, freed, s) && s.phase == UndoApply(next, target) && 0 < target <= |s.log|
    requires s' == s.(phase := Undo(next), disk := UndoEffect(s.disk, s.log[target - 1]))
    requires s.log[target - 1].recordType == PageAllocate ==> GivenBack(log, s.log[target - 1].pageId)
    ensures FreedInv(log, freed, s')
  {
    UndoFrees(s.disk, s.log[target - 1]);
    forall i | 0 <= i < |log| && Owes(log, i) ensures Paid(s', i) { assert Paid(s, i); }
  }

  lemma ApplyKeepsFreed(log: Log, freed: set<nat>, s: State, s': State, base: map<nat, Image>)
    requires Inv(s, base) && FreedInv(log, freed, s) && s.phase.UndoApply? && RecoverStep(s, s')
    ensures FreedInv(log, freed, s')
  {
    var target := s.phase.target;
    if s.log[target - 1].recordType == PageAllocate {
      var i := target - 1;
      TargetIsOwed(s, base);
      OwedBefore(log, s.log, i);
    }
    ApplyPays(log, freed, s, s', s.phase.next, target);
  }

  lemma TargetIsOwed(s: State, base: map<nat, Image>)
    requires Inv(s, base) && s.phase.UndoApply?
    ensures var i := s.phase.target - 1; s.log[i].recordType == PageAllocate ==> Owes(s.log, i)
  {
  }

  // ----- crashes -----

  lemma CutKeepsAhead(log: Log, base: map<nat, Image>, c: nat, i: nat)
    requires LogInv(log, base) && i < c <= |log| && log[i].recordType == PageAllocate && Loser(log, |log|, log[i].txnId)
    ensures Ahead(log[..c], i) || ClrAhead(log[..c], 0, i)
  {
    CutKeepsLogInv(log, c, base);
    assert log[..c][i] == log[i];
    assert Loser(log[..c], c, log[i].txnId) by { LoserInCut(log, c, i); }
    AheadOrClr(log[..c], base, i);
  }

  lemma LoserInCut(log: Log, c: nat, i: nat)
    requires i < c <= |log| && Loser(log, |log|, log[i].txnId)
    ensures Loser(log[..c], c, log[i].txnId)
  {
    var t := log[i].txnId;
    assert log[..c][i].txnId == t;
    AgreeOnTxn(log, log[..c], c, t);
  }

  lemma CrashKeepsFreed(log: Log, freed: set<nat>, s: State, s': State, base: map<nat, Image>)
    requires Inv(s, base) && FreedInv(log, freed, s) && CrashStep(s, s')
    ensures FreedInv(log, freed, s')
  {
    var c :| s.scanned <= c <= |s.log| && s' == Start(s.log[..c], s.disk);
    assert forall i :: 0 <= i < c ==> s'.log[i] == s.log[i];
    forall i | 0 <= i < |log| && Owes(log, i) ensures Paid(s', i) { CrashKeepsPaid(s, s', base, c, i); }
  }

  lemma CrashKeepsPaid(s: State, s': State, base: map<nat, Image>, c: nat, i: nat)
    requires LogInv(s.log, base) && i < c <= |s.log| && s' == Start(s.log[..c], s.disk) && Paid(s, i)
    requires s.log[i].recordType in {PageFree, PageAllocate}
    requires s.phase.UndoApply? && s.phase.target == i + 1 ==> Loser(s.log, |s.log|, s.log[i].txnId)
    ensures Paid(s', i)
  {
    assert s'.log[i] == s.log[i];
    if Later(s, i) && s.log[i].recordType == PageAllocate { CutKeepsAhead(s.log, base, c, i); }
  }

  // ----- all steps -----

  lemma RecoverStepLog(s: State, s': State)
    requires RecoverStep(s, s')
    ensures s'.scanned == s.scanned
    ensures s'.log == s.log || exists x: LogRecord :: s'.log == s.log + [x] && IsQuiet(x)
  {
    match s.phase
    case Undo(next) =>
      if !(forall t :: t in next ==> next[t] == 0) {
        var t :| t in next && UndoStep(s, s', next, t);
        if s'.phase.UndoApply? { assert IsQuiet(ClrFor(s.log, s.log[next[t] - 1])); }
      }
    case Finish(left) =>
      if left != {} {
        var t :| t in left && s' == s.(phase := Finish(left - {t}), log := s.log + [AbortFor(s.log, t)]);
        assert IsQuiet(AbortFor(s.log, t));
      }
    case _ =>
  }

  lemma RecoverKeepsFreed(log: Log, freed: set<nat>, s: State, s': State, base: map<nat, Image>)
    requires Inv(s, base) && FreedInv(log, freed, s) && RecoverStep(s, s')
    ensures FreedInv(log, freed, s')
  {
    RecoverStepLog(s, s');
    assert AddsQuiet(log, s'.log);
    match s.phase
    case Redo(pos) =>
      if pos < s.scanned { RedoKeepsFreed(log, freed, s, s', base); }
    case Undo(_) => UndoKeepsFreed(log, freed, s, s', base);
    case UndoApply(_, _) => ApplyKeepsFreed(log, freed, s, s', base);
    case Finish(_) =>
    case Done =>
  }

  lemma AttemptKeepsFreed(log: Log, freed: set<nat>, s: State, s': State, base: map<nat, Image>)
    requires Inv(s, base) && FreedInv(log, freed, s) && (RecoverStep(s, s') || CrashStep(s, s'))
    ensures FreedInv(log, freed, s')
  {
    if RecoverStep(s, s') { RecoverKeepsFreed(log, freed, s, s', base); } else {
      CrashKeepsFreed(log, freed, s, s', base);
    }
  }

  lemma FreedAtEnd(log: Log, freed: set<nat>, s: State)
    requires FreedInv(log, freed, s) && (s.phase.Done? || s.phase.Finish?)
    ensures FreesExactly(log, freed, s.disk.freed)
  {
    forall p | GivenBack(log, p) ensures p in s.disk.freed {
      var i :| 0 <= i < |log| && log[i].pageId == p && Owes(log, i);
      assert Paid(s, i);
    }
  }
}
