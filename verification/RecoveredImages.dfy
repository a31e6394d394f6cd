/** What one attempt of recovery leaves on every page that it does not give back, whether the last checkpoint knew the
    page or not. */
module RecoveredImages {
  import opened Wal
  import opened WalFacts
  import opened RecoveryMachine
  import opened RecoveryProof
  import opened FreedPages

  // ----- what the log asks for -----

  /** Record `f` is the first update of `p` by a transaction that is to be rolled back. */
  ghost predicate IsLost(log: Log, f: nat, p: nat) {
    FirstUpdate(log, f, p) && Loser(log, |log|, log[f].txnId)
  }

  /** Record `i` is the last committed update of `p`. */
  ghost predicate IsLastWon(log: Log, i: nat, p: nat) {
    && i < |log| && Updates(log[i], p) && HasCommit(log, |log|, log[i].txnId)
    && forall k :: i < k < |log| && Updates(log[k], p) ==> !HasCommit(log, |log|, log[k].txnId)
  }

  ghost predicate NoneLost(log: Log, p: nat) { forall f: nat :: !IsLost(log, f, p) }

  ghost predicate NoneWon(log: Log, p: nat) { forall i: nat :: !IsLastWon(log, i, p) }

  /** A page that a loser updated gets what was there before, one that only winners updated their last image, and any
      other page stays as it was on disk. */
  ghost predicate IsExpected(log: Log, before: map<nat, Image>, p: nat, image: Image) {
    || (exists f: nat :: IsLost(log, f, p) && image == log[f].beforeImage)
    || (NoneLost(log, p) && exists i: nat :: IsLastWon(log, i, p) && image == log[i].afterImage)
    || (NoneLost(log, p) && NoneWon(log, p) && p in before && image == before[p])
  }

  ghost predicate WritesExpected(log: Log, before: map<nat, Image>, disk: Disk) {
    forall p, image :: !GivenBack(log, p) && IsExpected(log, before, p, image) ==>
      p in disk.pages && disk.pages[p] == image
  }

  // ----- facts about the log -----

  /** Page locks: while a transaction is unfinished nobody else updates its pages. */
  lemma LoserIsAlone(log: Log, base: map<nat, Image>, f: nat, k: nat, p: nat)
    requires LogInv(log, base) && f < k < |log| && Updates(log[f], p) && Updates(log[k], p)
    requires Loser(log, |log|, log[f].txnId)
    ensures log[k].txnId == log[f].txnId
  {
    assert RecordOk(log, k, base);
  }

  lemma OneIsLost(log: Log, base: map<nat, Image>, f: nat, g: nat, p: nat)
    requires LogInv(log, base) && IsLost(log, f, p) && IsLost(log, g, p)
    ensures f == g
  {
    if f < g { LoserIsAlone(log, base, f, g, p); }
    if g < f { LoserIsAlone(log, base, g, f, p); }
  }

  lemma LoserHasFirst(log: Log, i: nat, p: nat) returns (f: nat)
    requires i < |log| && Updates(log[i], p) && Loser(log, |log|, log[i].txnId)
    ensures IsLost(log, f, p) && log[f].txnId == log[i].txnId && f <= i
  {
    assert HasUpdate(log, i + 1, log[i].txnId, p);
    f := FirstUpdateExists(log, i + 1, log[i].txnId, p);
  }

  /** When undo has passed a loser's first update, the last CLR for the page is one that redo replays. */
  lemma LostIsRedone(log: Log, base: map<nat, Image>, f: nat, p: nat) returns (m: nat)
    requires LogInv(log, base) && IsLost(log, f, p) && !Pending(log, |log|, p)
    ensures f < m < |log| && RedoTarget(log, m, p) && log[m].afterImage == log[f].beforeImage
    ensures forall i :: m < i < |log| && log[i].txnId == log[f].txnId ==> !Compensates(log[i], p)
  {
    m := LastClrRestoresFirst(log, base, |log|, f, p);
  }

  /** Whatever redo writes to a page, a winner or a loser has updated it. */
  lemma TargetIsUpdate(log: Log, base: map<nat, Image>, i: nat, p: nat) returns (c: nat)
    requires LogInv(log, base) && i < |log| && RedoTarget(log, i, p)
    ensures c <= i && Updates(log[c], p) && log[c].txnId == log[i].txnId
    ensures log[i].recordType == Compensation ==> Loser(log, |log|, log[c].txnId)
    ensures log[i].recordType != Compensation ==> c == i && HasCommit(log, |log|, log[i].txnId)
  {
    c := i;
    if log[i].recordType == Compensation {
      var target := ClrTarget(log, base, i);
      CompensatedNeverCommits(log, base, i);
      c := target - 1;
    }
  }

  /** A winner's update is followed by its last one. */
  lemma {:induction false} LastWonExists(log: Log, n: nat, p: nat) returns (i: nat)
    requires n < |log| && Updates(log[n], p) && HasCommit(log, |log|, log[n].txnId)
    ensures IsLastWon(log, i, p) && n <= i
    decreases |log| - n
  {
    if k :| n < k < |log| && Updates(log[k], p) && HasCommit(log, |log|, log[k].txnId) {
      i := LastWonExists(log, k, p);
    } else {
      i := n;
    }
  }

  /** The last write of redo is the expected one, unless undo is still to come. */
  lemma LastRedoIsExpected(log: Log, base: map<nat, Image>, before: map<nat, Image>, i: nat, p: nat, image: Image)
    requires LogInv(log, base) && i < |log| && RedoTarget(log, i, p) && !RedoLeft(log, i + 1, p)
    requires !Pending(log, |log|, p) && IsExpected(log, before, p, image)
    ensures log[i].afterImage == image
  {
    var c := TargetIsUpdate(log, base, i, p);
    if log[i].recordType == Compensation {
      var g := LoserHasFirst(log, c, p);
      var m := LostIsRedone(log, base, g, p);
      assert m == i;
      forall f: nat | IsLost(log, f, p) ensures f == g { OneIsLost(log, base, f, g, p); }
    } else {
      WonIsExpected(log, base, before, i, p, image);
    }
  }

  lemma WonIsExpected(log: Log, base: map<nat, Image>, before: map<nat, Image>, i: nat, p: nat, image: Image)
    requires LogInv(log, base) && i < |log| && Updates(log[i], p) && HasCommit(log, |log|, log[i].txnId)
    requires !RedoLeft(log, i + 1, p) && !Pending(log, |log|, p) && IsExpected(log, before, p, image)
    ensures log[i].afterImage == image
  {
    forall f: nat ensures !IsLost(log, f, p) {
      if IsLost(log, f, p) {
        var m := LostIsRedone(log, base, f, p);
        if f < i { LoserIsAlone(log, base, f, i, p); }
      }
    }
    forall k | i < k < |log| && Updates(log[k], p) ensures !HasCommit(log, |log|, log[k].txnId) {
      assert !RedoTarget(log, k, p);
    }
    assert IsLastWon(log, i, p);
    forall k: nat | IsLastWon(log, k, p) ensures k == i {}
  }

  // ----- the invariant -----

  ghost predicate Holds(disk: Disk, p: nat, image: Image) { p in disk.pages && disk.pages[p] == image }

  /** The page has its image, or redo or undo will still write it. */
  ghost predicate PageInv(s: State, p: nat, image: Image) {
    match s.phase
    case Redo(pos) => RedoLeft(s.log, pos, p) || Pending(s.log, |s.log|, p) || Holds(s.disk, p, image)
    case Undo(_) => Pending(s.log, |s.log|, p) || Holds(s.disk, p, image)
    case UndoApply(_, target) =>
      0 < target <= |s.log| && (Pending(s.log, |s.log|, p) || Updates(s.log[target - 1], p) || Holds(s.disk, p, image))
    case Finish(_) => Holds(s.disk, p, image)
    case Done => Holds(s.disk, p, image)
  }

  ghost predicate ImagesInv(log: Log, before: map<nat, Image>, s: State) {
    && AddsQuiet(log, s.log) && s.scanned == |log|
    && (s.phase.Redo? ==> s.log == log)
    && forall p, image :: !GivenBack(log, p) && IsExpected(log, before, p, image) ==> PageInv(s, p, image)
  }

  lemma StartImages(log: Log, disk: Disk, base: map<nat, Image>)
    requires LogInv(log, base)
    ensures ImagesInv(log, disk.pages, Start(log, disk))
  {
    forall p, image | !GivenBack(log, p) && IsExpected(log, disk.pages, p, image)
      ensures PageInv(Start(log, disk), p, image)
    {
      if f: nat :| IsLost(log, f, p) && image == log[f].beforeImage {
        if !Pending(log, |log|, p) { var m := LostIsRedone(log, base, f, p); }
      } else if i: nat :| IsLastWon(log, i, p) && image == log[i].afterImage {
        assert RedoTarget(log, i, p);
      }
    }
  }

  // ----- redo -----

  /** A record that is no target of the page leaves it alone, unless it gives it back. */
  lemma RedoLeaves(log: Log, base: map<nat, Image>, i: nat, disk: Disk, p: nat)
    requires LogInv(log, base) && i < |log| && IsRedone(log, |log|, log[i]) && !RedoTarget(log, i, p)
    requires !GivenBack(log, p)
    ensures p in disk.pages ==> Holds(RedoEffect(disk, log[i]), p, disk.pages[p])
  {
    if log[i].pageId == p
       && (log[i].recordType == PageFree
           || (log[i].recordType == Compensation && log[i].compensationType == PageAllocate)) {
      var c := RedoOwes(log, base, i);
    }
  }

  lemma RedoKeepsPage(s: State, s': State, base: map<nat, Image>, before: map<nat, Image>, p: nat, image: Image)
    requires LogInv(s.log, base) && s.scanned == |s.log| && s.phase.Redo? && s.phase.pos < s.scanned
             && RecoverStep(s, s')
    requires !GivenBack(s.log, p) && IsExpected(s.log, before, p, image) && PageInv(s, p, image)
    ensures PageInv(s', p, image)
  {
    var log, pos := s.log, s.phase.pos;
    if !RedoLeft(log, pos + 1, p) && !Pending(log, |log|, p) {
      assert !RedoTarget(log, pos, p) ==> !RedoLeft(log, pos, p);
      RedoHolds(log, base, before, pos, s.disk, p, image);
    }
  }

  lemma RedoHolds(log: Log, base: map<nat, Image>, before: map<nat, Image>, i: nat, disk: Disk, p: nat, image: Image)
    requires LogInv(log, base) && i < |log| && !RedoLeft(log, i + 1, p) && !Pending(log, |log|, p)
    requires !GivenBack(log, p) && IsExpected(log, before, p, image) && (RedoTarget(log, i, p) || Holds(disk, p, image))
    ensures Holds(if IsRedone(log, |log|, log[i]) then RedoEffect(disk, log[i]) else disk, p, image)
  {
    if RedoTarget(log, i, p) {
      LastRedoIsExpected(log, base, before, i, p, image);
    } else if IsRedone(log, |log|, log[i]) {
      RedoLeaves(log, base, i, disk, p);
    }
  }

  // ----- undo -----

  lemma LogKeepsPage(s: State, s': State, base: map<nat, Image>, t: nat, p: nat, image: Image)
    requires LogInv(s.log, base) && OwnRecords(s.log, s.scanned) && s.phase.Undo? && AllStand(s.log, s.phase.next)
    requires t in s.phase.next && s.phase.next[t] > 0 && UndoStep(s, s', s.phase.next, t) && PageInv(s, p, image)
    ensures PageInv(s', p, image)
  {
    if s'.phase.UndoApply? {
      NextIsUndoTarget(s.log, s.scanned, s.phase.next, t);
      if Pending(s.log, |s.log|, p) && !Updates(s.log[s.phase.next[t] - 1], p) {
        ClrSettles(s.log, base, s.phase.next[t], t, p);
      }
    }
  }

  lemma NothingPending(s: State, base: map<nat, Image>, p: nat)
    requires Inv(s, base) && s.phase.Undo? && forall t :: t in s.phase.next ==> s.phase.next[t] == 0
    ensures !Pending(s.log, |s.log|, p)
  {
    forall i | 0 <= i < |s.log| && Updates(s.log[i], p) && Loser(s.log, |s.log|, s.log[i].txnId)
      ensures Cursor(s.log, |s.log|, s.log[i].txnId) <= i
    {
      assert StandsAt(s.log, s.log[i].txnId, s.phase.next[s.log[i].txnId]);
      ExhaustedPassedAll(s.log, base, s.log[i].txnId, i);
    }
  }

  lemma UndoKeepsPage(s: State, s': State, base: map<nat, Image>, p: nat, image: Image)
    requires Inv(s, base) && s.phase.Undo? && RecoverStep(s, s') && PageInv(s, p, image)
    ensures PageInv(s', p, image)
  {
    if forall t :: t in s.phase.next ==> s.phase.next[t] == 0 {
      NothingPending(s, base, p);
    } else {
      var t := TurnOf(s, s');
      LogKeepsPage(s, s', base, t, p, image);
    }
  }

  /** What undo writes last to a page is what a loser found there. */
  lemma LastUndoIsExpected(log: Log, later: Log, base: map<nat, Image>, before: map<nat, Image>, target: nat, p: nat,
                           image: Image)
    requires LogInv(log, base) && AddsQuiet(log, later) && 0 < target <= |log| && Updates(log[target - 1], p)
    requires Loser(log, |log|, log[target - 1].txnId) && Loser(later, |later|, log[target - 1].txnId)
    requires Cursor(later, |later|, log[target - 1].txnId) == LastLsn(later, target - 1, log[target - 1].txnId)
    requires !Pending(later, |later|, p) && IsExpected(log, before, p, image)
    ensures log[target - 1].beforeImage == image
  {
    var i := target - 1;
    var g := LoserHasFirst(log, i, p);
    assert later[g] == log[g] && later[i] == log[i];
    forall f: nat | IsLost(log, f, p) ensures f == g { OneIsLost(log, base, f, g, p); }
  }

  lemma ApplyHolds(log: Log, later: Log, base: map<nat, Image>, before: map<nat, Image>, disk: Disk, i: nat, p: nat,
                   image: Image)
    requires LogInv(log, base) && AddsQuiet(log, later) && i < |log| && later[i] == log[i] && Undoable(log[i])
    requires Loser(log, |log|, log[i].txnId) && Loser(later, |later|, log[i].txnId)
    requires Cursor(later, |later|, log[i].txnId) == LastLsn(later, i, log[i].txnId)
    requires !GivenBack(log, p) && IsExpected(log, before, p, image) && !Pending(later, |later|, p)
    requires Updates(log[i], p) || Holds(disk, p, image)
    ensures Holds(UndoEffect(disk, log[i]), p, image)
  {
    if Updates(log[i], p) {
      LastUndoIsExpected(log, later, base, before, i + 1, p, image);
    } else if log[i].recordType == PageAllocate {
      assert Owes(log, i);
    }
  }

  lemma ApplyKeepsPage(log: Log, s: State, s': State, base: map<nat, Image>, before: map<nat, Image>, p: nat,
                       image: Image)
    requires LogInv(log, base) && AddsQuiet(log, s.log) && s.phase.UndoApply? && TargetOk(log, s)
    requires RecoverStep(s, s') && !GivenBack(log, p) && IsExpected(log, before, p, image) && PageInv(s, p, image)
    ensures PageInv(s', p, image)
  {
    Applied(s, s');
    AppliedPage(log, s, s', base, before, s.phase.target - 1, p, image);
  }

  lemma AppliedPage(log: Log, s: State, s': State, base: map<nat, Image>, before: map<nat, Image>, i: nat, p: nat,
                    image: Image)
    requires LogInv(log, base) && AddsQuiet(log, s.log) && s.phase.UndoApply? && s.phase.target == i + 1 <= |log|
    requires s.log[i] == log[i] && Undoable(log[i])
    requires Loser(s.log, |s.log|, log[i].txnId) && Loser(log, |log|, log[i].txnId)
    requires Cursor(s.log, |s.log|, log[i].txnId) == LastLsn(s.log, i, log[i].txnId)
    requires s'.phase.Undo? && s'.log == s.log && s'.disk == UndoEffect(s.disk, s.log[i])
    requires !GivenBack(log, p) && IsExpected(log, before, p, image) && PageInv(s, p, image)
    ensures PageInv(s', p, image)
  {
    if !Pending(s.log, |s.log|, p) { ApplyHolds(log, s.log, base, before, s.disk, i, p, image); }
  }

  lemma Applied(s: State, s': State)
    requires s.phase.UndoApply? && RecoverStep(s, s')
    ensures 0 < s.phase.target <= |s.log| && s'.phase.Undo? && s'.log == s.log
            && s'.disk == UndoEffect(s.disk, s.log[s.phase.target - 1])
  {
  }

  /** The record that undo is at, as the first log and the log now have it. */
  ghost predicate TargetOk(log: Log, s: State)
    requires s.phase.UndoApply?
  {
    && 0 < s.phase.target <= |log| && |log| <= |s.log|
    && var i := s.phase.target - 1;
       var t := log[i].txnId;
       && s.log[i] == log[i] && Undoable(log[i]) && Loser(s.log, |s.log|, t) && Loser(log, |log|, t)
       && Cursor(s.log, |s.log|, t) == LastLsn(s.log, i, t)
  }

  lemma TargetFacts(log: Log, s: State, base: map<nat, Image>)
    requires Inv(s, base) && AddsQuiet(log, s.log) && s.scanned == |log| && s.phase.UndoApply?
    ensures TargetOk(log, s)
  {
    SameWinners(log, s.log, s.log[s.phase.target - 1].txnId);
  }

  // ----- all steps -----

  lemma StepKeepsPage(log: Log, before: map<nat, Image>, s: State, s': State, base: map<nat, Image>, p: nat,
                      image: Image)
    requires Inv(s, base) && LogInv(log, base) && AddsQuiet(log, s.log) && s.scanned == |log|
    requires (s.phase.Redo? ==> s.log == log) && RecoverStep(s, s')
    requires !GivenBack(log, p) && IsExpected(log, before, p, image) && PageInv(s, p, image)
    ensures PageInv(s', p, image)
  {
    match s.phase
    case Redo(pos) =>
      if pos < s.scanned { RedoKeepsPage(s, s', base, before, p, image); } else { RedoIsOver(s, s', p, image); }
    case Undo(_) => UndoKeepsPage(s, s', base, p, image);
    case UndoApply(_, _) =>
      TargetFacts(log, s, base);
      ApplyKeepsPage(log, s, s', base, before, p, image);
    case Finish(_) =>
    case Done =>
  }

  lemma RedoIsOver(s: State, s': State, p: nat, image: Image)
    requires s.phase.Redo? && s.phase.pos >= s.scanned == |s.log| && RecoverStep(s, s') && PageInv(s, p, image)
    ensures PageInv(s', p, image)
  {
  }

  lemma StepKeepsRest(log: Log, s: State, s': State)
    requires AddsQuiet(log, s.log) && s.scanned == |log| && (s.phase.Redo? ==> s.log == log) && RecoverStep(s, s')
    ensures AddsQuiet(log, s'.log) && s'.scanned == |log| && (s'.phase.Redo? ==> s'.log == log)
  {
    RecoverStepLog(s, s');
  }

  lemma RecoverKeepsImages(log: Log, before: map<nat, Image>, s: State, s': State, base: map<nat, Image>)
    requires Inv(s, base) && LogInv(log, base) && ImagesInv(log, before, s) && RecoverStep(s, s')
    ensures ImagesInv(log, before, s')
  {
    StepKeepsRest(log, s, s');
    forall p, image | !GivenBack(log, p) && IsExpected(log, before, p, image) ensures PageInv(s', p, image) {
      assert PageInv(s, p, image);
      StepKeepsPage(log, before, s, s', base, p, image);
    }
  }

  lemma ImagesAtEnd(log: Log, before: map<nat, Image>, s: State)
    requires ImagesInv(log, before, s) && (s.phase.Done? || s.phase.Finish?)
    ensures WritesExpected(log, before, s.disk)
  {
    forall p, image | !GivenBack(log, p) && IsExpected(log, before, p, image) ensures Holds(s.disk, p, image) {
      assert PageInv(s, p, image);
    }
  }
}
