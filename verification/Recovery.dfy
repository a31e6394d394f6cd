/** Recovery as the program runs it: analysis, redo, undo through a max-LSN queue, final Abort
    records. The method is tied step by step to the recovery machine. */
module Recovery {
  import opened Wal
  import opened WalFacts
  import opened RecoveryMachine
  import opened RecoveryProof
  import opened FreedPages
  import opened RecoveredImages

  // ----- every attempt ends -----

  ghost function Sum(next: map<nat, nat>): nat
    decreases |next|
  {
    if next == map[] then 0 else
      var t :| t in next;
      next[t] + Sum(next - {t})
  }

  lemma {:induction false} SumWithout(next: map<nat, nat>, t: nat)
    requires t in next
    ensures Sum(next) == next[t] + Sum(next - {t})
    decreases |next|
  {
    var u :| u in next && Sum(next) == next[u] + Sum(next - {u});
    if u != t {
      SumWithout(next - {u}, t);
      SumWithout(next - {t}, u);
      assert next - {u} - {t} == next - {t} - {u};
    }
  }

  lemma SumUpdate(next: map<nat, nat>, t: nat, n: nat)
    requires t in next
    ensures Sum(next[t := n]) + next[t] == Sum(next) + n
  {
    SumWithout(next, t);
    SumWithout(next[t := n], t);
    assert next[t := n] - {t} == next - {t};
  }

  function Stage(s: State): nat {
    match s.phase
    case Redo(_) => 3
    case Undo(_) => 2
    case UndoApply(_, _) => 2
    case Finish(_) => 1
    case Done => 0
  }

  ghost function Left(s: State): nat {
    match s.phase
    case Redo(pos) => if pos <= s.scanned then s.scanned - pos else 0
    case Undo(next) => 2 * Sum(next)
    case UndoApply(next, _) => 2 * Sum(next) + 1
    case Finish(left) => |left|
    case Done => 0
  }

  /** Undo always moves to an earlier record. */
  lemma UndoGoesBack(log: Log, base: map<nat, Image>, i: nat)
    requires LogInv(log, base) && i < |log| && log[i].txnId != INVALID_TXN
    ensures log[i].prevLsn <= i
    ensures log[i].recordType == Compensation ==> log[i].undoNextLsn <= i
  {
    assert RecordOk(log, i, base);
    if log[i].recordType == Compensation { var c := ClrTarget(log, base, i); }
  }

  lemma UndoStepSinks(s: State, s': State, base: map<nat, Image>, t: nat)
    requires LogInv(s.log, base) && s.phase.Undo? && t in s.phase.next && UndoStep(s, s', s.phase.next, t)
    requires s.log[s.phase.next[t] - 1].txnId != INVALID_TXN
    ensures Stage(s') == Stage(s) && Left(s') < Left(s)
  {
    var r := s.log[s.phase.next[t] - 1];
    UndoGoesBack(s.log, base, s.phase.next[t] - 1);
    SumUpdate(s.phase.next, t, if r.recordType == Compensation then r.undoNextLsn else r.prevLsn);
  }

  ghost predicate Sinks(s: State, s': State) {
    Stage(s') < Stage(s) || (Stage(s') == Stage(s) && Left(s') < Left(s))
  }

  lemma UndoSinks(s: State, s': State, base: map<nat, Image>)
    requires LogInv(s.log, base) && s.phase.Undo? && AllStand(s.log, s.phase.next) && RecoverStep(s, s')
    ensures Sinks(s, s')
  {
    var next := s.phase.next;
    if exists t :: t in next && next[t] != 0 {
      var t :| t in next && UndoStep(s, s', next, t);
      assert StandsAt(s.log, t, next[t]);
      UndoStepSinks(s, s', base, t);
    }
  }

  lemma OtherSinks(s: State, s': State)
    requires !s.phase.Undo? && RecoverStep(s, s')
    ensures Sinks(s, s')
  {
  }

  /** Every step of recovery brings it closer to its end. */
  lemma StepSinks(s: State, s': State, base: map<nat, Image>)
    requires Inv(s, base) && RecoverStep(s, s')
    ensures Sinks(s, s')
  {
    if s.phase.Undo? { UndoSinks(s, s', base); } else { OtherSinks(s, s'); }
  }

  lemma LatestExists(next: map<nat, nat>) returns (t: nat)
    requires exists u :: u in next && next[u] != 0
    ensures IsLatest(next, t)
    decreases |next|
  {
    t :| t in next && next[t] != 0;
    if u :| u in next && next[u] > next[t] {
      var rest := next - {t};
      assert u in rest && rest[u] != 0;
      var v := LatestExists(rest);
      assert forall w :: w in next && w != t ==> w in rest;
      t := v;
    }
  }

  /** Recovery is never stuck before it is done. */
  lemma CanRedo(s: State, base: map<nat, Image>) returns (s': State)
    requires Inv(s, base) && s.phase.Redo?
    ensures RecoverStep(s, s')
  {
    var pos := s.phase.pos;
    if pos < s.scanned {
      s' := s.(phase := Redo(pos + 1),
               disk := if IsRedone(s.log, s.scanned, s.log[pos]) then RedoEffect(s.disk, s.log[pos]) else s.disk);
    } else {
      s' := s.(phase := Undo(LoserMap(s.log, s.scanned)));
    }
  }

  lemma CanUndo(s: State, base: map<nat, Image>) returns (s': State)
    requires Inv(s, base) && s.phase.Undo?
    ensures RecoverStep(s, s')
  {
    var next := s.phase.next;
    if forall t :: t in next ==> next[t] == 0 {
      s' := s.(phase := Finish(next.Keys));
    } else {
      var t := LatestExists(next);
      assert StandsAt(s.log, t, next[t]);
      var r := s.log[next[t] - 1];
      s' := if r.recordType == Compensation then s.(phase := Undo(next[t := r.undoNextLsn]))
            else if Undoable(r) then s.(phase := UndoApply(next[t := r.prevLsn], next[t]),
                                        log := s.log + [ClrFor(s.log, r)])
            else s.(phase := Undo(next[t := r.prevLsn]));
      assert UndoStep(s, s', next, t);
    }
  }

  lemma CanStep(s: State, base: map<nat, Image>) returns (s': State)
    requires Inv(s, base) && !s.phase.Done?
    ensures RecoverStep(s, s')
  {
    match s.phase
    case Redo(pos) => s' := CanRedo(s, base);
    case Undo(next) => s' := CanUndo(s, base);
    case UndoApply(next, target) =>
      s' := s.(phase := Undo(next), disk := UndoEffect(s.disk, s.log[target - 1]));
    case Finish(left) =>
      if left == {} {
        s' := s.(phase := Done);
      } else {
        var t :| t in left;
        s' := s.(phase := Finish(left - {t}), log := s.log + [AbortFor(s.log, t)]);
      }
  }

  ghost function LoserMap(log: Log, n: nat): (next: map<nat, nat>)
    requires n <= |log|
    ensures AllLosers(log, n, next)
    ensures forall t :: t in next ==> next[t] == LastLsn(log, n, t)
  {
    assert forall t :: Loser(log, n, t) ==> t in (set i | 0 <= i < n :: log[i].txnId);
    map t | t in (set i | 0 <= i < n :: log[i].txnId) && Loser(log, n, t) :: LastLsn(log, n, t)
  }

  /** From every state recovery reaches its end if it is left alone. */
  lemma {:induction false} RunsToDone(s: State, base: map<nat, Image>) returns (run: seq<State>)
    requires Inv(s, base)
    ensures Attempts(run) && run[0] == s && run[|run| - 1].phase.Done?
    ensures forall i :: 0 <= i < |run| - 1 ==> RecoverStep(run[i], run[i + 1])
    decreases Stage(s), Left(s)
  {
    if s.phase.Done? {
      run := [s];
    } else {
      var s' := CanStep(s, base);
      StepSinks(s, s', base);
      RecoverKeepsInv(s, s', base);
      var rest := RunsToDone(s', base);
      run := [s] + rest;
      forall i | 0 <= i < |run| - 1 ensures RecoverStep(run[i], run[i + 1]) {
        if i > 0 { assert run[i] == rest[i - 1] && run[i + 1] == rest[i]; }
      }
    }
  }

  // ----- restarting recovery does not change its outcome -----

  /** Records recovery adds change no final image. */
  lemma {:induction false} QuietTail(log: Log, n: nat, p: nat, image: Image)
    requires n <= |log| && forall i :: n <= i < |log| ==> IsQuiet(log[i])
    ensures Final(log, p, image) == Final(log[..n], p, image)
    ensures Named(log, |log|, p) == Named(log[..n], n, p)
    decreases |log|
  {
    if n < |log| {
      var m := |log| - 1;
      QuietTail(log[..m], n, p, image);
      assert log[..m][..n] == log[..n];
      assert log[..m] + [log[m]] == log;
      QuietAppend(log[..m], log[m], p, image);
    } else {
      assert log[..n] == log;
    }
  }

  lemma {:induction false} AttemptsKeepFreed(run: seq<State>, base: map<nat, Image>, log: Log, freed: set<nat>, k: nat)
    requires Attempts(run) && k < |run| && Inv(run[0], base) && FreedInv(log, freed, run[0])
    ensures Inv(run[k], base) && FreedInv(log, freed, run[k])
  {
    if k > 0 {
      var m := k - 1;
      AttemptsKeepFreed(run, base, log, freed, m);
      AttemptKeepsFreed(log, freed, run[m], run[k], base);
      AttemptKeepsInv(run[m], run[k], base);
    }
  }

  /** Recovery may crash at any step, any number of times, with any part of its own records lost: once an attempt
      completes, the pages are those that the original log promises, and exactly the pages that it owes are freed. */
  lemma RecoveryIsRestartable(log: Log, disk: Disk, base: map<nat, Image>, run: seq<State>)
    requires CrashSafe(log, |log|, disk, base)
    requires Attempts(run) && run[0] == Start(log, disk) && run[|run| - 1].phase.Done?
    ensures var end := run[|run| - 1].disk;
            && FreesExactly(log, disk.freed, end.freed)
            && forall p :: Tracked(log, base, p) ==> p in end.pages && end.pages[p] == Final(log, p, base[p])
  {
    StartInv(log, disk, base);
    StartFreed(log, disk, base);
    AttemptsKeepFreed(run, base, log, disk.freed, |run| - 1);
    var end := run[|run| - 1];
    FreedAtEnd(log, disk.freed, end);
    RestoredByOld(end.log, log, end.disk, base);
  }

  // ----- the program -----

  datatype RecoveryTransaction = RecoveryTransaction(lastLsn: nat, terminal: bool, terminalType: RecordType,
                                                     terminalLsn: nat)

  /** What analysis knows after the first `n` records. */
  ghost predicate Analysed(log: Log, n: nat, txns: map<nat, RecoveryTransaction>)
    requires n <= |log|
  {
    && (forall t :: t in txns <==> t != INVALID_TXN && HasRecord(log, n, t))
    && (forall t :: t in txns ==> AnalysedTxn(log, n, t, txns[t]))
  }

  ghost predicate AnalysedTxn(log: Log, n: nat, t: nat, x: RecoveryTransaction)
    requires n <= |log|
  {
    && x.lastLsn == LastLsn(log, n, t)
    && (x.terminal <==> Terminated(log, n, t))
    && (x.terminal ==> (x.terminalType == Commit <==> HasCommit(log, n, t)))
    && (x.terminal ==> x.terminalType in {Commit, Abort})
    && x.terminalLsn <= n
  }

  function NoTransaction(): RecoveryTransaction {
    RecoveryTransaction(INVALID_LSN, false, RecordType.Begin, INVALID_LSN)
  }

  function Analyse(x: RecoveryTransaction, r: LogRecord): RecoveryTransaction {
    var y := x.(lastLsn := if x.lastLsn < r.lsn then r.lsn else x.lastLsn);
    if r.recordType in {Commit, Abort} && r.lsn >= x.terminalLsn then
      y.(terminal := true, terminalType := r.recordType, terminalLsn := r.lsn)
    else y
  }

  /** One more record of the log is taken into account. */
  function AnalyseRecord(txns: map<nat, RecoveryTransaction>, r: LogRecord): map<nat, RecoveryTransaction> {
    if r.txnId == INVALID_TXN then txns
    else txns[r.txnId := Analyse(if r.txnId in txns then txns[r.txnId] else NoTransaction(), r)]
  }

  lemma AnalysedStep(log: Log, base: map<nat, Image>, n: nat, t: nat, x: RecoveryTransaction)
    requires LogInv(log, base) && n < |log| && log[n].txnId == t != INVALID_TXN && AnalysedTxn(log, n, t, x)
    ensures AnalysedTxn(log, n + 1, t, Analyse(x, log[n]))
  {
    assert RecordOk(log, n, base);
    OneMore(log, n, t);
    NeverBothEnds(log, base, n, t);
  }

  lemma AnalysedOther(log: Log, n: nat, t: nat, x: RecoveryTransaction)
    requires n < |log| && log[n].txnId != t && AnalysedTxn(log, n, t, x)
    ensures AnalysedTxn(log, n + 1, t, x)
  {
    OneMore(log, n, t);
  }

  lemma AnalysedKeys(log: Log, n: nat, txns: map<nat, RecoveryTransaction>)
    requires n < |log| && forall t :: t in txns <==> t != INVALID_TXN && HasRecord(log, n, t)
    ensures forall t :: t in AnalyseRecord(txns, log[n]) <==> t != INVALID_TXN && HasRecord(log, n + 1, t)
  {
    forall u ensures HasRecord(log, n + 1, u) == (HasRecord(log, n, u) || u == log[n].txnId) { OneMore(log, n, u); }
  }

  lemma AnalysedOne(log: Log, base: map<nat, Image>, n: nat, txns: map<nat, RecoveryTransaction>, u: nat)
    requires LogInv(log, base) && n < |log| && Analysed(log, n, txns) && u in AnalyseRecord(txns, log[n])
    ensures AnalysedTxn(log, n + 1, u, AnalyseRecord(txns, log[n])[u])
  {
    if u == log[n].txnId && u != INVALID_TXN {
      if u !in txns { NoRecords(log, n, u); }
      AnalysedStep(log, base, n, u, if u in txns then txns[u] else NoTransaction());
    } else {
      AnalysedOther(log, n, u, txns[u]);
    }
  }

  lemma AnalysedAll(log: Log, base: map<nat, Image>, n: nat, txns: map<nat, RecoveryTransaction>)
    requires LogInv(log, base) && n < |log| && Analysed(log, n, txns)
    ensures Analysed(log, n + 1, AnalyseRecord(txns, log[n]))
  {
    AnalysedKeys(log, n, txns);
    forall u | u in AnalyseRecord(txns, log[n]) ensures AnalysedTxn(log, n + 1, u, AnalyseRecord(txns, log[n])[u]) {
      AnalysedOne(log, base, n, txns, u);
    }
  }

  lemma IndexedStep(log: Log, base: map<nat, Image>, n: nat, byLsn: map<nat, LogRecord>)
    requires LogInv(log, base) && n < |log| && Indexed(log, n, byLsn)
    ensures Indexed(log, n + 1, byLsn[log[n].lsn := log[n]])
  {
    assert RecordOk(log, n, base);
  }

  /** Winners and losers, as analysis tells them apart. */
  lemma Classified(log: Log, base: map<nat, Image>, txns: map<nat, RecoveryTransaction>, winners: set<nat>,
                   losers: set<nat>)
    requires LogInv(log, base) && Analysed(log, |log|, txns)
    requires winners == (set t | t in txns && txns[t].terminal && txns[t].terminalType == Commit)
    requires losers == (set t | t in txns && !txns[t].terminal)
    ensures forall t :: t in winners <==> t != INVALID_TXN && HasCommit(log, |log|, t)
    ensures forall t :: t in losers <==> Loser(log, |log|, t)
  {
    forall t ensures t in winners <==> t != INVALID_TXN && HasCommit(log, |log|, t) {
      if t in txns { assert AnalysedTxn(log, |log|, t, txns[t]); }
    }
    forall t ensures t in losers <==> Loser(log, |log|, t) {
      if t in txns { assert AnalysedTxn(log, |log|, t, txns[t]); }
    }
  }

  lemma NoRecords(log: Log, n: nat, t: nat)
    requires n <= |log| && !HasRecord(log, n, t)
    ensures AnalysedTxn(log, n, t, NoTransaction())
  {
  }

  /** An entry of the undo queue. */
  datatype PendingUndo = PendingUndo(lsn: nat, txnId: nat)

  /** One queue entry per loser that still has something to undo. */
  ghost predicate Queued(pending: set<PendingUndo>, next: map<nat, nat>) {
    forall q :: q in pending <==> q.txnId in next && next[q.txnId] == q.lsn && q.lsn != INVALID_LSN
  }

  /** The top of the queue: the largest LSN. */
  predicate IsTop(pending: set<PendingUndo>, top: PendingUndo) {
    top in pending && forall q :: q in pending ==> q.lsn <= top.lsn
  }

  lemma TopIsLatest(pending: set<PendingUndo>, next: map<nat, nat>, top: PendingUndo)
    requires Queued(pending, next) && IsTop(pending, top)
    ensures IsLatest(next, top.txnId) && next[top.txnId] == top.lsn > 0
  {
    forall u | u in next ensures next[u] <= top.lsn {
      if next[u] != 0 { assert PendingUndo(next[u], u) in pending; }
    }
  }

  lemma TopExists(pending: set<PendingUndo>) returns (top: PendingUndo)
    requires pending != {}
    ensures IsTop(pending, top)
  {
    top :| top in pending;
    if q :| q in pending && q.lsn > top.lsn {
      assert q in pending - {top};
      var u := TopExists(pending - {top});
      assert forall q :: q in pending && q != top ==> q in pending - {top};
      top := u;
    }
  }

  lemma QueueStep(pending: set<PendingUndo>, next: map<nat, nat>, t: nat, l: nat)
    requires Queued(pending, next) && t in next && PendingUndo(next[t], t) in pending
    ensures Queued(pending - {PendingUndo(next[t], t)} + (if l != INVALID_LSN then {PendingUndo(l, t)} else {}),
                   next[t := l])
  {
  }

  lemma QueueEmpty(pending: set<PendingUndo>, next: map<nat, nat>)
    requires Queued(pending, next) && pending == {}
    ensures forall t :: t in next ==> next[t] == 0
  {
    forall t | t in next ensures next[t] == 0 { assert PendingUndo(next[t], t) !in pending; }
  }

  /** Records of the scanned log, by LSN. */
  ghost predicate Indexed(log: Log, n: nat, byLsn: map<nat, LogRecord>)
    requires n <= |log|
  {
    && (forall l :: l in byLsn <==> 0 < l <= n)
    && forall l :: l in byLsn ==> byLsn[l] == log[l - 1]
  }

  /** The chain tails recovery keeps for the losers are those of the log. */
  ghost predicate TailsKnown(log: Log, tails: map<nat, nat>, losers: set<nat>) {
    forall t :: t in losers ==> t in tails && tails[t] == LastLsn(log, |log|, t)
  }

  lemma TailsGrow(log: Log, r: LogRecord, tails: map<nat, nat>, losers: set<nat>)
    requires TailsKnown(log, tails, losers) && r.txnId in losers
    ensures TailsKnown(log + [r], tails[r.txnId := |log| + 1], losers)
  {
    forall t { LastLsnAgrees(log, log + [r], |log|, t); }
  }

  function FollowingLsn(r: LogRecord): nat {
    if r.recordType == Compensation then r.undoNextLsn else r.prevLsn
  }

  /** All invariants, of an attempt that began in `first`. */
  ghost predicate Goes(first: State, s: State, base: map<nat, Image>) {
    && Inv(s, base) && LogInv(first.log, base)
    && FreedInv(first.log, first.disk.freed, s) && ImagesInv(first.log, first.disk.pages, s)
  }

  lemma GoesOn(first: State, s: State, s': State, base: map<nat, Image>)
    requires Goes(first, s, base) && RecoverStep(s, s')
    ensures Goes(first, s', base)
  {
    RecoverKeepsInv(s, s', base);
    RecoverKeepsFreed(first.log, first.disk.freed, s, s', base);
    RecoverKeepsImages(first.log, first.disk.pages, s, s', base);
  }

  /** One turn of the undo loop, as one or two steps of the machine. */
  lemma UndoTurn(first: State, s: State, base: map<nat, Image>, next: map<nat, nat>, t: nat)
    requires Goes(first, s, base) && s.phase == Undo(next) && IsLatest(next, t) && next[t] <= s.scanned
    ensures next[t] <= |s.log|
    ensures var r := s.log[next[t] - 1];
            var s' := if Undoable(r) then s.(phase := Undo(next[t := r.prevLsn]), log := s.log + [ClrFor(s.log, r)],
                                             disk := UndoEffect(s.disk, r))
                      else s.(phase := Undo(next[t := FollowingLsn(r)]));
            Goes(first, s', base)
  {
    if Undoable(s.log[next[t] - 1]) {
      UndoTwoSteps(first, s, base, next, t);
    } else {
      var s1 := s.(phase := Undo(next[t := FollowingLsn(s.log[next[t] - 1])]));
      assert UndoStep(s, s1, next, t);
      GoesOn(first, s, s1, base);
    }
  }

  lemma UndoTwoSteps(first: State, s: State, base: map<nat, Image>, next: map<nat, nat>, t: nat)
    requires Goes(first, s, base) && s.phase == Undo(next) && IsLatest(next, t) && next[t] <= |s.log|
             && Undoable(s.log[next[t] - 1])
    ensures var r := s.log[next[t] - 1];
            Goes(first, s.(phase := Undo(next[t := r.prevLsn]), log := s.log + [ClrFor(s.log, r)],
                           disk := UndoEffect(s.disk, r)), base)
  {
    var r := s.log[next[t] - 1];
    var s1 := s.(phase := UndoApply(next[t := r.prevLsn], next[t]), log := s.log + [ClrFor(s.log, r)]);
    var s2 := s1.(phase := Undo(next[t := r.prevLsn]), disk := UndoEffect(s.disk, r));
    assert UndoStep(s, s1, next, t) && s1.log[next[t] - 1] == r;
    TwoStepsAre(s, s1, s2, next, t);
    GoesOn(first, s, s1, base);
    GoesOn(first, s1, s2, base);
  }

  lemma TwoStepsAre(s: State, s1: State, s2: State, next: map<nat, nat>, t: nat)
    requires s.phase == Undo(next) && IsLatest(next, t) && next[t] <= |s.log| && UndoStep(s, s1, next, t)
    requires s1.phase.UndoApply? && s1.phase.target == next[t] && next[t] <= |s1.log|
    requires s2 == s1.(phase := Undo(s1.phase.next), disk := UndoEffect(s1.disk, s1.log[next[t] - 1]))
    ensures RecoverStep(s, s1) && RecoverStep(s1, s2)
  {
  }

  lemma UndoTarget(s: State, base: map<nat, Image>, next: map<nat, nat>, t: nat)
    requires Inv(s, base) && s.phase == Undo(next) && t in next && 0 < next[t]
    ensures next[t] <= |s.log|
    ensures var r := s.log[next[t] - 1];
            r.txnId == t != INVALID_TXN && FollowingLsn(r) < next[t] && Loser(s.log, |s.log|, t)
  {
    assert StandsAt(s.log, t, next[t]);
    UndoGoesBack(s.log, base, next[t] - 1);
  }

  lemma RedoTurn(first: State, s: State, base: map<nat, Image>, pos: nat)
    requires Goes(first, s, base) && s.phase == Redo(pos) && pos < s.scanned
    ensures Goes(first, s.(phase := Redo(pos + 1),
                   disk := if IsRedone(s.log, s.scanned, s.log[pos]) then RedoEffect(s.disk,
                       s.log[pos]) else s.disk), base)
  {
    GoesOn(first, s, s.(phase := Redo(pos + 1),
                          disk := if IsRedone(s.log, s.scanned, s.log[pos]) then RedoEffect(s.disk,
                              s.log[pos]) else s.disk), base);
  }

  lemma RedoEnds(first: State, s: State, base: map<nat, Image>, next: map<nat, nat>)
    requires Goes(first, s, base) && s.phase == Redo(s.scanned) && AllLosers(s.log, s.scanned, next)
    requires forall t :: t in next ==> next[t] == LastLsn(s.log, s.scanned, t)
    ensures Goes(first, s.(phase := Undo(next)), base)
  {
    GoesOn(first, s, s.(phase := Undo(next)), base);
  }

  lemma UndoEnds(first: State, s: State, base: map<nat, Image>, next: map<nat, nat>)
    requires Goes(first, s, base) && s.phase == Undo(next) && forall t :: t in next ==> next[t] == 0
    ensures Goes(first, s.(phase := Finish(next.Keys)), base)
  {
    GoesOn(first, s, s.(phase := Finish(next.Keys)), base);
  }

  lemma FinishTurn(first: State, s: State, base: map<nat, Image>, left: set<nat>, t: nat)
    requires Goes(first, s, base) && s.phase == Finish(left) && t in left
    ensures Goes(first, s.(phase := Finish(left - {t}), log := s.log + [AbortFor(s.log, t)]), base)
  {
    GoesOn(first, s, s.(phase := Finish(left - {t}), log := s.log + [AbortFor(s.log, t)]), base);
  }

  lemma FinishEnds(first: State, s: State, base: map<nat, Image>)
    requires Goes(first, s, base) && s.phase == Finish({})
    ensures AllRestored(s.log, s.disk, base) && forall t :: !Loser(s.log, |s.log|, t)
  {
  }

  /** Where the undo loop stands. */
  ghost predicate UndoLoop(first: State, s: State, base: map<nat, Image>, next: map<nat, nat>, losers: set<nat>,
                           tails: map<nat, nat>) {
    Goes(first, s, base) && UndoRest(first, s, next, losers, tails)
  }

  ghost predicate UndoRest(first: State, s: State, next: map<nat, nat>, losers: set<nat>, tails: map<nat, nat>) {
    && s.phase == Undo(next) && next.Keys == losers && s.scanned == first.scanned == |first.log|
    && (forall t :: t in next ==> next[t] <= s.scanned)
    && TailsKnown(s.log, tails, losers)
  }

  lemma FoundByLsn(first: State, s: State, base: map<nat, Image>, next: map<nat, nat>, losers: set<nat>,
                   tails: map<nat, nat>, t: nat, byLsn: map<nat, LogRecord>)
    requires UndoLoop(first, s, base, next, losers, tails) && t in next && 0 < next[t]
             && Indexed(first.log, |first.log|, byLsn)
    ensures next[t] <= |s.log| && next[t] in byLsn && byLsn[next[t]] == s.log[next[t] - 1] && byLsn[next[t]].txnId == t
    ensures FollowingLsn(byLsn[next[t]]) < next[t] && t in tails && tails[t] == LastLsn(s.log, |s.log|, t)
  {
    UndoTarget(s, base, next, t);
  }

  lemma UndoLoopPasses(first: State, s: State, base: map<nat, Image>, next: map<nat, nat>, losers: set<nat>,
                       tails: map<nat, nat>, t: nat, r: LogRecord)
    requires UndoLoop(first, s, base, next, losers, tails) && IsLatest(next, t) && next[t] <= |s.log|
             && s.log[next[t] - 1] == r
    requires r.txnId == t && FollowingLsn(r) < next[t] && !Undoable(r)
    ensures UndoLoop(first, s.(phase := Undo(next[t := FollowingLsn(r)])), base, next[t := FollowingLsn(r)], losers,
                     tails)
  {
    UndoTurn(first, s, base, next, t);
  }

  /** A turn that undoes a record, on the values the program computes. */
  lemma TurnWrites(first: State, s: State, base: map<nat, Image>, next: map<nat, nat>, tails: map<nat, nat>, t: nat,
                   r: LogRecord, s': State)
    requires Goes(first, s, base) && s.phase == Undo(next) && IsLatest(next, t) && next[t] <= s.scanned
    requires next[t] <= |s.log| && s.log[next[t] - 1] == r && r.txnId == t && Undoable(r)
    requires t in tails && tails[t] == LastLsn(s.log, |s.log|, t)
    requires s' == s.(phase := Undo(next[t := r.prevLsn]), log := s.log + [Clr(|s.log| + 1, tails[t], r)],
                      disk := UndoEffect(s.disk, r))
    ensures Goes(first, s', base)
  {
    assert Clr(|s.log| + 1, tails[t], r) == ClrFor(s.log, r);
    UndoTwoSteps(first, s, base, next, t);
  }

  lemma RestWrites(first: State, s: State, next: map<nat, nat>, losers: set<nat>, tails: map<nat, nat>, t: nat,
                   r: LogRecord, s': State)
    requires UndoRest(first, s, next, losers, tails) && t in next && r.txnId == t && FollowingLsn(r) < next[t]
             && Undoable(r)
    requires s' == s.(phase := Undo(next[t := r.prevLsn]), log := s.log + [Clr(|s.log| + 1, tails[t], r)],
                      disk := UndoEffect(s.disk, r))
    ensures UndoRest(first, s', next[t := r.prevLsn], losers, tails[t := |s.log| + 1])
  {
    TailsGrow(s.log, Clr(|s.log| + 1, tails[t], r), tails, losers);
  }

  lemma UndoLoopStarts(first: State, s: State, base: map<nat, Image>, next: map<nat, nat>, tails: map<nat, nat>)
    requires Goes(first, s, base) && s.phase == Redo(|s.log|) && s.scanned == |s.log| == first.scanned == |first.log|
    requires TailsKnown(s.log, tails, next.Keys)
    requires forall t :: t in next <==> Loser(s.log, |s.log|, t)
    requires forall t :: t in next ==> next[t] == tails[t]
    ensures UndoLoop(first, s.(phase := Undo(next)), base, next, next.Keys, tails)
  {
    RedoEnds(first, s, base, next);
  }

  lemma UndoLoopEnds(first: State, s: State, base: map<nat, Image>, next: map<nat, nat>, losers: set<nat>,
                     tails: map<nat, nat>)
    requires UndoLoop(first, s, base, next, losers, tails) && forall t :: t in next ==> next[t] == 0
    ensures FinishLoop(first, s.(phase := Finish(losers)), base, losers, tails)
  {
    UndoEnds(first, s, base, next);
  }

  /** Where the final loop stands. */
  ghost predicate FinishLoop(first: State, s: State, base: map<nat, Image>, left: set<nat>, tails: map<nat, nat>) {
    s.phase == Finish(left) && Goes(first, s, base) && TailsKnown(s.log, tails, left)
  }

  lemma FinishLoopTurn(first: State, s: State, base: map<nat, Image>, left: set<nat>, tails: map<nat, nat>, t: nat)
    requires FinishLoop(first, s, base, left, tails) && t in left
    ensures t in tails && tails[t] == LastLsn(s.log, |s.log|, t)
    ensures FinishLoop(first, s.(phase := Finish(left - {t}), log := s.log + [AbortFor(s.log, t)]), base, left - {t},
                       tails)
  {
    FinishTurn(first, s, base, left, t);
    OtherTails(s.log, AbortFor(s.log, t), tails, left);
  }

  lemma FinishLoopEnds(first: State, s: State, base: map<nat, Image>, tails: map<nat, nat>)
    requires FinishLoop(first, s, base, {}, tails)
    ensures forall p :: Tracked(first.log, base, p) ==>
              p in s.disk.pages && s.disk.pages[p] == Final(first.log, p, base[p])
    ensures FreesExactly(first.log, first.disk.freed, s.disk.freed)
    ensures WritesExpected(first.log, first.disk.pages, s.disk)
    ensures (forall t :: !Loser(s.log, |s.log|, t)) && AddsQuiet(first.log, s.log)
  {
    FinishEnds(first, s, base);
    FreedAtEnd(first.log, first.disk.freed, s);
    ImagesAtEnd(first.log, first.disk.pages, s);
    RestoredByOld(s.log, first.log, s.disk, base);
  }

  class RecoveryManager {
    var log: Log
    var disk: Disk

    constructor (log: Log, disk: Disk)
      ensures this.log == log && this.disk == disk
    {
      this.log := log;
      this.disk := disk;
    }

    /** Reads the whole log once: what each transaction did last, and how it ended. */
    method Analysis(scan: Log, ghost base: map<nat, Image>)
        returns (txns: map<nat, RecoveryTransaction>, byLsn: map<nat, LogRecord>, winners: set<nat>, losers: set<nat>)
      requires LogInv(scan, base)
      ensures Analysed(scan, |scan|, txns) && Indexed(scan, |scan|, byLsn)
      ensures forall t :: t in winners <==> t != INVALID_TXN && HasCommit(scan, |scan|, t)
      ensures forall t :: t in losers <==> Loser(scan, |scan|, t)
    {
      txns, byLsn := map[], map[];
      for i := 0 to |scan|
        invariant Analysed(scan, i, txns) && Indexed(scan, i, byLsn)
      {
        var r := scan[i];
        AnalysedAll(scan, base, i, txns);
        IndexedStep(scan, base, i, byLsn);
        byLsn := byLsn[r.lsn := r];
        txns := AnalyseRecord(txns, r);
      }
      winners := set t | t in txns && txns[t].terminal && txns[t].terminalType == Commit;
      losers := set t | t in txns && !txns[t].terminal;
      Classified(scan, base, txns, winners, losers);
    }

    /** Redo in LSN order: winners, and the compensations of losers. */
    method RedoAll(winners: set<nat>, losers: set<nat>, ghost first: State, ghost base: map<nat, Image>)
      requires Goes(first, Start(log, disk), base)
      requires forall t :: t in winners <==> t != INVALID_TXN && HasCommit(log, |log|, t)
      requires forall t :: t in losers <==> Loser(log, |log|, t)
      modifies this`disk
      ensures Goes(first, State(log, |log|, disk, Redo(|log|)), base)
    {
      for i := 0 to |log|
        invariant Goes(first, State(log, |log|, disk, Redo(i)), base)
      {
        var r := log[i];
        RedoTurn(first, State(log, |log|, disk, Redo(i)), base, i);
        CommitNamesTxn(log, base, i);
        if r.txnId in winners || (r.txnId in losers && r.recordType == Compensation) {
          disk := RedoEffect(disk, r);
        }
      }
    }

    /** Log the compensation of `r`, then undo it. */
    method UndoOne(ghost first: State, ghost base: map<nat, Image>, ghost next: map<nat, nat>, ghost losers: set<nat>,
                   tails: map<nat, nat>, t: nat, r: LogRecord)
        returns (tails': map<nat, nat>)
      requires UndoLoop(first, State(log, first.scanned, disk, Undo(next)), base, next, losers, tails)
      requires IsLatest(next, t) && next[t] <= |log| && log[next[t] - 1] == r && r.txnId == t
               && FollowingLsn(r) < next[t]
      requires t in tails && tails[t] == LastLsn(log, |log|, t)
      modifies this
      ensures UndoLoop(first, State(log, first.scanned, disk, Undo(next[t := FollowingLsn(r)])), base,
                       next[t := FollowingLsn(r)], losers, tails')
    {
      ghost var s, next' := State(log, first.scanned, disk, Undo(next)), next[t := FollowingLsn(r)];
      if Undoable(r) {
        var log', disk' := log + [Clr(|log| + 1, tails[t], r)], UndoEffect(disk, r);
        tails' := tails[t := |log| + 1];
        TurnWrites(first, s, base, next, tails, t, r, State(log', first.scanned, disk', Undo(next')));
        RestWrites(first, s, next, losers, tails, t, r, State(log', first.scanned, disk', Undo(next')));
        log := log';
        disk := disk';
      } else {
        UndoLoopPasses(first, s, base, next, losers, tails, t, r);
        tails' := tails;
      }
    }

    /** Takes the record with the largest LSN from the queue, undoes it, and queues the one to undo after it. */
    method UndoTop(ghost first: State, byLsn: map<nat, LogRecord>, ghost losers: set<nat>, tails: map<nat, nat>,
                   next: map<nat, nat>, pending: set<PendingUndo>, ghost base: map<nat, Image>)
        returns (ok: bool, tails': map<nat, nat>, next': map<nat, nat>, pending': set<PendingUndo>)
      requires UndoLoop(first, State(log, first.scanned, disk, Undo(next)), base, next, losers, tails)
      requires Queued(pending, next) && pending != {} && Indexed(first.log, |first.log|, byLsn)
      modifies this
      ensures ok && UndoLoop(first, State(log, first.scanned, disk, Undo(next')), base, next', losers, tails')
      ensures Queued(pending', next') && Sum(next') < Sum(next)
    {
      ghost var s := State(log, first.scanned, disk, Undo(next));
      ghost var some := TopExists(pending);
      var top :| IsTop(pending, top);
      var lsn, t := top.lsn, top.txnId;
      TopIsLatest(pending, next, top);
      FoundByLsn(first, s, base, next, losers, tails, t, byLsn);
      if lsn !in byLsn || byLsn[lsn].txnId != t { return false, tails, next, pending; }
      var r := byLsn[lsn];
      var after := FollowingLsn(r);
      QueueStep(pending, next, t, after);
      SumUpdate(next, t, after);
      tails' := UndoOne(first, base, next, losers, tails, t, r);
      next' := next[t := after];
      pending' := pending - {top} + (if after != INVALID_LSN then {PendingUndo(after, t)} else {});
      ok := true;
    }

    /** Undo of all losers together, latest record first; each action is logged before it is done. */
    method UndoAll(byLsn: map<nat, LogRecord>, losers: set<nat>, last: map<nat, nat>, ghost first: State,
                   ghost base: map<nat, Image>)
        returns (ok: bool, tails: map<nat, nat>)
      requires Goes(first, State(log, |log|, disk, Redo(|log|)), base) && first.log == log && first.scanned == |log|
      requires Indexed(log, |log|, byLsn) && TailsKnown(log, last, losers)
      requires forall t :: t in losers <==> Loser(log, |log|, t)
      modifies this
      ensures ok && FinishLoop(first, State(log, |old(log)|, disk, Finish(losers)), base, losers, tails)
    {
      tails := last;
      var next := map t | t in losers :: tails[t];
      assert next.Keys == losers;
      var pending := set t | t in losers && next[t] != INVALID_LSN :: PendingUndo(next[t], t);
      UndoLoopStarts(first, State(log, |log|, disk, Redo(|log|)), base, next, tails);
      while pending != {}
        invariant UndoLoop(first, State(log, first.scanned, disk, Undo(next)), base, next, losers, tails)
                  && Queued(pending, next)
        decreases Sum(next)
      {
        ok, tails, next, pending := UndoTop(first, byLsn, losers, tails, next, pending, base);
        if !ok { return; }
      }
      QueueEmpty(pending, next);
      UndoLoopEnds(first, State(log, first.scanned, disk, Undo(next)), base, next, losers, tails);
      ok := true;
    }

    method FinishOne(ghost first: State, ghost left: set<nat>, tails: map<nat, nat>, t: nat, ghost base: map<nat,
                     Image>)
      requires FinishLoop(first, State(log, first.scanned, disk, Finish(left)), base, left, tails) && t in left
      modifies this`log
      ensures FinishLoop(first, State(log, first.scanned, disk, Finish(left - {t})), base, left - {t}, tails)
    {
      FinishLoopTurn(first, State(log, first.scanned, disk, Finish(left)), base, left, tails, t);
      var abort := LogRecord(Abort, |log| + 1, t, tails[t], 0, INVALID_LSN, Checkpoint, [], []);
      assert abort == AbortFor(log, t);
      log := log + [abort];
    }

    /** Only now are the losers declared finished. */
    method FinishAll(ghost first: State, losers: set<nat>, tails: map<nat, nat>, ghost base: map<nat, Image>)
      requires FinishLoop(first, State(log, first.scanned, disk, Finish(losers)), base, losers, tails)
      modifies this`log
      ensures FinishLoop(first, State(log, first.scanned, disk, Finish({})), base, {}, tails)
    {
      var left := losers;
      while left != {}
        invariant FinishLoop(first, State(log, first.scanned, disk, Finish(left)), base, left, tails)
        decreases |left|
      {
        var t :| t in left;
        FinishOne(first, left, tails, t, base);
        left := left - {t};
      }
    }

    /** Recovery. Every page that no allocation or deallocation names ends with the image of its last committed update;
        the pages given back are those that a winner freed or a loser allocated, and every other page, known to the
        last checkpoint or not, has what the log asks for; nobody is left unfinished; the log is only added to. */
    method Recover(ghost base: map<nat, Image>) returns (ok: bool)
      requires CrashSafe(log, |log|, disk, base)
      modifies this
      ensures ok
      ensures forall p :: Tracked(old(log), base, p) ==> p in disk.pages && disk.pages[p] == Final(old(log), p, base[p])
      ensures FreesExactly(old(log), old(disk.freed), disk.freed)
      ensures WritesExpected(old(log), old(disk.pages), disk)
      ensures forall t :: !Loser(log, |log|, t)
      ensures AddsQuiet(old(log), log)
    {
      ghost var first := Start(log, disk);
      StartInv(log, disk, base);
      StartFreed(log, disk, base);
      StartImages(log, disk, base);
      var txns, byLsn, winners, losers := Analysis(log, base);
      RedoAll(winners, losers, first, base);
      var tails := map t | t in losers :: txns[t].lastLsn;
      ok, tails := UndoAll(byLsn, losers, tails, first, base);
      if !ok { return; }
      FinishAll(first, losers, tails, base);
      FinishLoopEnds(first, State(log, first.scanned, disk, Finish({})), base, tails);
    }
  }

  lemma CommitNamesTxn(log: Log, base: map<nat, Image>, i: nat)
    requires LogInv(log, base) && i < |log|
    ensures HasCommit(log, |log|, log[i].txnId) ==> log[i].txnId != INVALID_TXN
  {
    if HasCommit(log, |log|, log[i].txnId) {
      var c :| 0 <= c < |log| && log[c].txnId == log[i].txnId && log[c].recordType == Commit;
      assert RecordOk(log, c, base);
    }
  }

  lemma OtherTails(log: Log, r: LogRecord, tails: map<nat, nat>, left: set<nat>)
    requires TailsKnown(log, tails, left)
    ensures TailsKnown(log + [r], tails, left - {r.txnId})
  {
    forall t { LastLsnAgrees(log, log + [r], |log|, t); }
  }

  lemma RestoredByOld(log: Log, scan: Log, disk: Disk, base: map<nat, Image>)
    requires AllRestored(log, disk, base) && AddsQuiet(scan, log)
    ensures forall p :: Tracked(scan, base, p) ==> p in disk.pages && disk.pages[p] == Final(scan, p, base[p])
  {
    forall p | Tracked(scan, base, p) ensures p in disk.pages && disk.pages[p] == Final(scan, p, base[p]) {
      QuietTail(log, |scan|, p, base[p]);
      assert log[..|scan|] == scan;
      assert Restored(log, disk, base, p);
    }
  }
}
