/** Retrying a rollback whose Abort record is in the log but was not made durable. The log says that the
    transaction is finished, so recovery no longer undoes it, and nothing but the pages themselves decides whether
    a crash in the middle of the second undo does harm. */
module AbortRetry {
  import opened Wal
  import opened WalFacts
  import R = RecoveryMachine
  import RP = RecoveryProof
  import F = FreedPages
  import Recovery
  import opened EngineMachine
  import opened EngineProof
  import opened EngineRetry
  import opened CrashRuns

  // ----- runs of a retry -----

  /** The transaction is stuck: it failed after its Abort was logged. */
  predicate Stuck(e: Engine, t: nat) { IsIn(e, t, Failed) && e.txns[t].abortLsn != INVALID_LSN }

  ghost predicate RetryStep(t: nat, s: System, s': System) {
    match s
    case Running(e) => CrashOf(e, s') || (s'.Running? && Next(e, RetryOne(t), s'.engine))
    case Recovering(r, base, acked) =>
      s'.Recovering? && s'.base == base && s'.acked == acked && (R.RecoverStep(r, s'.rec) || R.CrashStep(r, s'.rec))
  }

  /** The abort of `t` is retried from `e` on, with a crash at any point, and recovered from. */
  ghost predicate RetryRun(e: Engine, t: nat, run: seq<System>) {
    && |run| >= 2 && run[0] == Running(e) && run[1].Running? && Next(e, RetryAbort(t), run[1].engine)
    && forall i :: 1 <= i < |run| - 1 ==> RetryStep(t, run[i], run[i + 1])
  }

  /** When recovery is done, every tracked page holds its final image. */
  ghost predicate Right(s: System) {
    s.Recovering? && s.rec.phase.Done? ==>
      forall p :: R.Tracked(s.rec.log, s.base, p) ==> R.Restored(s.rec.log, s.rec.disk, s.base, p)
  }

  // ----- a safe retry is right at every crash point -----

  lemma RetryStepKeepsInv(t: nat, s: System, s': System)
    requires SystemInv(s) && RetryStep(t, s, s')
    ensures SystemInv(s')
  {
    assert s.Running? && s'.Running? ==> Next(s.engine, RetryOne(t), s'.engine) && IsSafe(s.engine, RetryOne(t));
    assert SafeStep(s, s');
    SystemStepKeepsInv(s, s');
  }

  lemma {:induction false} SafeRetryKeepsInv(e: Engine, t: nat, run: seq<System>, k: nat)
    requires EngineInv(e) && SafeToRetry(e.log, |e.log|, e.base, t) && RetryRun(e, t, run) && 1 <= k < |run|
    ensures SystemInv(run[k])
  {
    if k == 1 {
      RetryAbortKeepsInv(e, t, run[1].engine);
    } else {
      var m := k - 1;
      SafeRetryKeepsInv(e, t, run, m);
      RetryStepKeepsInv(t, run[m], run[k]);
    }
  }

  lemma InvIsRight(s: System)
    requires SystemInv(s)
    ensures Right(s)
  {
  }

  // ----- an unsafe retry can be crashed where recovery does not help -----

  /** What the undo steps need to go through, without the engine's invariant. */
  ghost predicate CanRetry(e: Engine, t: nat, i: nat) {
    && t in e.txns && e.txns[t].state.Retrying? && i < e.txns[t].state.next <= |e.log| && e.durable <= |e.log|
    && e.log[e.txns[t].state.next - 1].txnId == t && e.log[i].txnId == t && e.log[i].recordType == PageUpdate
    && t != INVALID_TXN && LogInv(e.log, e.base)
    && forall q :: q in e.cache && e.cache[q].dirty ==> e.cache[q].pageLsn <= |e.log|
  }

  lemma UndoKeepsLog(e: Engine, r: LogRecord)
    requires e.durable <= |e.log| && forall q :: q in e.cache && e.cache[q].dirty ==> e.cache[q].pageLsn <= |e.log|
    ensures var e' := UndoRecord(e, r);
            e'.log == e.log && e'.base == e.base && e'.acked == e.acked && e'.txns == e.txns && e'.durable <= |e.log|
            && forall q :: q in e'.cache && e'.cache[q].dirty ==> e'.cache[q].pageLsn <= |e.log|
  {
  }

  function Undone(e: Engine, t: nat): Engine
    requires t in e.txns && e.txns[t].state.Retrying? && 0 < e.txns[t].state.next <= |e.log|
  {
    var r := e.log[e.txns[t].state.next - 1];
    SetState(UndoRecord(e, r), t, Retrying(r.prevLsn))
  }

  lemma UndoneIsNext(e: Engine, t: nat)
    requires t in e.txns && e.txns[t].state.Retrying? && 0 < e.txns[t].state.next <= |e.log|
    ensures Next(e, RetryOne(t), Undone(e, t))
  {
  }

  /** One step further down the chain: at record `i`, or still above it. */
  lemma UndoneStep(e: Engine, t: nat, i: nat)
    requires CanRetry(e, t, i)
    ensures var e' := Undone(e, t);
            e'.log == e.log && e'.base == e.base && e'.acked == e.acked && e'.durable <= |e.log|
            && if e.txns[t].state.next - 1 == i then
                 e.log[i].pageId in e'.disk.pages && e'.disk.pages[e.log[i].pageId] == e.log[i].beforeImage
               else CanRetry(e', t, i) && e'.txns[t].state.next < e.txns[t].state.next
  {
    var j := e.txns[t].state.next - 1;
    UndoKeepsLog(e, e.log[j]);
    assert RecordOk(e.log, j, e.base);
  }

  ghost predicate RetrySteps(es: seq<Engine>, t: nat) {
    |es| > 0 && forall j :: 0 <= j < |es| - 1 ==> Next(es[j], RetryOne(t), es[j + 1])
  }

  lemma OneMoreStep(e: Engine, rest: seq<Engine>, t: nat)
    requires RetrySteps(rest, t) && Next(e, RetryOne(t), rest[0])
    ensures RetrySteps([e] + rest, t)
  {
    var es := [e] + rest;
    forall k | 0 <= k < |es| - 1 ensures Next(es[k], RetryOne(t), es[k + 1]) {
      if k > 0 { assert es[k] == rest[k - 1] && es[k + 1] == rest[k]; }
    }
  }

  /** Where undo has got to: record `i` has just been undone. */
  ghost predicate Reached(first: Engine, last: Engine, i: nat) {
    && last.log == first.log && last.base == first.base && last.acked == first.acked && last.durable <= |last.log|
    && i < |last.log| && last.log[i].pageId in last.disk.pages
    && last.disk.pages[last.log[i].pageId] == last.log[i].beforeImage
  }

  /** Undo can be carried on until record `i` has been undone. */
  lemma {:induction false} RetryReaches(e: Engine, t: nat, i: nat) returns (es: seq<Engine>)
    requires CanRetry(e, t, i)
    ensures |es| > 1 && es[0] == e && RetrySteps(es, t) && Reached(e, es[|es| - 1], i)
    decreases if t in e.txns && e.txns[t].state.Retrying? then e.txns[t].state.next else 0
  {
    var e' := Undone(e, t);
    UndoneStep(e, t, i);
    UndoneIsNext(e, t);
    var rest := [e'];
    if e.txns[t].state.next - 1 != i { rest := RetryReaches(e', t, i); }
    es := [e] + rest;
    OneMoreStep(e, rest, t);
  }

  /** Recovery never writes a page that no unaborted transaction updated. */
  ghost predicate LeftAlone(log: Log, p: nat) { !Touched(log, |log|, p) && !Named(log, |log|, p) }

  lemma QuietLeavesAlone(log: Log, r: LogRecord, p: nat)
    requires RP.IsQuiet(r) && LeftAlone(log, p)
    ensures LeftAlone(log + [r], p)
  {
    var l := log + [r];
    AppendPage(log, r, p);
    forall i | 0 <= i < |l| && Updates(l[i], p) ensures HasAbort(l, |l|, l[i].txnId) {
      assert Updates(log[i], p) && HasAbort(log, |log|, log[i].txnId);
      AppendStatus(log, r, log[i].txnId);
    }
  }

  /** A compensation of an unfinished transaction shows what it compensates. */
  lemma ClrShows(log: Log, base: map<nat, Image>, i: nat)
    requires LogInv(log, base) && i < |log| && log[i].recordType == Compensation && Loser(log, |log|, log[i].txnId)
    ensures Named(log, |log|, log[i].pageId) || Touched(log, |log|, log[i].pageId)
  {
    var c := ClrTarget(log, base, i);
    assert Updates(log[c - 1], log[i].pageId) || log[c - 1].recordType in {PageAllocate, PageFree};
  }

  lemma RedoLeavesAlone(log: Log, base: map<nat, Image>, i: nat, disk: R.Disk, p: nat)
    requires LogInv(log, base) && i < |log| && R.IsRedone(log, |log|, log[i]) && LeftAlone(log, p) && p in disk.pages
    ensures p in R.RedoEffect(disk, log[i]).pages && R.RedoEffect(disk, log[i]).pages[p] == disk.pages[p]
  {
    NeverBothEnds(log, base, |log|, log[i].txnId);
    if log[i].recordType == Compensation {
      var c := ClrTarget(log, base, i);
      RP.CompensatedNeverCommits(log, base, i);
      ClrShows(log, base, i);
    }
  }

  lemma UndoLeavesAlone(log: Log, i: nat, disk: R.Disk, p: nat)
    requires i < |log| && Undoable(log[i]) && Loser(log, |log|, log[i].txnId) && LeftAlone(log, p) && p in disk.pages
    ensures p in R.UndoEffect(disk, log[i]).pages && R.UndoEffect(disk, log[i]).pages[p] == disk.pages[p]
  {
  }

  lemma StepLeavesAlone(s: R.State, s': R.State, base: map<nat, Image>, p: nat)
    requires R.Inv(s, base) && R.RecoverStep(s, s') && LeftAlone(s.log, p) && p in s.disk.pages
    ensures LeftAlone(s'.log, p) && p in s'.disk.pages && s'.disk.pages[p] == s.disk.pages[p]
  {
    F.RecoverStepLog(s, s');
    if s'.log != s.log {
      var x: LogRecord :| s'.log == s.log + [x] && RP.IsQuiet(x);
      QuietLeavesAlone(s.log, x, p);
    }
    match s.phase
    case Redo(pos) =>
      if pos < s.scanned && R.IsRedone(s.log, s.scanned, s.log[pos]) { RedoLeavesAlone(s.log, base, pos, s.disk, p); }
    case UndoApply(next, target) =>
      assert R.StandsAt(s.log, s.log[target - 1].txnId, next[s.log[target - 1].txnId]);
      UndoLeavesAlone(s.log, target - 1, s.disk, p);
    case Undo(next) => UndoSameDisk(s, s');
    case _ =>
  }

  lemma {:induction false} RunLeavesAlone(run: seq<R.State>, base: map<nat, Image>, p: nat, k: nat)
    requires RP.Attempts(run) && (forall i :: 0 <= i < |run| - 1 ==> R.RecoverStep(run[i], run[i + 1]))
    requires R.Inv(run[0], base) && LeftAlone(run[0].log, p) && p in run[0].disk.pages && k < |run|
    ensures LeftAlone(run[k].log, p) && p in run[k].disk.pages && run[k].disk.pages[p] == run[0].disk.pages[p]
  {
    if k > 0 {
      var m := k - 1;
      RunLeavesAlone(run, base, p, m);
      RP.AttemptsKeepInv(run, base, m);
      StepLeavesAlone(run[m], run[k], base, p);
    }
  }

  /** The checkpoint pages that the disk still has, or that recovery answers for. */
  ghost function Sound(log: Log, disk: R.Disk, base: map<nat, Image>): (b: map<nat, Image>)
    ensures forall p :: p in b ==> p in base && b[p] == base[p]
    ensures R.DiskOk(log, |log|, disk, b)
  {
    map p | p in base && (Named(log, |log|, p) || Touched(log, |log|, p)
      || (p in disk.pages && disk.pages[p] == base[p])) :: base[p]
  }

  lemma LessBase(log: Log, base: map<nat, Image>, b: map<nat, Image>)
    requires LogInv(log, base) && forall p :: p in b ==> p in base && b[p] == base[p]
    ensures LogInv(log, b)
  {
    forall j | 0 <= j < |log| ensures RecordOk(log, j, b) { assert RecordOk(log, j, base); }
  }

  /** From such a disk recovery runs to its end and leaves the page as it is. */
  lemma RecoveryMisses(log: Log, disk: R.Disk, base: map<nat, Image>, p: nat) returns (run: seq<R.State>)
    requires LogInv(log, base) && LeftAlone(log, p) && p in base && p in disk.pages && disk.pages[p] != base[p]
    ensures RP.Attempts(run) && run[0] == R.Start(log, disk) && run[|run| - 1].phase.Done?
    ensures forall i :: 0 <= i < |run| - 1 ==> R.RecoverStep(run[i], run[i + 1])
    ensures var last := run[|run| - 1];
            R.Tracked(last.log, base, p) && !R.Restored(last.log, last.disk, base, p)
  {
    var b := Sound(log, disk, base);
    LessBase(log, base, b);
    RP.StartInv(log, disk, b);
    run := Recovery.RunsToDone(R.Start(log, disk), b);
    var k := |run| - 1;
    RunLeavesAlone(run, b, p, k);
    F.StartFreed(log, disk, b);
    Recovery.AttemptsKeepFreed(run, b, log, disk.freed, k);
    Recovery.QuietTail(run[k].log, |log|, p, base[p]);
    assert run[k].log[..|log|] == log;
    RP.UntouchedFinal(log, base, p);
  }

  /** The pages a stuck transaction updated are its own. */
  lemma StuckPageIsAlone(e: Engine, t: nat, i: nat, p: nat)
    requires EngineInv(e) && Stuck(e, t) && i < |e.log| && e.log[i].txnId == t && Updates(e.log[i], p)
    requires !WonBy(e.log, |e.log|, p) && !Named(e.log, |e.log|, p)
    ensures LeftAlone(e.log, p)
  {
    assert StillOwns(e, i, p);
    assert TxnOk(e, t);
    forall k | 0 <= k < |e.log| && Updates(e.log[k], p) ensures HasAbort(e.log, |e.log|, e.log[k].txnId) {
      OtherIsAborted(e, t, k, p);
    }
  }

  lemma OtherIsAborted(e: Engine, t: nat, k: nat, p: nat)
    requires LogInv(e.log, e.base) && LocksOk(e) && Holds(e, t, p) && HasAbort(e.log, |e.log|, t)
    requires k < |e.log| && Updates(e.log[k], p) && !WonBy(e.log, |e.log|, p)
    ensures HasAbort(e.log, |e.log|, e.log[k].txnId)
  {
    var u := e.log[k].txnId;
    if u != t {
      assert RecordOk(e.log, k, e.base);
      assert !Loser(e.log, |e.log|, u);
    }
  }

  /** The update whose undo does harm. */
  ghost predicate DoesHarm(log: Log, base: map<nat, Image>, t: nat, i: nat) {
    && i < |log| && log[i].txnId == t && log[i].recordType == PageUpdate
    && log[i].pageId in base && !Named(log, |log|, log[i].pageId) && !WonBy(log, |log|, log[i].pageId)
    && log[i].beforeImage != base[log[i].pageId]
  }

  lemma HarmExists(e: Engine, t: nat) returns (i: nat)
    requires !SafeToRetry(e.log, |e.log|, e.base, t)
    ensures DoesHarm(e.log, e.base, t, i)
  {
    i :| 0 <= i < |e.log| && e.log[i].txnId == t && e.log[i].recordType == PageUpdate
         && !UndoIsHarmless(e.log, |e.log|, e.base, e.log[i]);
  }

  function Retried(e: Engine, t: nat): Engine
    requires t in e.txns
  {
    SetState(e, t, Retrying(e.txns[t].lastLsn)).(durable := |e.log|)
  }

  lemma RetryCanStart(e: Engine, t: nat, i: nat)
    requires CacheOk(e) && e.durable <= |e.log| && LogInv(e.log, e.base) && Stuck(e, t) && TxnOk(e, t)
    requires DoesHarm(e.log, e.base, t, i)
    ensures CanRetry(Retried(e, t), t, i) && Next(e, RetryAbort(t), Retried(e, t))
  {
    forall q | q in e.cache && e.cache[q].dirty ensures e.cache[q].pageLsn <= |e.log| { assert FrameOk(e, q); }
  }

  /** A retry that is not safe has a run - some undo steps, a crash, a whole recovery - that loses a page. */
  lemma UnsafeRetryLosesAPage(e: Engine, t: nat) returns (run: seq<System>)
    requires EngineInv(e) && Stuck(e, t) && !SafeToRetry(e.log, |e.log|, e.base, t)
    ensures RetryRun(e, t, run) && !Right(run[|run| - 1])
  {
    var i := HarmExists(e, t);
    assert TxnOk(e, t);
    StuckPageIsAlone(e, t, i, e.log[i].pageId);
    RetryCanStart(e, t, i);
    run := HarmDone(e, t, i);
  }

  lemma HarmDone(e: Engine, t: nat, i: nat) returns (run: seq<System>)
    requires t in e.txns && DoesHarm(e.log, e.base, t, i) && LeftAlone(e.log, e.log[i].pageId) && LogInv(e.log, e.base)
    requires CanRetry(Retried(e, t), t, i) && Next(e, RetryAbort(t), Retried(e, t))
    ensures RetryRun(e, t, run) && !Right(run[|run| - 1])
  {
    var es := RetryReaches(Retried(e, t), t, i);
    var last := es[|es| - 1];
    var recovery := RecoveryMisses(e.log, last.disk, e.base, e.log[i].pageId);
    run := JoinRuns(e, t, es, recovery);
  }

  /** The retry, the crash and the recovery as one run. */
  lemma JoinRuns(e: Engine, t: nat, es: seq<Engine>, recovery: seq<R.State>) returns (run: seq<System>)
    requires |es| > 1 && Next(e, RetryAbort(t), es[0]) && RetrySteps(es, t)
    requires var last := es[|es| - 1];
             last.durable <= |last.log| && |recovery| > 0 && recovery[0] == R.Start(last.log, last.disk)
    requires forall j :: 0 <= j < |recovery| - 1 ==> R.RecoverStep(recovery[j], recovery[j + 1])
    ensures RetryRun(e, t, run)
    ensures run[|run| - 1] == Recovering(recovery[|recovery| - 1], es[|es| - 1].base, es[|es| - 1].acked)
  {
    var last := es[|es| - 1];
    var n := |es|;
    var engines := seq(n, j requires 0 <= j < n => Running(es[j]));
    var states := seq(|recovery|, j requires 0 <= j < |recovery| => Recovering(recovery[j], last.base, last.acked));
    run := [Running(e)] + engines + states;
    forall i | 1 <= i < |run| - 1 ensures RetryStep(t, run[i], run[i + 1]) {
      if i < n {
        assert run[i] == Running(es[i - 1]) && run[i + 1] == Running(es[i]);
      } else if i == n {
        assert run[i] == Running(last) && run[i + 1] == states[0];
        assert last.log[..|last.log|] == last.log;
        assert CrashOf(last, states[0]);
      } else {
        var j := i - n - 1;
        assert run[i] == states[j] && run[i + 1] == states[j + 1];
        assert R.RecoverStep(recovery[j], recovery[j + 1]);
      }
    }
    assert run[|run| - 1] == states[|recovery| - 1];
  }

  // ----- exactly when a retry is right -----

  /** Recovery is right wherever the retry is crashed, exactly when every page the transaction updated is
      untracked, was updated by a committed transaction, or gets its checkpoint image from each undone update. */
  lemma RetryIsRightIff(e: Engine, t: nat)
    requires EngineInv(e) && Stuck(e, t)
    ensures SafeToRetry(e.log, |e.log|, e.base, t) <==> forall run :: RetryRun(e, t, run) ==> Right(run[|run| - 1])
  {
    if SafeToRetry(e.log, |e.log|, e.base, t) {
      forall run | RetryRun(e, t, run) ensures Right(run[|run| - 1]) {
        SafeRetryKeepsInv(e, t, run, |run| - 1);
        InvIsRight(run[|run| - 1]);
      }
    } else {
      var run := UnsafeRetryLosesAPage(e, t);
      assert RetryRun(e, t, run) && !Right(run[|run| - 1]);
    }
  }

  predicate IsUpdateOf(r: LogRecord, t: nat) { r.txnId == t && r.recordType == PageUpdate }

  /** `t` updated no page twice. */
  ghost predicate UpdatesOnce(log: Log, t: nat) {
    forall i, j :: 0 <= i < j < |log| && IsUpdateOf(log[i], t) && IsUpdateOf(log[j], t) ==>
        log[i].pageId != log[j].pageId
  }

  lemma {:induction false} NoWinnerNoImage(log: Log, n: nat, k: nat, p: nat, image: Image)
    requires k <= n <= |log| && !WonBy(log, n, p)
    ensures CommittedImage(log, n, k, p, image) == image
  {
    if k > 0 {
      var m := k - 1;
      NoWinnerNoImage(log, n, m, p, image);
      assert Updates(log[m], p) ==> !HasCommit(log, n, log[m].txnId);
    }
  }

  /** A transaction that updated no page twice is safe to abort any number of times. */
  lemma UpdatesOnceIsSafe(e: Engine, t: nat)
    requires EngineInv(e) && Stuck(e, t) && UpdatesOnce(e.log, t)
    ensures SafeToRetry(e.log, |e.log|, e.base, t)
  {
    var log := e.log;
    forall i | 0 <= i < |log| && log[i].txnId == t && log[i].recordType == PageUpdate
      ensures UndoIsHarmless(log, |log|, e.base, log[i])
    {
      var p := log[i].pageId;
      assert RecordOk(log, i, e.base);
      if p in e.base && !Named(log, |log|, p) && !WonBy(log, |log|, p) {
        assert !Named(log, i, p) && !HasUpdate(log, i, t, p);
        NotWonEarlier(log, i, p);
        NoWinnerNoImage(log, i, i, p, e.base[p]);
      }
    }
  }

  lemma NotWonEarlier(log: Log, n: nat, p: nat)
    requires n <= |log| && !WonBy(log, |log|, p)
    ensures !WonBy(log, n, p)
  {
    if WonBy(log, n, p) { WonStays(log, log, n, |log|, p); }
  }
}
