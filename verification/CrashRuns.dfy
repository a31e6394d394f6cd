/** The whole system: the running engine, crashes at any moment, recovery, crashes during
    recovery, and resuming - and what every such run guarantees. */
module CrashRuns {
  import opened Bytes
  import opened Wal
  import opened WalFacts
  import R = RecoveryMachine
  import RP = RecoveryProof
  import opened EngineMachine
  import opened EngineProof
  import opened EngineSteps
  import opened EngineAppends
  import opened EngineRetry

  datatype System =
    | Running(engine: Engine)
    | Recovering(rec: R.State, base: map<nat, Image>, acked: set<nat>)

  // ----- every action of the engine -----

  lemma WorkKeepsInv(e: Engine, a: Action, e': Engine)
    requires EngineInv(e) && Next(e, a, e') && (a.Allocate? || a.Free?)
    ensures EngineInv(e')
  {
    match a
    case Allocate(t, p) => AllocateKeepsInv(e, t, p, e');
    case Free(t, p) => FreeKeepsInv(e, t, p, e');
  }

  lemma EntryKeepsInv(e: Engine, a: Action, e': Engine)
    requires EngineInv(e) && Next(e, a, e') && (a.BeginTxn? || a.LockPage?)
    ensures EngineInv(e')
  {
    match a
    case BeginTxn => BeginKeepsInv(e, e');
    case LockPage(t, p) => LockKeepsInv(e, t, p, e');
  }

  lemma CacheKeepsInv(e: Engine, a: Action, e': Engine)
    requires EngineInv(e) && Next(e, a, e') && (a.Fetch? || a.Evict? || a.FlushPage?)
    ensures EngineInv(e')
  {
    match a
    case Fetch(p) => FetchKeepsInv(e, p, e');
    case Evict(p) => EvictKeepsInv(e, p, e');
    case FlushPage(p) => FlushKeepsInv(e, p);
  }

  lemma LogKeepsInv(e: Engine, a: Action, e': Engine)
    requires EngineInv(e) && Next(e, a, e') && (a.FlushLog? || a.AppendCheckpoint? || a.Truncate?)
    ensures EngineInv(e')
  {
    match a
    case FlushLog(upTo) => OnlyDurable(e, upTo);
    case AppendCheckpoint => CheckpointKeepsInv(e, e');
    case Truncate => TruncateKeepsInv(e, e');
  }

  lemma OutcomeKeepsInv(e: Engine, a: Action, e': Engine)
    requires EngineInv(e) && Next(e, a, e') && (a.AppendCommit? || a.AppendAbort?)
    ensures EngineInv(e')
  {
    match a
    case AppendCommit(t) => AppendCommitKeepsInv(e, t, e');
    case AppendAbort(t) => AppendAbortKeepsInv(e, t, e');
  }

  lemma PublishKeepsInv(e: Engine, a: Action, e': Engine)
    requires EngineInv(e) && Next(e, a, e') && (a.FlushCommit? || a.FlushAbort?)
    ensures EngineInv(e')
  {
    match a
    case FlushCommit(t, ok) => FlushCommitKeepsInv(e, t, ok, e');
    case FlushAbort(t, ok) => FlushAbortKeepsInv(e, t, ok, e');
  }

  lemma LeaveKeepsInv(e: Engine, a: Action, e': Engine)
    requires EngineInv(e) && Next(e, a, e') && (a.Release? || a.FinalizeDelete?)
    ensures EngineInv(e')
  {
    match a
    case Release(t) => ReleaseKeepsInv(e, t, e');
    case FinalizeDelete(t) => FinalizeDeleteKeepsInv(e, t, e');
  }

  lemma UndoKeepsInv(e: Engine, a: Action, e': Engine)
    requires EngineInv(e) && Next(e, a, e') && (a.BeginAbort? || a.UndoOne?)
    ensures EngineInv(e')
  {
    match a
    case BeginAbort(t) => BeginAbortKeepsInv(e, t, e');
    case UndoOne(t) => UndoOneKeepsInv(e, t, e');
  }

  lemma RetryKeepsInv(e: Engine, a: Action, e': Engine)
    requires EngineInv(e) && Next(e, a, e') && (a.RetryOne? || a.AppendAbortAgain?)
    ensures EngineInv(e')
  {
    match a
    case RetryOne(t) => RetryOneKeepsInv(e, t, e');
    case AppendAbortAgain(t) => AbortAgainKeepsInv(e, t, e');
  }

  /** The only action that can do harm is an abort that is retried although its transaction is not safe to undo
      twice. */
  ghost predicate IsSafe(e: Engine, a: Action) {
    a.RetryAbort? ==> SafeToRetry(e.log, |e.log|, e.base, a.t)
  }

  lemma ActionKeepsInv(e: Engine, a: Action, e': Engine)
    requires EngineInv(e) && Next(e, a, e') && IsSafe(e, a)
    ensures EngineInv(e')
  {
    if a.Allocate? || a.Free? { WorkKeepsInv(e, a, e'); }
    else if a.Write? { WriteKeepsInv(e, a.t, a.p, a.image, e'); }
    else if a.BeginTxn? || a.LockPage? { EntryKeepsInv(e, a, e'); }
    else if a.Fetch? || a.Evict? || a.FlushPage? { CacheKeepsInv(e, a, e'); }
    else if a.FlushLog? || a.AppendCheckpoint? || a.Truncate? { LogKeepsInv(e, a, e'); }
    else if a.AppendCommit? || a.AppendAbort? { OutcomeKeepsInv(e, a, e'); }
    else if a.FlushCommit? || a.FlushAbort? { PublishKeepsInv(e, a, e'); }
    else if a.Release? || a.FinalizeDelete? { LeaveKeepsInv(e, a, e'); }
    else if a.BeginAbort? || a.UndoOne? { UndoKeepsInv(e, a, e'); }
    else if IsSimple(a) { SimpleStateKeepsInv(e, a, e'); }
    else if a.RetryAbort? { RetryAbortKeepsInv(e, a.t, e'); }
    else { RetryKeepsInv(e, a, e'); }
  }

  // ----- what recovery keeps besides its own invariant -----

  ghost predicate DiskFits(log: Log, n: nat, disk: R.Disk, base: map<nat, Image>)
    requires n <= |log|
  {
    && (forall p :: p in disk.pages ==> |disk.pages[p]| == PAGE_SIZE)
    && (forall p :: p in base ==> p in disk.pages)
    && (forall p :: p in base && p in disk.freed ==> Named(log, n, p))
  }

  ghost predicate AckedIn(log: Log, n: nat, acked: set<nat>)
    requires n <= |log|
  {
    forall t :: t in acked ==> HasCommit(log, n, t)
  }

  ghost predicate RecoveringInv(r: R.State, base: map<nat, Image>, acked: set<nat>) {
    && R.Inv(r, base)
    && DiskFits(r.log, r.scanned, r.disk, base)
    && AckedIn(r.log, r.scanned, acked)
  }

  /** Images in the log have page size; a CLR's page is the page of what it compensates. */
  lemma RecordFits(log: Log, base: map<nat, Image>, i: nat, n: nat)
    requires LogInv(log, base) && i < n <= |log|
    ensures log[i].recordType == PageUpdate ==> |log[i].beforeImage| == |log[i].afterImage| == PAGE_SIZE
    ensures log[i].recordType == Compensation && log[i].compensationType == PageUpdate ==>
              |log[i].afterImage| == PAGE_SIZE
    ensures log[i].recordType in {PageAllocate, PageFree} ==> Named(log, n, log[i].pageId)
    ensures log[i].recordType == Compensation && log[i].compensationType == PageAllocate ==>
              Named(log, n, log[i].pageId)
  {
    assert RecordOk(log, i, base);
    if log[i].recordType == Compensation {
      var c := ClrTarget(log, base, i);
      assert RecordOk(log, c - 1, base);
    }
  }

  lemma RedoFits(log: Log, base: map<nat, Image>, i: nat, n: nat, disk: R.Disk)
    requires LogInv(log, base) && i < n <= |log| && DiskFits(log, n, disk, base)
    ensures DiskFits(log, n, R.RedoEffect(disk, log[i]), base)
  {
    RecordFits(log, base, i, n);
  }

  lemma UndoFits(log: Log, base: map<nat, Image>, i: nat, n: nat, disk: R.Disk)
    requires LogInv(log, base) && i < n <= |log| && DiskFits(log, n, disk, base)
    ensures DiskFits(log, n, R.UndoEffect(disk, log[i]), base)
  {
    RecordFits(log, base, i, n);
  }

  /** A recovery step extends the log with CLRs and Aborts only. */
  lemma StepExtends(r: R.State, r': R.State)
    requires R.RecoverStep(r, r')
    ensures r'.scanned == r.scanned
    ensures r'.log == r.log || (|r'.log| == |r.log| + 1 && r'.log == r.log + [r'.log[|r.log|]]
                                && r'.log[|r.log|].recordType in {Compensation, Abort}
                                  && (r'.phase.UndoApply? || r'.phase.Finish?))
  {
    GrownByOne(r, r');
  }

  lemma GrownByOne(r: R.State, r': R.State)
    requires R.RecoverStep(r, r')
    ensures r'.log == r.log
            || ((exists x: LogRecord :: r'.log == r.log + [x] && x.recordType in {Compensation, Abort})
                && (r'.phase.UndoApply? || r'.phase.Finish?))
  {
    match r.phase
    case Undo(next) =>
      if !(forall t :: t in next ==> next[t] == 0) {
        var t :| t in next && R.UndoStep(r, r', next, t);
      }
    case Finish(left) =>
      if left != {} {
        var t :| t in left && r' == r.(phase := R.Finish(left - {t}), log := r.log + [R.AbortFor(r.log, t)]);
      }
    case _ =>
  }

  lemma SamePrefixFits(a: Log, b: Log, n: nat, disk: R.Disk, base: map<nat, Image>, acked: set<nat>)
    requires Agree(a, b, n) && DiskFits(a, n, disk, base) && AckedIn(a, n, acked)
    ensures DiskFits(b, n, disk, base) && AckedIn(b, n, acked)
  {
    forall p | p in base && p in disk.freed ensures Named(b, n, p) { NamedStays(a, b, n, n, p); }
    forall t | t in acked ensures HasCommit(b, n, t) { CommitStays(a, b, n, n, t); }
  }

  lemma StepFits(r: R.State, r': R.State, base: map<nat, Image>)
    requires R.Inv(r, base) && R.RecoverStep(r, r') && DiskFits(r.log, r.scanned, r.disk, base)
    ensures DiskFits(r.log, r.scanned, r'.disk, base)
  {
    match r.phase
    case Redo(pos) =>
      if pos < r.scanned { RedoFits(r.log, base, pos, r.scanned, r.disk); }
    case UndoApply(next, target) => UndoFits(r.log, base, target - 1, r.scanned, r.disk);
    case Undo(next) => UndoSameDisk(r, r');
    case Finish(left) =>
    case Done =>
  }

  lemma UndoSameDisk(r: R.State, r': R.State)
    requires R.RecoverStep(r, r') && r.phase.Undo?
    ensures r'.disk == r.disk
  {
    if !(forall t :: t in r.phase.next ==> r.phase.next[t] == 0) {
      var t :| t in r.phase.next && R.UndoStep(r, r', r.phase.next, t);
    }
  }

  lemma RecoveryStepKeepsInv(r: R.State, r': R.State, base: map<nat, Image>, acked: set<nat>)
    requires RecoveringInv(r, base, acked) && R.RecoverStep(r, r')
    ensures RecoveringInv(r', base, acked)
  {
    RP.RecoverKeepsInv(r, r', base);
    StepFits(r, r', base);
    StepExtends(r, r');
    SamePrefixFits(r.log, r'.log, r.scanned, r'.disk, base, acked);
  }

  lemma RecoveryCrashKeepsInv(r: R.State, r': R.State, base: map<nat, Image>, acked: set<nat>)
    requires RecoveringInv(r, base, acked) && R.CrashStep(r, r')
    ensures RecoveringInv(r', base, acked)
  {
    RP.CrashKeepsInv(r, r', base);
    CutFits(r.log, r'.log, r.scanned, r'.scanned, r.disk, base, acked);
  }

  lemma CutFits(log: Log, log': Log, n: nat, n': nat, disk: R.Disk, base: map<nat, Image>, acked: set<nat>)
    requires n <= n' <= |log| && log' == log[..n'] && DiskFits(log, n, disk, base) && AckedIn(log, n, acked)
    ensures DiskFits(log', n', disk, base) && AckedIn(log', n', acked)
  {
    forall p | p in base && p in disk.freed ensures Named(log', n', p) {
      NamedStays(log, log', n, n, p);
      NamedStays(log', log', n, n', p);
    }
    forall t | t in acked ensures HasCommit(log', n', t) {
      CommitStays(log, log', n, n, t);
      CommitStays(log', log', n, n', t);
    }
  }

  // ----- crash and resume -----

  ghost predicate CrashOf(e: Engine, s': System) {
    exists c :: e.durable <= c <= |e.log| && s' == Recovering(R.Start(e.log[..c], e.disk), e.base, e.acked)
  }

  lemma CrashInv(e: Engine, c: nat)
    requires EngineInv(e) && e.durable <= c <= |e.log|
    ensures RecoveringInv(R.Start(e.log[..c], e.disk), e.base, e.acked)
  {
    RP.CutCrashSafe(e.log, e.durable, e.disk, e.base, c);
    RP.StartInv(e.log[..c], e.disk, e.base);
    CutFits(e.log, e.log[..c], e.durable, c, e.disk, e.base, e.acked);
  }

  /** The largest transaction id in the log. */
  function MaxTxn(log: Log): (m: nat)
    ensures forall i :: 0 <= i < |log| ==> log[i].txnId <= m
  {
    if |log| == 0 then INVALID_TXN else Max(MaxTxn(log[..|log| - 1]), log[|log| - 1].txnId)
  }

  function Resumed(r: R.State, base: map<nat, Image>, acked: set<nat>): Engine {
    Engine(r.log, |r.log|, r.disk, map[], map[], map[], MaxTxn(r.log) + 1, base, acked)
  }

  lemma ResumeHistory(r: R.State, base: map<nat, Image>, acked: set<nat>)
    requires RecoveringInv(r, base, acked) && r.phase.Done?
    ensures var e := Resumed(r, base, acked); SizesOk(e) && FreedOk(e) && CacheOk(e) && TxnsOk(e) && LocksOk(e)
  {
    CutFits(r.log, r.log, r.scanned, |r.log|, r.disk, base, acked) by { assert r.log == r.log[..|r.log|]; }
  }

  lemma ResumeInv(r: R.State, base: map<nat, Image>, acked: set<nat>)
    requires RecoveringInv(r, base, acked) && r.phase.Done?
    ensures EngineInv(Resumed(r, base, acked))
  {
    ResumeHistory(r, base, acked);
    ResumeContents(r, base, acked);
  }

  lemma ResumeContents(r: R.State, base: map<nat, Image>, acked: set<nat>)
    requires R.AllRestored(r.log, r.disk, base) && SizesOk(Resumed(r, base, acked))
    ensures ContentsOk(Resumed(r, base, acked))
  {
    var e := Resumed(r, base, acked);
    forall p | R.Tracked(e.log, e.base, p) ensures ContentOk(e, p) { assert R.Restored(r.log, r.disk, base, p); }
  }

  // ----- runs -----

  ghost predicate SystemStep(s: System, s': System) {
    match s
    case Running(e) =>
      CrashOf(e, s') || (s'.Running? && exists a :: Next(e, a, s'.engine))
    case Recovering(r, base, acked) =>
      || (s'.Recovering? && s'.base == base && s'.acked == acked
        && (R.RecoverStep(r, s'.rec) || R.CrashStep(r, s'.rec)))
      || (r.phase.Done? && s' == Running(Resumed(r, base, acked)))
  }

  /** A step that does not retry an abort although that is not safe. */
  ghost predicate SafeStep(s: System, s': System) {
    && SystemStep(s, s')
    && (s.Running? && s'.Running? ==> exists a :: Next(s.engine, a, s'.engine) && IsSafe(s.engine, a))
  }

  ghost predicate SystemInv(s: System) {
    match s
    case Running(e) => EngineInv(e)
    case Recovering(r, base, acked) => RecoveringInv(r, base, acked)
  }

  lemma SystemStepKeepsInv(s: System, s': System)
    requires SystemInv(s) && SafeStep(s, s')
    ensures SystemInv(s')
  {
    match s
    case Running(e) =>
      if CrashOf(e, s') {
        var c :| e.durable <= c <= |e.log| && s' == Recovering(R.Start(e.log[..c], e.disk), e.base, e.acked);
        CrashInv(e, c);
      } else {
        var a :| Next(e, a, s'.engine) && IsSafe(e, a);
        ActionKeepsInv(e, a, s'.engine);
      }
    case Recovering(r, base, acked) =>
      if r.phase.Done? && s' == Running(Resumed(r, base, acked)) {
        ResumeInv(r, base, acked);
      } else if R.RecoverStep(r, s'.rec) {
        RecoveryStepKeepsInv(r, s'.rec, base, acked);
      } else {
        RecoveryCrashKeepsInv(r, s'.rec, base, acked);
      }
  }

  /** A database just opened: an empty log over `disk`. */
  ghost predicate Fresh(s: System) {
    s.Running? &&
    var e := s.engine;
    && e.log == [] && e.durable == 0 && e.cache == map[] && e.txns == map[] && e.holder == map[] && e.acked == {}
      && e.nextTxn > 0
    && (forall p :: p in e.disk.pages ==> |e.disk.pages[p]| == PAGE_SIZE)
    && e.base == (map p | p in e.disk.pages && p !in e.disk.freed :: e.disk.pages[p])
  }

  ghost predicate Run(run: seq<System>) {
    |run| > 0 && Fresh(run[0]) && forall i :: 0 <= i < |run| - 1 ==> SystemStep(run[i], run[i + 1])
  }

  /** A run in which every retried abort is safe to retry. */
  ghost predicate SafeRun(run: seq<System>) {
    Run(run) && forall i :: 0 <= i < |run| - 1 ==> SafeStep(run[i], run[i + 1])
  }

  lemma {:induction false} RunKeepsInv(run: seq<System>, k: nat)
    requires SafeRun(run) && k < |run|
    ensures SystemInv(run[k])
  {
    if k > 0 {
      var m := k - 1;
      RunKeepsInv(run, m);
      SystemStepKeepsInv(run[m], run[k]);
    }
  }

  /** Whatever happened before - any interleaving, any number of crashes, during recovery too -
      when recovery completes every tracked page holds the image of its last committed update,
      no transaction is left unfinished, and every acknowledged commit is among the winners. */
  lemma CrashRecoveryIsCorrect(run: seq<System>, k: nat)
    requires SafeRun(run) && k < |run| && run[k].Recovering? && run[k].rec.phase.Done?
    ensures var r := run[k].rec;
            && (forall p :: R.Tracked(r.log, run[k].base, p) ==>
                p in r.disk.pages && r.disk.pages[p] == Final(r.log, p, run[k].base[p]))
            && (forall t :: !Loser(r.log, |r.log|, t))
            && (forall t :: t in run[k].acked ==> HasCommit(r.log, |r.log|, t))
  {
    RunKeepsInv(run, k);
    var r := run[k].rec;
    forall p | R.Tracked(r.log, run[k].base, p)
      ensures p in r.disk.pages && r.disk.pages[p] == Final(r.log, p, run[k].base[p])
    {
      assert R.Restored(r.log, r.disk, run[k].base, p);
    }
    forall t | t in run[k].acked ensures HasCommit(r.log, |r.log|, t) {
      CommitStays(r.log, r.log, r.scanned, |r.log|, t);
    }
  }

  /** While the engine runs, a tracked page nobody has locked reads as its last committed image. */
  lemma UnlockedPagesAreCommitted(run: seq<System>, k: nat, p: nat)
    requires SafeRun(run) && k < |run| && run[k].Running?
    requires var e := run[k].engine; R.Tracked(e.log, e.base, p) && p !in e.holder
    ensures var e := run[k].engine; p in e.disk.pages && Current(e, p) == Final(e.log, p, e.base[p])
  {
    RunKeepsInv(run, k);
    assert ContentOk(run[k].engine, p);
  }

  /** In no reachable state has a transaction both committed and aborted. */
  lemma NoTxnEndsTwice(run: seq<System>, k: nat, t: nat)
    requires SafeRun(run) && k < |run|
    ensures var log := if run[k].Running? then run[k].engine.log else run[k].rec.log;
            !(HasCommit(log, |log|, t) && HasAbort(log, |log|, t))
  {
    RunKeepsInv(run, k);
    var log := if run[k].Running? then run[k].engine.log else run[k].rec.log;
    var base := if run[k].Running? then run[k].engine.base else run[k].base;
    NeverBothEnds(log, base, |log|, t);
  }

  /** A checkpoint forgets the log but not what it says. */
  lemma CheckpointKeepsFinal(e: Engine, e': Engine, p: nat)
    requires EngineInv(e) && Next(e, Truncate, e') && R.Tracked(e.log, e.base, p)
    ensures R.Tracked(e'.log, e'.base, p) && Final(e'.log, p, e'.base[p]) == Final(e.log, p, e.base[p])
  {
    assert ContentOk(e, p);
    TruncateDisk(e, p);
    FreedIsNamed(e, p);
  }

  lemma FreedIsNamed(e: Engine, p: nat)
    requires e.durable <= |e.log| && FreedOk(e) && p in e.base
    ensures p in e.disk.freed ==> Named(e.log, |e.log|, p)
  {
  }

  lemma TruncateDisk(e: Engine, p: nat)
    requires CacheOk(e) && (forall q :: q in e.cache ==> !e.cache[q].dirty) && p in e.disk.pages
    ensures Current(e, p) == e.disk.pages[p]
  {
    if p in e.cache { assert FrameOk(e, p); }
  }
}
