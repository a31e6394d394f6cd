/** Crashes in the middle of a write to the log file: they are crashes of the engine, and recovery from what is
    left of the file is right. */
module TornLog {
  import opened Wal
  import opened TailScan
  import opened LogScan
  import R = RecoveryMachine
  import RP = RecoveryProof
  import opened EngineMachine
  import opened CrashRuns

  /** The part of the log file that a crash may leave: everything up to the durable record, and any number of
      bytes more. */
  ghost predicate MaySurvive(e: Engine, cut: nat) {
    e.durable <= |e.log| && |Written(e.log[..e.durable])| <= cut <= |Written(e.log)|
  }

  /** Cutting the file at any byte is one of the engine's crashes. */
  lemma ByteCrashIsCrash(e: Engine, cut: nat) returns (c: nat)
    requires EngineInv(e) && FitsFields(e.log) && MaySurvive(e, cut)
    ensures e.durable <= c <= |e.log|
    ensures Scanning(Written(e.log)[..cut], true) == Scanned(AllOnDisk(e.log[..c]), |Written(e.log[..c])|)
    ensures CrashOf(e, Recovering(R.Start(e.log[..c], e.disk), e.base, e.acked))
  {
    c := ByteCutIsRecordCut(e.log, e.base, cut);
    assert e.durable <= c;
  }

  lemma OnDiskSame(a: Log, b: Log)
    requires AllOnDisk(a) == AllOnDisk(b)
    ensures a == b
  {
    forall i | 0 <= i < |a| ensures a[i] == b[i] {
      assert AllOnDisk(a)[i] == AllOnDisk(b)[i];
      OnDiskIsInjective(a[i], b[i]);
    }
  }

  /** Recovery may start from the log that the scan finds. */
  lemma FoundIsCrash(e: Engine, cut: nat, found: Log)
    requires EngineInv(e) && FitsFields(e.log) && MaySurvive(e, cut)
    requires var s := Scanning(Written(e.log)[..cut], true); s.Scanned? && s.records == AllOnDisk(found)
    ensures RecoveringInv(R.Start(found, e.disk), e.base, e.acked)
  {
    var c := ByteCrashIsCrash(e, cut);
    OnDiskSame(found, e.log[..c]);
    CrashInv(e, c);
  }

  /** The engine has run, safely, up to a state in which it crashes in the middle of the log file. The log that the
      scan finds there is recovered, through any number of further crashes. Then every tracked page holds the image
      that this log promises, nobody is left unfinished, and every acknowledged commit is a winner. */
  lemma TornLogIsRecovered(run: seq<System>, k: nat, cut: nat, found: Log, attempts: seq<R.State>)
    requires SafeRun(run) && k < |run| && run[k].Running? && FitsFields(run[k].engine.log)
             && MaySurvive(run[k].engine, cut)
    requires var s := Scanning(Written(run[k].engine.log)[..cut], true); s.Scanned? && s.records == AllOnDisk(found)
    requires RP.Attempts(attempts) && attempts[0] == R.Start(found, run[k].engine.disk)
             && attempts[|attempts| - 1].phase.Done?
    ensures var e, last := run[k].engine, attempts[|attempts| - 1];
            && (forall p :: R.Tracked(last.log, e.base, p) ==> R.Restored(last.log, last.disk, e.base, p))
            && (forall t :: !Loser(last.log, |last.log|, t))
            && (forall t :: t in e.acked ==> HasCommit(found, |found|, t))
  {
    RunKeepsInv(run, k);
    var e, n := run[k].engine, |attempts| - 1;
    FoundIsCrash(e, cut, found);
    RP.AttemptsKeepInv(attempts, e.base, n);
  }
}
