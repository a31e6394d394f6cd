/** A run of the engine, from an empty log, that retries an abort and loses a page: a transaction updates a page
    twice, is rolled back, and its Abort record cannot be flushed. */
module AbortRetryRun {
  import opened Bytes
  import opened Wal
  import R = RecoveryMachine
  import opened EngineMachine
  import opened CrashRuns
  import opened AbortRetry

  function Fill(b: Byte): (image: Image)
    ensures |image| == PAGE_SIZE && image[0] == b
  {
    seq(PAGE_SIZE, _ => b)
  }

  lemma FillsDiffer(a: Byte, b: Byte)
    requires a != b
    ensures Fill(a) != Fill(b)
  {
    assert Fill(a)[0] != Fill(b)[0];
  }

  const BEGIN := LogRecord(RecordType.Begin, 1, 1, 0, 0, 0, Checkpoint, [], [])

  function First(): LogRecord { LogRecord(PageUpdate, 2, 1, 1, 7, 0, Checkpoint, Fill(0), Fill(1)) }

  function Second(): LogRecord { LogRecord(PageUpdate, 3, 1, 2, 7, 0, Checkpoint, Fill(1), Fill(2)) }

  const ABORT := LogRecord(RecordType.Abort, 4, 1, 3, 0, 0, Checkpoint, [], [])

  /** Transaction 1 alone, holding page 7 alone, which has the image `image` on disk and `frame` in the cache. */
  function With(log: Log, durable: nat, image: Image, frame: Frame, state: TxnState, abortLsn: nat): Engine {
    Engine(log, durable, R.Disk(map[7 := image], {}), map[7 := frame],
           map[1 := Txn(state, |log|, INVALID_LSN, abortLsn, [])],
           map[7 := 1], 2, map[7 := Fill(0)], {})
  }

  function Clean(image: Image): Frame { Frame(image, false, INVALID_LSN) }

  function Begun(): Log { [BEGIN] }

  function Once(): Log { [BEGIN, First()] }

  function Twice(): Log { [BEGIN, First(), Second()] }

  function Ended(): Log { [BEGIN, First(), Second(), ABORT] }

  function Opened(): Engine {
    Engine([], 0, R.Disk(map[7 := Fill(0)], {}), map[], map[], map[], 1, map[7 := Fill(0)], {})
  }

  function Started(): Engine {
    Opened().(log := Begun(), txns := map[1 := Txn(Active, 1, INVALID_LSN, INVALID_LSN, [])], nextTxn := 2)
  }

  function Locked(): Engine { Started().(holder := map[7 := 1]) }

  /** The engine after `i` steps. */
  function Story(i: nat): Engine {
    match i
    case 0 => Opened()
    case 1 => Started()
    case 2 => Locked()
    case 3 => With(Begun(), 0, Fill(0), Clean(Fill(0)), Active, INVALID_LSN)
    case 4 => With(Once(), 0, Fill(0), Frame(Fill(1), true, 2), Active, INVALID_LSN)
    case 5 => With(Twice(), 0, Fill(0), Frame(Fill(2), true, 3), Active, INVALID_LSN)
    case 6 => With(Twice(), 3, Fill(0), Frame(Fill(2), true, 3), Aborting(3), INVALID_LSN)
    case 7 => With(Twice(), 3, Fill(1), Clean(Fill(1)), Aborting(2), INVALID_LSN)
    case 8 => With(Twice(), 3, Fill(0), Clean(Fill(0)), Aborting(1), INVALID_LSN)
    case 9 => With(Twice(), 3, Fill(0), Clean(Fill(0)), Aborting(0), INVALID_LSN)
    case 10 => With(Ended(), 3, Fill(0), Clean(Fill(0)), Aborting(0), 4)
    case _ => Last()
  }

  function Last(): Engine { With(Ended(), 3, Fill(0), Clean(Fill(0)), Failed, 4) }

  lemma Overwritten<T>(k: nat, a: T, b: T)
    ensures map[k := a][k := b] == map[k := b]
  {
  }

  lemma BeginStep()
    ensures Next(Opened(), BeginTxn, Started())
  {
    var none: map<nat, Txn> := map[];
    assert none[1 := Txn(Active, 1, INVALID_LSN, INVALID_LSN, [])]
           == map[1 := Txn(Active, 1, INVALID_LSN, INVALID_LSN, [])];
    var empty: Log := [];
    assert empty + [BEGIN] == Begun();
  }

  lemma LockStep()
    ensures Next(Started(), LockPage(1, 7), Locked())
  {
    var none: map<nat, nat> := map[];
    assert none[7 := 1] == map[7 := 1];
  }

  lemma FetchStep()
    ensures Next(Locked(), Fetch(7), With(Begun(), 0, Fill(0), Clean(Fill(0)), Active, INVALID_LSN))
  {
    var none: map<nat, Frame> := map[];
    assert none[7 := Clean(Fill(0))] == map[7 := Clean(Fill(0))];
  }

  lemma WriteStep(log: Log, r: LogRecord, frame: Frame, b: Byte)
    requires |log| > 0 && r == LogRecord(PageUpdate, |log| + 1, 1, |log|, 7, 0, Checkpoint, frame.image, Fill(b))
    ensures Next(With(log, 0, Fill(0), frame, Active, INVALID_LSN), Write(1, 7, Fill(b)),
                 With(log + [r], 0, Fill(0), Frame(Fill(b), true, |log| + 1), Active, INVALID_LSN))
  {
    var e := With(log, 0, Fill(0), frame, Active, INVALID_LSN);
    assert Record(e, PageUpdate, 1, 7, frame.image, Fill(b)) == r;
    Overwritten(1, e.txns[1], e.txns[1].(lastLsn := |log| + 1));
    Overwritten(7, frame, Frame(Fill(b), true, |log| + 1));
  }

  lemma AbortStarts()
    ensures Next(With(Twice(), 0, Fill(0), Frame(Fill(2), true, 3), Active, INVALID_LSN), BeginAbort(1),
                 With(Twice(), 3, Fill(0), Frame(Fill(2), true, 3), Aborting(3), INVALID_LSN))
  {
    var e := With(Twice(), 0, Fill(0), Frame(Fill(2), true, 3), Active, INVALID_LSN);
    Overwritten(1, e.txns[1], e.txns[1].(state := Aborting(3)));
  }

  lemma UndoStep(next: nat, image: Image, frame: Frame)
    requires next == 2 || next == 3
    ensures var r := Twice()[next - 1];
            Next(With(Twice(), 3, image, frame, Aborting(next), INVALID_LSN), UndoOne(1),
                 With(Twice(), 3, r.beforeImage, Clean(r.beforeImage), Aborting(next - 1), INVALID_LSN))
  {
    var e, r := With(Twice(), 3, image, frame, Aborting(next), INVALID_LSN), Twice()[next - 1];
    Overwritten(1, e.txns[1], e.txns[1].(state := Aborting(r.prevLsn)));
    Overwritten(7, image, r.beforeImage);
    Overwritten(7, frame, Clean(r.beforeImage));
  }

  lemma UndoBegin()
    ensures Next(With(Twice(), 3, Fill(0), Clean(Fill(0)), Aborting(1), INVALID_LSN), UndoOne(1),
                 With(Twice(), 3, Fill(0), Clean(Fill(0)), Aborting(0), INVALID_LSN))
  {
    var e := With(Twice(), 3, Fill(0), Clean(Fill(0)), Aborting(1), INVALID_LSN);
    Overwritten(1, e.txns[1], e.txns[1].(state := Aborting(0)));
  }

  lemma AbortEnds()
    ensures Next(With(Twice(), 3, Fill(0), Clean(Fill(0)), Aborting(0), INVALID_LSN), AppendAbort(1),
                 With(Ended(), 3, Fill(0), Clean(Fill(0)), Aborting(0), 4))
  {
    var e := With(Twice(), 3, Fill(0), Clean(Fill(0)), Aborting(0), INVALID_LSN);
    assert Record(e, Abort, 1, 0, [], []) == ABORT && Twice() + [ABORT] == Ended();
    Overwritten(1, e.txns[1], e.txns[1].(lastLsn := 4));
    Overwritten(1, e.txns[1].(lastLsn := 4), e.txns[1].(lastLsn := 4, abortLsn := 4));
  }

  lemma FlushStep()
    ensures Next(With(Ended(), 3, Fill(0), Clean(Fill(0)), Aborting(0), 4), FlushAbort(1, false),
                 With(Ended(), 3, Fill(0), Clean(Fill(0)), Failed, 4))
  {
    var e := With(Ended(), 3, Fill(0), Clean(Fill(0)), Aborting(0), 4);
    Overwritten(1, e.txns[1], e.txns[1].(state := Failed));
  }

  /** Each step is an action of the engine, and none is a retry. */
  ghost predicate Follows(e: Engine, e': Engine) { exists a :: Next(e, a, e') && !a.RetryAbort? }

  lemma Entering(i: nat)
    requires i < 3
    ensures Follows(Story(i), Story(i + 1))
  {
    if i == 0 {
      BeginStep();
      assert Follows(Opened(), Started());
    } else if i == 1 {
      LockStep();
      assert Follows(Started(), Locked());
    } else {
      FetchStep();
    }
  }

  lemma Writing(i: nat)
    requires i == 3 || i == 4
    ensures Follows(Story(i), Story(i + 1))
  {
    if i == 3 {
      WriteStep(Begun(), First(), Clean(Fill(0)), 1);
      assert Begun() + [First()] == Once();
    } else {
      WriteStep(Once(), Second(), Frame(Fill(1), true, 2), 2);
      assert Once() + [Second()] == Twice();
    }
  }

  lemma Undoing(i: nat)
    requires 5 <= i < 9
    ensures Follows(Story(i), Story(i + 1))
  {
    if i == 5 { AbortStarts(); }
    else if i == 6 { UndoStep(3, Fill(0), Frame(Fill(2), true, 3)); }
    else if i == 7 { UndoStep(2, Fill(1), Clean(Fill(1))); }
    else { UndoBegin(); }
  }

  lemma Ending(i: nat)
    requires i == 9 || i == 10
    ensures Follows(Story(i), Story(i + 1))
  {
    if i == 9 { AbortEnds(); } else { FlushStep(); }
  }

  lemma StoryGoesOn(i: nat)
    requires i < 11
    ensures Follows(Story(i), Story(i + 1))
  {
    if i < 3 { Entering(i); } else if i < 5 { Writing(i); } else if i < 9 { Undoing(i); } else { Ending(i); }
  }

  function Systems(): (run: seq<System>)
    ensures |run| == 12
  {
    seq(12, i requires 0 <= i < 12 => Running(Story(i)))
  }

  lemma OpenedIsFresh()
    ensures Fresh(Running(Opened()))
  {
    var e := Opened();
    var b := map p | p in e.disk.pages && p !in e.disk.freed :: e.disk.pages[p];
    assert b.Keys == e.base.Keys;
    assert e.base == b;
  }

  lemma FollowsIsSafe(e: Engine, e': Engine)
    requires Follows(e, e')
    ensures SafeStep(Running(e), Running(e'))
  {
    var a :| Next(e, a, e') && !a.RetryAbort?;
    assert Next(e, a, e') && IsSafe(e, a);
  }

  lemma StoryIsSafe()
    ensures SafeRun(Systems())
  {
    var run := Systems();
    OpenedIsFresh();
    assert run[0] == Running(Opened());
    forall i | 0 <= i < 11 ensures SafeStep(run[i], run[i + 1]) {
      StoryGoesOn(i);
      FollowsIsSafe(Story(i), Story(i + 1));
      assert run[i] == Running(Story(i)) && run[i + 1] == Running(Story(i + 1));
    }
  }

  lemma LastIsGood()
    ensures EngineInv(Last())
  {
    StoryIsSafe();
    RunKeepsInv(Systems(), 11);
    assert Systems()[11] == Running(Last());
  }

  lemma LastIsUnsafe()
    ensures Stuck(Last(), 1) && !SafeToRetry(Last().log, |Last().log|, Last().base, 1)
  {
    FillsDiffer(0, 1);
    var log := Last().log;
    assert log[2] == Second();
    forall i | 0 <= i < 4 ensures log[i].recordType !in {Commit, PageAllocate, PageFree} {}
    assert !WonBy(log, 4, 7) && !Named(log, 4, 7);
    assert !UndoIsHarmless(log, 4, Last().base, log[2]);
  }

  lemma RetryStepIsStep(t: nat, s: System, s': System)
    requires RetryStep(t, s, s')
    ensures SystemStep(s, s')
  {
    if s.Running? && s'.Running? { assert Next(s.engine, RetryOne(t), s'.engine); }
  }

  lemma RetryRunSteps(e: Engine, t: nat, run: seq<System>, j: nat)
    requires RetryRun(e, t, run) && j + 1 < |run|
    ensures SystemStep(run[j], run[j + 1])
  {
    if j == 0 {
      assert Next(e, RetryAbort(t), run[1].engine);
    } else {
      RetryStepIsStep(t, run[j], run[j + 1]);
    }
  }

  lemma JoinedSteps(start: seq<System>, tail: seq<System>, i: nat)
    requires |start| > 0 && |tail| > 0 && start[|start| - 1] == tail[0]
    requires forall j :: 0 <= j < |start| - 1 ==> SystemStep(start[j], start[j + 1])
    requires forall j :: 0 <= j < |tail| - 1 ==> SystemStep(tail[j], tail[j + 1])
    requires i + 1 < |start + tail[1..]|
    ensures SystemStep((start + tail[1..])[i], (start + tail[1..])[i + 1])
  {
    var n := |start| - 1;
    if i >= n {
      var j := i - n;
      assert (start + tail[1..])[i + 1] == tail[j + 1] && (start + tail[1..])[i] == tail[j];
    }
  }

  /** The run, from an empty log to the end of recovery: page 7 does not hold its committed image. */
  lemma RetriedAbortLosesThePage() returns (run: seq<System>)
    ensures Run(run) && !Right(run[|run| - 1])
  {
    StoryIsSafe();
    LastIsGood();
    LastIsUnsafe();
    var tail := UnsafeRetryLosesAPage(Last(), 1);
    var start := Systems();
    run := start + tail[1..];
    assert start[11] == Running(Last()) == tail[0];
    forall j | 0 <= j < |tail| - 1 ensures SystemStep(tail[j], tail[j + 1]) { RetryRunSteps(Last(), 1, tail, j); }
    forall j | 0 <= j < 11 ensures SystemStep(start[j], start[j + 1]) { assert SafeStep(start[j], start[j + 1]); }
    forall i | 0 <= i < |run| - 1 ensures SystemStep(run[i], run[i + 1]) { JoinedSteps(start, tail, i); }
    assert run[0] == start[0] && run[|run| - 1] == tail[|tail| - 1];
  }
}
