/** A page that is freed and allocated again between two checkpoints: recovery from a crash puts it on the free list
    although a committed transaction has it in use. */
module ReusedPage {
  import opened Wal
  import R = RecoveryMachine
  import RP = RecoveryProof
  import F = FreedPages
  import opened EngineMachine
  import opened CrashRuns
  import opened ActionRuns
  import opened PoolRuns
  import Recovery

  // ----- when recovery gives back a page that is in use -----

  /** The last that winners did about the allocation of `p` was to allocate it. */
  ghost predicate InUse(log: Log, i: nat, p: nat) {
    && i < |log| && log[i].recordType == PageAllocate && log[i].pageId == p && HasCommit(log, |log|, log[i].txnId)
    && (forall k :: i < k < |log| && log[k].pageId == p && log[k].recordType == PageFree ==>
          !HasCommit(log, |log|, log[k].txnId))
    && forall k :: 0 <= k < |log| && log[k].pageId == p && log[k].recordType == PageAllocate ==>
         !Loser(log, |log|, log[k].txnId)
  }

  /** A page in use ends on the free list exactly when it was there, or a winner had freed it since the checkpoint. */
  lemma InUseIsFreedIff(log: Log, i: nat, p: nat, freed: set<nat>, freed': set<nat>)
    requires InUse(log, i, p) && F.FreesExactly(log, freed, freed')
    ensures p in freed' <==>
              p in freed || exists k :: 0 <= k < i && log[k].pageId == p && log[k].recordType == PageFree
                                        && HasCommit(log, |log|, log[k].txnId)
  {
    if k :| 0 <= k < |log| && log[k].pageId == p && F.Owes(log, k) {
      assert log[k].recordType == PageFree && k < i;
    }
    if k :| 0 <= k < i && log[k].pageId == p && log[k].recordType == PageFree && HasCommit(log, |log|, log[k].txnId) {
      assert F.Owes(log, k);
    }
  }

  // ----- a run that gets there -----

  /** The engine gets there, without retrying a rollback. */
  ghost predicate Reaches(e: Engine, e': Engine) {
    exists actions: seq<Action> :: Via(Next, e, actions, e') && forall a :: a in actions ==> !a.RetryAbort?
  }

  lemma ReachesItself(e: Engine)
    ensures Reaches(e, e)
  {
    var none: seq<Action> := [];
    assert Via(Next, e, none, e);
  }

  lemma ReachesMore(e: Engine, m: Engine, a: Action, e': Engine)
    requires Reaches(e, m) && Next(m, a, e') && !a.RetryAbort?
    ensures Reaches(e, e')
  {
    var actions: seq<Action> :| Via(Next, e, actions, m) && forall b :: b in actions ==> !b.RetryAbort?;
    ViaOne(Next, m, a, e');
    ViaJoin(Next, e, actions, m, [a], e');
    assert forall b :: b in actions + [a] ==> !b.RetryAbort?;
  }

  /** Nothing goes on, and the page is on nobody's mind. */
  ghost predicate Quiet(e: Engine, p: nat) {
    && e.txns == map[] && e.durable <= |e.log| && e.nextTxn > 0
    && p in e.disk.pages && p !in e.cache && p !in e.holder
  }

  /** The only transaction, which holds page `p`, in a state `state`. */
  ghost predicate Alone(e: Engine, t: nat, p: nat, state: TxnState, deferred: seq<nat>) {
    && t in e.txns && e.txns.Keys == {t} && e.txns[t].state == state && e.txns[t].deferred == deferred
    && p in e.holder && e.holder[p] == t && e.nextTxn == t + 1 && t > 0 && e.durable <= |e.log|
  }

  function Begun(e: Engine): Engine {
    e.(log := e.log + [Record(e, RecordType.Begin, e.nextTxn, 0, [], [])],
       txns := e.txns[e.nextTxn := Txn(Active, |e.log| + 1, INVALID_LSN, INVALID_LSN, [])],
       nextTxn := e.nextTxn + 1)
  }

  /** The log with one record more. */
  ghost predicate OneMoreRecord(e: Engine, e': Engine, kind: RecordType, t: nat, p: nat) {
    |e'.log| == |e.log| + 1 && e'.log[..|e.log|] == e.log
    && e'.log[|e.log|].recordType == kind && e'.log[|e.log|].txnId == t && e'.log[|e.log|].pageId == p
  }

  lemma Begins(e: Engine)
    requires e.txns == map[]
    ensures Next(e, BeginTxn, Begun(e)) && OneMoreRecord(e, Begun(e), RecordType.Begin, e.nextTxn, 0)
  {
  }

  lemma BeginLocked(e: Engine, p: nat) returns (e': Engine)
    requires Quiet(e, p)
    ensures Reaches(e, e') && Alone(e', e.nextTxn, p, Active, [])
            && OneMoreRecord(e, e', RecordType.Begin, e.nextTxn, 0)
    ensures e'.disk == e.disk && p !in e'.cache && e'.durable == e.durable
            && e'.txns[e.nextTxn].commitLsn == INVALID_LSN
  {
    var e1 := Begun(e);
    Begins(e);
    e' := e1.(holder := e1.holder[p := e.nextTxn]);
    assert Next(e1, LockPage(e.nextTxn, p), e');
    ReachesItself(e);
    ReachesMore(e, e, BeginTxn, e1);
    ReachesMore(e, e1, LockPage(e.nextTxn, p), e');
  }

  function Freed(e: Engine, t: nat, p: nat): Engine
    requires t in e.txns
  {
    var e1 := AppendFor(e, t, Record(e, PageFree, t, p, [], []));
    e1.(txns := e1.txns[t := e1.txns[t].(deferred := e.txns[t].deferred + [p])])
  }

  lemma Frees(e: Engine, t: nat, p: nat)
    requires Alone(e, t, p, Active, [])
    ensures var e' := Freed(e, t, p);
            Next(e, Free(t, p), e') && Alone(e', t, p, Active, [p]) && OneMoreRecord(e, e', PageFree, t, p)
            && e'.txns[t].commitLsn == e.txns[t].commitLsn
  {
  }

  function Allocated(e: Engine, t: nat, p: nat): Engine
    requires t in e.txns
  {
    AppendFor(e, t, Record(e, PageAllocate, t, p, [], [])).(
      disk := R.Disk(e.disk.pages[p := R.FreedImage()], e.disk.freed - {p}),
      cache := e.cache[p := Frame(R.FreedImage(), false, INVALID_LSN)],
      holder := e.holder[p := t])
  }

  lemma Allocates(e: Engine, t: nat, p: nat)
    requires Alone(e, t, p, Active, []) && FreePageId(e, p)
    ensures var e' := Allocated(e, t, p);
            Next(e, Allocate(t, p), e') && Alone(e', t, p, Active, []) && OneMoreRecord(e, e', PageAllocate, t, p)
            && e'.txns[t].commitLsn == e.txns[t].commitLsn
  {
  }

  function CommitAppended(e: Engine, t: nat): Engine
    requires t in e.txns
  {
    var e1 := AppendFor(e, t, Record(e, RecordType.Commit, t, 0, [], []));
    e1.(txns := e1.txns[t := e1.txns[t].(commitLsn := |e.log| + 1)])
  }

  function Flushed(e: Engine, t: nat): Engine
    requires t in e.txns
  {
    SetState(e, t, Committed).(durable := Max(e.durable, e.txns[t].commitLsn), acked := e.acked + {t})
  }

  lemma CommitSteps(e: Engine, t: nat, p: nat, deferred: seq<nat>)
    requires Alone(e, t, p, Committing, deferred) && e.txns[t].commitLsn == INVALID_LSN
    ensures var e1 := CommitAppended(e, t);
            var e' := Flushed(e1, t);
            Next(e, AppendCommit(t), e1) && Next(e1, FlushCommit(t, true), e')
            && Alone(e', t, p, Committed, deferred) && OneMoreRecord(e, e', RecordType.Commit, t, 0)
            && e'.durable == |e'.log| && t in e'.acked && e'.disk == e.disk && e'.cache == e.cache
  {
  }

  lemma CommitStarts(e: Engine, t: nat, p: nat, deferred: seq<nat>)
    requires Alone(e, t, p, Active, deferred)
    ensures var e1 := SetState(e, t, Committing);
            Next(e, BeginCommit(t), e1) && Alone(e1, t, p, Committing, deferred) && e1.log == e.log
            && e1.txns[t].commitLsn == e.txns[t].commitLsn && e1.disk == e.disk && e1.cache == e.cache
  {
  }

  /** The commit record is written and made durable. */
  lemma Commits(e0: Engine, e: Engine, t: nat, p: nat, deferred: seq<nat>) returns (e': Engine)
    requires Reaches(e0, e) && Alone(e, t, p, Active, deferred) && e.txns[t].commitLsn == INVALID_LSN
    ensures Reaches(e0, e') && Alone(e', t, p, Committed, deferred) && OneMoreRecord(e, e', RecordType.Commit, t, 0)
    ensures e'.durable == |e'.log| && t in e'.acked && e'.disk == e.disk && e'.cache == e.cache
  {
    var e1 := SetState(e, t, Committing);
    CommitStarts(e, t, p, deferred);
    ReachesMore(e0, e, BeginCommit(t), e1);
    CommitSteps(e1, t, p, deferred);
    var e2 := CommitAppended(e1, t);
    e' := Flushed(e2, t);
    ReachesMore(e0, e1, AppendCommit(t), e2);
    ReachesMore(e0, e2, FlushCommit(t, true), e');
  }

  function Finalized(e: Engine, t: nat, p: nat): Engine
    requires t in e.txns
  {
    DeletePage(e, p).(txns := e.txns[t := e.txns[t].(deferred := [])])
  }

  function Left(e: Engine, t: nat): Engine {
    e.(txns := e.txns - {t}, holder := map p | p in e.holder && e.holder[p] != t :: e.holder[p])
  }

  lemma Leaves(e: Engine, t: nat, p: nat)
    requires Alone(e, t, p, Committed, [p]) && p in e.disk.pages && p !in e.cache
    ensures var e1 := Finalized(e, t, p);
            var e' := Left(e1, t);
            Next(e, FinalizeDelete(t), e1) && Next(e1, Release(t), e')
            && Quiet(e', p) && p in e'.disk.freed && e'.log == e.log && e'.durable == e.durable && e'.nextTxn == t + 1
  {
    var e1 := Finalized(e, t, p);
    assert [p][1..] == [];
    var e' := Left(e1, t);
    assert e'.txns.Keys == {};
  }

  /** A transaction frees the page and commits. */
  lemma FreeCommitted(e: Engine, p: nat) returns (e': Engine)
    requires Quiet(e, p)
    ensures Reaches(e, e') && Quiet(e', p) && p in e'.disk.freed && e'.nextTxn == e.nextTxn + 1
    ensures |e'.log| == |e.log| + 3 && e'.log[..|e.log|] == e.log
    ensures var r, c, t := e'.log[|e.log| + 1], e'.log[|e.log| + 2], e.nextTxn;
            r.recordType == PageFree && r.pageId == p && r.txnId == t && c.recordType == Commit && c.txnId == t
  {
    var t := e.nextTxn;
    var e1 := BeginLocked(e, p);
    Frees(e1, t, p);
    var e2 := Freed(e1, t, p);
    ReachesMore(e, e1, Free(t, p), e2);
    var e3 := Commits(e, e2, t, p, [p]);
    Leaves(e3, t, p);
    e' := Left(Finalized(e3, t, p), t);
    ReachesMore(e, e3, FinalizeDelete(t), Finalized(e3, t, p));
    ReachesMore(e, Finalized(e3, t, p), Release(t), e');
    Prefixes(e.log, e1.log, e2.log, e3.log);
  }

  lemma Prefixes(a: Log, b: Log, c: Log, d: Log)
    requires |b| == |a| + 1 && |c| == |b| + 1 && |d| == |c| + 1
    requires b[..|a|] == a && c[..|b|] == b && d[..|c|] == c
    ensures d[..|a|] == a && d[|a|] == b[|a|] && d[|a| + 1] == c[|b|]
  {
    assert forall i :: 0 <= i < |b| ==> c[..|b|][i] == c[i];
    assert forall i :: 0 <= i < |c| ==> d[..|c|][i] == d[i];
  }

  /** Another allocates it and commits. */
  lemma AllocateCommitted(e: Engine, p: nat) returns (e': Engine)
    requires Quiet(e, p) && p in e.disk.freed
    ensures Reaches(e, e') && p !in e'.disk.freed && e.nextTxn in e'.acked && e'.durable == |e'.log|
    ensures |e'.log| == |e.log| + 3 && e'.log[..|e.log|] == e.log
    ensures var b, r, c, t := e'.log[|e.log|], e'.log[|e.log| + 1], e'.log[|e.log| + 2], e.nextTxn;
            && b.recordType == RecordType.Begin && r.recordType == PageAllocate && r.pageId == p && r.txnId == t
            && c.recordType == Commit && c.txnId == t
  {
    var t := e.nextTxn;
    var e1 := BeginLocked(e, p);
    Allocates(e1, t, p);
    var e2 := Allocated(e1, t, p);
    ReachesMore(e, e1, Allocate(t, p), e2);
    e' := Commits(e, e2, t, p, []);
    Prefixes(e.log, e1.log, e2.log, e'.log);
  }

  lemma ReachesTwice(e: Engine, m: Engine, e': Engine)
    requires Reaches(e, m) && Reaches(m, e')
    ensures Reaches(e, e')
  {
    var first: seq<Action> :| Via(Next, e, first, m) && forall a :: a in first ==> !a.RetryAbort?;
    var rest: seq<Action> :| Via(Next, m, rest, e') && forall a :: a in rest ==> !a.RetryAbort?;
    ViaJoin(Next, e, first, m, rest, e');
    assert forall a: Action :: a in first + rest ==> !a.RetryAbort?;
  }

  /** Every completed recovery from here puts `p` on the free list. */
  ghost predicate WillBeFreed(e: Engine, p: nat) {
    forall run: seq<R.State> ::
      RP.Attempts(run) && run[0] == R.Start(e.log, e.disk) && run[|run| - 1].phase.Done? ==>
        p in run[|run| - 1].disk.freed
  }

  lemma OwedIsFreed(e: Engine, i: nat, p: nat)
    requires EngineInv(e) && i < |e.log| && e.log[i].recordType == PageFree && e.log[i].pageId == p
    requires HasCommit(e.log, |e.log|, e.log[i].txnId)
    ensures WillBeFreed(e, p)
  {
    CrashInv(e, |e.log|);
    assert e.log[..|e.log|] == e.log;
    assert F.Owes(e.log, i);
    forall run: seq<R.State> | RP.Attempts(run) && run[0] == R.Start(e.log, e.disk) && run[|run| - 1].phase.Done?
      ensures p in run[|run| - 1].disk.freed
    {
      Recovery.RecoveryIsRestartable(e.log, e.disk, e.base, run);
    }
  }

  /** From every quiet state of the engine, and for every page of the file: two transactions later the page is
      allocated, its allocation committed and acknowledged, and the whole log durable - and every recovery frees it. */
  lemma ReusedPageIsFreed(e: Engine, p: nat) returns (e': Engine)
    requires EngineInv(e) && Quiet(e, p)
    ensures Reaches(e, e') && EngineInv(e') && e'.durable == |e'.log|
    ensures p !in e'.disk.freed && WillBeFreed(e', p)
    ensures var i := |e.log| + 4;
            && |e'.log| == i + 2 && e'.log[i].recordType == PageAllocate && e'.log[i].pageId == p
            && HasCommit(e'.log, |e'.log|, e'.log[i].txnId) && e'.log[i].txnId in e'.acked
  {
    var m := FreeCommitted(e, p);
    e' := AllocateCommitted(m, p);
    ReachesTwice(e, m, e');
    var actions: seq<Action> :| Via(Next, e, actions, e') && forall a :: a in actions ==> !a.RetryAbort?;
    PoolRunKeepsInv(e, actions, e');
    var n := |e.log|;
    assert forall k :: 0 <= k < |m.log| ==> e'.log[..|m.log|][k] == e'.log[k];
    assert e'.log[n + 1] == m.log[n + 1] && e'.log[n + 2] == m.log[n + 2];
    OwedIsFreed(e', n + 1, p);
  }
}
