/** Every action of the running engine keeps the engine invariant. */
module EngineProof {
  import opened Wal
  import R = RecoveryMachine
  import RP = RecoveryProof
  import opened EngineMachine

  // ----- appending one record -----

  lemma AppendStatus(log: Log, r: LogRecord, u: nat)
    ensures var l := log + [r]; var n := |log|;
            && HasCommit(l, n + 1, u) == (HasCommit(log, n, u) || (u == r.txnId && r.recordType == Commit))
            && HasAbort(l, n + 1, u) == (HasAbort(log, n, u) || (u == r.txnId && r.recordType == Abort))
            && HasRecord(l, n + 1, u) == (HasRecord(log, n, u) || u == r.txnId)
            && LastLsn(l, n + 1, u) == (if u == r.txnId then n + 1 else LastLsn(log, n, u))
  {
    AgreeOnTxn(log, log + [r], |log|, u);
    RP.OneMore(log + [r], |log|, u);
  }

  lemma AppendClr(log: Log, r: LogRecord, u: nat)
    requires r.recordType != Compensation
    ensures HasClr(log + [r], |log| + 1, u) == HasClr(log, |log|, u)
  {
    AgreeOnTxn(log, log + [r], |log|, u);
  }

  /** The committed image of a page changes only when one of its writers commits. */
  lemma AppendImage(log: Log, r: LogRecord, k: nat, p: nat, image: Image)
    requires k <= |log|
    requires r.recordType == Commit ==> !HasUpdate(log, |log|, r.txnId, p)
    ensures CommittedImage(log + [r], |log| + 1, k, p, image) == CommittedImage(log, |log|, k, p, image)
  {
    if k > 0 {
      AppendImage(log, r, k - 1, p, image);
      AppendStatus(log, r, log[k - 1].txnId);
    }
  }

  lemma AppendFinal(log: Log, r: LogRecord, p: nat, image: Image)
    requires r.recordType == Commit ==> !HasUpdate(log, |log|, r.txnId, p)
    requires Updates(r, p) ==> !HasCommit(log, |log|, r.txnId)
    ensures Final(log + [r], p, image) == Final(log, p, image)
  {
    AppendImage(log, r, |log|, p, image);
    AppendStatus(log, r, r.txnId);
  }

  lemma AppendPage(log: Log, r: LogRecord, p: nat)
    ensures var l := log + [r]; var n := |log|;
            && Named(l, n + 1, p) == (Named(log, n, p) || (r.pageId == p && r.recordType in {PageAllocate, PageFree}))
            && (forall t :: HasUpdate(l, n + 1, t, p) == (HasUpdate(log, n, t, p) || (t == r.txnId && Updates(r, p))))
  {
    var l := log + [r];
    AgreeOnPage(log, l, |log|, p);
    assert l[|log|] == r;
    OneMorePage(l, |log|, p);
  }

  lemma OneMorePage(l: Log, n: nat, p: nat)
    requires n < |l|
    ensures Named(l, n + 1, p) == (Named(l, n, p) || (l[n].pageId == p && l[n].recordType in {PageAllocate, PageFree}))
    ensures forall t :: HasUpdate(l, n + 1, t, p) == (HasUpdate(l, n, t, p) || (t == l[n].txnId && Updates(l[n], p)))
  {
  }

  /** Only an Abort can turn a touched page into an untouched one. */
  lemma AppendTouched(log: Log, r: LogRecord, p: nat)
    requires r.recordType != Abort
    ensures Touched(log, |log|, p) ==> Touched(log + [r], |log| + 1, p)
  {
    var l := log + [r];
    if Touched(log, |log|, p) {
      var i :| 0 <= i < |log| && Updates(log[i], p) && !HasAbort(log, |log|, log[i].txnId);
      AppendStatus(log, r, log[i].txnId);
      assert l[i] == log[i];
    }
  }

  lemma AppendSafe(e: Engine, r: LogRecord)
    requires R.CrashSafe(e.log, e.durable, e.disk, e.base)
    requires RecordOk(e.log + [r], |e.log|, e.base) && r.recordType != Abort
    ensures R.CrashSafe(e.log + [r], e.durable, e.disk, e.base)
  {
    var l := e.log + [r];
    assert R.DiskOk(e.log, |e.log|, e.disk, e.base);
    forall p | p in e.base && !Named(l, |l|, p) && !Touched(l, |l|, p)
      ensures p in e.disk.pages && e.disk.pages[p] == e.base[p]
    {
      AppendPage(e.log, r, p);
      AppendTouched(e.log, r, p);
    }
    RP.AppendCrashSafe(e.log, r, e.durable, e.disk, e.base);
  }

  // ----- what does not change -----

  /** `e'` has the log of `e`, perhaps with one more record, which is not by `u`. */
  ghost predicate Extends(e: Engine, e': Engine, u: nat) {
    && |e.log| <= |e'.log| <= |e.log| + 1
    && e'.log[..|e.log|] == e.log
    && (|e'.log| == |e.log| + 1 ==> e'.log[|e.log|].txnId != u && e'.log[|e.log|].recordType != Compensation)
  }

  lemma ExtendsStatus(e: Engine, e': Engine, u: nat)
    requires Extends(e, e', u)
    ensures HasCommit(e'.log, |e'.log|, u) == HasCommit(e.log, |e.log|, u)
    ensures HasAbort(e'.log, |e'.log|, u) == HasAbort(e.log, |e.log|, u)
    ensures HasRecord(e'.log, |e'.log|, u) == HasRecord(e.log, |e.log|, u)
    ensures HasClr(e'.log, |e'.log|, u) == HasClr(e.log, |e.log|, u)
    ensures LastLsn(e'.log, |e'.log|, u) == LastLsn(e.log, |e.log|, u)
  {
    if |e'.log| == |e.log| + 1 {
      var r := e'.log[|e.log|];
      assert e'.log == e.log + [r];
      AppendStatus(e.log, r, u);
      AppendClr(e.log, r, u);
    } else {
      assert e'.log == e.log;
    }
  }

  lemma WonStays(log: Log, log': Log, n: nat, n': nat, p: nat)
    requires n <= |log| && n <= n' <= |log'| && Agree(log, log', n) && WonBy(log, n, p)
    ensures WonBy(log', n', p)
  {
    var i :| 0 <= i < n && Updates(log[i], p) && HasCommit(log, n, log[i].txnId);
    CommitStays(log, log', n, n', log[i].txnId);
    assert log'[i] == log[i];
  }

  lemma HarmlessStays(log: Log, log': Log, n: nat, n': nat, base: map<nat, Image>, r: LogRecord)
    requires n <= |log| && n <= n' <= |log'| && Agree(log, log', n) && UndoIsHarmless(log, n, base, r)
    ensures UndoIsHarmless(log', n', base, r)
  {
    if Named(log, n, r.pageId) { NamedStays(log, log', n, n', r.pageId); }
    if WonBy(log, n, r.pageId) { WonStays(log, log', n, n', r.pageId); }
  }

  /** More log and more of it durable keep a retry safe. */
  lemma StillSafeToRetry(e: Engine, e': Engine, u: nat)
    requires e.durable <= |e.log| && SafeToRetry(e.log, e.durable, e.base, u) && Extends(e, e', u)
    requires e.durable <= e'.durable <= |e'.log| && e'.base == e.base
    ensures SafeToRetry(e'.log, e'.durable, e'.base, u)
  {
    forall i | 0 <= i < |e.log| ensures e'.log[i] == e.log[i] { assert e'.log[..|e.log|][i] == e.log[i]; }
    forall i | 0 <= i < |e'.log| && e'.log[i].txnId == u && e'.log[i].recordType == PageUpdate
      ensures UndoIsHarmless(e'.log, e'.durable, e'.base, e'.log[i])
    {
      HarmlessStays(e.log, e'.log, e.durable, e'.durable, e.base, e.log[i]);
    }
  }

  lemma OtherTxnOk(e: Engine, e': Engine, u: nat)
    requires e.durable <= |e.log| && u in e.txns && TxnOk(e, u) && Extends(e, e', u)
    requires u in e'.txns && e'.txns[u] == e.txns[u]
    requires e.durable <= e'.durable <= |e'.log| && e.nextTxn <= e'.nextTxn && e.acked <= e'.acked && e'.base == e.base
    ensures TxnOk(e', u)
  {
    ExtendsStatus(e, e', u);
    if e.txns[u].state.Retrying? { StillSafeToRetry(e, e', u); }
    forall i | 0 <= i < |e.log| ensures e'.log[i] == e.log[i] { assert e'.log[..|e.log|][i] == e.log[i]; }
    forall p | p in e.txns[u].deferred
      ensures exists i ::
                0 <= i < |e'.log| && e'.log[i].txnId == u && e'.log[i].recordType == PageFree && e'.log[i].pageId == p
    {
      var i :| 0 <= i < |e.log| && e.log[i].txnId == u && e.log[i].recordType == PageFree && e.log[i].pageId == p;
      assert e'.log[i] == e.log[i];
    }
  }

  lemma CommitStays(log: Log, log': Log, n: nat, n': nat, t: nat)
    requires n <= |log| && n <= n' <= |log'| && Agree(log, log', n) && HasCommit(log, n, t)
    ensures HasCommit(log', n', t)
  {
    var i :| 0 <= i < n && log[i].txnId == t && log[i].recordType == Commit;
    assert log'[i] == log[i];
  }

  lemma NamedStays(log: Log, log': Log, n: nat, n': nat, p: nat)
    requires n <= |log| && n <= n' <= |log'| && Agree(log, log', n) && Named(log, n, p)
    ensures Named(log', n', p)
  {
    var i :| 0 <= i < n && log[i].pageId == p && log[i].recordType in {PageAllocate, PageFree};
    assert log'[i] == log[i];
  }

  /** The other transactions are not disturbed by a record of `t`. */
  lemma OthersTxnsOk(e: Engine, e': Engine, t: nat)
    requires e.durable <= |e.log| && TxnsOk(e)
    requires |e.log| <= |e'.log| <= |e.log| + 1 && e'.log[..|e.log|] == e.log
    requires |e'.log| == |e.log| + 1 ==> e'.log[|e.log|].txnId == t && e'.log[|e.log|].recordType != Compensation
    requires e.durable <= e'.durable <= |e'.log| && e.nextTxn <= e'.nextTxn && t < e'.nextTxn
    requires e.acked <= e'.acked && (forall u :: u in e'.acked && u !in e.acked ==> HasCommit(e'.log, e'.durable, u))
    requires e'.base == e.base
    requires forall u :: u in e'.txns && u != t ==> u in e.txns && e'.txns[u] == e.txns[u]
    requires forall u :: u in e.txns && u != t ==> u in e'.txns
    requires t in e'.txns ==> TxnOk(e', t)
    requires t in e'.txns || !Loser(e'.log, |e'.log|, t)
    ensures TxnsOk(e')
  {
    forall u | u in e'.txns ensures TxnOk(e', u) {
      if u != t { OtherTxnOk(e, e', u); }
    }
    forall u: nat ensures HasRecord(e'.log, |e'.log|, u) ==> u < e'.nextTxn {
      if u != t { ExtendsStatus(e, e', u); }
    }
    forall u | Loser(e'.log, |e'.log|, u) ensures u in e'.txns {
      if u != t { ExtendsStatus(e, e', u); }
    }
    forall u | u in e'.acked ensures HasCommit(e'.log, e'.durable, u) {
      if u in e.acked {
        assert forall i :: 0 <= i < |e.log| ==> e'.log[..|e.log|][i] == e.log[i];
        CommitStays(e.log, e'.log, e.durable, e'.durable, u);
      }
    }
  }

  /** An unfinished transaction has kept everyone else away from its pages. */
  lemma LoserOnlyAfter(log: Log, base: map<nat, Image>, i: nat, p: nat)
    requires LogInv(log, base) && i < |log| && Updates(log[i], p) && !Terminated(log, |log|, log[i].txnId)
    ensures OnlyAfter(log, i, p)
  {
    forall k | i < k < |log| && Updates(log[k], p) ensures log[k].txnId == log[i].txnId {
      assert RecordOk(log, k, base);
    }
  }

  /** Whose Abort is logged in `e'` had it logged in `e`, or was unfinished there. */
  ghost predicate AbortsFrom(e: Engine, e': Engine) {
    forall u :: AbortLogged(e', u) ==> AbortLogged(e, u) || (LogInv(e.log, e.base) && Loser(e.log, |e.log|, u))
  }

  lemma StillLocked(e: Engine, e': Engine, t: nat)
    requires LocksOk(e) && AbortsFrom(e, e')
    requires |e.log| <= |e'.log| <= |e.log| + 1 && e'.log[..|e.log|] == e.log
    requires |e'.log| == |e.log| + 1 ==> e'.log[|e.log|].txnId == t && e'.log[|e.log|].recordType != Compensation
    requires |e'.log| == |e.log| + 1 && e'.log[|e.log|].recordType == PageUpdate ==>
               Holds(e', t, e'.log[|e.log|].pageId)
    requires forall p, u :: Holds(e, u, p) && (Loser(e'.log, |e'.log|, u) || AbortLogged(e', u)) ==> Holds(e', u, p)
    requires forall p :: p in e'.holder ==> e'.holder[p] in e'.txns
    requires AbortLogged(e', t) && |e'.log| == |e.log| + 1 ==> e'.log[|e.log|].recordType != PageUpdate
    ensures LocksOk(e')
  {
    forall i | 0 <= i < |e.log| ensures e'.log[i] == e.log[i] { assert e'.log[..|e.log|][i] == e.log[i]; }
    forall i, p | 0 <= i < |e'.log| && Updates(e'.log[i], p) && Loser(e'.log, |e'.log|, e'.log[i].txnId)
      ensures Holds(e', e'.log[i].txnId, p)
    {
      LoserStillLocked(e, e', t, i, p);
    }
    forall i, p | 0 <= i < |e'.log| && Updates(e'.log[i], p) && AbortLogged(e', e'.log[i].txnId)
      ensures StillOwns(e', i, p)
    {
      if i < |e.log| { OwnerStillLocked(e, e', t, i, p); }
    }
  }

  lemma LoserStillLocked(e: Engine, e': Engine, t: nat, i: nat, p: nat)
    requires LocksOk(e) && |e.log| <= |e'.log| <= |e.log| + 1 && e'.log[..|e.log|] == e.log
    requires |e'.log| == |e.log| + 1 ==> e'.log[|e.log|].txnId == t && e'.log[|e.log|].recordType != Compensation
    requires |e'.log| == |e.log| + 1 && e'.log[|e.log|].recordType == PageUpdate ==>
               Holds(e', t, e'.log[|e.log|].pageId)
    requires forall p, u :: Holds(e, u, p) && (Loser(e'.log, |e'.log|, u) || AbortLogged(e', u)) ==> Holds(e', u, p)
    requires i < |e'.log| && Updates(e'.log[i], p) && Loser(e'.log, |e'.log|, e'.log[i].txnId)
    ensures Holds(e', e'.log[i].txnId, p)
  {
    var u := e'.log[i].txnId;
    if i < |e.log| {
      assert e'.log[..|e.log|][i] == e.log[i];
      if u == t && |e'.log| == |e.log| + 1 {
        assert e'.log == e.log + [e'.log[|e.log|]];
        AppendStatus(e.log, e'.log[|e.log|], u);
      } else {
        ExtendsStatus(e, e', u);
      }
      assert Holds(e, u, p);
    }
  }

  lemma OwnerStillLocked(e: Engine, e': Engine, t: nat, i: nat, p: nat)
    requires LocksOk(e) && AbortsFrom(e, e') && |e.log| <= |e'.log| <= |e.log| + 1
    requires forall k :: 0 <= k < |e.log| ==> e'.log[k] == e.log[k]
    requires |e'.log| == |e.log| + 1 ==> e'.log[|e.log|].txnId == t
    requires |e'.log| == |e.log| + 1 && e'.log[|e.log|].recordType == PageUpdate ==>
               Holds(e', t, e'.log[|e.log|].pageId)
    requires forall p, u :: Holds(e, u, p) && AbortLogged(e', u) ==> Holds(e', u, p)
    requires i < |e.log| && Updates(e.log[i], p) && AbortLogged(e', e.log[i].txnId)
    ensures StillOwns(e', i, p)
  {
    var u := e.log[i].txnId;
    if AbortLogged(e, u) {
      assert StillOwns(e, i, p);
    } else {
      LoserOnlyAfter(e.log, e.base, i, p);
      assert Holds(e, u, p);
    }
    forall k | i < k < |e'.log| && Updates(e'.log[k], p) ensures e'.log[k].txnId == u {
      if k == |e.log| { assert Holds(e', t, p) && Holds(e', u, p); }
    }
  }

  /** A frame nobody touched is still fine. */
  lemma SameFrame(e: Engine, e': Engine, p: nat)
    requires p in e.cache && FrameOk(e, p)
    requires p in e'.cache && e'.cache[p] == e.cache[p]
    requires p in e'.disk.pages && (!e.cache[p].dirty ==> e'.disk.pages[p] == e.disk.pages[p])
    requires |e.log| <= |e'.log| <= |e.log| + 1 && e'.log[..|e.log|] == e.log
    requires |e'.log| == |e.log| + 1 ==> !Updates(e'.log[|e.log|], p)
    requires e.cache[p].dirty ==>
      var t := e.log[e.cache[p].pageLsn - 1].txnId;
      && !HasAbort(e'.log, |e'.log|, t)
      && (t in e'.txns && e'.txns[t].state.Aborting? ==> e.cache[p].pageLsn <= e'.txns[t].state.next)
    ensures FrameOk(e', p)
  {
    if e.cache[p].dirty {
      var i := e.cache[p].pageLsn - 1;
      assert e'.log[..|e.log|][i] == e.log[i];
      forall k | i < k < |e'.log| ensures !Updates(e'.log[k], p) {
        if k < |e.log| { assert e'.log[..|e.log|][k] == e.log[k]; }
      }
    }
  }

  /** A page whose newest copy and owner are unchanged still has the right content. */
  lemma SameContent(e: Engine, e': Engine, p: nat)
    requires p in e.base && p in e.disk.pages && ContentOk(e, p)
    requires e'.base == e.base && p in e'.disk.pages && Current(e', p) == Current(e, p)
    requires |e.log| <= |e'.log| <= |e.log| + 1 && e'.log[..|e.log|] == e.log
    requires |e'.log| == |e.log| + 1 ==>
      var r := e'.log[|e.log|];
      && !Updates(r, p)
      && (r.recordType in {Commit, Abort} ==> !HasUpdate(e.log, |e.log|, r.txnId, p))
    requires p in e'.holder <==> p in e.holder
    requires p in e.holder ==> e'.holder[p] == e.holder[p] && (e.holder[p] in e'.txns <==> e.holder[p] in e.txns)
    requires p in e.holder && e.holder[p] in e.txns && HasUpdate(e.log, |e.log|, e.holder[p], p) ==>
      e'.txns[e.holder[p]].state == e.txns[e.holder[p]].state
        && e'.txns[e.holder[p]].abortLsn == e.txns[e.holder[p]].abortLsn
    ensures ContentOk(e', p)
  {
    if |e'.log| == |e.log| + 1 {
      var r := e'.log[|e.log|];
      assert e'.log == e.log + [r];
      AppendFinal(e.log, r, p, e.base[p]);
      AppendPage(e.log, r, p);
      if p in e.holder { AppendStatus(e.log, r, e.holder[p]); }
      forall i | LastUpdate(e'.log, i, p) ensures LastUpdate(e.log, i, p) && e'.log[i] == e.log[i] {
        assert forall k :: 0 <= k < |e.log| ==> e'.log[k] == e.log[k];
      }
      forall i | 0 <= i < |e'.log| && Updates(e'.log[i], p) ensures i < |e.log| && e'.log[i] == e.log[i] {}
      HasUpdateLoser(e, r, p);
    } else {
      assert e'.log == e.log;
    }
  }

  lemma HasUpdateLoser(e: Engine, r: LogRecord, p: nat)
    requires r.recordType in {Commit, Abort} ==> !HasUpdate(e.log, |e.log|, r.txnId, p)
    ensures var l := e.log + [r];
      forall u :: HasUpdate(e.log, |e.log|, u, p) ==> Loser(l, |l|, u) == Loser(e.log, |e.log|, u)
  {
    var l := e.log + [r];
    forall u | HasUpdate(e.log, |e.log|, u, p) ensures Loser(l, |l|, u) == Loser(e.log, |e.log|, u) {
      AppendStatus(e.log, r, u);
      assert HasRecord(e.log, |e.log|, u);
    }
  }
}
