/** Consequences of the log invariant. */
module WalFacts {
  import opened Wal

  /** Once a transaction has finished it writes no more records, but for another Abort. */
  lemma NothingAfterEnd(log: Log, base: map<nat, Image>, j: nat, n: nat, t: nat)
    requires LogInv(log, base) && j <= n <= |log| && t != INVALID_TXN
    requires Terminated(log, j, t)
    ensures forall i :: j <= i < n && log[i].txnId == t ==> log[i].recordType == Abort && HasAbort(log, j, t)
    ensures HasCommit(log, j, t) == HasCommit(log, n, t)
    ensures HasAbort(log, j, t) == HasAbort(log, n, t)
    decreases n
  {
    if j < n {
      var m := n - 1;
      NothingAfterEnd(log, base, j, m, t);
      assert RecordOk(log, m, base);
      if log[m].txnId == t { assert Terminated(log, m, t); }
    }
  }

  /** No transaction both commits and aborts. */
  lemma NeverBothEnds(log: Log, base: map<nat, Image>, n: nat, t: nat)
    requires LogInv(log, base) && n <= |log|
    ensures !(HasCommit(log, n, t) && HasAbort(log, n, t))
  {
    if HasCommit(log, n, t) {
      var i :| 0 <= i < n && log[i].txnId == t && log[i].recordType == Commit;
      assert RecordOk(log, i, base);
      NothingAfterEnd(log, base, i + 1, n, t);
    }
  }

  /** Updates the winners never made do not show in a page's committed image. */
  lemma SkipNonWinners(log: Log, n: nat, f: nat, k: nat, p: nat, image: Image)
    requires f <= k <= n <= |log|
    requires forall i :: f <= i < k && Updates(log[i], p) ==> !HasCommit(log, n, log[i].txnId)
    ensures CommittedImage(log, n, k, p, image) == CommittedImage(log, n, f, p, image)
  {
    if f < k { SkipNonWinners(log, n, f, k - 1, p, image); }
  }

  /** If every earlier writer of a page has finished by `j`, its committed image is settled. */
  lemma SettledImage(log: Log, base: map<nat, Image>, j: nat, n: nat, k: nat, p: nat, image: Image)
    requires LogInv(log, base) && k <= j <= n <= |log|
    requires forall i :: 0 <= i < k && Updates(log[i], p) ==> Terminated(log, j, log[i].txnId)
    ensures CommittedImage(log, n, k, p, image) == CommittedImage(log, j, k, p, image)
  {
    if k > 0 {
      SettledImage(log, base, j, n, k - 1, p, image);
      if Updates(log[k - 1], p) {
        assert RecordOk(log, k - 1, base);
        NothingAfterEnd(log, base, j, n, log[k - 1].txnId);
      }
    }
  }

  /** `f` is the first update of `p` by its transaction. */
  ghost predicate FirstUpdate(log: Log, f: nat, p: nat) {
    f < |log| && Updates(log[f], p) && !HasUpdate(log, f, log[f].txnId, p)
  }

  lemma FirstUpdateExists(log: Log, n: nat, t: nat, p: nat) returns (f: nat)
    requires n <= |log| && HasUpdate(log, n, t, p)
    ensures f < n && FirstUpdate(log, f, p) && log[f].txnId == t
  {
    f :| 0 <= f < n && log[f].txnId == t && Updates(log[f], p);
    if HasUpdate(log, f, t, p) {
      f := FirstUpdateExists(log, f, t, p);
    }
  }

  /** The before image of an unfinished transaction's first update of a page is what the winners
      left there: page locks kept everyone else away since. */
  lemma FirstBeforeIsCommitted(log: Log, base: map<nat, Image>, n: nat, f: nat, p: nat)
    requires LogInv(log, base) && f < n <= |log| && FirstUpdate(log, f, p)
    requires p in base && !Named(log, n, p) && !Terminated(log, n, log[f].txnId)
    ensures log[f].beforeImage == CommittedImage(log, n, n, p, base[p])
  {
    var t := log[f].txnId;
    assert RecordOk(log, f, base);
    assert !Named(log, f, p);
    forall i | f <= i < n && Updates(log[i], p) ensures !HasCommit(log, n, log[i].txnId) {
      assert RecordOk(log, i, base);
      assert log[i].txnId == t || Terminated(log, i, t);
    }
    SkipNonWinners(log, n, f, n, p, base[p]);
    SettledImage(log, base, f, n, f, p, base[p]);
  }

  /** What a CLR at index `j` compensates, and where undo goes on after it. */
  lemma ClrTarget(log: Log, base: map<nat, Image>, j: nat) returns (c: nat)
    requires LogInv(log, base) && j < |log| && log[j].recordType == Compensation
    ensures c == Cursor(log, j, log[j].txnId) && 0 < c <= j
    ensures log[c - 1].txnId == log[j].txnId && Undoable(log[c - 1])
    ensures log[j].pageId == log[c - 1].pageId && log[j].compensationType == log[c - 1].recordType
    ensures log[c - 1].recordType == PageUpdate ==> log[j].afterImage == log[c - 1].beforeImage
    ensures log[j].txnId != INVALID_TXN
    ensures Cursor(log, j + 1, log[j].txnId) == LastLsn(log, c - 1, log[j].txnId) < c
  {
    assert RecordOk(log, j, base);
    c := Cursor(log, j, log[j].txnId);
    assert RecordOk(log, c - 1, base);
  }

  lemma SameTxnEarlier(log: Log, i: nat, f: nat, t: nat, p: nat)
    requires i < f <= |log| && log[i].txnId == t
    ensures Updates(log[i], p) ==> HasUpdate(log, f, t, p)
  {
  }

  /** Compensations run backwards: when undo has passed the first update of a page, the last CLR
      for that page carries that update's before image. */
  lemma {:induction false} LastClrRestoresFirst(log: Log, base: map<nat, Image>, n: nat, f: nat, p: nat)
      returns (m: nat)
    requires LogInv(log, base) && f < n <= |log| && FirstUpdate(log, f, p)
    requires Cursor(log, n, log[f].txnId) <= f
    ensures f < m < n && log[m].txnId == log[f].txnId && Compensates(log[m], p)
    ensures log[m].afterImage == log[f].beforeImage
    ensures forall i :: m < i < n && log[i].txnId == log[f].txnId ==> !Compensates(log[i], p)
  {
    var t := log[f].txnId;
    if log[n - 1].txnId != t {
      m := LastClrRestoresFirst(log, base, n - 1, f, p);
    } else {
      var c := ClrTarget(log, base, n - 1);
      if c <= f {
        m := LastClrRestoresFirst(log, base, n - 1, f, p);
        SameTxnEarlier(log, c - 1, f, t, p);
      } else {
        assert c - 1 == f;
        m := n - 1;
      }
    }
  }
}
