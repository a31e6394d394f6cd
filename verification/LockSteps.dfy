/** What each critical section of the lock manager does to one queue, and that the queue stays well
    formed. */
module LockSteps {
  import opened LockQueue

  datatype LockStatus =
    | Granted
    | Waiting
    | AlreadyWaits
    | UpgradePending
    | NotAnUpgrade
    | Cancelled
    | Aborted
    | InvalidArgument
    | NotFound
    | Unlocked

  datatype Step = Step(queue: Queue, status: LockStatus)

  /** Grant the request at `i` if it can be granted, or let it wait. */
  function Attempt(q: Queue, i: nat): Step
    requires i < |q|
  {
    if Grantable(q, i) then Step(Grant(q, i), Granted) else Step(q, Waiting)
  }

  /** A transaction asks for a lock. */
  function Request(q: Queue, t: nat, mode: Mode): Step {
    var i := Find(q, t);
    if i < |q| then
      if q[i].granted && !q[i].upgrading && q[i].mode == mode then Step(q, Granted)
      else if !q[i].granted && !q[i].upgrading then Step(q, AlreadyWaits)
      else if q[i].upgrading then Step(q, UpgradePending)
      else if !CanUpgrade(q[i].mode, mode) then Step(q, NotAnUpgrade)
      else Attempt(StartUpgrade(q, i, mode), i)
    else Attempt(Enqueue(q, t, mode), |q|)
  }

  /** A waiting transaction wakes up and looks again. */
  function Recheck(q: Queue, t: nat, usable: bool): Step {
    var i := Find(q, t);
    if i == |q| then Step(q, NotFound)
    else if q[i].cancelled then Step(Erase(q, i), Cancelled)
    else if !usable then Step(Erase(q, i), Aborted)
    else Attempt(q, i)
  }

  /** A transaction gives up its lock, or its request for one. */
  function Release(q: Queue, t: nat): Step {
    var i := Find(q, t);
    if i == |q| then Step(q, NotFound)
    else if !q[i].granted || q[i].upgrading then Step(Cancel(q, i), Unlocked)
    else Step(Erase(q, i), Unlocked)
  }

  /** The mode `t` asked for. */
  function Asked(q: Queue, t: nat): Mode
    requires Find(q, t) < |q|
  {
    q[Find(q, t)].mode
  }

  lemma AttemptOk(q: Queue, held: map<nat, Mode>, table: bool, i: nat)
    requires QueueOk(q, held, table) && i < |q| && IsWaiting(q[i])
    ensures var s := Attempt(q, i);
            QueueOk(s.queue, if s.status.Granted? then held[q[i].txnId := q[i].mode] else held, table)
  {
    if Grantable(q, i) { GrantOk(q, held, table, i); }
  }

  lemma RequestOk(q: Queue, held: map<nat, Mode>, table: bool, t: nat, mode: Mode)
    requires QueueOk(q, held, table) && mode.Table? == table
    ensures var s := Request(q, t, mode);
            QueueOk(s.queue, if s.status.Granted? then held[t := mode] else held, table)
  {
    var i := Find(q, t);
    if i < |q| {
      assert HeldOk(q[i], held) && FlagsOk(q[i]);
      if q[i].granted && !q[i].upgrading {
        if q[i].mode == mode {
          assert held[t := mode] == held;
        } else if CanUpgrade(q[i].mode, mode) {
          StartUpgradeOk(q, held, table, i, mode);
          AttemptOk(StartUpgrade(q, i, mode), held, table, i);
        }
      }
    } else {
      EnqueueOk(q, held, table, t, mode);
      AttemptOk(Enqueue(q, t, mode), held, table, |q|);
    }
  }

  lemma RecheckOk(q: Queue, held: map<nat, Mode>, table: bool, t: nat, usable: bool)
    requires QueueOk(q, held, table) && Find(q, t) < |q| && (IsWaiting(q[Find(q, t)]) || q[Find(q, t)].cancelled)
    ensures var s := Recheck(q, t, usable);
            var held' := if s.status.Granted? then held[t := Asked(q, t)]
                         else if s.status.Waiting? then held else Released(held, t);
            QueueOk(s.queue, held', table)
  {
    var i := Find(q, t);
    if q[i].cancelled || !usable { EraseOk(q, held, table, i); } else { AttemptOk(q, held, table, i); }
  }

  lemma ReleaseOk(q: Queue, held: map<nat, Mode>, table: bool, t: nat)
    requires QueueOk(q, held, table)
    ensures QueueOk(Release(q, t).queue, Released(held, t), table)
  {
    var i := Find(q, t);
    if i < |q| {
      if !q[i].granted || q[i].upgrading { CancelOk(q, held, table, i); } else { EraseOk(q, held, table, i); }
    } else {
      assert t !in held;
      assert Released(held, t) == held;
    }
  }

  // ----- requests of others -----

  /** The requests of everyone but `t`, in order. */
  function Others(q: Queue, t: nat): Queue {
    if q == [] then [] else (if q[0].txnId == t then [] else [q[0]]) + Others(q[1..], t)
  }

  lemma {:induction false} OthersConcat(a: Queue, b: Queue, t: nat)
    ensures Others(a + b, t) == Others(a, t) + Others(b, t)
  {
    if a == [] {
      assert a + b == b;
    } else {
      OthersConcat(a[1..], b, t);
      assert (a + b)[1..] == a[1..] + b;
    }
  }

  lemma OthersOne(r: LockRequest, t: nat)
    ensures Others([r], t) == if r.txnId == t then [] else [r]
  {
    assert [r][1..] == [];
  }

  /** Replacing or removing the request of `t` leaves the others. */
  lemma OthersKept(q: Queue, i: nat, r: LockRequest, t: nat)
    requires i < |q| && q[i].txnId == t && r.txnId == t
    ensures Others(q[i := r], t) == Others(q, t) && Others(Erase(q, i), t) == Others(q, t)
  {
    var a, b := q[..i], q[i + 1..];
    assert q == a + [q[i]] + b && q[i := r] == a + [r] + b && Erase(q, i) == a + b;
    OthersConcat(a + [q[i]], b, t);
    OthersConcat(a, [q[i]], t);
    OthersConcat(a + [r], b, t);
    OthersConcat(a, [r], t);
    OthersConcat(a, b, t);
    OthersOne(q[i], t);
    OthersOne(r, t);
  }

  lemma AttemptTouchesOne(q: Queue, i: nat)
    requires i < |q|
    ensures Others(Attempt(q, i).queue, q[i].txnId) == Others(q, q[i].txnId)
  {
    OthersKept(q, i, q[i].(granted := true, upgrading := false), q[i].txnId);
  }

  /** No critical section touches the requests of other transactions. */
  lemma OnlyOwnRequest(q: Queue, t: nat, mode: Mode, usable: bool)
    ensures Others(Request(q, t, mode).queue, t) == Others(q, t)
    ensures Others(Recheck(q, t, usable).queue, t) == Others(q, t)
    ensures Others(Release(q, t).queue, t) == Others(q, t)
  {
    var i := Find(q, t);
    if i < |q| {
      OthersKept(q, i, q[i].(cancelled := true, granted := false, upgrading := false), t);
      OthersKept(q, i, q[i].(mode := mode, upgrading := true), t);
      AttemptTouchesOne(StartUpgrade(q, i, mode), i);
      AttemptTouchesOne(q, i);
    } else {
      OthersConcat(q, [LockRequest(t, mode, false, false, false)], t);
      OthersOne(LockRequest(t, mode, false, false, false), t);
      AttemptTouchesOne(Enqueue(q, t, mode), |q|);
    }
  }

  /** After a release the transaction neither holds the lock nor waits for it. */
  lemma ReleaseEnds(q: Queue, held: map<nat, Mode>, table: bool, t: nat)
    requires QueueOk(q, held, table)
    ensures forall i :: 0 <= i < |Release(q, t).queue| && Release(q, t).queue[i].txnId == t ==>
              Release(q, t).queue[i].cancelled && !IsWaiting(Release(q, t).queue[i]) && !Release(q, t).queue[i].granted
  {
    var k := Find(q, t);
    if k < |q| {
      var q' := Release(q, t).queue;
      forall i | 0 <= i < |q'| && q'[i].txnId == t
        ensures q'[i].cancelled && !IsWaiting(q'[i]) && !q'[i].granted
      {
        if !q[k].granted || q[k].upgrading {
          SameTxn(q, i, k);
        } else {
          EraseOk(q, held, table, k);
        }
      }
    }
  }

  lemma SameTxn(q: Queue, i: nat, k: nat)
    requires OneEach(q) && i < |q| && k < |q| && q[i].txnId == q[k].txnId
    ensures i == k
  {
  }

  /** A lock is granted to a new request only when the queue holds no waiter and no conflict. */
  lemma GrantedAtOnce(q: Queue, held: map<nat, Mode>, table: bool, t: nat, mode: Mode)
    requires QueueOk(q, held, table) && Find(q, t) == |q|
    ensures Request(q, t, mode).status.Granted? <==>
              (forall j :: 0 <= j < |q| ==> !IsWaiting(q[j])) && forall j :: 0 <= j < |q| && q[j].granted ==>
                  !Conflicts(mode, q[j].mode)
  {
    var q' := Enqueue(q, t, mode);
    forall j | 0 <= j < |q| ensures q'[j] == q[j] && q[j].txnId != t {}
  }

  /** Of two transactions that lock a free resource, the second is granted at once exactly when their rights do not
      clash: two writers of rows share a table, two readers share a page. */
  lemma SecondLock(t: nat, u: nat, a: Mode, b: Mode)
    requires t != u && a.Table? == b.Table?
    ensures Request([], t, a) == Step([LockRequest(t, a, true, false, false)], Granted)
    ensures Request([LockRequest(t, a, true, false, false)], u, b).status
         == if Clash(Rights(b), Rights(a)) then Waiting else Granted
  {
    var q := [LockRequest(t, a, true, false, false)];
    var q1, q2 := Enqueue([], t, a), Enqueue(q, u, b);
    assert q1 == [LockRequest(t, a, false, false, false)] && Grant(q1, 0) == q;
    assert q2[0] == q[0] && q2[1] == LockRequest(u, b, false, false, false);
    ConflictIff(b, a);
    if !Clash(Rights(b), Rights(a)) { assert Grantable(q2, 1); }
  }

  /** Who holds a lock and asks for another mode gets it if it gives strictly more rights, and then at once exactly when
      nobody waits in front and no other holder's rights clash with it; otherwise the old mode stays until then. */
  lemma UpgradeMeans(q: Queue, held: map<nat, Mode>, table: bool, t: nat, mode: Mode)
    requires QueueOk(q, held, table) && mode.Table? == table && Find(q, t) < |q|
    requires var r := q[Find(q, t)]; r.granted && !r.upgrading && r.mode != mode
    ensures var i := Find(q, t);
            var s := Request(q, t, mode);
            if Rights(q[i].mode) < Rights(mode) then
              && (s.status == Granted || s.status == Waiting)
              && s.queue == q[i := LockRequest(t, mode, true, s.status == Waiting, false)]
              && (s.status == Granted <==>
                    && (forall j :: 0 <= j < i ==> !IsWaiting(q[j]))
                    && forall j :: 0 <= j < |q| && j != i && q[j].granted ==> !Clash(Rights(mode), Rights(q[j].mode)))
            else s == Step(q, NotAnUpgrade)
  {
    var i := Find(q, t);
    assert HeldOk(q[i], held) && FlagsOk(q[i]);
    UpgradeIff(q[i].mode, mode);
    if Rights(q[i].mode) < Rights(mode) {
      var q' := StartUpgrade(q, i, mode);
      forall j | 0 <= j < |q| && j != i
        ensures q'[j] == q[j] && q[j].txnId != t
                && (Conflicts(mode, q[j].mode) <==> Clash(Rights(mode), Rights(q[j].mode)))
      {
        ConflictIff(mode, q[j].mode);
      }
    }
  }
}
