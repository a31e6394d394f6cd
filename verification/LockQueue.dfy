/** Lock modes, and the FIFO queue of requests for one resource. */
module LockQueue {

  datatype TableLockMode = IS | IX | S | SIX | X
  datatype LockMode = Shared | Exclusive

  /** Schemas and tables are locked in table modes, pages and index keys in S or X. */
  datatype Mode = Table(table: TableLockMode) | Key(key: LockMode)

  datatype LockRequest = LockRequest(txnId: nat, mode: Mode, granted: bool, upgrading: bool, cancelled: bool)

  type Queue = seq<LockRequest>

  // ----- modes -----

  predicate TableModesConflict(left: TableLockMode, right: TableLockMode) {
    match left
    case IS => right == X
    case IX => right == S || right == SIX || right == X
    case S => right == IX || right == SIX || right == X
    case SIX => right != IS
    case X => true
  }

  predicate LockModesConflict(left: LockMode, right: LockMode) {
    left == Exclusive || right == Exclusive
  }

  predicate Conflicts(a: Mode, b: Mode) {
    if a.Table? != b.Table? then true
    else if a.Table? then TableModesConflict(a.table, b.table)
    else LockModesConflict(a.key, b.key)
  }

  predicate CanUpgradeTable(current: TableLockMode, requested: TableLockMode) {
    if current == requested || current == X then false
    else if requested == X then true
    else if current == IS && (requested == IX || requested == S || requested == SIX) then true
    else if current == IX && requested == SIX then true
    else current == S && requested == SIX
  }

  predicate CanUpgrade(current: Mode, requested: Mode) {
    match current
    case Table(c) => requested.Table? && CanUpgradeTable(c, requested.table)
    case Key(c) => requested.Key? && c == Shared && requested.key == Exclusive
  }

  /** What the holder of a mode may do with the rows of a table. */
  datatype Right = ReadSome | WriteSome | ReadAll | WriteAll

  function Rights(mode: Mode): set<Right> {
    match mode
    case Table(IS) => {ReadSome}
    case Table(IX) => {ReadSome, WriteSome}
    case Table(S) => {ReadSome, ReadAll}
    case Table(SIX) => {ReadSome, WriteSome, ReadAll}
    case Table(X) => {ReadSome, WriteSome, ReadAll, WriteAll}
    case Key(Shared) => {ReadAll}
    case Key(Exclusive) => {ReadAll, WriteAll}
  }

  /** One may write what the other reads or writes; who writes only some rows locks those on their own. */
  predicate Clash(a: set<Right>, b: set<Right>) {
    || WriteAll in a || WriteAll in b
    || (ReadAll in a && WriteSome in b)
    || (WriteSome in a && ReadAll in b)
  }

  /** Modes conflict exactly when their rights clash. */
  lemma ConflictIff(a: Mode, b: Mode)
    requires a.Table? == b.Table?
    ensures Conflicts(a, b) <==> Clash(Rights(a), Rights(b))
  {
  }

  /** A mode can be upgraded exactly to those that give strictly more rights. */
  lemma UpgradeIff(a: Mode, b: Mode)
    requires a.Table? == b.Table?
    ensures CanUpgrade(a, b) <==> Rights(a) < Rights(b)
  {
    if a.Table? {
      match a.table case IS => case IX => case S => case SIX => case X =>
    }
    if Rights(a) < Rights(b) { assert exists r :: r in Rights(b) && r !in Rights(a); }
  }

  lemma ConflictIsSymmetric(a: Mode, b: Mode)
    ensures Conflicts(a, b) == Conflicts(b, a)
  {
    if a.Table? && b.Table? {
      match a.table case IS => case IX => case S => case SIX => case X =>
    }
  }

  /** An upgrade gives nothing up: what conflicted with the old mode conflicts with the new one. */
  lemma UpgradeStrengthens(a: Mode, b: Mode, c: Mode)
    requires CanUpgrade(a, b) && Conflicts(a, c)
    ensures Conflicts(b, c)
  {
    if a.Table? && c.Table? {
      match a.table case IS => case IX => case S => case SIX => case X =>
    }
  }

  // ----- one queue -----

  predicate IsWaiting(r: LockRequest) {
    !r.cancelled && (!r.granted || r.upgrading)
  }

  /** Nobody else waits in front, and nobody else holds a conflicting mode. */
  predicate Grantable(q: Queue, i: nat)
    requires i < |q|
  {
    && (forall j :: 0 <= j < i && q[j].txnId != q[i].txnId ==> !IsWaiting(q[j]))
    && (forall j :: 0 <= j < |q| && q[j].txnId != q[i].txnId && q[j].granted ==> !Conflicts(q[i].mode, q[j].mode))
  }

  predicate FlagsOk(r: LockRequest) {
    (r.upgrading ==> r.granted) && (r.cancelled ==> !r.granted && !r.upgrading)
  }

  /** `held` gives the modes transactions actually hold: the old one while an upgrade is pending. */
  ghost predicate HeldOk(r: LockRequest, held: map<nat, Mode>) {
    && (r.granted <==> r.txnId in held)
    && (r.granted ==> if r.upgrading then CanUpgrade(held[r.txnId], r.mode) else held[r.txnId] == r.mode)
  }

  ghost predicate OneEach(q: Queue) {
    forall i, j :: 0 <= i < j < |q| ==> q[i].txnId != q[j].txnId
  }

  /** No two transactions hold conflicting modes. */
  ghost predicate Compatible(held: map<nat, Mode>) {
    forall t, u :: t in held && u in held && t != u ==> !Conflicts(held[t], held[u])
  }

  /** Nobody has been granted a lock past an earlier request that was never granted. */
  ghost predicate Fair(q: Queue) {
    forall i, j :: 0 <= i < j < |q| && !q[i].granted && !q[i].cancelled ==> !q[j].granted
  }

  ghost predicate QueueOk(q: Queue, held: map<nat, Mode>, table: bool) {
    && (forall i :: 0 <= i < |q| ==> q[i].mode.Table? == table && FlagsOk(q[i]) && HeldOk(q[i], held))
    && OneEach(q)
    && (forall t :: t in held ==> exists i :: 0 <= i < |q| && q[i].txnId == t)
    && Compatible(held)
    && Fair(q)
  }

  /** The position of the request of `t`, or the length of the queue. */
  function Find(q: Queue, t: nat): (i: nat)
    ensures i <= |q|
    ensures i < |q| ==> q[i].txnId == t
    ensures forall j :: 0 <= j < i ==> q[j].txnId != t
  {
    if q == [] then 0 else if q[0].txnId == t then 0 else 1 + Find(q[1..], t)
  }

  // ----- what can happen to a queue -----

  function Enqueue(q: Queue, t: nat, mode: Mode): Queue {
    q + [LockRequest(t, mode, false, false, false)]
  }

  function StartUpgrade(q: Queue, i: nat, mode: Mode): Queue
    requires i < |q|
  {
    q[i := q[i].(mode := mode, upgrading := true)]
  }

  function Grant(q: Queue, i: nat): Queue
    requires i < |q|
  {
    q[i := q[i].(granted := true, upgrading := false)]
  }

  function Cancel(q: Queue, i: nat): Queue
    requires i < |q|
  {
    q[i := q[i].(cancelled := true, granted := false, upgrading := false)]
  }

  function Erase(q: Queue, i: nat): Queue
    requires i < |q|
  {
    q[..i] + q[i + 1..]
  }

  lemma EnqueueOk(q: Queue, held: map<nat, Mode>, table: bool, t: nat, mode: Mode)
    requires QueueOk(q, held, table) && mode.Table? == table && Find(q, t) == |q|
    ensures QueueOk(Enqueue(q, t, mode), held, table)
  {
    var q' := Enqueue(q, t, mode);
    forall u | u in held ensures exists i :: 0 <= i < |q'| && q'[i].txnId == u {
      var i :| 0 <= i < |q| && q[i].txnId == u;
      assert q'[i] == q[i];
    }
  }

  lemma StartUpgradeOk(q: Queue, held: map<nat, Mode>, table: bool, i: nat, mode: Mode)
    requires QueueOk(q, held, table) && i < |q| && q[i].granted && !q[i].upgrading && CanUpgrade(q[i].mode, mode)
    ensures QueueOk(StartUpgrade(q, i, mode), held, table)
  {
    var q' := StartUpgrade(q, i, mode);
    forall u | u in held ensures exists j :: 0 <= j < |q'| && q'[j].txnId == u {
      var j :| 0 <= j < |q| && q[j].txnId == u;
      assert q'[j].txnId == u;
    }
    assert HeldOk(q[i], held);
  }

  /** Granting what `Grantable` allows: the modes held stay compatible, even with pending upgrades. */
  lemma GrantOk(q: Queue, held: map<nat, Mode>, table: bool, i: nat)
    requires QueueOk(q, held, table) && i < |q| && IsWaiting(q[i]) && Grantable(q, i)
    ensures QueueOk(Grant(q, i), held[q[i].txnId := q[i].mode], table)
  {
    var t, held' := q[i].txnId, held[q[i].txnId := q[i].mode];
    var q' := Grant(q, i);
    forall j | 0 <= j < |q| && j != i ensures HeldOk(q'[j], held') { assert HeldOk(q[j], held) && q[j].txnId != t; }
    forall u | u in held && u != t ensures !Conflicts(q[i].mode, held[u]) && !Conflicts(held[u], q[i].mode) {
      var j :| 0 <= j < |q| && q[j].txnId == u;
      HolderAllows(q, held, i, j);
      ConflictIsSymmetric(q[i].mode, held[u]);
    }
    forall u | u in held' ensures exists j :: 0 <= j < |q'| && q'[j].txnId == u {
      if u == t { assert q'[i].txnId == u; }
      else {
        var j :| 0 <= j < |q| && q[j].txnId == u;
        assert q'[j].txnId == u;
      }
    }
    GrantFair(q, i);
  }

  lemma HolderAllows(q: Queue, held: map<nat, Mode>, i: nat, j: nat)
    requires i < |q| && j < |q| && q[j].txnId != q[i].txnId && HeldOk(q[j], held) && q[j].txnId in held
             && Grantable(q, i)
    ensures !Conflicts(q[i].mode, held[q[j].txnId])
  {
    ConflictIsSymmetric(q[i].mode, held[q[j].txnId]);
    ConflictIsSymmetric(q[i].mode, q[j].mode);
    if q[j].upgrading && Conflicts(held[q[j].txnId], q[i].mode) {
      UpgradeStrengthens(held[q[j].txnId], q[j].mode, q[i].mode);
    }
  }

  lemma GrantFair(q: Queue, i: nat)
    requires Fair(q) && OneEach(q) && i < |q| && Grantable(q, i)
    ensures Fair(Grant(q, i))
  {
    var q' := Grant(q, i);
    forall a, b | 0 <= a < b < |q'| && !q'[a].granted && !q'[a].cancelled ensures !q'[b].granted {
      assert q'[a] == q[a];
    }
  }

  /** The modes without those of `t`. */
  function Released(held: map<nat, Mode>, t: nat): map<nat, Mode> {
    held - {t}
  }

  lemma CancelOk(q: Queue, held: map<nat, Mode>, table: bool, i: nat)
    requires QueueOk(q, held, table) && i < |q|
    ensures QueueOk(Cancel(q, i), Released(held, q[i].txnId), table)
  {
    var q', held' := Cancel(q, i), Released(held, q[i].txnId);
    forall j | 0 <= j < |q| && j != i ensures HeldOk(q'[j], held') {
      assert HeldOk(q[j], held) && q[j].txnId != q[i].txnId;
    }
    forall u | u in held' ensures exists j :: 0 <= j < |q'| && q'[j].txnId == u {
      var j :| 0 <= j < |q| && q[j].txnId == u;
      assert q'[j].txnId == u;
    }
  }

  lemma EraseOk(q: Queue, held: map<nat, Mode>, table: bool, i: nat)
    requires QueueOk(q, held, table) && i < |q|
    ensures QueueOk(Erase(q, i), Released(held, q[i].txnId), table)
    ensures Find(Erase(q, i), q[i].txnId) == |Erase(q, i)|
  {
    var q', held' := Erase(q, i), Released(held, q[i].txnId);
    forall j | 0 <= j < |q'| ensures q'[j] == q[if j < i then j else j + 1] {}
    forall j | 0 <= j < |q'| ensures HeldOk(q'[j], held') && q'[j].txnId != q[i].txnId {
      assert HeldOk(q[if j < i then j else j + 1], held);
    }
    forall u | u in held' ensures exists j :: 0 <= j < |q'| && q'[j].txnId == u {
      var j :| 0 <= j < |q| && q[j].txnId == u;
      assert q'[if j < i then j else j - 1].txnId == u;
    }
    EraseKeepsOrder(q, i);
  }

  lemma EraseKeepsOrder(q: Queue, i: nat)
    requires OneEach(q) && Fair(q) && i < |q|
    ensures OneEach(Erase(q, i)) && Fair(Erase(q, i))
  {
    var q' := Erase(q, i);
    forall a, b | 0 <= a < b < |q'|
      ensures q'[a].txnId != q'[b].txnId && (!q'[a].granted && !q'[a].cancelled ==> !q'[b].granted)
    {
      var x, y := if a < i then a else a + 1, if b < i then b else b + 1;
      assert q'[a] == q[x] && q'[b] == q[y] && q[x].txnId != q[y].txnId;
    }
  }

  /** In every queue the manager can reach, granted requests of two transactions do not conflict
      unless an upgrade is pending, and then the modes they really hold do not. */
  lemma GrantedDoNotConflict(q: Queue, held: map<nat, Mode>, table: bool, i: nat, j: nat)
    requires QueueOk(q, held, table) && i < |q| && j < |q| && i != j && q[i].granted && q[j].granted
    ensures q[i].txnId in held && q[j].txnId in held && !Conflicts(held[q[i].txnId], held[q[j].txnId])
    ensures !q[i].upgrading && !q[j].upgrading ==> !Conflicts(q[i].mode, q[j].mode)
  {
    assert HeldOk(q[i], held) && HeldOk(q[j], held);
    assert q[i].txnId != q[j].txnId;
  }

  // ----- who waits for whom -----

  /** The edge the wait-for graph gets for the requests at `i` and `j`. */
  predicate Blocks(q: Queue, i: nat, j: nat)
    requires i < |q| && j < |q|
  {
    && IsWaiting(q[i]) && q[j].txnId != q[i].txnId
    && Conflicts(q[i].mode, q[j].mode)
    && (q[j].granted || j < i)
  }

  ghost predicate NoneCancelled(q: Queue) {
    forall i :: 0 <= i < |q| ==> !q[i].cancelled
  }

  /** An edge means that the waiter cannot go on now. */
  lemma BlockedIsNotGrantable(q: Queue, i: nat, j: nat)
    requires NoneCancelled(q) && i < |q| && j < |q| && Blocks(q, i, j)
    ensures !Grantable(q, i)
  {
    if !q[j].granted { assert IsWaiting(q[j]); }
  }

  /** Nobody who waits could go on. */
  ghost predicate Stuck(q: Queue) {
    forall i :: 0 <= i < |q| && IsWaiting(q[i]) ==> !Grantable(q, i)
  }

  /** The first waiter of a stuck queue is blocked by a holder. */
  lemma {:induction false} FirstWaiter(q: Queue, i: nat) returns (w: nat, h: nat)
    requires Stuck(q) && OneEach(q) && i < |q| && IsWaiting(q[i])
    ensures w <= i && h < |q| && IsWaiting(q[w]) && q[h].granted && q[h].txnId != q[w].txnId
            && Conflicts(q[w].mode, q[h].mode)
  {
    if j :| 0 <= j < i && IsWaiting(q[j]) {
      w, h := FirstWaiter(q, j);
    } else {
      w := i;
      assert !Grantable(q, i);
      h :| 0 <= h < |q| && q[h].txnId != q[i].txnId && q[h].granted && Conflicts(q[i].mode, q[h].mode);
    }
  }

  /** Apart from IS, a mode that goes with `b` conflicts with all that `b` conflicts with. */
  lemma ConflictPassesOn(a: Mode, b: Mode, c: Mode)
    requires a != Table(IS) && a.Table? == b.Table? == c.Table? && !Conflicts(a, b) && Conflicts(b, c)
    ensures Conflicts(a, c)
  {
    if a.Table? {
      match a.table case IX => case S => case SIX => case X =>
    }
  }

  /** Another request for X, granted or earlier. */
  predicate BehindX(q: Queue, i: nat)
    requires i < |q|
  {
    exists j :: 0 <= j < |q| && j != i && q[j].mode == Table(X) && (q[j].granted || j < i)
  }

  /** Whether the wait-for graph has an edge from a waiter at `i` of a stuck queue. */
  predicate Seen(q: Queue, i: nat)
    requires i < |q|
  {
    q[i].mode == Table(IS) ==> BehindX(q, i)
  }

  /** Every waiter of a stuck queue has an edge, except one for IS that is not behind an X. */
  lemma WaiterHasEdge(q: Queue, held: map<nat, Mode>, table: bool, i: nat) returns (j: nat)
    requires QueueOk(q, held, table) && Stuck(q) && i < |q| && IsWaiting(q[i]) && Seen(q, i)
    ensures j < |q| && Blocks(q, i, j)
  {
    if q[i].mode == Table(IS) {
      j :| 0 <= j < |q| && j != i && q[j].mode == Table(X) && (q[j].granted || j < i);
      return;
    }
    var w, h := FirstWaiter(q, i);
    if w == i {
      j := h;
    } else if Conflicts(q[i].mode, q[w].mode) {
      assert q[w].txnId != q[i].txnId;
      j := w;
    } else {
      // the holder in the way of the first is in the way of both
      ConflictPassesOn(q[i].mode, q[w].mode, q[h].mode);
      ConflictIsSymmetric(q[i].mode, q[w].mode);
      assert q[h].txnId == q[i].txnId ==> h == i;
      j := h;
    }
  }

  lemma WaiterHasEdgeIff(q: Queue, held: map<nat, Mode>, table: bool, i: nat)
    requires QueueOk(q, held, table) && Stuck(q) && i < |q| && IsWaiting(q[i])
    ensures (exists j :: 0 <= j < |q| && Blocks(q, i, j)) <==> Seen(q, i)
  {
    if Seen(q, i) {
      var j := WaiterHasEdge(q, held, table, i);
    }
    if j :| 0 <= j < |q| && Blocks(q, i, j) {
      assert j != i;
    }
  }

  /** Such a queue: a request for IS waits behind an S that it does not conflict with. */
  lemma TableWaiterWithoutEdge()
    ensures var q := [LockRequest(1, Table(IX), true, false, false), LockRequest(2, Table(S), false, false, false),
                      LockRequest(3, Table(IS), false, false, false)];
            && QueueOk(q, map[1 := Table(IX)], true) && NoneCancelled(q) && Stuck(q) && IsWaiting(q[2])
            && forall j :: 0 <= j < 3 ==> !Blocks(q, 2, j)
  {
    var q := [LockRequest(1, Table(IX), true, false, false), LockRequest(2, Table(S), false, false, false),
              LockRequest(3, Table(IS), false, false, false)];
    assert q[0].txnId == 1;
    assert IsWaiting(q[1]);
    assert q[0].granted && Conflicts(q[1].mode, q[0].mode);
  }
}
