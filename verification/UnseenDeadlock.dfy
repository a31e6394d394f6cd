/** A deadlock that detection does not see: the wait for a table goes through a waiter that the graph
    has no edge to. */
module UnseenDeadlock {
  import opened LockQueue
  import opened LockSteps
  import opened LockManagement

  /** `t` waits where nobody can go on, seen by the graph or not. */
  ghost predicate HeldUp(queues: Queues, t: nat) {
    exists id, i :: id in queues && Stuck(queues[id])
      && 0 <= i < |queues[id]| && queues[id][i].txnId == t && IsWaiting(queues[id][i])
  }

  function TableQueue(a: nat, b: nat, c: nat): Queue {
    [LockRequest(a, Table(IX), true, false, false), LockRequest(b, Table(S), false, false, false),
     LockRequest(c, Table(IS), false, false, false)]
  }

  function PageQueue(a: nat, c: nat): Queue {
    [LockRequest(c, Key(Exclusive), true, false, false), LockRequest(a, Key(Exclusive), false, false, false)]
  }

  lemma TableQueueIsStuck(a: nat, b: nat, c: nat)
    requires a != b && b != c && a != c
    ensures var q := TableQueue(a, b, c);
            && Stuck(q) && IsWaiting(q[1]) && IsWaiting(q[2])
            && forall i, j :: 0 <= i < |q| && 0 <= j < |q| && Blocks(q, i, j) ==> i == 1 && j == 0
  {
    var q := TableQueue(a, b, c);
    assert q[0].granted && Conflicts(q[1].mode, q[0].mode) && q[0].txnId != q[1].txnId;
    assert IsWaiting(q[1]) && q[1].txnId != q[2].txnId;
  }

  lemma PageQueueIsStuck(a: nat, c: nat)
    requires a != c
    ensures var q := PageQueue(a, c);
            && Stuck(q) && IsWaiting(q[1])
            && forall i, j :: 0 <= i < |q| && 0 <= j < |q| && Blocks(q, i, j) ==> i == 1 && j == 0
  {
    var q := PageQueue(a, c);
    assert q[0].granted && Conflicts(q[1].mode, q[0].mode) && q[0].txnId != q[1].txnId;
  }

  /** The only waits are those of `b` for `a` and of `a` for `c`, so nobody waits for himself. */
  lemma NoCycle(queues: Queues, usable: set<nat>, a: nat, b: nat, c: nat, table: LockId, page: LockId, cycle: seq<nat>)
    requires a != b && b != c && a != c && table != page
    requires queues == map[table := TableQueue(a, b, c), page := PageQueue(a, c)]
    ensures !IsWaitCycle(queues, usable, cycle)
  {
    TableQueueIsStuck(a, b, c);
    PageQueueIsStuck(a, c);
    assert forall x, y :: WaitsFor(queues, usable, x, y) ==> (x == b && y == a) || (x == a && y == c);
    if cycle != [] {
      var second := if 1 < |cycle| then 1 else 0;
      var third := if second + 1 < |cycle| then second + 1 else 0;
      var fourth := if third + 1 < |cycle| then third + 1 else 0;
      assert !(&& WaitsFor(queues, usable, cycle[0], cycle[second])
               && WaitsFor(queues, usable, cycle[second], cycle[third])
               && WaitsFor(queues, usable, cycle[third], cycle[fourth]));
    }
  }

  /** What each request does to its queue. */
  lemma Requests(a: nat, b: nat, c: nat)
    requires a != b && b != c && a != c
    ensures var whole := TableQueue(a, b, c);
            && Request([], a, Table(IX)) == Step(whole[..1], Granted)
            && Request(whole[..1], b, Table(S)) == Step(whole[..2], Waiting)
            && Request(whole[..2], c, Table(IS)) == Step(whole, Waiting)
    ensures var whole := PageQueue(a, c);
            && Request([], c, Key(Exclusive)) == Step(whole[..1], Granted)
            && Request(whole[..1], a, Key(Exclusive)) == Step(whole, Waiting)
  {
    var tables, pages := TableQueue(a, b, c), PageQueue(a, c);
    TableQueueIsStuck(a, b, c);
    PageQueueIsStuck(a, c);
    assert tables[..1] == [tables[0]] && tables[..2] == [tables[0], tables[1]] && pages[..1] == [pages[0]];
    var q := Enqueue(tables[..1], b, Table(S));
    assert q[0] == tables[0] && q == tables[..2];
    assert Enqueue(tables[..2], c, Table(IS)) == tables;
    assert Enqueue(pages[..1], a, Key(Exclusive)) == pages;
    assert Enqueue([], a, Table(IX)) == [tables[0].(granted := false)];
    assert Enqueue([], c, Key(Exclusive)) == [pages[0].(granted := false)];
  }

  /** The queues of `t` and `p`, and no others. */
  ghost predicate Only(queues: Queues, t: LockId, tables: Queue, p: LockId, pages: Queue) {
    (forall id :: id in queues ==> id == t || id == p) && QueueAt(queues, t) == tables && QueueAt(queues, p) == pages
  }

  lemma OnlyTwo(queues: Queues, t: LockId, tables: Queue, p: LockId, pages: Queue)
    requires Only(queues, t, tables, p, pages) && t != p && tables != [] && pages != []
    ensures queues == map[t := tables, p := pages]
  {
  }

  /** One call that takes its queue to `q`. */
  method LockOne(manager: LockManager, txn: nat, id: LockId, mode: Mode, other: LockId, ghost q: Queue,
                 ghost q': Queue, ghost otherQueue: Queue)
    requires manager.Valid() && txn in manager.usable && mode.Table? == IsTableResource(id) && ValidId(id)
    requires Only(manager.queues, id, q, other, otherQueue) && id != other && Request(q, txn, mode).queue == q'
    modifies manager
    ensures manager.Valid() && manager.usable == old(manager.usable)
    ensures Only(manager.queues, id, q', other, otherQueue) && Only(manager.queues, other, otherQueue, id, q')
  {
    var status := manager.Lock(txn, id, mode);
  }

  method LockAll(a: nat, b: nat, c: nat, table: nat, page: nat) returns (manager: LockManager)
    requires a != b && b != c && a != c && ValidId(Page(page))
    ensures manager.Valid() && manager.usable == {a, b, c} && fresh(manager)
    ensures Only(manager.queues, Page(page), PageQueue(a, c), TableId(table), TableQueue(a, b, c))
  {
    manager := new LockManager();
    manager.SetUsable(a, true);
    manager.SetUsable(b, true);
    manager.SetUsable(c, true);
    assert manager.usable == {a, b, c};
    Requests(a, b, c);
    var t, p := TableId(table), Page(page);
    ghost var tables, pages := TableQueue(a, b, c), PageQueue(a, c);
    LockOne(manager, a, t, Table(IX), p, [], tables[..1], []);
    LockOne(manager, c, p, Key(Exclusive), t, [], pages[..1], tables[..1]);
    LockOne(manager, b, t, Table(S), p, tables[..1], tables[..2], pages[..1]);
    LockOne(manager, c, t, Table(IS), p, tables[..2], tables, pages[..1]);
    LockOne(manager, a, p, Key(Exclusive), t, pages[..1], pages, tables);
  }

  lemma AllHeldUp(queues: Queues, a: nat, b: nat, c: nat, t: LockId, p: LockId)
    requires a != b && b != c && a != c && t != p
    requires queues == map[t := TableQueue(a, b, c), p := PageQueue(a, c)]
    ensures HeldUp(queues, a) && HeldUp(queues, b) && HeldUp(queues, c)
  {
    TableQueueIsStuck(a, b, c);
    PageQueueIsStuck(a, c);
    var tables, pages := TableQueue(a, b, c), PageQueue(a, c);
    assert queues[t] == tables && tables[1].txnId == b && tables[2].txnId == c;
    assert queues[p] == pages && pages[1].txnId == a;
  }

  /** Three transactions lock a table and a page until none of them can go on: no victim is found. */
  method LockUp(a: nat, b: nat, c: nat, table: nat, page: nat) returns (manager: LockManager, victims: seq<nat>)
    requires a != b && b != c && a != c && ValidId(Page(page))
    ensures manager.Valid() && victims == [] && manager.usable == {a, b, c}
    ensures manager.queues == map[TableId(table) := TableQueue(a, b, c), Page(page) := PageQueue(a, c)]
    ensures HeldUp(manager.queues, a) && HeldUp(manager.queues, b) && HeldUp(manager.queues, c)
  {
    manager := LockAll(a, b, c, table, page);
    ghost var queues: Queues := manager.queues;
    OnlyTwo(queues, Page(page), PageQueue(a, c), TableId(table), TableQueue(a, b, c));
    assert queues == map[TableId(table) := TableQueue(a, b, c), Page(page) := PageQueue(a, c)];
    AllHeldUp(queues, a, b, c, TableId(table), Page(page));
    forall cycle ensures !IsWaitCycle(queues, manager.usable, cycle) {
      NoCycle(queues, manager.usable, a, b, c, TableId(table), Page(page), cycle);
    }
    victims := manager.DetectDeadlocks();
  }
}
