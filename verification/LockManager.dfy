/** The lock manager: one FIFO queue a resource, and deadlock detection over all of them. Each method
    is one critical section of the source; a waiting call is a request followed by any number of
    rechecks. */
module LockManagement {
  import opened LockQueue
  import opened LockSteps
  import opened WaitGraph

  datatype LockId = Schema | TableId(table: nat) | Page(page: nat) | IndexKey(index: nat, key: seq<bv8>, owner: nat)

  const INVALID_PAGE: nat := 0xFFFF_FFFF

  predicate IsTableResource(id: LockId) {
    id.Schema? || id.TableId?
  }

  predicate ValidId(id: LockId) {
    match id
    case Page(p) => p != INVALID_PAGE && p != 0
    case IndexKey(_, key, _) => key != []
    case _ => true
  }

  type Queues = map<LockId, Queue>
  type Holdings = map<LockId, map<nat, Mode>>

  function QueueAt(queues: Queues, id: LockId): Queue {
    if id in queues then queues[id] else []
  }

  function HeldAt(held: Holdings, id: LockId): map<nat, Mode> {
    if id in held then held[id] else map[]
  }

  /** An empty queue is dropped. */
  function WithQueue(queues: Queues, id: LockId, q: Queue): Queues {
    if q == [] then queues - {id} else queues[id := q]
  }

  ghost predicate AllOk(queues: Queues, held: Holdings, registered: set<nat>) {
    forall id :: QueueOk(QueueAt(queues, id), HeldAt(held, id), IsTableResource(id))
      && WaitersKnown(QueueAt(queues, id), registered)
  }

  /** Whoever waits can be found by the deadlock detector. */
  ghost predicate WaitersKnown(q: Queue, registered: set<nat>) {
    forall i :: 0 <= i < |q| && IsWaiting(q[i]) ==> q[i].txnId in registered
  }

  /** One queue changes; the others keep what they promise. */
  lemma OneQueueOk(queues: Queues, held: Holdings, registered: set<nat>, id: LockId, q: Queue, h: map<nat, Mode>,
                   registered': set<nat>)
    requires AllOk(queues, held, registered) && registered <= registered'
    requires QueueOk(q, h, IsTableResource(id)) && WaitersKnown(q, registered')
    ensures AllOk(WithQueue(queues, id, q), held[id := h], registered')
  {
    var queues', held' := WithQueue(queues, id, q), held[id := h];
    forall other
      ensures QueueOk(QueueAt(queues', other), HeldAt(held', other), IsTableResource(other))
              && WaitersKnown(QueueAt(queues', other), registered')
    {
      assert QueueOk(QueueAt(queues, other), HeldAt(held, other), IsTableResource(other))
             && WaitersKnown(QueueAt(queues, other), registered);
      assert QueueAt(queues', other) == if other == id then q else QueueAt(queues, other);
    }
  }

  lemma RequestKnown(q: Queue, t: nat, mode: Mode, usable: bool, registered: set<nat>)
    requires WaitersKnown(q, registered)
    ensures WaitersKnown(Request(q, t, mode).queue, registered + {t})
            && WaitersKnown(Recheck(q, t, usable).queue, registered)
    ensures WaitersKnown(Release(q, t).queue, registered)
  {
    var q1 := Request(q, t, mode).queue;
    forall i | 0 <= i < |q1| && IsWaiting(q1[i]) ensures q1[i].txnId in registered + {t} {
      if i < |q| && i != Find(q, t) { assert q1[i] == q[i]; }
    }
    ErasedKnown(q, Find(q, t), registered);
  }

  lemma ErasedKnown(q: Queue, k: nat, registered: set<nat>)
    requires WaitersKnown(q, registered)
    ensures k < |q| ==> WaitersKnown(Erase(q, k), registered)
  {
    if k < |q| {
      var q' := Erase(q, k);
      forall i | 0 <= i < |q'| && IsWaiting(q'[i]) ensures q'[i].txnId in registered {
        assert q'[i] == q[if i < k then i else i + 1];
      }
    }
  }

  // ----- waiting for each other, over all queues -----

  ghost predicate WaitsAt(q: Queue, a: nat, b: nat) {
    exists i, j :: 0 <= i < |q| && 0 <= j < |q| && q[i].txnId == a && q[j].txnId == b && Blocks(q, i, j)
  }

  /** Transaction `a`, still usable, waits for `b` somewhere. */
  ghost predicate WaitsFor(queues: Queues, usable: set<nat>, a: nat, b: nat) {
    a in usable && exists id :: id in queues && WaitsAt(queues[id], a, b)
  }

  ghost predicate IsWaitGraph(g: Graph, queues: Queues, usable: set<nat>) {
    forall a, b :: Edge(g, a, b) <==> WaitsFor(queues, usable, a, b)
  }

  /** `t` waits where nobody can go on, and the graph sees it: not for IS with no X in the way. */
  ghost predicate StuckAt(queues: Queues, id: LockId, t: nat) {
    && id in queues && Stuck(queues[id])
    && exists i :: 0 <= i < |queues[id]| && queues[id][i].txnId == t && IsWaiting(queues[id][i]) && Seen(queues[id], i)
  }

  ghost predicate IsStuck(queues: Queues, t: nat) {
    exists id :: StuckAt(queues, id, t)
  }

  /** Usable transactions that are all stuck, waiting for nobody else. */
  ghost predicate Deadlocked(queues: Queues, usable: set<nat>, b: set<nat>) {
    && b != {} && b <= usable
    && (forall t :: t in b ==> IsStuck(queues, t))
    && (forall t, u :: t in b && WaitsFor(queues, usable, t, u) ==> u in b)
  }

  lemma StuckWaits(queues: Queues, held: Holdings, registered: set<nat>, usable: set<nat>, t: nat) returns (u: nat)
    requires AllOk(queues, held, registered) && t in usable && IsStuck(queues, t)
    ensures WaitsFor(queues, usable, t, u)
  {
    var id :| StuckAt(queues, id, t);
    var q := queues[id];
    var i :| 0 <= i < |q| && q[i].txnId == t && IsWaiting(q[i]) && Seen(q, i);
    assert QueueAt(queues, id) == q;
    var j := WaiterHasEdge(q, HeldAt(held, id), IsTableResource(id), i);
    u := q[j].txnId;
    assert WaitsAt(q, t, u);
  }

  lemma DeadlockWaitsWithin(queues: Queues, held: Holdings, registered: set<nat>, usable: set<nat>, g: Graph,
                            b: set<nat>, t: nat)
    requires AllOk(queues, held, registered) && IsWaitGraph(g, queues, usable) && Deadlocked(queues, usable, b)
             && t in b
    ensures WaitsWithin(g, b, t) && t in g
  {
    var u := StuckWaits(queues, held, registered, usable, t);
    assert Edge(g, t, u);
  }

  ghost predicate Closed(g: Graph, b: set<nat>) {
    b != {} && forall t :: t in b ==> WaitsWithin(g, b, t) && t in g
  }

  lemma DeadlockCloses(queues: Queues, held: Holdings, registered: set<nat>, usable: set<nat>, g: Graph, b: set<nat>)
    requires AllOk(queues, held, registered) && IsWaitGraph(g, queues, usable) && Deadlocked(queues, usable, b)
    ensures Closed(g, b)
  {
    forall t | t in b ensures WaitsWithin(g, b, t) && t in g {
      DeadlockWaitsWithin(queues, held, registered, usable, g, b, t);
    }
  }

  /** A deadlock cannot hide from the search: no finishing order takes in all nodes. */
  lemma ClosedIsFound(g: Graph, order: seq<nat>, b: set<nat>)
    requires Closed(g, b) && EdgesGoBack(g, order) && Distinct(order)
    ensures exists a :: a in g && a !in order
  {
    var t :| t in b;
    ClosedIsNotOrdered(g, order, b, t);
  }

  // ----- one critical section -----

  function HeldAfterRequest(h: map<nat, Mode>, s: Step, t: nat, mode: Mode): map<nat, Mode> {
    if s.status.Granted? then h[t := mode] else h
  }

  function HeldAfterRecheck(q: Queue, h: map<nat, Mode>, s: Step, t: nat): map<nat, Mode> {
    if s.status.Granted?
      && Find(q, t) < |q| then h[t := Asked(q, t)] else if s.status.Waiting? then h else Released(h, t)
  }

  lemma RequestStep(queues: Queues, held: Holdings, registered: set<nat>, id: LockId, t: nat, mode: Mode)
    requires AllOk(queues, held, registered) && mode.Table? == IsTableResource(id)
    ensures var s := Request(QueueAt(queues, id), t, mode);
            AllOk(WithQueue(queues, id, s.queue), held[id := HeldAfterRequest(HeldAt(held, id), s, t, mode)],
                  registered + {t})
  {
    var q := QueueAt(queues, id);
    var s := Request(q, t, mode);
    RequestOk(q, HeldAt(held, id), IsTableResource(id), t, mode);
    RequestKnown(q, t, mode, true, registered);
    OneQueueOk(queues, held, registered, id, s.queue, HeldAfterRequest(HeldAt(held, id), s, t, mode), registered + {t});
  }

  lemma RecheckStep(queues: Queues, held: Holdings, registered: set<nat>, id: LockId, t: nat, isUsable: bool)
    requires AllOk(queues, held, registered)
    requires var q := QueueAt(queues, id); Find(q, t) < |q| && (IsWaiting(q[Find(q, t)]) || q[Find(q, t)].cancelled)
    ensures var q := QueueAt(queues, id);
            var s := Recheck(q, t, isUsable);
            AllOk(WithQueue(queues, id, s.queue), held[id := HeldAfterRecheck(q, HeldAt(held, id), s, t)], registered)
  {
    var q := QueueAt(queues, id);
    var s := Recheck(q, t, isUsable);
    RecheckOk(q, HeldAt(held, id), IsTableResource(id), t, isUsable);
    RequestKnown(q, t, Key(Shared), isUsable, registered);
    OneQueueOk(queues, held, registered, id, s.queue, HeldAfterRecheck(q, HeldAt(held, id), s, t), registered);
  }

  lemma ReleaseStep(queues: Queues, held: Holdings, registered: set<nat>, id: LockId, t: nat)
    requires AllOk(queues, held, registered)
    ensures AllOk(WithQueue(queues, id, Release(QueueAt(queues, id), t).queue),
                  held[id := Released(HeldAt(held, id), t)], registered)
  {
    var q := QueueAt(queues, id);
    ReleaseOk(q, HeldAt(held, id), IsTableResource(id), t);
    RequestKnown(q, t, Key(Shared), true, registered);
    OneQueueOk(queues, held, registered, id, Release(q, t).queue, Released(HeldAt(held, id), t), registered);
  }

  /** What `t` had on `id` is released, unless `id` is still in `left`. */
  ghost predicate ReleasedAt(before: Queues, heldBefore: Holdings, queues: Queues, held: Holdings, left: set<LockId>,
                             t: nat, id: LockId) {
    if id in before && id !in left then
      QueueAt(queues, id) == Release(before[id], t).queue && HeldAt(held, id) == Released(HeldAt(heldBefore, id), t)
    else
      QueueAt(queues, id) == QueueAt(before, id) && HeldAt(held, id) == HeldAt(heldBefore, id)
  }

  ghost predicate ReleasedBut(before: Queues, heldBefore: Holdings, queues: Queues, held: Holdings, left: set<LockId>,
                              t: nat) {
    left <= before.Keys && forall id :: ReleasedAt(before, heldBefore, queues, held, left, t, id)
  }

  lemma ReleaseOneMore(before: Queues, heldBefore: Holdings, queues: Queues, held: Holdings, left: set<LockId>,
                       rest: set<LockId>, t: nat, id: LockId)
    requires ReleasedBut(before, heldBefore, queues, held, left, t) && id in left && rest == left - {id}
    ensures ReleasedBut(before, heldBefore,
                        WithQueue(queues, id, Release(QueueAt(queues, id), t).queue),
                        held[id := Released(HeldAt(held, id), t)], rest, t)
  {
    var q := Release(QueueAt(queues, id), t).queue;
    var queues', held' := WithQueue(queues, id, q), held[id := Released(HeldAt(held, id), t)];
    forall other ensures ReleasedAt(before, heldBefore, queues', held', rest, t, other) {
      assert ReleasedAt(before, heldBefore, queues, held, left, t, other);
      if other == id {
        assert QueueAt(queues', id) == q && HeldAt(held', id) == Released(HeldAt(held, id), t);
        assert QueueAt(before, id) == before[id];
      } else {
        assert QueueAt(queues', other) == QueueAt(queues, other) && HeldAt(held', other) == HeldAt(held, other);
      }
    }
  }

  // ----- the manager -----

  class LockManager {
    var queues: Queues
    var registered: set<nat>
    var usable: set<nat>
    ghost var held: Holdings

    ghost predicate Valid()
      reads this
    {
      AllOk(queues, held, registered)
    }

    constructor ()
      ensures Valid() && queues == map[] && held == map[] && registered == {} && usable == {}
    {
      queues, registered, usable, held := map[], {}, {}, map[];
    }

    /** Transactions become usable and stop being so on their own account. */
    method SetUsable(t: nat, isUsable: bool)
      requires Valid()
      modifies this`usable
      ensures Valid() && usable == if isUsable then old(usable) + {t} else old(usable) - {t}
    {
      usable := if isUsable then usable + {t} else usable - {t};
    }

    /** Two passes: nobody waits in front, then nobody holds against it. */
    static method CanGrant(q: Queue, i: nat) returns (ok: bool)
      requires i < |q|
      ensures ok == Grantable(q, i)
    {
      for j := 0 to i
        invariant forall a :: 0 <= a < j && q[a].txnId != q[i].txnId ==> !IsWaiting(q[a])
      {
        if q[j].txnId != q[i].txnId && IsWaiting(q[j]) { return false; }
      }
      for j := 0 to |q|
        invariant forall a :: 0 <= a < j && q[a].txnId != q[i].txnId && q[a].granted ==>
                    !Conflicts(q[i].mode, q[a].mode)
      {
        if q[j].txnId != q[i].txnId && q[j].granted && Conflicts(q[i].mode, q[j].mode) { return false; }
      }
      return true;
    }

    static method TryGrant(q: Queue, i: nat) returns (q': Queue, status: LockStatus)
      requires i < |q|
      ensures Step(q', status) == Attempt(q, i)
    {
      var ok := CanGrant(q, i);
      if ok { return Grant(q, i), Granted; }
      return q, Waiting;
    }

    /** A request on one queue: a repeated one, an upgrade, or a new one at the end. */
    static method RequestOn(q: Queue, t: nat, mode: Mode) returns (q': Queue, status: LockStatus)
      ensures Step(q', status) == Request(q, t, mode)
    {
      var i := Find(q, t);
      q' := q;
      if i < |q| {
        if q[i].granted && !q[i].upgrading && q[i].mode == mode { return q, Granted; }
        if !q[i].granted && !q[i].upgrading { return q, AlreadyWaits; }
        if q[i].upgrading { return q, UpgradePending; }
        if !CanUpgrade(q[i].mode, mode) { return q, NotAnUpgrade; }
        q' := StartUpgrade(q, i, mode);
      } else {
        q' := Enqueue(q, t, mode);
      }
      q', status := TryGrant(q', i);
    }

    static method RecheckOn(q: Queue, t: nat, isUsable: bool) returns (q': Queue, status: LockStatus)
      requires Find(q, t) < |q|
      ensures Step(q', status) == Recheck(q, t, isUsable)
    {
      var i := Find(q, t);
      if q[i].cancelled { return Erase(q, i), Cancelled; }
      if !isUsable { return Erase(q, i), Aborted; }
      q', status := TryGrant(q, i);
    }

    static method ReleaseOn(q: Queue, t: nat) returns (q': Queue, status: LockStatus)
      ensures Step(q', status) == Release(q, t)
    {
      var i := Find(q, t);
      if i == |q| { return q, NotFound; }
      if !q[i].granted || q[i].upgrading { return Cancel(q, i), Unlocked; }
      return Erase(q, i), Unlocked;
    }

    /** The part of a lock call up to its first wait. */
    method Lock(t: nat, id: LockId, mode: Mode) returns (status: LockStatus)
      requires Valid()
      modifies this`queues, this`held, this`registered
      ensures Valid()
      ensures t !in usable || mode.Table? != IsTableResource(id) || !ValidId(id) ==>
                status == InvalidArgument && queues == old(queues) && held == old(held)
      ensures t in usable && mode.Table? == IsTableResource(id) && ValidId(id) ==>
                var s := Request(QueueAt(old(queues), id), t, mode);
                && status == s.status && queues == WithQueue(old(queues), id, s.queue)
                && held == old(held)[id := HeldAfterRequest(HeldAt(old(held), id), s, t, mode)]
    {
      if t !in usable || mode.Table? != IsTableResource(id) || !ValidId(id) { return InvalidArgument; }
      RequestStep(queues, held, registered, id, t, mode);
      ghost var s := Request(QueueAt(queues, id), t, mode);
      var q;
      q, status := RequestOn(QueueAt(queues, id), t, mode);
      held := held[id := HeldAfterRequest(HeldAt(held, id), s, t, mode)];
      queues := WithQueue(queues, id, q);
      registered := registered + {t};
    }

    /** A waiting call wakes up. */
    method WakeUp(t: nat, id: LockId) returns (status: LockStatus)
      requires Valid()
      requires var q := QueueAt(queues, id);
               Find(q, t) < |q| && (IsWaiting(q[Find(q, t)]) || q[Find(q, t)].cancelled)
      modifies this`queues, this`held
      ensures Valid()
      ensures var q := QueueAt(old(queues), id);
              var s := Recheck(q, t, t in usable);
              && status == s.status && queues == WithQueue(old(queues), id, s.queue)
              && held == old(held)[id := HeldAfterRecheck(q, HeldAt(old(held), id), s, t)]
    {
      RecheckStep(queues, held, registered, id, t, t in usable);
      ghost var before := QueueAt(queues, id);
      ghost var s := Recheck(before, t, t in usable);
      var q;
      q, status := RecheckOn(QueueAt(queues, id), t, t in usable);
      held := held[id := HeldAfterRecheck(before, HeldAt(held, id), s, t)];
      queues := WithQueue(queues, id, q);
    }

    /** Gives up one lock. */
    method Unlock(t: nat, id: LockId) returns (status: LockStatus)
      requires Valid()
      modifies this`queues, this`held
      ensures Valid()
      ensures status == Release(QueueAt(old(queues), id), t).status
      ensures queues == WithQueue(old(queues), id, Release(QueueAt(old(queues), id), t).queue)
      ensures held == old(held)[id := Released(HeldAt(old(held), id), t)]
    {
      ReleaseStep(queues, held, registered, id, t);
      var q;
      q, status := ReleaseOn(QueueAt(queues, id), t);
      held := held[id := Released(HeldAt(held, id), t)];
      queues := WithQueue(queues, id, q);
    }

    /** Gives up everything: commit and abort end with this. */
    method UnlockAll(t: nat)
      requires Valid()
      modifies this`queues, this`held, this`registered
      ensures Valid() && registered == old(registered) - {t}
      ensures ReleasedBut(old(queues), old(held), queues, held, {}, t)
    {
      var left := queues.Keys;
      while left != {}
        invariant Valid() && registered == old(registered)
        invariant ReleasedBut(old(queues), old(held), queues, held, left, t)
        decreases |left|
      {
        var id :| id in left;
        ReleaseOneMore(old(queues), old(held), queues, held, left, left - {id}, t, id);
        left := left - {id};
        var status := Unlock(t, id);
      }
      assert left == {};
      EndRegistration(queues, held, registered, t, old(queues), old(held));
      registered := registered - {t};
    }

    // ----- deadlock detection -----

    /** Whom the waiting request at `i` waits for. */
    static method BlockersOf(q: Queue, i: nat) returns (edges: set<nat>)
      requires i < |q| && IsWaiting(q[i])
      ensures forall b :: b in edges <==> BlockedBy(q, i, b, |q|)
    {
      edges := {};
      for j := 0 to |q|
        invariant forall b :: b in edges <==> BlockedBy(q, i, b, j)
      {
        if q[j].txnId != q[i].txnId {
          if q[j].granted && Conflicts(q[i].mode, q[j].mode) {
            edges := edges + {q[j].txnId};
          } else if !q[j].granted && Conflicts(q[i].mode, q[j].mode) && j < i {
            edges := edges + {q[j].txnId};
          }
        }
        OneMoreBlocker(q, i, j);
      }
    }

    /** Adds the edges of one queue. */
    static method AddQueue(g: Graph, q: Queue, usable: set<nat>) returns (g': Graph)
      ensures forall a, b :: Edge(g', a, b) <==> Edge(g, a, b) || WaitsUpTo(q, usable, a, b, |q|)
    {
      g' := g;
      for i := 0 to |q|
        invariant forall a, b :: Edge(g', a, b) <==> Edge(g, a, b) || WaitsUpTo(q, usable, a, b, i)
      {
        OneMoreWaiter(q, usable, i);
        if IsWaiting(q[i]) && q[i].txnId in usable {
          var edges := BlockersOf(q, i);
          ghost var before := g';
          g' := WithEdges(g', q[i].txnId, edges);
          MoreEdges(before, q[i].txnId, edges);
        }
      }
    }

    /** The wait-for graph of all queues. */
    method WaitForGraph() returns (g: Graph)
      ensures IsWaitGraph(g, queues, usable)
    {
      g := map[];
      var left := queues.Keys;
      while left != {}
        invariant left <= queues.Keys
        invariant forall a, b :: Edge(g, a, b) <==> WaitsAmong(queues, usable, queues.Keys - left, a, b)
        decreases |left|
      {
        var id :| id in left;
        var before := g;
        g := AddQueue(g, queues[id], usable);
        forall a, b { OneMoreQueue(queues, usable, left, id, a, b); }
        left := left - {id};
      }
      forall a, b { AllQueues(queues, usable, a, b); }
      assert queues.Keys - left == queues.Keys;
    }

    /** Fails the largest transaction of a cycle, if there is one. */
    method DetectDeadlocks() returns (victims: seq<nat>)
      requires Valid()
      modifies this`usable
      ensures Valid()
      ensures victims == [] ==> usable == old(usable)
      ensures victims == [] ==> forall c :: !IsWaitCycle(queues, usable, c)
      ensures victims == [] ==> forall b :: !Deadlocked(queues, usable, b)
      ensures victims != [] ==>
        && |victims| == 1 && usable == old(usable) - {victims[0]}
        && exists c :: IsWaitCycle(queues, old(usable), c) && IsLargest(c, victims[0])
    {
      var g := WaitForGraph();
      var search := new Search(g);
      ghost var cycle, order;
      var found, victim;
      found, victim, cycle, order := search.FindVictim();
      if !found {
        NothingToFind(queues, held, registered, usable, g, order);
        return [];
      }
      CycleIsWaitCycle(g, queues, usable, cycle);
      VictimIsKnown(queues, held, registered, usable, cycle, victim);
      if victim !in registered { return []; }
      usable := usable - {victim};
      return [victim];
    }
  }

  function WithEdges(g: Graph, a: nat, edges: set<nat>): Graph {
    g[a := edges + (if a in g then g[a] else {})]
  }

  lemma MoreEdges(g: Graph, a: nat, edges: set<nat>)
    ensures forall x, b :: Edge(WithEdges(g, a, edges), x, b) <==> Edge(g, x, b) || (x == a && b in edges)
  {
  }

  ghost predicate BlockedBy(q: Queue, i: nat, b: nat, n: nat)
    requires i < |q|
  {
    exists j :: 0 <= j < n && j < |q| && q[j].txnId == b && Blocks(q, i, j)
  }

  lemma OneMoreBlocker(q: Queue, i: nat, j: nat)
    requires i < |q| && j < |q|
    ensures forall b :: BlockedBy(q, i, b, j + 1) <==> BlockedBy(q, i, b, j) || (q[j].txnId == b && Blocks(q, i, j))
  {
    forall b ensures BlockedBy(q, i, b, j + 1) <==> BlockedBy(q, i, b, j) || (q[j].txnId == b && Blocks(q, i, j)) {
      if BlockedBy(q, i, b, j + 1) {
        var x :| 0 <= x < j + 1 && x < |q| && q[x].txnId == b && Blocks(q, i, x);
        assert x < j || x == j;
      }
    }
  }

  /** Among the first `n` requests, one of `a`, still usable, is blocked by one of `b`. */
  ghost predicate WaitsUpTo(q: Queue, usable: set<nat>, a: nat, b: nat, n: nat) {
    a in usable && exists i :: 0 <= i < n && i < |q| && q[i].txnId == a && BlockedBy(q, i, b, |q|)
  }

  ghost predicate WaitsAmong(queues: Queues, usable: set<nat>, ids: set<LockId>, a: nat, b: nat) {
    exists id :: id in ids && id in queues && WaitsUpTo(queues[id], usable, a, b, |queues[id]|)
  }

  lemma OneMoreWaiter(q: Queue, usable: set<nat>, i: nat)
    requires i < |q|
    ensures forall a, b :: WaitsUpTo(q, usable, a, b, i + 1) <==>
              WaitsUpTo(q, usable, a, b, i) || (a in usable && q[i].txnId == a && BlockedBy(q, i, b, |q|))
    ensures !IsWaiting(q[i]) ==> forall b :: !BlockedBy(q, i, b, |q|)
  {
    forall a, b ensures WaitsUpTo(q, usable, a, b, i + 1) <==>
              WaitsUpTo(q, usable, a, b, i) || (a in usable && q[i].txnId == a && BlockedBy(q, i, b, |q|))
    {
      if WaitsUpTo(q, usable, a, b, i + 1) {
        var x :| 0 <= x < i + 1 && x < |q| && q[x].txnId == a && BlockedBy(q, x, b, |q|);
        assert x < i || x == i;
      }
    }
  }

  lemma OneMoreQueue(queues: Queues, usable: set<nat>, left: set<LockId>, id: LockId, a: nat, b: nat)
    requires id in left && left <= queues.Keys
    ensures WaitsAmong(queues, usable, queues.Keys - (left - {id}), a, b)
       <==> WaitsAmong(queues, usable, queues.Keys - left, a, b) || WaitsUpTo(queues[id], usable, a, b, |queues[id]|)
  {
    var some, more := queues.Keys - left, queues.Keys - (left - {id});
    assert more == some + {id};
    if WaitsAmong(queues, usable, more, a, b) {
      var x :| x in more && x in queues && WaitsUpTo(queues[x], usable, a, b, |queues[x]|);
      assert x in some || x == id;
    }
    if WaitsAmong(queues, usable, some, a, b) {
      var x :| x in some && x in queues && WaitsUpTo(queues[x], usable, a, b, |queues[x]|);
      assert x in more;
    }
    if WaitsUpTo(queues[id], usable, a, b, |queues[id]|) { assert id in more; }
  }

  lemma AllQueues(queues: Queues, usable: set<nat>, a: nat, b: nat)
    ensures WaitsAmong(queues, usable, queues.Keys, a, b) <==> WaitsFor(queues, usable, a, b)
  {
    forall id | id in queues
      ensures WaitsUpTo(queues[id], usable, a, b, |queues[id]|) <==> a in usable && WaitsAt(queues[id], a, b)
    {
      SameWaits(queues[id], usable, a, b);
    }
  }

  lemma SameWaits(q: Queue, usable: set<nat>, a: nat, b: nat)
    ensures WaitsUpTo(q, usable, a, b, |q|) <==> a in usable && WaitsAt(q, a, b)
  {
    if a in usable && WaitsAt(q, a, b) {
      var i, j :| 0 <= i < |q| && 0 <= j < |q| && q[i].txnId == a && q[j].txnId == b && Blocks(q, i, j);
      assert BlockedBy(q, i, b, |q|);
    }
    if WaitsUpTo(q, usable, a, b, |q|) {
      var i :| 0 <= i < |q| && q[i].txnId == a && BlockedBy(q, i, b, |q|);
      var j :| 0 <= j < |q| && q[j].txnId == b && Blocks(q, i, j);
    }
  }

  /** Transactions each waiting for the next, and the last for the first. */
  ghost predicate IsWaitCycle(queues: Queues, usable: set<nat>, c: seq<nat>) {
    |c| > 0 && forall i :: 0 <= i < |c| ==> WaitsFor(queues, usable, c[i], c[if i + 1 < |c| then i + 1 else 0])
  }

  lemma CycleIsWaitCycle(g: Graph, queues: Queues, usable: set<nat>, c: seq<nat>)
    requires IsWaitGraph(g, queues, usable)
    ensures IsCycle(g, c) <==> IsWaitCycle(queues, usable, c)
  {
    if IsCycle(g, c) {
      forall i | 0 <= i < |c| ensures WaitsFor(queues, usable, c[i], c[if i + 1 < |c| then i + 1 else 0]) {
        assert Edge(g, c[i], c[if i + 1 < |c| then i + 1 else 0]);
      }
    }
    if IsWaitCycle(queues, usable, c) {
      forall i | 0 <= i < |c| ensures Edge(g, c[i], c[if i + 1 < |c| then i + 1 else 0]) {
        assert WaitsFor(queues, usable, c[i], c[if i + 1 < |c| then i + 1 else 0]);
      }
    }
  }

  lemma NothingToFind(queues: Queues, held: Holdings, registered: set<nat>, usable: set<nat>, g: Graph, order: seq<nat>)
    requires AllOk(queues, held, registered) && IsWaitGraph(g, queues, usable)
    requires EdgesGoBack(g, order) && Distinct(order) && forall a :: a in g ==> a in order
    ensures (forall c :: !IsWaitCycle(queues, usable, c)) && forall b :: !Deadlocked(queues, usable, b)
  {
    forall c ensures !IsWaitCycle(queues, usable, c) {
      OrderedIsAcyclic(g, order, c);
      CycleIsWaitCycle(g, queues, usable, c);
    }
    forall b ensures !Deadlocked(queues, usable, b) {
      if Deadlocked(queues, usable, b) {
        DeadlockCloses(queues, held, registered, usable, g, b);
        ClosedIsFound(g, order, b);
      }
    }
  }

  /** Every transaction on a cycle waits somewhere, so the detector knows it. */
  lemma VictimIsKnown(queues: Queues, held: Holdings, registered: set<nat>, usable: set<nat>, c: seq<nat>, victim: nat)
    requires AllOk(queues, held, registered) && IsWaitCycle(queues, usable, c) && victim in c
    ensures victim in registered
  {
    var i :| 0 <= i < |c| && c[i] == victim;
    var next := c[if i + 1 < |c| then i + 1 else 0];
    assert WaitsFor(queues, usable, victim, next);
    var id :| id in queues && WaitsAt(queues[id], victim, next);
    assert WaitersKnown(QueueAt(queues, id), registered);
  }

  /** With everything of `t` released nobody looks for it any more. */
  lemma EndRegistration(queues: Queues, held: Holdings, registered: set<nat>, t: nat, before: Queues,
                        heldBefore: Holdings)
    requires AllOk(queues, held, registered) && AllOk(before, heldBefore, registered)
    requires ReleasedBut(before, heldBefore, queues, held, {}, t)
    ensures AllOk(queues, held, registered - {t})
  {
    forall id ensures WaitersKnown(QueueAt(queues, id), registered - {t}) {
      assert WaitersKnown(QueueAt(queues, id), registered);
      assert ReleasedAt(before, heldBefore, queues, held, {}, t, id);
      if id in before {
        assert QueueAt(before, id) == before[id];
        assert QueueOk(QueueAt(before, id), HeldAt(heldBefore, id), IsTableResource(id));
        ReleaseEnds(before[id], HeldAt(heldBefore, id), IsTableResource(id), t);
      }
    }
  }
}
