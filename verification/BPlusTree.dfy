/** The B+ tree as the program runs it. */
module BPlusTreeIndex {
  import opened BTree
  import opened BTreeFacts
  import opened BTreeInsert
  import opened BTreeSeparators
  import opened BTreeMerge
  import opened BTreeBorrow
  import opened BTreeSteps
  import opened BTreeRemoval
  import opened BTreeRefill
  import opened BTreeScan

  /** A number as large as any of them. */
  ghost function HighestOf(ids: set<Id>): (bound: Id)
    ensures forall id :: id in ids ==> id <= bound
  {
    if ids == {} then INVALID
    else
      var id :| id in ids;
      var rest := HighestOf(ids - {id});
      assert forall x :: x in ids ==> x == id || x in ids - {id};
      if rest < id then id else rest
  }

  class BPlusTree {
    const cfg: Config
    var pages: Pages
    var root: Id
    var limit: Id
    ghost var levels: seq<Level>

    ghost predicate Valid()
      reads this
    {
      && cfg.Ok() && 0 < limit
      && if root == INVALID then pages == map[] && levels == [] else TreeInv(cfg, pages, root, levels, limit, INVALID)
    }

    /** Everything the index holds; the same pair may be there more than once. */
    ghost function Contents(): multiset<Entry>
      reads this
    {
      Content(pages, levels)
    }

    constructor (cfg: Config)
      requires cfg.Ok()
      ensures Valid() && Contents() == multiset{} && this.cfg == cfg
    {
      this.cfg := cfg;
      pages := map[];
      root := INVALID;
      limit := 1;
      levels := [];
    }

    /** Some number that no page has; it may be one that a removal gave back. Nothing depends on which. */
    static method NextNumber(used: Pages, taken: Id) returns (next: Id)
      ensures IsNext(next, taken, used)
    {
      next := INVALID + 1;
      ghost var bound := HighestOf(used.Keys + {taken});
      while next in used || next == taken
        invariant INVALID < next <= bound + 1
        decreases bound + 1 - next
      {
        assert next in used.Keys + {taken};
        next := next + 1;
      }
    }

    /** The child to follow for `key`. */
    method Lookup(items: seq<Item>, key: int) returns (c: nat)
      requires |items| > 0
      ensures c < |items| && (0 < c ==> items[c].key < key) && (c + 1 < |items| ==> key <= items[c + 1].key)
    {
      c := 0;
      while c + 1 < |items| && items[c + 1].key < key
        invariant c < |items| && (0 < c ==> items[c].key < key)
      {
        c := c + 1;
      }
    }

    /** Descends from the root to the leaf where `key` belongs. */
    method FindLeaf(key: int) returns (leaf: Id, path: seq<Id>, ghost i: nat)
      requires Valid() && root != INVALID
      ensures Lands(levels[0], i, key) && levels[0][i].child == leaf && PathOk(pages, levels, path, leaf, 0)
      ensures leaf in pages && pages[leaf].Leaf?
    {
      leaf := root;
      path := [];
      ghost var k := |levels| - 1;
      i := 0;
      AtLevel(levels, k, 0);
      assert NodeOk(cfg, pages, leaf, k, root, INVALID);
      while pages[leaf].Internal?
        invariant 0 <= k < |levels| && Lands(levels[k], i, key) && levels[k][i].child == leaf
        invariant PathOk(pages, levels, path, leaf, k) && NodeOk(cfg, pages, leaf, k, root, INVALID)
        decreases k
      {
        var c := Lookup(pages[leaf].items, key);
        var child := pages[leaf].items[c].child;
        ghost var m := k - 1;
        ghost var q := Descend(cfg, pages, levels, root, k, m, i, c, key);
        AtLevel(levels, m, q);
        PathDown(pages, levels, path, leaf, k, child);
        path := path + [leaf];
        leaf := child;
        i := q;
        k := k - 1;
        assert NodeOk(cfg, pages, leaf, k, root, INVALID);
      }
    }

    /** Adds the pair to the leaf. When that overflows, the second half of the entries goes to a new
        leaf. */
    method InsertIntoLeaf(leaf: Id, e: Entry) returns (status: Status, split: Split)
      requires leaf in pages && pages[leaf].Leaf? && Sorted(pages[leaf].entries) && cfg.Ok()
      modifies this`pages, this`limit
      ensures LeafTold(cfg, old(pages), pages, old(limit), limit, leaf, e, status, split)
    {
      split := NoSplit;
      var entries := pages[leaf].entries;
      var at := LowerBound(entries, e);
      InsSorted(entries, at, e);
      InsAt(entries, at, e);
      assert at == Place(entries, e);
      if at < |entries| && entries[at] == e {
        return AlreadyExists, split;
      }
      status := Ok;
      var all := Ins(entries, at, e);
      if |entries| < cfg.leafMax {
        pages := pages[leaf := pages[leaf].(entries := all)];
      } else {
        var next := NextNumber(pages, limit);
        pages := SplitLeaf(pages, leaf, limit, all);
        split := Split(all[|all| / 2].key, limit);
        limit := next;
      }
    }

    /** Hands the children in `items` to the page `par`. */
    method SetParents(items: seq<Item>, par: Id)
      requires forall a :: 0 <= a < |items| ==> items[a].child in pages
      modifies this`pages
      ensures Moved(old(pages), pages, items, par)
    {
      for a := 0 to |items|
        invariant Moved(old(pages), pages, items[..a], par)
      {
        var child := items[a].child;
        MovedOneMore(old(pages), pages, items, a, par);
        pages := pages[child := pages[child].(parent := par)];
      }
      assert items[..|items|] == items;
    }

    /** Adds the split-off page to the parent. When that overflows, the second half of its entries
        goes to a new page, and so do the children there. */
    method InsertIntoInternal(par: Id, left: Id, added: Split) returns (split: Split)
      requires added.Split? && Listed(pages, par, left) && added.rightId in pages
      modifies this`pages, this`limit
      ensures ParentTold(cfg, old(pages), pages, old(limit), limit, par, left, added, split)
    {
      var items := pages[par].items;
      var x := Item(added.separator, added.rightId);
      var c := ChildIndex(items, left);
      var all := WithChild(items, c, x);
      if |all| <= cfg.internalMax {
        pages := AddChild(pages, par, c, x);
        split := NoSplit;
      } else {
        HighIsThere(pages, par, limit, all, items, c, x);
        var next := NextNumber(pages, limit);
        pages := SplitInternal(pages, par, limit, all);
        SetParents(all[|all| / 2..], limit);
        split := Split(all[|all| / 2].key, limit);
        limit := next;
      }
    }

    /** A level more. */
    method CreateNewRoot(left: Id, split: Split, ghost k: nat, ghost i: nat)
      requires PendingSplit(cfg, pages, root, levels, limit, k, i, left, split, [])
      modifies this
      ensures Valid() && root != INVALID && Contents() == old(Contents())
    {
      var next := NextNumber(pages, limit);
      NewRootKeepsTree(cfg, pages, root, levels, limit, next, k) by { assert limit !in pages; }
      pages := NewRoot(pages, left, Item(split.separator, split.rightId), limit);
      levels := levels + [[Item(levels[k][0].key, limit)]];
      root := limit;
      limit := next;
    }

    /** Adds the pair unless the leaf where its key belongs already holds it. */
    method Insert(key: int, rid: Rid) returns (status: Status)
      requires Valid()
      modifies this
      ensures Valid()
      ensures status == if old(Candidate(pages, levels, Entry(key, rid))) then AlreadyExists else Ok
      ensures status.Ok? ==> Contents() == old(Contents()) + multiset{Entry(key, rid)}
      ensures status.AlreadyExists? ==> Contents() == old(Contents()) && pages == old(pages) && levels == old(levels)
      ensures status.Ok? && Contents()[Entry(key, rid)] > 1
              <==> Entry(key, rid) in old(Contents()) && !old(Candidate(pages, levels, Entry(key, rid)))
    {
      var e := Entry(key, rid);
      if root == INVALID {
        var next := NextNumber(pages, limit);
        FirstLeaf(cfg, limit, next, e);
        pages := map[limit := Leaf([e], INVALID, INVALID)];
        levels := [[Item(0, limit)]];
        root := limit;
        limit := next;
        return Ok;
      }
      var leaf, path, i := FindLeaf(key);
      CandidateIs(pages, levels, i, e);
      ghost var before, was := pages, limit;
      LeafFacts(cfg, pages, root, levels, limit, i);
      var split;
      status, split := InsertIntoLeaf(leaf, e);
      levels := LeafStep(cfg, before, pages, root, levels, was, limit, i, leaf, e, status, split, path);
      if split.Split? { PropagateSplit(leaf, split, path, i); }
    }

    /** Tells the ancestors of a split, as far up as it takes. */
    method PropagateSplit(leaf: Id, first: Split, down: seq<Id>, ghost at: nat)
      requires PendingSplit(cfg, pages, root, levels, limit, 0, at, leaf, first, down)
      modifies this
      ensures Valid() && Contents() == old(Contents())
    {
      var left, split, path := leaf, first, down;
      ghost var k, i := 0, at;
      while path != []
        invariant PendingSplit(cfg, pages, root, levels, limit, k, i, left, split, path)
        invariant Contents() == old(Contents())
        decreases |path|
      {
        split, i := TellParent(left, split, path, k, i);
        if split.NoSplit? { return; }
        left := path[|path| - 1];
        path := path[..|path| - 1];
        k := k + 1;
      }
      CreateNewRoot(left, split, k, i);
    }

    /** Tells the parent of a split; it may have to split in turn. */
    method TellParent(left: Id, added: Split, path: seq<Id>, ghost k: nat, ghost i: nat)
        returns (split: Split, ghost p: nat)
      requires PendingSplit(cfg, pages, root, levels, limit, k, i, left, added, path) && path != []
      modifies this
      ensures Contents() == old(Contents())
      ensures split.NoSplit? ==> Valid()
      ensures split.Split? ==> PendingSplit(cfg, pages, root, levels, limit, k + 1, p, path[|path| - 1], split,
                                            path[..|path| - 1])
    {
      ghost var before, was := pages, limit;
      ParentIsThere(cfg, pages, root, levels, limit, k, i, left, added, path);
      split := InsertIntoInternal(path[|path| - 1], left, added);
      levels, p := ParentStep(cfg, before, pages, root, levels, was, limit, k, i, left, added, split, path);
    }

    // ----- removal -----

    /** Looks for the pair along the leaf chain, from where descent ends. */
    method FindEntry(e: Entry) returns (target: Id, ghost t: nat)
      requires Valid() && root != INVALID
      ensures target == INVALID ==> e !in Contents()
      ensures target != INVALID ==>
                t < |levels[0]| && levels[0][t].child == target && target in pages && pages[target].Leaf?
                && e in pages[target].entries
    {
      var leaf, path, i := FindLeaf(e.key);
      ghost var level := levels[0];
      target, t := leaf, i;
      while target != INVALID
        invariant i <= t <= |level| && level == levels[0] && LeavesOk(pages, level) && Lands(level, i, e.key)
        invariant target == (if t < |level| then level[t].child else INVALID)
        invariant forall m :: i <= m < t ==> e !in EntriesOf(pages, level[m].child)
        invariant INVALID !in pages
        decreases |level| - t
      {
        assert LeafOk(pages, level, t);
        var entries := pages[target].entries;
        if e in entries { return; }
        if entries != [] && entries[|entries| - 1].key > e.key {
          ghost var x := entries[|entries| - 1];
          assert x in entries && EntriesOf(pages, level[t].child) == entries;
          NotBeyond(pages, level, t, x, e);
          NotInTree(pages, level, i, e);
          target := INVALID;
          return;
        }
        target := pages[target].next;
        t := t + 1;
      }
      assert t < |level| ==> LeafOk(pages, level, t);
      NotInTree(pages, level, i, e);
    }

    /** The smallest key below a page. */
    method SubtreeMinimum(id: Id, ghost k: nat) returns (key: int)
      requires LeadsDown(pages, id, k)
      ensures key == FirstOf(pages, id, k)
    {
      var current := id;
      ghost var m := k;
      while pages[current].Internal?
        invariant LeadsDown(pages, current, m) && FirstOf(pages, current, m) == FirstOf(pages, id, k)
        decreases m
      {
        current := pages[current].items[0].child;
        m := m - 1;
      }
      key := pages[current].entries[0].key;
    }

    /** The last entry of child `d` of `par` moves to child `d + 1`. */
    method BorrowFromLeft(par: Id, d: nat) returns (ghost sorted: seq<Entry>)
      requires LeafPairOf(pages, par, d) && |EntriesAt(pages, par, d)| > 0
      modifies this`pages
      ensures TakesFromLeft(old(pages), pages, par, d, sorted)
    {
      var left, leaf := pages[par].items[d].child, pages[par].items[d + 1].child;
      var l := pages[left].entries;
      var refilled := Sort([Last(l)] + pages[leaf].entries);
      sorted := refilled;
      pages := ShareLeaves(pages, left, leaf, par, d, Front(l), refilled, refilled[0].key);
    }

    /** The first entry of child `d + 1` of `par` moves to child `d`. */
    method BorrowFromRight(par: Id, d: nat) returns (ghost sorted: seq<Entry>)
      requires LeafPairOf(pages, par, d) && |EntriesAt(pages, par, d + 1)| > 1
      modifies this`pages
      ensures TakesFromRight(old(pages), pages, par, d, sorted)
    {
      var leaf, right := pages[par].items[d].child, pages[par].items[d + 1].child;
      var r := pages[right].entries;
      var refilled := Sort(pages[leaf].entries + [r[0]]);
      sorted := refilled;
      pages := ShareLeaves(pages, leaf, right, par, d, refilled, r[1..], r[1].key);
    }

    /** Child `d + 1` of `par` goes into child `d`. */
    method JoinLeaves(par: Id, d: nat) returns (ghost sorted: seq<Entry>)
      requires LeafPairOf(pages, par, d)
      modifies this`pages
      ensures JoinsLeaves(old(pages), pages, par, d, sorted)
    {
      var left, right := pages[par].items[d].child, pages[par].items[d + 1].child;
      var merged := Sort(pages[left].entries + pages[right].entries);
      sorted := merged;
      pages := MergeLeaves(pages, left, right, par, d, merged);
    }

    /** Refills a leaf from its left neighbour, its right neighbour, or merges it with one. */
    method RefillLeaf(leaf: Id, par: Id, c: nat) returns (up: Id, ghost d: nat, ghost sorted: seq<Entry>)
      requires cfg.Ok() && Among(pages, leaf, par, c) && |pages[par].items| >= 2
      modifies this`pages
      ensures LeafRefilled(cfg, old(pages), pages, par, c, d, up, sorted)
    {
      var items := pages[par].items;
      if 0 < c {
        var left := c - 1;
        if |pages[items[left].child].entries| > cfg.Min(0) {
          sorted := BorrowFromLeft(par, left);
          return INVALID, left, sorted;
        }
      }
      if c + 1 < |items| {
        if |pages[items[c + 1].child].entries| > cfg.Min(0) {
          sorted := BorrowFromRight(par, c);
          return INVALID, c, sorted;
        }
        if c == 0 {
          sorted := JoinLeaves(par, c);
          return par, c, sorted;
        }
      }
      sorted := JoinLeaves(par, c - 1);
      return par, c - 1, sorted;
    }

    /** Shares the entries of children `d` and `d + 1` of `par` out anew, before entry `n`. */
    method ShareInternal(par: Id, d: nat, n: nat, ghost m: nat) returns (key: int)
      requires ThreeGenerations(pages, par, m) && d + 1 < |pages[par].items|
      requires InternalChild(pages, par, pages[par].items[d].child)
               && InternalChild(pages, par, pages[par].items[d + 1].child)
      requires n < |Both(pages, par, d)| && (n + 1 == |ItemsAt(pages, par, d)| || n == |ItemsAt(pages, par, d)| + 1)
      modifies this`pages
      ensures SharesOut(old(pages), pages, par, d, n, key) && SplitsAt(old(pages), par, d, n, m, key)
    {
      var left, right := pages[par].items[d].child, pages[par].items[d + 1].child;
      var l := pages[left].items;
      var all := Both(pages, par, d);
      SharedChild(pages, par, d, n, m);
      key := SubtreeMinimum(all[n].child, m);
      var moved := MovedChild(|l|, all, n);
      pages := pages[left := pages[left].(items := all[..n])];
      pages := pages[right := pages[right].(items := HighPart(all, n))];
      pages := pages[par := pages[par].(items := SetKey(pages[par].items, d + 1, key))];
      pages := pages[moved := pages[moved].(parent := if n < |l| then right else left)];
    }

    /** Puts the entries of child `d + 1` of `par` into child `d`. */
    method JoinInternal(par: Id, d: nat, ghost m: nat)
      requires ThreeGenerations(pages, par, m) && d + 1 < |pages[par].items|
      requires InternalChild(pages, par, pages[par].items[d].child)
               && InternalChild(pages, par, pages[par].items[d + 1].child)
      modifies this`pages
      ensures Joins(old(pages), pages, par, d)
    {
      var left := pages[par].items[d].child;
      var r := pages[pages[par].items[d + 1].child].items;
      JoinedChildren(pages, par, d, m);
      pages := JoinPages(pages, par, d);
      SetParents(r, left);
    }

    /** Refills an internal page from its left neighbour, its right neighbour, or merges it with one. */
    method RefillInternal(id: Id, par: Id, c: nat, ghost m: nat) returns (up: Id, ghost d: nat, key: int)
      requires cfg.Ok() && AmongInternal(pages, id, par, c) && |pages[par].items| >= 2
               && ThreeGenerations(pages, par, m)
      modifies this`pages
      ensures InternalRefilled(cfg, old(pages), pages, par, c, d, up, m, key)
    {
      var items := pages[par].items;
      var left: int, right := c - 1, c + 1;
      key := 0;
      if 0 < c && |pages[items[left].child].items| > cfg.Min(1) {
        var n := |pages[items[left].child].items| - 1;
        key := ShareInternal(par, left, n, m);
        RefilledFromLeft(cfg, old(pages), pages, par, c, left, n, m, key);
        return INVALID, left, key;
      }
      if right < |items| && |pages[items[right].child].items| > cfg.Min(1) {
        var n := |pages[id].items| + 1;
        key := ShareInternal(par, c, n, m);
        RefilledFromRight(cfg, old(pages), pages, par, c, left, right, n, m, key);
        return INVALID, c, key;
      }
      var at := if right < |items| && c == 0 then c else left;
      JoinInternal(par, at, m);
      RefilledByJoin(cfg, old(pages), pages, par, c, left, right, at, m, key);
      return par, at, key;
    }

    /** Repairs a page that lost a child, and what that makes short above it. */
    method RebalanceInternal(id: Id, ghost k: nat)
      requires cfg.Ok() && 0 < limit && TreeInv(cfg, pages, root, levels, limit, id) && OnLevel(levels, k, id) && 0 < k
      modifies this
      ensures Valid() && root != INVALID && Contents() == old(Contents())
      decreases |levels| - k
    {
      ghost var i := Position(levels, k, id);
      PageIs(cfg, pages, root, levels, limit, id, k, id);
      var items := pages[id].items;
      if id == root {
        if |items| >= 2 {
          NotShort(cfg, pages, root, levels, limit, id, k);
        } else {
          TakeChildAsRoot();
        }
        return;
      }
      if |items| >= cfg.Min(1) {
        NotShort(cfg, pages, root, levels, limit, id, k);
        return;
      }
      var up := RefillShort(id, k, i);
      if up != INVALID { RebalanceInternal(up, k + 1); }
    }

    /** The root has one child: a level less. */
    method TakeChildAsRoot()
      requires cfg.Ok() && 0 < limit && TreeInv(cfg, pages, root, levels, limit, root)
      requires root in pages && pages[root].Internal? && |pages[root].items| == 1
      modifies this
      ensures Valid() && root != INVALID && Contents() == old(Contents())
    {
      var child := pages[root].items[0].child;
      CollapseTop(cfg, pages, levels, root, root, child);
      ghost var levels' := levels[..|levels| - 1];
      var store := Collapse(pages, root, child);
      CollapseKeepsTree(cfg, pages, store, root, levels, levels', limit, child);
      pages := store;
      root := child;
      levels := levels';
    }

    /** Refills an internal page that is not the root. */
    method RefillShort(id: Id, ghost k: nat, ghost i: nat) returns (up: Id)
      requires cfg.Ok() && ShortInternal(cfg, pages, root, levels, limit, k, i, id)
      modifies this`pages, this`levels
      ensures TreeInv(cfg, pages, root, levels, limit, up) && Contents() == old(Contents())
      ensures up != INVALID ==> OnLevel(levels, k + 1, up) && |levels| == |old(levels)|
    {
      ghost var before, was, m := pages, levels, k - 1;
      ghost var p := ShortIs(cfg, pages, root, levels, limit, k, m, i, id);
      var par := pages[id].parent;
      var c := ChildIndex(pages[par].items, id);
      ghost var d;
      var key;
      up, d, key := RefillInternal(id, par, c, m);
      levels := InternalRefillStep(cfg, before, pages, root, was, limit, k, m, i, p, id, par, c, d, up, key);
    }

    /** Refills a leaf that is not the root. */
    method RefillShortLeaf(leaf: Id, ghost i: nat) returns (up: Id)
      requires cfg.Ok() && ShortLeaf(cfg, pages, root, levels, limit, i, leaf)
      modifies this`pages, this`levels
      ensures TreeInv(cfg, pages, root, levels, limit, up) && Contents() == old(Contents())
      ensures up != INVALID ==> OnLevel(levels, 1, up)
    {
      ghost var before := pages;
      ghost var p := LeafAmongIs(cfg, pages, root, levels, limit, i, leaf);
      var par := pages[leaf].parent;
      var c := ChildIndex(pages[par].items, leaf);
      ghost var d, sorted;
      up, d, sorted := RefillLeaf(leaf, par, c);
      RefillIsCase(cfg, before, pages, par, c, d, up, sorted);
      levels := RefillStep(cfg, before, pages, root, levels, limit, i, p, leaf, par, c, d, up, sorted);
    }

    /** Refills a leaf that is not the root, and repairs its parent if that lost it. */
    method RebalanceLeaf(leaf: Id, ghost i: nat)
      requires cfg.Ok() && 0 < limit && ShortLeaf(cfg, pages, root, levels, limit, i, leaf)
      modifies this
      ensures Valid() && root != INVALID && Contents() == old(Contents())
    {
      var up := RefillShortLeaf(leaf, i);
      if up != INVALID { RebalanceInternal(up, 1); }
    }

    /** The separator before the leaf follows its first key; it sits in the first ancestor the leaf
        is not below the first child of. */
    method PropagateMinimumChange(leaf: Id, key: int, ghost at: nat)
      requires Valid() && root != INVALID && at < |levels[0]| && levels[0][at].child == leaf
               && FirstKey(pages, levels, 0, at, key)
      modifies this`pages, this`levels
      ensures Valid() && Contents() == old(Contents())
    {
      var current := leaf;
      ghost var k: nat, i: nat := 0, at;
      while true
        invariant Valid() && pages == old(pages) && levels == old(levels)
        invariant k < |levels| && i < |levels[k]| && levels[k][i].child == current && FirstKey(pages, levels, k, i, key)
        decreases |levels| - k
      {
        CurrentIs(cfg, pages, root, levels, limit, k, i, current);
        var par := pages[current].parent;
        if par == INVALID { return; }
        ghost var p := PlaceIn(cfg, pages, root, levels, limit, INVALID, k, i);
        var c := ChildIndex(pages[par].items, current);
        if c != 0 {
          ghost var before, was := pages, levels;
          levels := SetLow(pages, levels, k, i, key);
          pages := pages[par := pages[par].(items := SetKey(pages[par].items, c, key))];
          SeparatorMoves(cfg, before, pages, root, was, limit, k, i, p, c, key);
          return;
        }
        LeftmostUp(pages, levels, k, i, p);
        current := par;
        i := p;
        k := k + 1;
      }
    }

    /** Takes one occurrence of the pair out of the leaf at `t`; `min` if that was its first entry. */
    method EraseFrom(target: Id, e: Entry, ghost t: nat, ghost short: Id) returns (first: bool)
      requires Valid() && root != INVALID && t < |levels[0]| && levels[0][t].child == target
      requires target in pages && pages[target].Leaf? && e in pages[target].entries
      requires if target == root then |pages[target].entries| > 1 && short == INVALID
               else short == (if |pages[target].entries| - 1 >= cfg.Min(0) then INVALID else target)
      modifies this`pages
      ensures TreeInv(cfg, pages, root, levels, limit, short)
      ensures e in old(Contents()) && Contents() == old(Contents()) - multiset{e}
      ensures target in pages && pages[target].Leaf? && |pages[target].entries| + 1 == |old(pages[target].entries)|
    {
      var entries := pages[target].entries;
      var at := IndexOf(entries, e);
      var store := pages[target := pages[target].(entries := Del(entries, at))];
      EraseStays(cfg, pages, store, root, levels, limit, t, target, at, short);
      pages := store;
      first := at == 0;
    }

    static method IndexOf(entries: seq<Entry>, e: Entry) returns (at: nat)
      requires e in entries
      ensures at < |entries| && entries[at] == e
    {
      at := 0;
      while entries[at] != e
        invariant at < |entries| && e in entries[at..]
        decreases |entries| - at
      {
        at := at + 1;
      }
    }

    /** Takes one occurrence of the pair out of the index. */
    method Remove(key: int, rid: Rid) returns (status: Status)
      requires Valid()
      modifies this
      ensures Valid()
      ensures status == if Entry(key, rid) in old(Contents()) then Ok else NotFound
      ensures Contents() == if status.Ok? then old(Contents()) - multiset{Entry(key, rid)} else old(Contents())
      ensures status.NotFound? ==> pages == old(pages)
    {
      var e := Entry(key, rid);
      if root == INVALID { return NotFound; }
      var target, t := FindEntry(e);
      if target == INVALID { return NotFound; }
      status := Ok;
      RemoveFrom(target, e, t);
    }

    method RemoveFrom(target: Id, e: Entry, ghost t: nat)
      requires Valid() && root != INVALID && t < |levels[0]| && levels[0][t].child == target
      requires target in pages && pages[target].Leaf? && e in pages[target].entries
      modifies this
      ensures Valid() && e in old(Contents()) && Contents() == old(Contents()) - multiset{e}
    {
      LeafFacts(cfg, pages, root, levels, limit, t);
      var size := |pages[target].entries| - 1;
      if target == root {
        if size == 0 {
          OnlyLeaf(cfg, pages, root, levels, limit);
          LastEntry(pages[target].entries, e);
          pages := pages - {target};
          levels := [];
          root := INVALID;
        } else {
          var first := EraseFrom(target, e, t, INVALID);
        }
      } else if size >= cfg.Min(0) {
        var first := EraseFrom(target, e, t, INVALID);
        if first { PropagateMinimumChange(target, pages[target].entries[0].key, t); }
      } else {
        LeafSize(cfg, pages, root, levels, limit, t);
        var first := EraseFrom(target, e, t, target);
        RebalanceLeaf(target, t);
      }
    }

    // ----- scan -----

    /** All pairs with a key from `lo` to `hi`, in order. */
    method RangeScan(lo: int, hi: int) returns (status: Status, result: seq<Entry>)
      requires Valid()
      ensures status == if lo > hi then InvalidArgument else Ok
      ensures status.Ok? ==>
                forall i, j :: 0 <= i < j < |result| ==>
                  || result[i].key < result[j].key
                  || (result[i].key == result[j].key
                      && (result[i].rid.page < result[j].rid.page
                          || (result[i].rid.page == result[j].rid.page && result[i].rid.slot <= result[j].rid.slot)))
      ensures status.Ok? ==> forall e :: multiset(result)[e] == if lo <= e.key <= hi then Contents()[e] else 0
    {
      result := [];
      if lo > hi { return InvalidArgument, result; }
      status := Ok;
      if root == INVALID { return; }
      var leaf, path, i := FindLeaf(lo);
      LeavesAreThere(pages, levels, limit);
      var found := Collect(pages, levels[0], leaf, lo, hi, i);
      forall e { FilterCounts(Gather(pages, levels[0]), lo, hi, e); }
      result := Sort(found);
    }

    /** Follows the leaf chain from where descent ended. */
    static method Collect(pages: Pages, ghost level: Level, leaf: Id, lo: int, hi: int, ghost i: nat)
      returns (result: seq<Entry>)
      requires LeavesOk(pages, level) && AllThere(level)
      requires Lands(level, i, lo) && i < |level| && level[i].child == leaf
      ensures result == Filter(Gather(pages, level), lo, hi)
    {
      result := [];
      var current := leaf;
      ghost var j: nat := i;
      var done := false;
      LeafChain(pages, level, i);
      GatherNothing(pages, level, i, lo, hi);
      while current != INVALID && !done
        invariant i <= j <= |level|
        invariant !done ==> current == (if j < |level| then level[j].child else INVALID)
        invariant done ==> Filter(Gather(pages, level[j..]), lo, hi) == []
        invariant result == Filter(Gather(pages, level[i..j]), lo, hi)
        decreases |level| - j
      {
        LeafChain(pages, level, j);
        result, done := CollectLeaf(pages, level, i, j, current, lo, hi, result);
        current := pages[current].next;
        j := j + 1;
      }
      ScanIsWhole(pages, level, i, j, lo, hi);
    }

    /** One more leaf of the chain. */
    static method CollectLeaf(pages: Pages, ghost level: Level, ghost i: nat, ghost j: nat, current: Id, lo: int,
                              hi: int, before: seq<Entry>) returns (result: seq<Entry>, done: bool)
      requires LeavesOk(pages, level) && i <= j < |level| && level[j].child == current
      requires current in pages && pages[current].Leaf? && Sorted(pages[current].entries)
      requires before == Filter(Gather(pages, level[i..j]), lo, hi)
      ensures result == Filter(Gather(pages, level[i..j + 1]), lo, hi)
      ensures done ==> Filter(Gather(pages, level[j + 1..]), lo, hi) == []
    {
      result, done := ScanLeaf(pages[current].entries, lo, hi, before);
      OneMoreLeaf(pages, level, i, j, lo, hi);
      if done { BeyondRange(pages, level, j, lo, hi); }
    }

    /** Collects what one leaf has of the range; stops at the first key beyond it. */
    static method ScanLeaf(entries: seq<Entry>, lo: int, hi: int, before: seq<Entry>)
        returns (result: seq<Entry>, done: bool)
      requires Sorted(entries)
      ensures result == before + Filter(entries, lo, hi)
      ensures done ==> exists x :: x in entries && x.key > hi
    {
      result := before;
      for a := 0 to |entries|
        invariant result == before + Filter(entries[..a], lo, hi)
      {
        var e := entries[a];
        FilterStep(entries, a, lo, hi);
        if e.key > hi {
          FilterTail(entries, a, lo, hi);
          return result, true;
        }
        if e.key >= lo { result := result + [e]; }
      }
      assert entries[..|entries|] == entries;
      done := false;
    }
  }
}
