/** Insertion: a split leaves a page its parent does not know yet; adding it there may split the
    parent, and so on up. */
module BTreeInsert {
  import opened BTree
  import opened BTreeFacts

  /** The page at `i + 1` of level `k` has been split off the page at `i`; the level above does not
      know it yet. */
  ghost predicate Pending(cfg: Config, pages: Pages, root: Id, levels: seq<Level>, limit: Id, k: nat, i: nat) {
    && cfg.Ok()
    && LinkedBut(pages, levels, k)
    && PendingPlace(pages, root, levels, k, i)
    && NodesOk(cfg, pages, levels, if k + 1 < |levels| then root else INVALID, INVALID)
    && Unique(levels)
    && Covers(pages, levels, limit)
    && LeavesOk(pages, levels[0])
  }

  ghost predicate PendingPlace(pages: Pages, root: Id, levels: seq<Level>, k: nat, i: nat) {
    && k < |levels| && i + 1 < |levels[k]|
    && levels[k][i].child in pages && levels[k][i + 1].child in pages
    && pages[levels[k][i + 1].child].parent == pages[levels[k][i].child].parent
    && (if k + 1 < |levels| then TopIs(pages, levels, root) && Del(levels[k], i + 1) == Flat(pages, levels[k + 1])
        else |levels[k]| == 2 && levels[k][0].child == root && root in pages && pages[root].parent == INVALID)
  }

  // ----- into a leaf -----

  /** Where descent for `key` ends. */
  ghost predicate Lands(level: Level, i: nat, key: int) {
    && i < |level|
    && (0 < i ==> level[i].key < key)
    && (i + 1 < |level| ==> key <= level[i + 1].key)
  }

  /** A leaf gets new content that its bounds allow; nothing else changes. */
  lemma LeafKeepsTree(cfg: Config, pages: Pages, root: Id, levels: seq<Level>, limit: Id, short: Id, short': Id,
                      i: nat, entries: seq<Entry>)
    requires TreeInv(cfg, pages, root, levels, limit, short) && i < |levels[0]|
    requires var id := levels[0][i].child;
             && id in pages && pages[id].Leaf?
             && (forall e :: e in entries ==>
                 (0 < i ==> levels[0][i].key <= e.key) && (i + 1 < |levels[0]| ==> e.key <= levels[0][i + 1].key))
             && SizeOk(cfg, |entries|, 0, id, root, short') && (short == INVALID || short == id)
               && (short' == INVALID || short' == id)
    requires Sorted(entries)
    ensures var id := levels[0][i].child;
            TreeInv(cfg, pages[id := pages[id].(entries := entries)], root, levels, limit, short')
  {
    var id := levels[0][i].child;
    var pages' := pages[id := pages[id].(entries := entries)];
    forall k | 0 <= k < |levels| - 1 ensures Linked(pages', levels, k) {
      LevelsHavePages(cfg, pages, levels, root, short, k + 1);
      StillLinked(pages, pages', levels, levels, k);
    }
    LeafNodes(cfg, pages, pages', levels, root, short, short', i, entries);
    LeafLeaves(pages, pages', levels[0], i, entries) by { assert NoDup(levels[0]); }
  }

  lemma LevelsHavePages(cfg: Config, pages: Pages, levels: seq<Level>, root: Id, short: Id, k: nat)
    requires NodesOk(cfg, pages, levels, root, short)
    ensures forall id :: OnLevel(levels, k, id) ==> id in pages && (k == 0 <==> pages[id].Leaf?)
  {
    forall id | OnLevel(levels, k, id) ensures id in pages && (k == 0 <==> pages[id].Leaf?) {
      assert NodeOk(cfg, pages, id, k, root, short);
    }
  }

  lemma LeafNodes(cfg: Config, pages: Pages, pages': Pages, levels: seq<Level>, root: Id, short: Id, short': Id,
                  i: nat, entries: seq<Entry>)
    requires NodesOk(cfg, pages, levels, root, short) && |levels| > 0 && i < |levels[0]|
    requires INVALID !in pages
    requires var id := levels[0][i].child;
             && id in pages && pages[id].Leaf? && pages' == pages[id := pages[id].(entries := entries)]
             && SizeOk(cfg, |entries|, 0, id, root, short') && (short == INVALID || short == id)
               && (short' == INVALID || short' == id)
    ensures NodesOk(cfg, pages', levels, root, short')
  {
    var id := levels[0][i].child;
    forall k, d | OnLevel(levels, k, d) ensures NodeOk(cfg, pages', d, k, root, short') {
      assert NodeOk(cfg, pages, d, k, root, short);
      if d != id { SameNode(cfg, pages, pages', d, k, root, short, root, short'); }
      else { AtLevel(levels, 0, i); assert NodeOk(cfg, pages, id, 0, root, short); }
    }
  }

  lemma LeafLeaves(pages: Pages, pages': Pages, level: Level, i: nat, entries: seq<Entry>)
    requires LeavesOk(pages, level) && NoDup(level) && i < |level| && Sorted(entries)
    requires LeafOk(pages, level, i) && pages' == pages[level[i].child := pages[level[i].child].(entries := entries)]
    requires forall e :: e in entries ==>
               (0 < i ==> level[i].key <= e.key) && (i + 1 < |level| ==> e.key <= level[i + 1].key)
    ensures LeavesOk(pages', level)
  {
    forall j | 0 <= j < |level| ensures LeafOk(pages', level, j) {
      assert LeafOk(pages, level, j);
      if j != i { assert level[j].child != level[i].child; }
    }
  }

  /** The first half keeps its place, the second half follows it. */
  function SplitLeaf(pages: Pages, id: Id, right: Id, entries: seq<Entry>): Pages
    requires id in pages && pages[id].Leaf?
  {
    var mid := |entries| / 2;
    var high := Leaf(entries[mid..], pages[id].next, pages[id].parent);
    pages[id := Leaf(entries[..mid], right, pages[id].parent)][right := high]
  }

  lemma HalvesBound(cfg: Config, k: nat, n: nat)
    requires cfg.Ok() && n == cfg.Max(k) + 1
    ensures cfg.Min(k) <= n / 2 <= cfg.Max(k) && cfg.Min(k) <= n - n / 2 <= cfg.Max(k) && n / 2 >= 1
    ensures k > 0 ==> cfg.Min(k) >= 2
  {
  }

  lemma SplitLeaves(pages: Pages, level: Level, i: nat, right: Id, entries: seq<Entry>)
    requires LeavesOk(pages, level) && NoDup(level) && i < |level| && LeafOk(pages, level, i) && right !in pages
    requires Sorted(entries) && |entries| >= 2
    requires forall e :: e in entries ==>
               (0 < i ==> level[i].key <= e.key) && (i + 1 < |level| ==> e.key <= level[i + 1].key)
    ensures LeavesOk(SplitLeaf(pages, level[i].child, right, entries),
                     Ins(level, i + 1, Item(entries[|entries| / 2].key, right)))
  {
    var mid := |entries| / 2;
    var x := Item(entries[mid].key, right);
    var pages' := SplitLeaf(pages, level[i].child, right, entries);
    var level' := Ins(level, i + 1, x);
    InsAt(level, i + 1, x);
    forall j | 0 <= j < |level'| ensures LeafOk(pages', level', j) {
      if j < i {
        assert LeafOk(pages, level, j) && level[j].child != level[i].child && level[j].child != right;
      } else if j == i {
        SplitLow(level, i, entries);
      } else if j == i + 1 {
        SplitHigh(level, i, entries);
      } else {
        assert LeafOk(pages, level, j - 1) && level[j - 1].child != level[i].child && level[j - 1].child != right;
      }
    }
  }

  lemma SplitLow(level: Level, i: nat, entries: seq<Entry>)
    requires i < |level| && Sorted(entries) && |entries| >= 2
    requires forall e :: e in entries ==> 0 < i ==> level[i].key <= e.key
    ensures var mid := |entries| / 2;
            && Sorted(entries[..mid])
            && (forall e :: e in entries[..mid] ==> e in entries && e.key <= entries[mid].key)
            && (0 < i ==> level[i].key <= entries[mid].key)
  {
    assert entries[|entries| / 2] in entries;
  }

  lemma SplitHigh(level: Level, i: nat, entries: seq<Entry>)
    requires i < |level| && Sorted(entries) && |entries| >= 2
    requires forall e :: e in entries ==> i + 1 < |level| ==> e.key <= level[i + 1].key
    ensures var mid := |entries| / 2;
            && Sorted(entries[mid..])
            && (forall e :: e in entries[mid..] ==> e in entries && entries[mid].key <= e.key)
            && (i + 1 < |level| ==> entries[mid].key <= level[i + 1].key)
  {
    assert entries[|entries| / 2] in entries;
  }

  lemma SplitLeafNodes(cfg: Config, pages: Pages, levels: seq<Level>, root: Id, root': Id, i: nat, right: Id,
                       entries: seq<Entry>)
    requires cfg.Ok() && NodesOk(cfg, pages, levels, root, INVALID) && |levels| > 0 && i < |levels[0]|
    requires right !in pages && right != root' && |entries| == cfg.leafMax + 1 && levels[0][i].child in pages
             && pages[levels[0][i].child].Leaf?
    requires root' == root || (root' == INVALID && |levels| == 1 && levels[0] == [levels[0][i]] && INVALID !in pages)
    ensures var x := Item(entries[|entries| / 2].key, right);
            NodesOk(cfg, SplitLeaf(pages, levels[0][i].child, right, entries), levels[0 := Ins(levels[0], i + 1, x)],
                    root', INVALID)
  {
    var x := Item(entries[|entries| / 2].key, right);
    var id := levels[0][i].child;
    var pages' := SplitLeaf(pages, id, right, entries);
    var levels' := levels[0 := Ins(levels[0], i + 1, x)];
    HalvesBound(cfg, 0, |entries|);
    forall k, d | OnLevel(levels', k, d) ensures NodeOk(cfg, pages', d, k, root', INVALID) {
      InsOnLevel(levels, 0, i + 1, x, k, d);
      if d != right {
        assert NodeOk(cfg, pages, d, k, root, INVALID);
        if d != id { SameNode(cfg, pages, pages', d, k, root, INVALID, root', INVALID); }
        else { AtLevel(levels, 0, i); assert NodeOk(cfg, pages, id, 0, root, INVALID); }
      } else {
        UnusedNotOnLevel(cfg, pages, levels, root, INVALID, right);
      }
    }
  }

  lemma SplitLeafLinks(cfg: Config, pages: Pages, root: Id, levels: seq<Level>, i: nat, right: Id, entries: seq<Entry>)
    requires AllLinked(pages, levels) && NodesOk(cfg, pages, levels, root, INVALID) && |levels| > 0 && i < |levels[0]|
    requires levels[0][i].child in pages && pages[levels[0][i].child].Leaf? && right !in pages
    ensures forall k :: 0 <= k < |levels| - 1 ==>
              Linked(SplitLeaf(pages, levels[0][i].child, right, entries), levels, k)
  {
    forall k | 0 <= k < |levels| - 1 ensures Linked(SplitLeaf(pages, levels[0][i].child, right, entries), levels, k) {
      LevelsHavePages(cfg, pages, levels, root, INVALID, k + 1);
      StillLinked(pages, SplitLeaf(pages, levels[0][i].child, right, entries), levels, levels, k);
    }
  }

  lemma SplitLeafPlaces(cfg: Config, pages: Pages, pages': Pages, root: Id, levels: seq<Level>, limit: Id, next: Id,
                        k: nat, i: nat, x: Item)
    requires IsNext(next, limit, pages)
    requires NodesOk(cfg, pages, levels, root, INVALID) && Unique(levels) && Covers(pages, levels, limit) && 0 < limit
    requires k < |levels| && i <= |levels[k]| && x.child == limit && pages'.Keys == pages.Keys + {limit}
    ensures Unique(levels[k := Ins(levels[k], i, x)]) && Covers(pages', levels[k := Ins(levels[k], i, x)], next)
  {
    UnusedNotOnLevel(cfg, pages, levels, root, INVALID, limit);
    InsUnique(levels, k, i, x);
    InsCovers(pages, pages', levels, limit, next, k, i, x);
  }

  lemma SplitLeafPends(cfg: Config, pages: Pages, root: Id, levels: seq<Level>, limit: Id, next: Id, i: nat,
                       entries: seq<Entry>)
    requires IsNext(next, limit, pages)
    requires TreeInv(cfg, pages, root, levels, limit, INVALID) && i < |levels[0]| && 0 < limit
    requires Sorted(entries) && |entries| == cfg.leafMax + 1 && levels[0][i].child in pages
             && pages[levels[0][i].child].Leaf?
    requires forall e :: e in entries ==>
               (0 < i ==> levels[0][i].key <= e.key) && (i + 1 < |levels[0]| ==> e.key <= levels[0][i + 1].key)
    ensures var x := Item(entries[|entries| / 2].key, limit);
            Pending(cfg, SplitLeaf(pages, levels[0][i].child, limit, entries), root,
                    levels[0 := Ins(levels[0], i + 1, x)], next, 0, i)
  {
    var x := Item(entries[|entries| / 2].key, limit);
    var id := levels[0][i].child;
    var pages' := SplitLeaf(pages, id, limit, entries);
    SplitLeafLinks(cfg, pages, root, levels, i, limit, entries);
    InsAt(levels[0], i + 1, x);
    SplitLeafNodes(cfg, pages, levels, root, if |levels| > 1 then root else INVALID, i, limit, entries);
    SplitLeafPlaces(cfg, pages, pages', root, levels, limit, next, 0, i + 1, x);
    assert LeafOk(pages, levels[0], i);
    assert NoDup(levels[0]);
    SplitLeaves(pages, levels[0], i, limit, entries);
    SplitLeafAssembles(cfg, pages, pages', root, levels, limit, next, i, x);
  }

  lemma SplitLeafAssembles(cfg: Config, pages: Pages, pages': Pages, root: Id, levels: seq<Level>, limit: Id, next: Id,
                           i: nat, x: Item)
    requires cfg.Ok() && TopIs(pages, levels, root) && i < |levels[0]|
    requires AllLinked(pages', levels)
    requires var levels' := levels[0 := Ins(levels[0], i + 1, x)];
             && NodesOk(cfg, pages', levels', if |levels| > 1 then root else INVALID, INVALID)
             && Unique(levels') && Covers(pages', levels', next) && LeavesOk(pages', levels'[0])
    requires root in pages' && pages'[root].parent == pages[root].parent
    requires levels[0][i].child in pages' && x.child in pages'
             && pages'[x.child].parent == pages'[levels[0][i].child].parent
    ensures Pending(cfg, pages', root, levels[0 := Ins(levels[0], i + 1, x)], next, 0, i)
  {
    var levels' := levels[0 := Ins(levels[0], i + 1, x)];
    forall j | 0 <= j < |levels'| - 1 && j != 0 ensures Linked(pages', levels', j) { assert Linked(pages', levels, j); }
    PlaceAfterLeafSplit(pages', root, levels, levels', i, x);
  }

  lemma PlaceAfterLeafSplit(pages': Pages, root: Id, levels: seq<Level>, levels': seq<Level>, i: nat, x: Item)
    requires TopIs(pages', levels, root) && i < |levels[0]| && AllLinked(pages', levels)
    requires levels' == levels[0 := Ins(levels[0], i + 1, x)]
    requires levels[0][i].child in pages' && x.child in pages'
             && pages'[x.child].parent == pages'[levels[0][i].child].parent
    ensures PendingPlace(pages', root, levels', 0, i)
  {
    var leaves := levels[0];
    InsAt(leaves, i + 1, x);
    assert levels'[0] == Ins(leaves, i + 1, x);
    if |levels| > 1 { assert Linked(pages', levels, 0); }
  }

  // ----- into the page above -----

  /** The split page and where it hangs: child `c` of the page at `p` of the level above. */
  ghost predicate Hangs(pages: Pages, levels: seq<Level>, k: nat, i: nat, p: nat, c: nat) {
    && k + 1 < |levels| && i + 1 < |levels[k]| && p < |levels[k + 1]|
    && levels[k][i].child in pages
    && var par := levels[k + 1][p].child;
       && par in pages && pages[par].Internal? && c < |pages[par].items|
       && pages[par].items[c].child == levels[k][i].child
       && pages[levels[k][i].child].parent == par
       && i == |Flat(pages, levels[k + 1][..p])| + c
       && Del(levels[k], i + 1) == Flat(pages, levels[k + 1][..p]) + Expand(pages, levels[k + 1][p])
         + Flat(pages, levels[k + 1][p + 1..])
  }

  lemma WhereItHangs(cfg: Config, pages: Pages, root: Id, levels: seq<Level>, limit: Id, k: nat, i: nat)
      returns (p: nat, c: nat)
    requires Pending(cfg, pages, root, levels, limit, k, i) && k + 1 < |levels|
    ensures Hangs(pages, levels, k, i, p, c)
  {
    var flat := Del(levels[k], i + 1);
    p, c := Above(cfg, pages, levels, root, INVALID, k + 1, levels[k + 1], flat, i);
    assert flat[i] == levels[k][i];
  }

  /** The parent's entries with the new page after child `c`. */
  function WithChild(items: seq<Item>, c: nat, x: Item): seq<Item>
    requires c < |items|
  {
    Ins(items, c + 1, x)
  }

  lemma ExpandWithChild(items: seq<Item>, c: nat, x: Item, key: int)
    requires c < |items|
    ensures var all := WithChild(items, c, x);
            [Item(key, all[0].child)] + all[1..] == Ins([Item(key, items[0].child)] + items[1..], c + 1, x)
  {
    var all := WithChild(items, c, x);
    var e := [Item(key, items[0].child)] + items[1..];
    InsAt(items, c + 1, x);
    InsAt(e, c + 1, x);
    assert |[Item(key, all[0].child)] + all[1..]| == |Ins(e, c + 1, x)|;
  }

  /** With the new child in its place the level below reads as it should. */
  lemma Replaced(level: Level, a: Level, e: Level, b: Level, i: nat, c: nat)
    requires i + 1 < |level| && Del(level, i + 1) == a + e + b && i == |a| + c && c < |e|
    ensures level == a + Ins(e, c + 1, level[i + 1]) + b
  {
    var x := level[i + 1];
    assert level == Ins(Del(level, i + 1), i + 1, x);
    assert (a + e + b)[..i + 1] == a + e[..c + 1];
    assert (a + e + b)[i + 1..] == e[c + 1..] + b;
  }

  /** Only the page at `p` of level `k` has other children now. */
  lemma OthersSame(cfg: Config, pages: Pages, pages': Pages, root: Id, levels: seq<Level>, k: nat, level: Level, p: nat)
    requires NodesOk(cfg, pages, levels, root, INVALID) && k < |levels| && level == levels[k] && p < |level|
             && NoDup(level)
    requires forall id :: id in pages && id != level[p].child ==> SameItems(pages, pages', id)
    ensures AllSame(pages, pages', level[..p]) && AllSame(pages, pages', level[p + 1..])
  {
    forall j | 0 <= j < |level| && j != p ensures SameItems(pages, pages', level[j].child) {
      AtLevel(levels, k, j);
      assert NodeOk(cfg, pages, level[j].child, k, root, INVALID);
    }
    var rest := level[p + 1..];
    forall j | 0 <= j < |rest| ensures SameItems(pages, pages', rest[j].child) {
      assert rest[j] == level[p + 1 + j];
    }
  }

  // ----- room in the parent -----

  function AddChild(pages: Pages, par: Id, c: nat, x: Item): Pages
    requires par in pages && pages[par].Internal? && c < |pages[par].items|
  {
    pages[par := pages[par].(items := WithChild(pages[par].items, c, x))]
  }

  lemma FlatReplaced(cfg: Config, pages: Pages, pages': Pages, root: Id, levels: seq<Level>, k: nat, level: Level,
                     p: nat)
    requires NodesOk(cfg, pages, levels, root, INVALID) && k < |levels| && level == levels[k] && p < |level|
             && NoDup(level)
    requires forall id :: id in pages && id != level[p].child ==> SameItems(pages, pages', id)
    ensures Flat(pages', level) == Flat(pages, level[..p]) + Expand(pages', level[p]) + Flat(pages, level[p + 1..])
  {
    OthersSame(cfg, pages, pages', root, levels, k, level, p);
    FlatMiddle(pages, pages', level[..p], [level[p]], level[p + 1..]);
    FlatOne(pages', level[p]);
    CutOne(level, p);
  }

  lemma ExpandAdded(pages: Pages, x: Item, c: nat, y: Item)
    requires x.child in pages && pages[x.child].Internal? && c < |pages[x.child].items|
    ensures Expand(AddChild(pages, x.child, c, y), x) == Ins(Expand(pages, x), c + 1, y)
  {
    ExpandWithChild(pages[x.child].items, c, y, x.key);
  }

  lemma AddLink(cfg: Config, pages: Pages, root: Id, levels: seq<Level>, k: nat, i: nat, p: nat, c: nat, above: Level)
    requires Hangs(pages, levels, k, i, p, c) && above == levels[k + 1] && NodesOk(cfg, pages, levels, root, INVALID)
             && NoDup(above)
    ensures levels[k] == Flat(AddChild(pages, above[p].child, c, levels[k][i + 1]), above)
  {
    var x := levels[k][i + 1];
    FlatReplaced(cfg, pages, AddChild(pages, above[p].child, c, x), root, levels, k + 1, above, p);
    ExpandAdded(pages, above[p], c, x);
    Replaced(levels[k], Flat(pages, above[..p]), Expand(pages, above[p]), Flat(pages, above[p + 1..]), i, c);
  }

  /** The levels whose upper one does not hold `par` are not affected by a change of it. */
  lemma OtherLinks(cfg: Config, pages: Pages, pages': Pages, root: Id, levels: seq<Level>, k: nat, par: Id)
    requires NodesOk(cfg, pages, levels, root, INVALID) && Unique(levels) && OnLevel(levels, k + 1, par)
    requires forall id :: id in pages && id != par ==> SameItems(pages, pages', id)
    requires LinkedBut(pages, levels, k)
    ensures LinkedBut(pages', levels, k)
  {
    forall j | 0 <= j < |levels| - 1 && j != k ensures Linked(pages', levels, j) {
      LevelsHavePages(cfg, pages, levels, root, INVALID, j + 1);
      StillLinked(pages, pages', levels, levels, j);
    }
  }

  lemma AddLinks(cfg: Config, pages: Pages, root: Id, levels: seq<Level>, k: nat, i: nat, p: nat, c: nat)
    requires Hangs(pages, levels, k, i, p, c) && NodesOk(cfg, pages, levels, root, INVALID) && Unique(levels)
    requires LinkedBut(pages, levels, k)
    ensures AllLinked(AddChild(pages, levels[k + 1][p].child, c, levels[k][i + 1]), levels)
  {
    var par := levels[k + 1][p].child;
    var pages' := AddChild(pages, par, c, levels[k][i + 1]);
    AtLevel(levels, k + 1, p);
    OtherLinks(cfg, pages, pages', root, levels, k, par);
    AddLink(cfg, pages, root, levels, k, i, p, c, levels[k + 1]);
    assert Linked(pages', levels, k);
  }

  lemma AddedChildren(pages: Pages, pages': Pages, par: Id, items: seq<Item>, c: nat, x: Item)
    requires c < |items| && x.child in pages' && pages'[x.child].parent == par
    requires forall a :: 0 <= a < |items| ==> items[a].child in pages' && pages'[items[a].child].parent == par
    ensures var all := WithChild(items, c, x);
            |all| == |items| + 1 && forall a :: 0 <= a < |all| ==>
                all[a].child in pages' && pages'[all[a].child].parent == par
  {
    var all := WithChild(items, c, x);
    InsAt(items, c + 1, x);
    forall a | 0 <= a < |all| ensures all[a].child in pages' && pages'[all[a].child].parent == par {
      if a <= c { assert all[a] == items[a]; } else if a > c + 1 { assert all[a] == items[a - 1]; }
    }
  }

  lemma AddParent(cfg: Config, pages: Pages, par: Id, k: nat, root: Id, c: nat, x: Item)
    requires NodeOk(cfg, pages, par, k, root, INVALID) && 0 < k && par in pages
             && c < |pages[par].items| < cfg.internalMax && par != INVALID
    requires x.child in pages && pages[x.child].parent == par
    ensures NodeOk(cfg, AddChild(pages, par, c, x), par, k, root, INVALID)
  {
    AddedChildren(pages, AddChild(pages, par, c, x), par, pages[par].items, c, x);
  }

  lemma AddNodes(cfg: Config, pages: Pages, root: Id, levels: seq<Level>, k: nat, i: nat, p: nat, c: nat)
    requires Hangs(pages, levels, k, i, p, c) && NodesOk(cfg, pages, levels, root, INVALID) && INVALID !in pages
    requires levels[k][i + 1].child in pages && pages[levels[k][i + 1].child].parent == levels[k + 1][p].child
    requires |pages[levels[k + 1][p].child].items| < cfg.internalMax
    ensures NodesOk(cfg, AddChild(pages, levels[k + 1][p].child, c, levels[k][i + 1]), levels, root, INVALID)
  {
    var par := levels[k + 1][p].child;
    var x := levels[k][i + 1];
    var pages' := AddChild(pages, par, c, x);
    forall m, d | OnLevel(levels, m, d) ensures NodeOk(cfg, pages', d, m, root, INVALID) {
      assert NodeOk(cfg, pages, d, m, root, INVALID);
      if d != par {
        SameNode(cfg, pages, pages', d, m, root, INVALID, root, INVALID);
      } else {
        AddParent(cfg, pages, par, m, root, c, x);
      }
    }
  }

  lemma AddKeepsTree(cfg: Config, pages: Pages, root: Id, levels: seq<Level>, limit: Id, k: nat, i: nat, p: nat, c: nat)
    requires Pending(cfg, pages, root, levels, limit, k, i) && Hangs(pages, levels, k, i, p, c)
    requires |pages[levels[k + 1][p].child].items| < cfg.internalMax
    ensures var pages' := AddChild(pages, levels[k + 1][p].child, c, levels[k][i + 1]);
            && TreeInv(cfg, pages', root, levels, limit, INVALID)
            && Content(pages', levels) == Content(pages, levels)
  {
    var pages' := AddChild(pages, levels[k + 1][p].child, c, levels[k][i + 1]);
    AddLinks(cfg, pages, root, levels, k, i, p, c);
    AddNodes(cfg, pages, root, levels, k, i, p, c);
    LeavesSame(pages, pages', levels[0]);
    ContentSame(pages, pages', levels, levels);
  }

  // ----- the parent splits too -----

  /** The children in `items` now have parent `par`. */
  ghost predicate Moved(pages: Pages, pages': Pages, items: seq<Item>, par: Id) {
    && pages'.Keys == pages.Keys
    && (forall id :: id in pages && !IsChild(items, id) ==> pages'[id] == pages[id])
    && (forall id :: id in pages && IsChild(items, id) ==> pages'[id] == pages[id].(parent := par))
  }

  /** The second half of the parent's entries goes to a new page, whose first key does not count. */
  function SplitInternal(pages: Pages, par: Id, right: Id, all: seq<Item>): Pages
    requires par in pages && |all| >= 1
  {
    var mid := |all| / 2;
    pages[par := Internal(all[..mid], pages[par].parent)]
         [right := Internal([Item(0, all[mid].child)] + all[mid + 1..], pages[par].parent)]
  }

  lemma SplitExpand(all: seq<Item>, key: int, mid: nat)
    requires 0 < mid < |all|
    ensures var low := all[..mid];
            var high := [Item(0, all[mid].child)] + all[mid + 1..];
            [Item(key, all[0].child)] + all[1..]
            == ([Item(key, low[0].child)] + low[1..]) + ([Item(all[mid].key, high[0].child)] + high[1..])
  {
    var low := all[..mid];
    var high := [Item(0, all[mid].child)] + all[mid + 1..];
    assert high[1..] == all[mid + 1..];
    assert [Item(all[mid].key, all[mid].child)] + all[mid + 1..] == all[mid..];
    assert low[1..] + all[mid..] == all[1..];
  }

  /** The children of `par`, all on level `k`, all different. */
  ghost predicate Family(pages: Pages, levels: seq<Level>, k: nat, par: Id, all: seq<Item>) {
    && (forall a :: 0 <= a < |all| ==>
        all[a].child in pages && pages[all[a].child].parent == par && OnLevel(levels, k, all[a].child))
    && (forall a, b :: 0 <= a < b < |all| ==> all[a].child != all[b].child)
  }

  lemma FamilyOf(cfg: Config, pages: Pages, root: Id, levels: seq<Level>, k: nat, i: nat, p: nat, c: nat,
                 all: seq<Item>)
    requires Hangs(pages, levels, k, i, p, c) && NodesOk(cfg, pages, levels, root, INVALID) && NoDup(levels[k])
    requires levels[k][i + 1].child in pages && pages[levels[k][i + 1].child].parent == levels[k + 1][p].child
    requires all == WithChild(pages[levels[k + 1][p].child].items, c, levels[k][i + 1])
    ensures Family(pages, levels, k, levels[k + 1][p].child, all)
  {
    var above := levels[k + 1];
    var par := above[p].child;
    var x := levels[k][i + 1];
    var pre := Flat(pages, above[..p]);
    var e := Expand(pages, above[p]);
    Replaced(levels[k], pre, e, Flat(pages, above[p + 1..]), i, c);
    ExpandWithChild(pages[par].items, c, x, above[p].key);
    forall a | 0 <= a < |all| ensures levels[k][|pre| + a].child == all[a].child {
      assert levels[k][|pre| + a] == Ins(e, c + 1, x)[a];
    }
    FamilyParents(cfg, pages, root, levels, k, i, p, c, all);
    forall a | 0 <= a < |all| ensures OnLevel(levels, k, all[a].child) { AtLevel(levels, k, |pre| + a); }
    forall a, b | 0 <= a < b < |all| ensures all[a].child != all[b].child {
      assert levels[k][|pre| + a].child != levels[k][|pre| + b].child;
    }
  }

  lemma FamilyParents(cfg: Config, pages: Pages, root: Id, levels: seq<Level>, k: nat, i: nat, p: nat, c: nat,
                      all: seq<Item>)
    requires Hangs(pages, levels, k, i, p, c) && NodesOk(cfg, pages, levels, root, INVALID)
    requires levels[k][i + 1].child in pages && pages[levels[k][i + 1].child].parent == levels[k + 1][p].child
    requires all == WithChild(pages[levels[k + 1][p].child].items, c, levels[k][i + 1])
    ensures forall a :: 0 <= a < |all| ==> all[a].child in pages && pages[all[a].child].parent == levels[k + 1][p].child
  {
    var par := levels[k + 1][p].child;
    var items := pages[par].items;
    AtLevel(levels, k + 1, p);
    assert NodeOk(cfg, pages, par, k + 1, root, INVALID);
    InsAt(items, c + 1, levels[k][i + 1]);
    forall a | 0 <= a < |all| ensures all[a].child in pages && pages[all[a].child].parent == par {
      if a <= c { assert all[a] == items[a]; } else if a > c + 1 { assert all[a] == items[a - 1]; }
    }
  }

  /** The state after the split of `par`. */
  ghost predicate Splits(pages: Pages, pages': Pages, levels: seq<Level>, k: nat, par: Id, right: Id, all: seq<Item>) {
    && par in pages && pages[par].Internal? && |all| >= 2 && right !in pages && right != INVALID
    && Family(pages, levels, k, par, all)
    && OnLevel(levels, k + 1, par)
    && Moved(SplitInternal(pages, par, right, all), pages', all[|all| / 2..], right)
  }

  lemma MovedAre(all: seq<Item>, mid: nat, id: Id)
    requires mid <= |all| && IsChild(all[mid..], id)
    ensures exists a :: mid <= a < |all| && all[a].child == id
  {
    var c :| 0 <= c < |all[mid..]| && all[mid..][c].child == id;
    assert all[mid + c].child == id;
  }

  lemma SplitBodies(pages: Pages, pages': Pages, levels: seq<Level>, k: nat, par: Id, right: Id, all: seq<Item>, id: Id)
    requires Splits(pages, pages', levels, k, par, right, all) && Unique(levels)
    requires id in pages && id != par
    ensures id in pages' && SameBody(pages[id], pages'[id])
    ensures pages[id].parent == par || pages'[id] == pages[id]
  {
    var mid := |all| / 2;
    assert id in SplitInternal(pages, par, right, all);
    if IsChild(all[mid..], id) { MovedAre(all, mid, id); }
  }

  lemma SplitParent(pages: Pages, pages': Pages, levels: seq<Level>, k: nat, par: Id, right: Id, all: seq<Item>)
    requires Splits(pages, pages', levels, k, par, right, all) && Unique(levels)
    ensures var mid := |all| / 2;
            && pages'.Keys == pages.Keys + {right}
            && pages'[par] == Internal(all[..mid], pages[par].parent)
            && pages'[right] == Internal([Item(0, all[mid].child)] + all[mid + 1..], pages[par].parent)
  {
    var mid := |all| / 2;
    var pages1 := SplitInternal(pages, par, right, all);
    if IsChild(all[mid..], par) { MovedAre(all, mid, par); }
    if IsChild(all[mid..], right) { MovedAre(all, mid, right); }
    assert pages1.Keys == pages.Keys + {right};
    assert par in pages1 && right in pages1;
  }

  lemma SplitLowNode(cfg: Config, pages: Pages, pages': Pages, levels: seq<Level>, k: nat, par: Id, right: Id,
                     all: seq<Item>, root: Id)
    requires Splits(pages, pages', levels, k, par, right, all) && Unique(levels) && cfg.Ok()
             && |all| == cfg.internalMax + 1
    ensures NodeOk(cfg, pages', par, k + 1, root, INVALID)
  {
    var mid := |all| / 2;
    HalvesBound(cfg, k + 1, |all|);
    SplitParent(pages, pages', levels, k, par, right, all);
    forall a | 0 <= a < mid ensures all[..mid][a].child in pages' && pages'[all[..mid][a].child].parent == par {
      var id := all[a].child;
      assert all[..mid][a] == all[a];
      assert id in SplitInternal(pages, par, right, all);
      if IsChild(all[mid..], id) { MovedAre(all, mid, id); }
    }
  }

  lemma SplitHighNode(cfg: Config, pages: Pages, pages': Pages, levels: seq<Level>, k: nat, par: Id, right: Id,
                      all: seq<Item>, root: Id)
    requires Splits(pages, pages', levels, k, par, right, all) && Unique(levels) && cfg.Ok()
             && |all| == cfg.internalMax + 1
    ensures NodeOk(cfg, pages', right, k + 1, root, INVALID)
  {
    var mid := |all| / 2;
    var high := [Item(0, all[mid].child)] + all[mid + 1..];
    HalvesBound(cfg, k + 1, |all|);
    SplitParent(pages, pages', levels, k, par, right, all);
    forall a | 0 <= a < |high| ensures high[a].child in pages' && pages'[high[a].child].parent == right {
      assert high[a].child == all[mid..][a].child == all[mid + a].child;
      assert IsChild(all[mid..], high[a].child);
    }
  }

  lemma SplitOtherNode(cfg: Config, pages: Pages, pages': Pages, levels: seq<Level>, k: nat, par: Id, right: Id,
                       all: seq<Item>, root: Id, root': Id, m: nat, d: Id)
    requires Splits(pages, pages', levels, k, par, right, all) && Unique(levels)
    requires NodeOk(cfg, pages, d, m, root, INVALID) && d != par && d != INVALID
             && (root' == root || (root' == INVALID && root == par))
    ensures NodeOk(cfg, pages', d, m, root', INVALID)
  {
    SplitBodies(pages, pages', levels, k, par, right, all, d);
    if m > 0 {
      forall c | 0 <= c < |pages[d].items| && pages[d].items[c].child in pages
        ensures pages[d].items[c].child in pages'
                && pages'[pages[d].items[c].child].parent == pages[pages[d].items[c].child].parent
      {
        var ch := pages[d].items[c].child;
        assert pages[ch].parent == d;
        if ch == par { SplitParent(pages, pages', levels, k, par, right, all); }
        else { SplitBodies(pages, pages', levels, k, par, right, all, ch); }
      }
    }
    SameNode(cfg, pages, pages', d, m, root, INVALID, root', INVALID);
  }

  lemma SplitNodes(cfg: Config, pages: Pages, pages': Pages, levels: seq<Level>, k: nat, p: nat, right: Id,
                   all: seq<Item>, root: Id, root': Id)
    requires k + 1 < |levels| && p < |levels[k + 1]| && INVALID !in pages
    requires Splits(pages, pages', levels, k, levels[k + 1][p].child, right, all) && Unique(levels) && cfg.Ok()
             && |all| == cfg.internalMax + 1
    requires NodesOk(cfg, pages, levels, root, INVALID)
             && (root' == root || (root' == INVALID && root == levels[k + 1][p].child))
    ensures NodesOk(cfg, pages', levels[k + 1 := Ins(levels[k + 1], p + 1, Item(all[|all| / 2].key, right))], root',
                    INVALID)
  {
    var x := Item(all[|all| / 2].key, right);
    var par := levels[k + 1][p].child;
    var levels' := levels[k + 1 := Ins(levels[k + 1], p + 1, x)];
    forall m, d | OnLevel(levels', m, d) ensures NodeOk(cfg, pages', d, m, root', INVALID) {
      InsOnLevel(levels, k + 1, p + 1, x, m, d);
      if d == right {
        UnusedNotOnLevel(cfg, pages, levels, root, INVALID, right);
        SplitHighNode(cfg, pages, pages', levels, k, par, right, all, root');
      } else if d == par {
        assert m == k + 1;
        SplitLowNode(cfg, pages, pages', levels, k, par, right, all, root');
      } else {
        assert NodeOk(cfg, pages, d, m, root, INVALID);
        SplitOtherNode(cfg, pages, pages', levels, k, par, right, all, root, root', m, d);
      }
    }
  }

  lemma SplitSameItems(pages: Pages, pages': Pages, levels: seq<Level>, k: nat, par: Id, right: Id, all: seq<Item>)
    requires Splits(pages, pages', levels, k, par, right, all) && Unique(levels)
    ensures forall id :: id in pages && id != par ==> SameItems(pages, pages', id)
    ensures forall id :: id in pages && pages[id].Leaf? ==> id in pages' && SameBody(pages[id], pages'[id])
  {
    forall id | id in pages && id != par ensures id in pages' && SameBody(pages[id], pages'[id]) {
      SplitBodies(pages, pages', levels, k, par, right, all, id);
    }
  }

  /** The two halves of the parent have the children that were to be. */
  lemma SplitExpands(pages: Pages, pages': Pages, levels: seq<Level>, k: nat, x: Item, right: Id, c: nat, y: Item,
                     all: seq<Item>)
    requires Splits(pages, pages', levels, k, x.child, right, all) && Unique(levels)
    requires c < |pages[x.child].items| && all == WithChild(pages[x.child].items, c, y)
    ensures Expand(pages', x) + Expand(pages', Item(all[|all| / 2].key, right)) == Ins(Expand(pages, x), c + 1, y)
  {
    SplitParent(pages, pages', levels, k, x.child, right, all);
    SplitExpand(all, x.key, |all| / 2);
    ExpandWithChild(pages[x.child].items, c, y, x.key);
  }

  lemma SplitFlat(cfg: Config, pages: Pages, pages': Pages, root: Id, levels: seq<Level>, k: nat, level: Level, p: nat,
                  y: Item)
    requires NodesOk(cfg, pages, levels, root, INVALID) && k < |levels| && level == levels[k] && p < |level|
             && NoDup(level)
    requires forall id :: id in pages && id != level[p].child ==> SameItems(pages, pages', id)
    ensures Flat(pages', Ins(level, p + 1, y))
         == Flat(pages, level[..p]) + (Expand(pages', level[p]) + Expand(pages', y)) + Flat(pages, level[p + 1..])
  {
    OthersSame(cfg, pages, pages', root, levels, k, level, p);
    FlatMiddle(pages, pages', level[..p], [level[p], y], level[p + 1..]);
    FlatTwo(pages', level[p], y);
    assert level[..p] + [level[p], y] + level[p + 1..] == Ins(level, p + 1, y);
  }

  lemma SplitLink(cfg: Config, pages: Pages, pages': Pages, root: Id, levels: seq<Level>, k: nat, i: nat, p: nat,
                  c: nat, above: Level, right: Id, all: seq<Item>)
    requires Hangs(pages, levels, k, i, p, c) && above == levels[k + 1] && NodesOk(cfg, pages, levels, root, INVALID)
             && Unique(levels)
    requires NoDup(above) && Splits(pages, pages', levels, k, above[p].child, right, all)
    requires all == WithChild(pages[above[p].child].items, c, levels[k][i + 1])
    ensures levels[k] == Flat(pages', Ins(above, p + 1, Item(all[|all| / 2].key, right)))
  {
    var y := Item(all[|all| / 2].key, right);
    SplitSameItems(pages, pages', levels, k, above[p].child, right, all);
    SplitFlat(cfg, pages, pages', root, levels, k + 1, above, p, y);
    SplitExpands(pages, pages', levels, k, above[p], right, c, levels[k][i + 1], all);
    Replaced(levels[k], Flat(pages, above[..p]), Expand(pages, above[p]), Flat(pages, above[p + 1..]), i, c);
  }

  lemma SplitLinks(cfg: Config, pages: Pages, pages': Pages, root: Id, levels: seq<Level>, k: nat, i: nat, p: nat,
                   c: nat, right: Id, all: seq<Item>)
    requires Hangs(pages, levels, k, i, p, c) && NodesOk(cfg, pages, levels, root, INVALID) && Unique(levels)
             && LinkedBut(pages, levels, k)
    requires Splits(pages, pages', levels, k, levels[k + 1][p].child, right, all)
    requires all == WithChild(pages[levels[k + 1][p].child].items, c, levels[k][i + 1])
    ensures LinkedBut(pages', levels[k + 1 := Ins(levels[k + 1], p + 1, Item(all[|all| / 2].key, right))], k + 1)
    ensures k + 2 < |levels| ==> levels[k + 1] == Flat(pages', levels[k + 2])
  {
    var par := levels[k + 1][p].child;
    var levels' := levels[k + 1 := Ins(levels[k + 1], p + 1, Item(all[|all| / 2].key, right))];
    SplitSameItems(pages, pages', levels, k, par, right, all);
    OtherLinks(cfg, pages, pages', root, levels, k, par);
    SplitLink(cfg, pages, pages', root, levels, k, i, p, c, levels[k + 1], right, all);
    forall j | 0 <= j < |levels'| - 1 && j != k + 1 ensures Linked(pages', levels', j) {
      if j != k { assert Linked(pages', levels, j); }
    }
    if k + 2 < |levels| { assert Linked(pages', levels, k + 1); }
  }

  lemma SplitWhole(cfg: Config, pages: Pages, pages': Pages, root: Id, levels: seq<Level>, limit: Id, k: nat, i: nat,
                   p: nat, c: nat, all: seq<Item>)
    requires Pending(cfg, pages, root, levels, limit, k, i) && Hangs(pages, levels, k, i, p, c)
    requires all == WithChild(pages[levels[k + 1][p].child].items, c, levels[k][i + 1]) && |all| == cfg.internalMax + 1
    requires Moved(SplitInternal(pages, levels[k + 1][p].child, limit, all), pages', all[|all| / 2..], limit)
    requires limit !in pages && 0 < limit
    ensures Splits(pages, pages', levels, k, levels[k + 1][p].child, limit, all)
  {
    AtLevel(levels, k + 1, p);
    assert NoDup(levels[k]);
    FamilyOf(cfg, pages, root, levels, k, i, p, c, all);
  }

  lemma SplitLeavesSame(pages: Pages, pages': Pages, levels: seq<Level>, levels': seq<Level>, k: nat, par: Id,
                        right: Id, all: seq<Item>)
    requires Splits(pages, pages', levels, k, par, right, all) && Unique(levels)
    requires |levels| > 0 && |levels'| > 0 && levels'[0] == levels[0] && LeavesOk(pages, levels[0])
    ensures LeavesOk(pages', levels[0]) && Content(pages', levels') == Content(pages, levels)
  {
    SplitSameItems(pages, pages', levels, k, par, right, all);
    LeavesSame(pages, pages', levels[0]);
    ContentSame(pages, pages', levels, levels');
  }

  /** What splitting the parent does to the levels. */
  lemma SplitGives(cfg: Config, pages: Pages, pages': Pages, root: Id, levels: seq<Level>, limit: Id, next: Id, k: nat,
                   i: nat, p: nat, c: nat, all: seq<Item>, levels': seq<Level>)
    requires IsNext(next, limit, pages)
    requires Pending(cfg, pages, root, levels, limit, k, i) && Hangs(pages, levels, k, i, p, c) && 0 < limit
             && limit !in pages && INVALID !in pages
    requires all == WithChild(pages[levels[k + 1][p].child].items, c, levels[k][i + 1]) && |all| == cfg.internalMax + 1
    requires Splits(pages, pages', levels, k, levels[k + 1][p].child, limit, all)
    requires levels' == levels[k + 1 := Ins(levels[k + 1], p + 1, Item(all[|all| / 2].key, limit))]
    ensures LinkedBut(pages', levels', k + 1) && (k + 2 < |levels| ==> levels[k + 1] == Flat(pages', levels[k + 2]))
    ensures NodesOk(cfg, pages', levels', if k + 2 < |levels| then root else INVALID, INVALID)
    ensures Unique(levels') && Covers(pages', levels', next)
  {
    var par := levels[k + 1][p].child;
    SplitParent(pages, pages', levels, k, par, limit, all);
    SplitLinks(cfg, pages, pages', root, levels, k, i, p, c, limit, all);
    SplitNodes(cfg, pages, pages', levels, k, p, limit, all, root, if k + 2 < |levels| then root else INVALID);
    SplitLeafPlaces(cfg, pages, pages', root, levels, limit, next, k + 1, p + 1, Item(all[|all| / 2].key, limit));
  }

  lemma SplitRoot(pages: Pages, pages': Pages, levels: seq<Level>, k: nat, par: Id, right: Id, all: seq<Item>, root: Id)
    requires Splits(pages, pages', levels, k, par, right, all) && Unique(levels)
    requires TopIs(pages, levels, root) && k + 1 < |levels|
    requires INVALID !in pages
    ensures root in pages' && pages'[root].parent == INVALID
  {
    SplitParent(pages, pages', levels, k, par, right, all);
    if root != par { SplitBodies(pages, pages', levels, k, par, right, all, root); }
  }

  lemma SplitPends(cfg: Config, pages: Pages, pages': Pages, root: Id, levels: seq<Level>, limit: Id, next: Id, k: nat,
                   i: nat, p: nat, c: nat, all: seq<Item>)
    requires IsNext(next, limit, pages)
    requires Pending(cfg, pages, root, levels, limit, k, i) && Hangs(pages, levels, k, i, p, c) && 0 < limit
    requires all == WithChild(pages[levels[k + 1][p].child].items, c, levels[k][i + 1]) && |all| == cfg.internalMax + 1
    requires Moved(SplitInternal(pages, levels[k + 1][p].child, limit, all), pages', all[|all| / 2..], limit)
    ensures var levels' := levels[k + 1 := Ins(levels[k + 1], p + 1, Item(all[|all| / 2].key, limit))];
            Pending(cfg, pages', root, levels', next, k + 1, p)
              && Content(pages', levels') == Content(pages, levels)
  {
    var par := levels[k + 1][p].child;
    var levels' := levels[k + 1 := Ins(levels[k + 1], p + 1, Item(all[|all| / 2].key, limit))];
    SplitWhole(cfg, pages, pages', root, levels, limit, k, i, p, c, all);
    SplitGives(cfg, pages, pages', root, levels, limit, next, k, i, p, c, all, levels');
    SplitLeavesSame(pages, pages', levels, levels', k, par, limit, all);
    SplitParent(pages, pages', levels, k, par, limit, all);
    SplitRoot(pages, pages', levels, k, par, limit, all, root);
    SplitAssembles(cfg, pages', root, levels, levels', limit, next, k, p, Item(all[|all| / 2].key, limit));
  }

  lemma SplitAssembles(cfg: Config, pages': Pages, root: Id, levels: seq<Level>, levels': seq<Level>, limit: Id,
                       next: Id, k: nat, p: nat, x: Item)
    requires cfg.Ok() && k + 1 < |levels| && p < |levels[k + 1]| && x.child == limit
    requires |levels[|levels| - 1]| == 1 && levels[|levels| - 1][0].child == root && root in pages'
             && pages'[root].parent == INVALID
    requires levels' == levels[k + 1 := Ins(levels[k + 1], p + 1, x)]
    requires LinkedBut(pages', levels', k + 1) && (k + 2 < |levels| ==> levels[k + 1] == Flat(pages', levels[k + 2]))
    requires NodesOk(cfg, pages', levels', if k + 2 < |levels| then root else INVALID, INVALID)
    requires Unique(levels') && Covers(pages', levels', next) && LeavesOk(pages', levels[0])
    requires levels[k + 1][p].child in pages' && limit in pages'
             && pages'[limit].parent == pages'[levels[k + 1][p].child].parent
    ensures Pending(cfg, pages', root, levels', next, k + 1, p)
  {
    PlaceAfterSplit(pages', root, levels, levels', k, p, x);
  }

  lemma PlaceAfterSplit(pages': Pages, root: Id, levels: seq<Level>, levels': seq<Level>, k: nat, p: nat, x: Item)
    requires k + 1 < |levels| && p < |levels[k + 1]|
    requires |levels[|levels| - 1]| == 1 && levels[|levels| - 1][0].child == root && root in pages'
             && pages'[root].parent == INVALID
    requires levels' == levels[k + 1 := Ins(levels[k + 1], p + 1, x)]
    requires k + 2 < |levels| ==> levels[k + 1] == Flat(pages', levels[k + 2])
    requires levels[k + 1][p].child in pages' && x.child in pages'
             && pages'[x.child].parent == pages'[levels[k + 1][p].child].parent
    ensures PendingPlace(pages', root, levels', k + 1, p)
  {
    var m, q, above := k + 1, p + 1, levels[k + 1];
    InsAt(above, q, x);
    assert levels'[m] == Ins(above, q, x) && |levels'| == |levels|;
    assert levels'[m][p] == above[p] && levels'[m][q] == x;
    if m + 1 < |levels| { assert levels'[m + 1] == levels[m + 1]; }
  }

  // ----- a new root -----

  function NewRoot(pages: Pages, left: Id, x: Item, id: Id): Pages
    requires left in pages && x.child in pages
  {
    var top := pages[id := Internal([Item(0, left), x], INVALID)];
    top[left := pages[left].(parent := id)][x.child := pages[x.child].(parent := id)]
  }

  lemma NewRootSame(pages: Pages, left: Id, x: Item, id: Id)
    requires left in pages && x.child in pages && id !in pages && left != x.child
    ensures var pages' := NewRoot(pages, left, x, id);
            && (forall d :: d in pages ==> d in pages' && SameBody(pages[d], pages'[d]) && SameItems(pages, pages', d))
            && (forall d :: d in pages && d != left && d != x.child ==> pages'[d] == pages[d])
            && pages'[id] == Internal([Item(0, left), x], INVALID)
            && pages'.Keys == pages.Keys + {id}
            && pages'[left].parent == id && pages'[x.child].parent == id
  {
  }

  lemma NewRootLinks(cfg: Config, pages: Pages, pages': Pages, levels: seq<Level>, k: nat, id: Id)
    requires k + 1 == |levels| && |levels[k]| == 2 && LinkedBut(pages, levels, k)
    requires NodesOk(cfg, pages, levels, INVALID, INVALID)
    requires forall d :: d in pages ==> SameItems(pages, pages', d)
    requires id in pages' && pages'[id] == Internal([Item(0, levels[k][0].child), levels[k][1]], INVALID)
    ensures AllLinked(pages', levels + [[Item(levels[k][0].key, id)]])
  {
    var x := Item(levels[k][0].key, id);
    var levels' := levels + [[x]];
    forall j | 0 <= j < |levels'| - 1 ensures Linked(pages', levels', j) {
      if j == k {
        FlatOne(pages', x);
        assert Expand(pages', x) == levels[k];
      } else {
        LevelsHavePages(cfg, pages, levels, INVALID, INVALID, j + 1);
        assert Linked(pages, levels, j);
        StillLinked(pages, pages', levels, levels', j);
      }
    }
  }

  lemma TopOnLevel(levels: seq<Level>, x: Item, k: nat, id: Id)
    ensures OnLevel(levels + [[x]], k, id) <==> OnLevel(levels, k, id) || (k == |levels| && id == x.child)
  {
    var levels' := levels + [[x]];
    if k < |levels| { assert levels'[k] == levels[k]; }
    if k == |levels| { AtLevel(levels', k, 0); }
  }

  lemma NewRootNodes(cfg: Config, pages: Pages, pages': Pages, levels: seq<Level>, k: nat, id: Id)
    requires cfg.Ok() && k + 1 == |levels| && |levels[k]| == 2 && NodesOk(cfg, pages, levels, INVALID, INVALID)
             && id !in pages && INVALID !in pages
    requires Unique(levels) && levels[k][0].child in pages && levels[k][1].child in pages
    requires pages[levels[k][0].child].parent == INVALID && pages[levels[k][1].child].parent == INVALID
    requires pages' == NewRoot(pages, levels[k][0].child, levels[k][1], id)
    ensures NodesOk(cfg, pages', levels + [[Item(levels[k][0].key, id)]], id, INVALID)
  {
    var x := Item(levels[k][0].key, id);
    var left, right := levels[k][0].child, levels[k][1].child;
    assert NoDup(levels[k]);
    NewRootSame(pages, left, levels[k][1], id);
    AtLevel(levels, k, 0);
    AtLevel(levels, k, 1);
    forall m, d | OnLevel(levels + [[x]], m, d) ensures NodeOk(cfg, pages', d, m, id, INVALID) {
      TopOnLevel(levels, x, m, d);
      if d == id {
        UnusedNotOnLevel(cfg, pages, levels, INVALID, INVALID, id);
      } else {
        assert NodeOk(cfg, pages, d, m, INVALID, INVALID);
        NewRootParents(cfg, pages, pages', levels, k, id, m, d);
        SameNode(cfg, pages, pages', d, m, INVALID, INVALID, id, INVALID);
      }
    }
  }

  /** The two pages under the new root had no parent. */
  lemma NewRootParents(cfg: Config, pages: Pages, pages': Pages, levels: seq<Level>, k: nat, id: Id, m: nat, d: Id)
    requires k + 1 == |levels| && |levels[k]| == 2 && id !in pages && INVALID !in pages
    requires levels[k][0].child in pages && levels[k][1].child in pages && levels[k][0].child != levels[k][1].child
    requires pages' == NewRoot(pages, levels[k][0].child, levels[k][1], id)
    requires OnLevel(levels, m, d) && NodeOk(cfg, pages, d, m, INVALID, INVALID)
    requires pages[levels[k][0].child].parent == INVALID && pages[levels[k][1].child].parent == INVALID
    ensures m > 0 ==> KeepsParents(pages, pages', pages[d].items)
  {
  }

  lemma TopUnique(levels: seq<Level>, x: Item)
    requires Unique(levels) && forall k :: !OnLevel(levels, k, x.child)
    ensures Unique(levels + [[x]])
  {
    var levels' := levels + [[x]];
    forall j, l, id | OnLevel(levels', j, id) && OnLevel(levels', l, id) ensures j == l {
      TopOnLevel(levels, x, j, id);
      TopOnLevel(levels, x, l, id);
    }
    forall k | 0 <= k < |levels'| ensures NoDup(levels'[k]) { if k < |levels| { assert NoDup(levels[k]); } }
  }

  lemma TopCovers(pages: Pages, pages': Pages, levels: seq<Level>, limit: Id, next: Id, x: Item)
    requires IsNext(next, limit, pages)
    requires Covers(pages, levels, limit) && pages'.Keys == pages.Keys + {limit} && x.child == limit && 0 < limit
    ensures Covers(pages', levels + [[x]], next)
  {
    forall id | id in pages' ensures exists k :: OnLevel(levels + [[x]], k, id) {
      assert id in pages.Keys || id == limit;
      if id == limit {
        TopOnLevel(levels, x, |levels|, id);
        assert OnLevel(levels + [[x]], |levels|, id);
      } else {
        var k :| OnLevel(levels, k, id);
        TopOnLevel(levels, x, k, id);
        assert OnLevel(levels + [[x]], k, id);
      }
    }
  }

  lemma NewRootKeepsTree(cfg: Config, pages: Pages, root: Id, levels: seq<Level>, limit: Id, next: Id, k: nat)
    requires IsNext(next, limit, pages)
    requires Pending(cfg, pages, root, levels, limit, k, 0) && k + 1 == |levels| && 0 < limit && limit !in pages
    ensures var pages' := NewRoot(pages, levels[k][0].child, levels[k][1], limit);
            var levels' := levels + [[Item(levels[k][0].key, limit)]];
            TreeInv(cfg, pages', limit, levels', next, INVALID)
              && Content(pages', levels') == Content(pages, levels)
  {
    var pages' := NewRoot(pages, levels[k][0].child, levels[k][1], limit);
    var x := Item(levels[k][0].key, limit);
    var levels' := levels + [[x]];
    assert NoDup(levels[k]);
    NewRootSame(pages, levels[k][0].child, levels[k][1], limit);
    NewRootLinks(cfg, pages, pages', levels, k, limit);
    NewRootNodes(cfg, pages, pages', levels, k, limit);
    UnusedNotOnLevel(cfg, pages, levels, INVALID, INVALID, limit);
    TopUnique(levels, x);
    TopCovers(pages, pages', levels, limit, next, x);
    NewRootLeaves(pages, pages', levels, levels');
    assert levels'[|levels'| - 1] == [x];
  }

  lemma NewRootLeaves(pages: Pages, pages': Pages, levels: seq<Level>, levels': seq<Level>)
    requires |levels| > 0 && |levels'| > 0 && levels'[0] == levels[0] && LeavesOk(pages, levels[0])
    requires forall d :: d in pages ==> d in pages' && SameBody(pages[d], pages'[d])
    ensures LeavesOk(pages', levels'[0]) && Content(pages', levels') == Content(pages, levels)
  {
    LeavesSame(pages, pages', levels[0]);
    ContentSame(pages, pages', levels, levels');
  }
}
