/** Changing separators, and dropping a page from a level. */
module BTreeSeparators {
  import opened BTree
  import opened BTreeFacts

  // ----- where a page hangs -----

  /** The page at `i` of level `k` is child `c` of the page at `p` of the level above. */
  ghost predicate At(pages: Pages, levels: seq<Level>, k: nat, i: nat, p: nat, c: nat) {
    && k + 1 < |levels| && i < |levels[k]| && p < |levels[k + 1]|
    && var par := levels[k + 1][p].child;
       && par in pages && pages[par].Internal? && c < |pages[par].items|
       && i == |Flat(pages, levels[k + 1][..p])| + c
       && levels[k] == Flat(pages, levels[k + 1][..p]) + Expand(pages, levels[k + 1][p])
         + Flat(pages, levels[k + 1][p + 1..])
  }

  lemma PlaceOf(cfg: Config, pages: Pages, levels: seq<Level>, root: Id, short: Id, k: nat, i: nat)
      returns (p: nat, c: nat)
    requires NodesOk(cfg, pages, levels, root, short) && k + 1 < |levels| && Linked(pages, levels, k) && i < |levels[k]|
    ensures At(pages, levels, k, i, p, c)
    ensures levels[k][i].child in pages && pages[levels[k][i].child].parent == levels[k + 1][p].child
  {
    p, c := Above(cfg, pages, levels, root, short, k + 1, levels[k + 1], levels[k], i);
  }

  /** All the children of the parent are neighbours on the level. */
  lemma Siblings(pages: Pages, levels: seq<Level>, k: nat, i: nat, p: nat, c: nat, d: nat, j: nat)
    requires At(pages, levels, k, i, p, c) && d < |pages[levels[k + 1][p].child].items| && j + c == i + d
    ensures c <= i && j < |levels[k]|
    ensures levels[k][j].child == pages[levels[k + 1][p].child].items[d].child
    ensures levels[k][j].key == if d == 0 then levels[k + 1][p].key else pages[levels[k + 1][p].child].items[d].key
  {
    var above := levels[k + 1];
    var x := above[p];
    var pre, e, post := Flat(pages, above[..p]), Expand(pages, x), Flat(pages, above[p + 1..]);
    assert j == |pre| + d;
    MiddleAt(pre, e, post, d);
    ExpandAt(pages, x, d);
  }

  lemma ExpandAt(pages: Pages, x: Item, d: nat)
    requires x.child in pages && pages[x.child].Internal? && d < |pages[x.child].items|
    ensures d < |Expand(pages, x)|
    ensures Expand(pages, x)[d] == Item(if d == 0 then x.key else pages[x.child].items[d].key,
                                        pages[x.child].items[d].child)
  {
  }

  lemma MiddleAt<T>(pre: seq<T>, e: seq<T>, post: seq<T>, d: nat)
    requires d < |e|
    ensures (pre + e + post)[|pre| + d] == e[d]
  {
  }

  // ----- the parent drops a child, or learns a new separator -----

  /** Pages of the level other than the one at `p` keep their children. */
  ghost predicate OthersKeep(pages: Pages, pages': Pages, level: Level, p: nat) {
    forall j :: 0 <= j < |level| && j != p ==> SameItems(pages, pages', level[j].child)
  }

  lemma FlatChanged(pages: Pages, pages': Pages, level: Level, p: nat)
    requires p < |level| && OthersKeep(pages, pages', level, p)
    ensures Flat(pages', level) == Flat(pages, level[..p]) + Expand(pages', level[p]) + Flat(pages, level[p + 1..])
  {
    var low, high := level[..p], level[p + 1..];
    forall j | 0 <= j < |high| ensures SameItems(pages, pages', high[j].child) { assert high[j] == level[p + 1 + j]; }
    forall j | 0 <= j < |low| ensures SameItems(pages, pages', low[j].child) { assert low[j] == level[j]; }
    FlatMiddle(pages, pages', low, [level[p]], high);
    FlatOne(pages', level[p]);
    CutOne(level, p);
  }

  lemma ExpandRekeyed(pages: Pages, pages': Pages, x: Item, d: nat, key: int)
    requires x.child in pages && pages[x.child].Internal? && 0 < d < |pages[x.child].items|
    requires x.child in pages' && pages'[x.child].Internal?
             && pages'[x.child].items == SetKey(pages[x.child].items, d, key)
    ensures Expand(pages', x) == SetKey(Expand(pages, x), d, key)
  {
  }

  lemma Rekeyed(pre: Level, e: Level, post: Level, d: nat, key: int)
    requires d < |e|
    ensures SetKey(pre + e + post, |pre| + d, key) == pre + SetKey(e, d, key) + post
  {
  }

  lemma KeyLink(pages: Pages, pages': Pages, above: Level, flat: Level, p: nat, d: nat, key: int, at: nat)
    requires flat == Flat(pages, above) && p < |above| && OthersKeep(pages, pages', above, p)
             && at == |Flat(pages, above[..p])| + d
    requires var par := above[p].child;
             && par in pages && pages[par].Internal? && 0 < d < |pages[par].items| && par in pages'
               && pages'[par].Internal?
             && pages'[par].items == SetKey(pages[par].items, d, key)
    ensures at < |flat| && SetKey(flat, at, key) == Flat(pages', above)
  {
    FlatAt(pages, above, p);
    FlatChanged(pages, pages', above, p);
    ExpandRekeyed(pages, pages', above[p], d, key);
    Rekeyed(Flat(pages, above[..p]), Expand(pages, above[p]), Flat(pages, above[p + 1..]), d, key);
  }

  lemma Dropped(pre: Level, e: Level, post: Level, d: nat)
    requires d < |e|
    ensures Del(pre + e + post, |pre| + d) == pre + Del(e, d) + post
  {
  }

  lemma ExpandDropped(pages: Pages, pages': Pages, x: Item, d: nat)
    requires x.child in pages && pages[x.child].Internal? && 0 < d < |pages[x.child].items|
    requires x.child in pages' && pages'[x.child].Internal? && pages'[x.child].items == Del(pages[x.child].items, d)
    ensures Expand(pages', x) == Del(Expand(pages, x), d)
  {
  }

  lemma DropLink(pages: Pages, pages': Pages, above: Level, flat: Level, p: nat, d: nat, at: nat)
    requires flat == Flat(pages, above) && p < |above| && OthersKeep(pages, pages', above, p)
             && at == |Flat(pages, above[..p])| + d
    requires var par := above[p].child;
             && par in pages && pages[par].Internal? && 0 < d < |pages[par].items| && par in pages'
               && pages'[par].Internal?
             && pages'[par].items == Del(pages[par].items, d)
    ensures at < |flat| && Del(flat, at) == Flat(pages', above)
  {
    FlatAt(pages, above, p);
    FlatChanged(pages, pages', above, p);
    ExpandDropped(pages, pages', above[p], d);
    Dropped(Flat(pages, above[..p]), Expand(pages, above[p]), Flat(pages, above[p + 1..]), d);
  }

  /** The level below, from where one of its pages hangs. */
  lemma AtIsFlat(pages: Pages, levels: seq<Level>, k: nat, i: nat, p: nat, c: nat)
    requires At(pages, levels, k, i, p, c)
    ensures levels[k] == Flat(pages, levels[k + 1])
  {
    FlatAt(pages, levels[k + 1], p);
  }

  // ----- the same pages at the same places, under other separators -----

  ghost predicate SameIds(levels: seq<Level>, levels': seq<Level>) {
    && |levels'| == |levels|
    && (forall k :: 0 <= k < |levels| ==> |levels'[k]| == |levels[k]|)
    && (forall k, i :: 0 <= k < |levels| && 0 <= i < |levels[k]| ==> levels'[k][i].child == levels[k][i].child)
  }

  lemma SameOnLevel(levels: seq<Level>, levels': seq<Level>, k: nat, id: Id)
    requires SameIds(levels, levels')
    ensures OnLevel(levels', k, id) == OnLevel(levels, k, id)
  {
    if OnLevel(levels, k, id) {
      var i := Position(levels, k, id);
      assert levels'[k][i].child == id;
    }
    if OnLevel(levels', k, id) {
      var i := Position(levels', k, id);
      assert levels[k][i].child == id;
    }
  }

  lemma SameUnique(levels: seq<Level>, levels': seq<Level>)
    requires SameIds(levels, levels') && Unique(levels)
    ensures Unique(levels')
  {
    forall k | 0 <= k < |levels'| ensures NoDup(levels'[k]) {
      assert NoDup(levels[k]);
      forall i, j | 0 <= i < j < |levels'[k]| ensures levels'[k][i].child != levels'[k][j].child {
        assert levels'[k][i].child == levels[k][i].child && levels'[k][j].child == levels[k][j].child;
      }
    }
    forall k, l, id | OnLevel(levels', k, id) && OnLevel(levels', l, id) ensures k == l {
      SameOnLevel(levels, levels', k, id);
      SameOnLevel(levels, levels', l, id);
    }
  }

  lemma SameCovers(pages: Pages, levels: seq<Level>, levels': seq<Level>, limit: Id)
    requires SameIds(levels, levels') && Covers(pages, levels, limit)
    ensures Covers(pages, levels', limit)
  {
    forall id | id in pages ensures exists k :: OnLevel(levels', k, id) {
      var k :| OnLevel(levels, k, id);
      SameOnLevel(levels, levels', k, id);
    }
  }

  lemma SameNodes(cfg: Config, pages: Pages, levels: seq<Level>, levels': seq<Level>, root: Id, short: Id)
    requires SameIds(levels, levels') && NodesOk(cfg, pages, levels, root, short)
    ensures NodesOk(cfg, pages, levels', root, short)
  {
    forall k, id | OnLevel(levels', k, id) ensures NodeOk(cfg, pages, id, k, root, short) {
      SameOnLevel(levels, levels', k, id);
    }
  }

  // ----- the separator before a subtree -----

  /** The leaf a descent along first children ends at. */
  ghost function Leftmost(pages: Pages, levels: seq<Level>, k: nat, p: nat): nat {
    if k == 0 || k >= |levels| || p >= |levels[k]| then p
    else Leftmost(pages, levels, k - 1, |Flat(pages, levels[k][..p])|)
  }

  /** The page at `p` of level `k`, and its first descendants, get the separator `key`. */
  ghost function SetLow(pages: Pages, levels: seq<Level>, k: nat, p: nat, key: int): (r: seq<Level>)
    ensures |r| == |levels|
    decreases k
  {
    if k >= |levels| || p >= |levels[k]| then levels
    else
      var here := levels[k := SetKey(levels[k], p, key)];
      if k == 0 then here else SetLow(pages, here, k - 1, |Flat(pages, levels[k][..p])|, key)
  }

  /** Links below level `k`. */
  ghost predicate LinkedBelow(pages: Pages, levels: seq<Level>, k: nat) {
    forall j :: 0 <= j < k && j + 1 < |levels| ==> Linked(pages, levels, j)
  }

  /** Pages of level `k` have children. */
  ghost predicate HaveChildren(pages: Pages, levels: seq<Level>, k: nat) {
    forall j :: 0 < j <= k && j < |levels| ==> forall i :: 0 <= i < |levels[j]| ==> |Expand(pages, levels[j][i])| > 0
  }

  lemma FlatSetKey(pages: Pages, level: Level, p: nat, key: int)
    requires p < |level| && |Expand(pages, level[p])| > 0
    ensures var q := |Flat(pages, level[..p])|;
            q < |Flat(pages, level)| && Flat(pages, SetKey(level, p, key)) == SetKey(Flat(pages, level), q, key)
  {
    var level' := SetKey(level, p, key);
    FlatAt(pages, level, p);
    FlatAt(pages, level', p);
    assert level'[..p] == level[..p] && level'[p + 1..] == level[p + 1..];
    var e := Expand(pages, level[p]);
    assert Expand(pages, level'[p]) == SetKey(e, 0, key);
    Rekeyed(Flat(pages, level[..p]), e, Flat(pages, level[p + 1..]), 0, key);
  }

  lemma {:induction false} LeftmostSame(pages: Pages, levels: seq<Level>, levels': seq<Level>, k: nat, p: nat)
    requires k < |levels| && |levels'| == |levels| && forall j :: 0 <= j <= k ==> levels'[j] == levels[j]
    ensures Leftmost(pages, levels', k, p) == Leftmost(pages, levels, k, p)
  {
    if k > 0 && p < |levels[k]| { LeftmostSame(pages, levels, levels', k - 1, |Flat(pages, levels[k][..p])|); }
  }

  /** What changing the separator before a subtree does: places stay, links below hold, and of the
      leaves only the first one of the subtree is concerned. */
  ghost predicate LowSet(pages: Pages, levels: seq<Level>, levels': seq<Level>, k: nat, p: nat, key: int)
    requires k < |levels| && p < |levels[k]|
  {
    && SameIds(levels, levels')
    && levels'[k] == SetKey(levels[k], p, key)
    && (forall j :: k < j < |levels| ==> levels'[j] == levels[j])
    && LinkedBelow(pages, levels', k)
    && var q := Leftmost(pages, levels, k, p);
       q < |levels[0]| && levels'[0] == SetKey(levels[0], q, key)
  }

  lemma {:induction false} SetLowKeeps(pages: Pages, levels: seq<Level>, k: nat, p: nat, key: int)
    requires k < |levels| && p < |levels[k]| && LinkedBelow(pages, levels, k) && HaveChildren(pages, levels, k)
    ensures LowSet(pages, levels, SetLow(pages, levels, k, p, key), k, p, key)
    decreases k
  {
    if k > 0 {
      var m := k - 1;
      var here := levels[k := SetKey(levels[k], p, key)];
      var q := |Flat(pages, levels[k][..p])|;
      StillBelow(pages, levels, here, k, m, p, q, key);
      SetLowKeeps(pages, here, m, q, key);
      LeftmostSame(pages, levels, here, m, q);
      SetLowStep(pages, levels, here, SetLow(pages, here, m, q, key), k, p, q, key);
    }
  }

  lemma StillBelow(pages: Pages, levels: seq<Level>, here: seq<Level>, k: nat, m: nat, p: nat, q: nat, key: int)
    requires m + 1 == k < |levels| && p < |levels[k]| && LinkedBelow(pages, levels, k) && HaveChildren(pages, levels, k)
    requires here == levels[k := SetKey(levels[k], p, key)] && q == |Flat(pages, levels[k][..p])|
    ensures q < |levels[m]| && SetKey(levels[m], q, key) == Flat(pages, SetKey(levels[k], p, key))
    ensures LinkedBelow(pages, here, m) && HaveChildren(pages, here, m)
  {
    assert Linked(pages, levels, m);
    assert |Expand(pages, levels[k][p])| > 0;
    FlatSetKey(pages, levels[k], p, key);
    forall j | 0 <= j < m ensures Linked(pages, here, j) { assert Linked(pages, levels, j); }
    HaveFewer(pages, levels, here, k);
  }

  lemma HaveFewer(pages: Pages, levels: seq<Level>, here: seq<Level>, k: nat)
    requires 0 < k < |levels| == |here| && HaveChildren(pages, levels, k) && forall j :: 0 <= j < k ==>
               here[j] == levels[j]
    ensures HaveChildren(pages, here, k - 1)
  {
    forall j, i | 0 < j <= k - 1 && 0 <= i < |here[j]| ensures |Expand(pages, here[j][i])| > 0 {
      assert here[j] == levels[j];
    }
  }

  lemma SetLowStep(pages: Pages, levels: seq<Level>, here: seq<Level>, r: seq<Level>, k: nat, p: nat, q: nat, key: int)
    requires 0 < k < |levels| && p < |levels[k]| && here == levels[k := SetKey(levels[k], p, key)]
    requires q < |levels[k - 1]| && LowSet(pages, here, r, k - 1, q, key)
    requires SetKey(levels[k - 1], q, key) == Flat(pages, SetKey(levels[k], p, key))
    requires q == |Flat(pages, levels[k][..p])| && Leftmost(pages, here, k - 1, q) == Leftmost(pages, levels, k - 1, q)
    ensures LowSet(pages, levels, r, k, p, key)
  {
    assert r[k] == here[k];
    forall j | 0 <= j < k && j + 1 < |r| ensures Linked(pages, r, j) {
      if j == k - 1 { assert r[k - 1] == SetKey(levels[k - 1], q, key); }
    }
    forall j, i | 0 <= j < |levels| && 0 <= i < |levels[j]| ensures r[j][i].child == levels[j][i].child {
      assert r[j][i].child == here[j][i].child;
    }
  }

  // ----- a leaf's separator may be its first key -----

  lemma RekeyLeaves(pages: Pages, level: Level, q: nat, key: int)
    requires LeavesOk(pages, level) && q < |level|
    requires level[q].child in pages && pages[level[q].child].Leaf?
    requires var es := pages[level[q].child].entries; |es| > 0 && es[0].key == key
    ensures LeavesOk(pages, SetKey(level, q, key))
  {
    var level' := SetKey(level, q, key);
    forall i | 0 <= i < |level'| ensures LeafOk(pages, level', i) {
      assert LeafOk(pages, level, i);
      assert LeafOk(pages, level, q);
      FirstIsBetween(pages, level, q);
      if q > 0 { assert LeafOk(pages, level, q - 1); }
    }
  }

  lemma FirstIsBetween(pages: Pages, level: Level, q: nat)
    requires q < |level| && LeafOk(pages, level, q) && |pages[level[q].child].entries| > 0
    ensures var es := pages[level[q].child].entries;
            && (forall e :: e in es ==> es[0].key <= e.key)
            && (0 < q ==> level[q].key <= es[0].key)
            && (q + 1 < |level| ==> es[0].key <= level[q + 1].key)
  {
    var es := pages[level[q].child].entries;
    assert es[0] in es;
    forall e | e in es ensures es[0].key <= e.key {
      var j :| 0 <= j < |es| && es[j] == e;
      if j > 0 { assert !EntryLess(es[j], es[0]); }
    }
  }

  lemma NodesHaveChildren(cfg: Config, pages: Pages, levels: seq<Level>, root: Id, short: Id, k: nat)
    requires NodesOk(cfg, pages, levels, root, short)
    ensures HaveChildren(pages, levels, k)
  {
    forall j, i | 0 < j <= k && j < |levels| && 0 <= i < |levels[j]| ensures |Expand(pages, levels[j][i])| > 0 {
      AtLevel(levels, j, i);
      assert NodeOk(cfg, pages, levels[j][i].child, j, root, short);
    }
  }

  // ----- the separator in the parent follows -----

  /** Child `c` of the page above gets `key`, the first key of its first leaf, as its separator. */
  lemma SeparatorMoves(cfg: Config, pages: Pages, pages': Pages, root: Id, levels: seq<Level>, limit: Id,
                       k: nat, i: nat, p: nat, c: nat, key: int)
    requires TreeInv(cfg, pages, root, levels, limit, INVALID) && At(pages, levels, k, i, p, c) && 0 < c
    requires var par := levels[k + 1][p].child;
             pages' == pages[par := pages[par].(items := SetKey(pages[par].items, c, key))]
    requires FirstKey(pages, levels, k, i, key)
    ensures TreeInv(cfg, pages', root, SetLow(pages, levels, k, i, key), limit, INVALID)
    ensures Content(pages', SetLow(pages, levels, k, i, key)) == Content(pages, levels)
  {
    NodesHaveChildren(cfg, pages, levels, root, INVALID, k);
    SetLowKeeps(pages, levels, k, i, key);
    SeparatorMoved(cfg, pages, pages', root, levels, SetLow(pages, levels, k, i, key), limit, k, i, p, c, key);
  }

  lemma SeparatorMoved(cfg: Config, pages: Pages, pages': Pages, root: Id, levels: seq<Level>, levels': seq<Level>,
                       limit: Id, k: nat, i: nat, p: nat, c: nat, key: int)
    requires TreeInv(cfg, pages, root, levels, limit, INVALID) && At(pages, levels, k, i, p, c) && 0 < c
    requires var par := levels[k + 1][p].child;
             pages' == pages[par := pages[par].(items := SetKey(pages[par].items, c, key))]
    requires FirstKey(pages, levels, k, i, key) && LowSet(pages, levels, levels', k, i, key)
    ensures TreeInv(cfg, pages', root, levels', limit, INVALID) && Content(pages', levels') == Content(pages, levels)
  {
    MovedLinks(cfg, pages, pages', root, levels, levels', k, i, p, c, key);
    MovedNodes(cfg, pages, pages', root, levels, levels', k, p, c, key);
    SameUnique(levels, levels');
    MovedCovers(pages, pages', levels, levels', limit);
    MovedLeaves(pages, pages', levels, levels', k, i, key);
    TopStays(pages, pages', levels, levels', root);
  }

  lemma TopStays(pages: Pages, pages': Pages, levels: seq<Level>, levels': seq<Level>, root: Id)
    requires TopIs(pages, levels, root) && |levels'| == |levels| && levels'[|levels| - 1] == levels[|levels| - 1]
    requires root in pages' && pages'[root].parent == pages[root].parent
    ensures TopIs(pages', levels', root)
  {
  }

  lemma MovedCovers(pages: Pages, pages': Pages, levels: seq<Level>, levels': seq<Level>, limit: Id)
    requires Covers(pages, levels, limit) && SameIds(levels, levels') && pages'.Keys == pages.Keys
    ensures Covers(pages', levels', limit)
  {
    SameCovers(pages, levels, levels', limit);
    assert forall id :: id in pages' ==> id in pages.Keys;
  }

  /** `key` is the first key of the first leaf below the page at `i` of level `k`. */
  ghost predicate FirstKey(pages: Pages, levels: seq<Level>, k: nat, i: nat, key: int) {
    var q := Leftmost(pages, levels, k, i);
    && |levels| > 0 && q < |levels[0]| && levels[0][q].child in pages && pages[levels[0][q].child].Leaf?
    && |pages[levels[0][q].child].entries| > 0 && pages[levels[0][q].child].entries[0].key == key
  }

  lemma MovedNodes(cfg: Config, pages: Pages, pages': Pages, root: Id, levels: seq<Level>, levels': seq<Level>, k: nat,
                   p: nat, c: nat, key: int)
    requires NodesOk(cfg, pages, levels, root, INVALID) && SameIds(levels, levels')
    requires k + 1 < |levels| && p < |levels[k + 1]|
    requires var par := levels[k + 1][p].child;
             && par in pages && pages[par].Internal? && c < |pages[par].items|
             && pages' == pages[par := pages[par].(items := SetKey(pages[par].items, c, key))]
    ensures NodesOk(cfg, pages', levels', root, INVALID)
  {
    var par := levels[k + 1][p].child;
    SameNodes(cfg, pages, levels, levels', root, INVALID);
    forall m, d | OnLevel(levels', m, d) ensures NodeOk(cfg, pages', d, m, root, INVALID) {
      assert NodeOk(cfg, pages, d, m, root, INVALID);
      if d != par {
        SameNode(cfg, pages, pages', d, m, root, INVALID, root, INVALID);
      } else {
        forall a | 0 <= a < |pages'[par].items|
          ensures pages'[par].items[a].child in pages' && pages'[pages'[par].items[a].child].parent == par
        {
          assert pages'[par].items[a].child == pages[par].items[a].child;
        }
      }
    }
  }

  lemma MovedLeaves(pages: Pages, pages': Pages, levels: seq<Level>, levels': seq<Level>, k: nat, i: nat, key: int)
    requires k < |levels| && i < |levels[k]| && LowSet(pages, levels, levels', k, i, key) && LeavesOk(pages, levels[0])
    requires FirstKey(pages, levels, k, i, key)
    requires forall id :: id in pages && pages[id].Leaf? ==> id in pages' && SameBody(pages[id], pages'[id])
    ensures LeavesOk(pages', levels'[0]) && Content(pages', levels') == Content(pages, levels)
  {
    var q := Leftmost(pages, levels, k, i);
    RekeyLeaves(pages, levels[0], q, key);
    LeavesSame(pages, pages', levels'[0]);
    forall j | 0 <= j < |levels[0]|
      ensures EntriesOf(pages', levels[0][j].child) == EntriesOf(pages, levels[0][j].child)
    {
      assert LeafOk(pages, levels[0], j);
    }
    GatherSame(pages, pages', levels[0], levels'[0]);
  }

  /** Links of the levels below the one whose parent changes. */
  lemma BelowStill(cfg: Config, pages: Pages, pages': Pages, root: Id, levels: seq<Level>, levels': seq<Level>, k: nat,
                   par: Id)
    requires NodesOk(cfg, pages, levels, root, INVALID) && Unique(levels) && SameIds(levels, levels')
    requires OnLevel(levels, k + 1, par) && LinkedBelow(pages, levels', k)
    requires forall id :: id in pages && id != par ==> SameItems(pages, pages', id)
    ensures LinkedBelow(pages', levels', k)
  {
    forall j | 0 <= j < k && j + 1 < |levels'| ensures Linked(pages', levels', j) {
      LevelsHavePagesAny(cfg, pages, levels, root, INVALID, j + 1);
      forall id | OnLevel(levels', j + 1, id) ensures SameItems(pages, pages', id) {
        SameOnLevel(levels, levels', j + 1, id);
      }
      assert Linked(pages, levels', j);
      StillLinked(pages, pages', levels', levels', j);
    }
  }

  lemma LevelsHavePagesAny(cfg: Config, pages: Pages, levels: seq<Level>, root: Id, short: Id, k: nat)
    requires NodesOk(cfg, pages, levels, root, short)
    ensures forall id :: OnLevel(levels, k, id) ==> id in pages
  {
    forall id | OnLevel(levels, k, id) ensures id in pages { assert NodeOk(cfg, pages, id, k, root, short); }
  }

  lemma AboveStill(cfg: Config, pages: Pages, pages': Pages, root: Id, short: Id, levels: seq<Level>,
                   levels': seq<Level>, k: nat, par: Id)
    requires NodesOk(cfg, pages, levels, root, short) && Unique(levels) && AllLinked(pages, levels)
             && |levels'| == |levels|
    requires OnLevel(levels, k + 1, par) && forall j :: k < j < |levels| ==> levels'[j] == levels[j]
    requires forall j, id :: k + 1 < j && OnLevel(levels, j, id) ==> SameItems(pages, pages', id)
    ensures forall j :: k < j < |levels| - 1 ==> Linked(pages', levels', j)
  {
    forall j | k < j < |levels| - 1 ensures Linked(pages', levels', j) {
      assert Linked(pages, levels, j);
      StillLinked(pages, pages', levels, levels', j);
    }
  }

  lemma MovedOthers(cfg: Config, pages: Pages, pages': Pages, root: Id, levels: seq<Level>, k: nat, above: Level,
                    p: nat)
    requires NodesOk(cfg, pages, levels, root, INVALID) && k < |levels| && above == levels[k] && NoDup(above)
             && p < |above|
    requires forall id :: id in pages && id != above[p].child ==> SameItems(pages, pages', id)
    ensures OthersKeep(pages, pages', above, p)
  {
    forall j | 0 <= j < |above| && j != p ensures SameItems(pages, pages', above[j].child) {
      PageOk(cfg, pages, levels, root, INVALID, k, above, j);
    }
  }

  lemma OthersSame(cfg: Config, pages: Pages, pages': Pages, root: Id, levels: seq<Level>, par: Id, node: Node)
    requires NodesOk(cfg, pages, levels, root, INVALID) && pages' == pages[par := node]
    ensures forall j, id :: OnLevel(levels, j, id) && id != par ==> SameItems(pages, pages', id)
  {
    forall j, id | OnLevel(levels, j, id) && id != par ensures SameItems(pages, pages', id) {
      assert NodeOk(cfg, pages, id, j, root, INVALID);
    }
  }

  /** The parent `par` gets a new separator before child `c`. */
  ghost predicate Reseparated(pages: Pages, pages': Pages, par: Id, c: nat, key: int) {
    && par in pages && pages[par].Internal? && c < |pages[par].items|
    && pages' == pages[par := pages[par].(items := SetKey(pages[par].items, c, key))]
  }

  lemma MovedAt(cfg: Config, pages: Pages, pages': Pages, root: Id, levels: seq<Level>, levels': seq<Level>, k: nat,
                m: nat, i: nat, p: nat, c: nat, par: Id, key: int)
    requires NodesOk(cfg, pages, levels, root, INVALID) && Unique(levels) && At(pages, levels, k, i, p, c) && 0 < c
    requires m == k + 1 && par == levels[m][p].child && Reseparated(pages, pages', par, c, key)
    requires |levels'| == |levels| && levels'[k] == SetKey(levels[k], i, key) && levels'[m] == levels[m]
    ensures Linked(pages', levels', k)
  {
    assert NoDup(levels[m]);
    MovedOthers(cfg, pages, pages', root, levels, m, levels[m], p);
    AtIsFlat(pages, levels, k, i, p, c);
    KeyLink(pages, pages', levels[m], levels[k], p, c, key, i);
  }

  lemma MovedBelow(cfg: Config, pages: Pages, pages': Pages, root: Id, levels: seq<Level>, levels': seq<Level>, k: nat,
                   m: nat, i: nat, p: nat, c: nat, par: Id, key: int)
    requires NodesOk(cfg, pages, levels, root, INVALID) && Unique(levels)
    requires k < |levels| && i < |levels[k]| && LowSet(pages, levels, levels', k, i, key)
    requires m == k + 1 && OnLevel(levels, m, par) && Reseparated(pages, pages', par, c, key)
    ensures LinkedBelow(pages', levels', k)
  {
    BelowStill(cfg, pages, pages', root, levels, levels', k, par);
  }

  lemma MovedAbove(cfg: Config, pages: Pages, pages': Pages, root: Id, levels: seq<Level>, levels': seq<Level>, k: nat,
                   m: nat, c: nat, par: Id, key: int)
    requires NodesOk(cfg, pages, levels, root, INVALID) && Unique(levels) && AllLinked(pages, levels)
             && |levels'| == |levels|
    requires m == k + 1 && OnLevel(levels, m, par) && Reseparated(pages, pages', par, c, key)
    requires forall j :: k < j < |levels| ==> levels'[j] == levels[j]
    ensures forall j :: k < j < |levels| - 1 ==> Linked(pages', levels', j)
  {
    OthersSame(cfg, pages, pages', root, levels, par, pages[par].(items := SetKey(pages[par].items, c, key)));
    AboveStill(cfg, pages, pages', root, INVALID, levels, levels', k, par);
  }

  lemma LinksFromParts(pages: Pages, levels: seq<Level>, k: nat)
    requires LinkedBelow(pages, levels, k) && k + 1 < |levels| && Linked(pages, levels, k)
    requires forall j :: k < j < |levels| - 1 ==> Linked(pages, levels, j)
    ensures AllLinked(pages, levels)
  {
  }

  lemma MovedLinks(cfg: Config, pages: Pages, pages': Pages, root: Id, levels: seq<Level>, levels': seq<Level>, k: nat,
                   i: nat, p: nat, c: nat, key: int)
    requires NodesOk(cfg, pages, levels, root, INVALID) && Unique(levels) && AllLinked(pages, levels)
    requires At(pages, levels, k, i, p, c) && 0 < c && LowSet(pages, levels, levels', k, i, key)
    requires var par := levels[k + 1][p].child;
             pages' == pages[par := pages[par].(items := SetKey(pages[par].items, c, key))]
    ensures AllLinked(pages', levels')
  {
    var m := k + 1;
    var par := levels[m][p].child;
    AtLevel(levels, m, p);
    MovedBelow(cfg, pages, pages', root, levels, levels', k, m, i, p, c, par, key);
    MovedAt(cfg, pages, pages', root, levels, levels', k, m, i, p, c, par, key);
    MovedAbove(cfg, pages, pages', root, levels, levels', k, m, c, par, key);
    LinksFromParts(pages', levels', k);
  }
}
