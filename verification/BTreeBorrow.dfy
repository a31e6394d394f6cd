/** Moving an entry between a page and its neighbour, and taking a level off the top. */
module BTreeBorrow {
  import opened BTree
  import opened BTreeFacts
  import opened BTreeSeparators
  import opened BTreeMerge

  // ----- between leaves -----

  /** How the entries of two neighbouring leaves may be shared out. */
  ghost predicate Shares(cfg: Config, l: seq<Entry>, r: seq<Entry>, l': seq<Entry>, r': seq<Entry>, key: int) {
    && Sorted(l') && Sorted(r')
    && multiset(l') + multiset(r') == multiset(l) + multiset(r)
    && cfg.Min(0) <= |l'| <= cfg.leafMax && cfg.Min(0) <= |r'| <= cfg.leafMax
    && (forall e :: e in l' ==> e.key <= key) && (forall e :: e in r' ==> key <= e.key)
    && (exists e :: e in r' && e.key == key)
  }

  function ShareLeaves(pages: Pages, left: Id, right: Id, par: Id, d: nat, l': seq<Entry>, r': seq<Entry>,
                       key: int): Pages
    requires left in pages && right in pages && par in pages && pages[left].Leaf? && pages[right].Leaf?
             && pages[par].Internal?
    requires d + 1 < |pages[par].items|
  {
    pages[left := pages[left].(entries := l')][right := pages[right].(entries := r')]
         [par := pages[par].(items := SetKey(pages[par].items, d + 1, key))]
  }

  lemma SharedInside(cfg: Config, pages: Pages, level: Level, j: nat, l': seq<Entry>, r': seq<Entry>, key: int)
    requires LeavesOk(pages, level) && j + 1 < |level| && LeafOk(pages, level, j) && LeafOk(pages, level, j + 1)
    requires Shares(cfg, pages[level[j].child].entries, pages[level[j + 1].child].entries, l', r', key)
    ensures forall e :: e in l' || e in r' ==>
              (0 < j ==> level[j].key <= e.key) && (j + 2 < |level| ==> e.key <= level[j + 2].key)
    ensures (0 < j ==> level[j].key <= key) && (j + 2 < |level| ==> key <= level[j + 2].key)
  {
    var l, r := pages[level[j].child].entries, pages[level[j + 1].child].entries;
    forall e | e in l' || e in r'
      ensures (0 < j ==> level[j].key <= e.key) && (j + 2 < |level| ==> e.key <= level[j + 2].key)
    {
      assert e in multiset(l') + multiset(r');
      assert e in multiset(l) + multiset(r);
      assert e in l || e in r;
    }
  }

  lemma SharedLeaves(cfg: Config, pages: Pages, pages': Pages, level: Level, j: nat, l': seq<Entry>, r': seq<Entry>,
                     key: int)
    requires LeavesOk(pages, level) && NoDup(level) && j + 1 < |level| && LeafOk(pages, level, j)
             && LeafOk(pages, level, j + 1)
    requires Shares(cfg, pages[level[j].child].entries, pages[level[j + 1].child].entries, l', r', key)
    requires level[j].child in pages' && pages'[level[j].child] == pages[level[j].child].(entries := l')
    requires level[j + 1].child in pages' && pages'[level[j + 1].child] == pages[level[j + 1].child].(entries := r')
    requires forall id :: id in pages && pages[id].Leaf? && id != level[j].child && id != level[j + 1].child ==>
               id in pages' && pages'[id] == pages[id]
    ensures LeavesOk(pages', SetKey(level, j + 1, key))
  {
    var level' := SetKey(level, j + 1, key);
    SharedInside(cfg, pages, level, j, l', r', key);
    forall a | 0 <= a < |level'| ensures LeafOk(pages', level', a) {
      assert LeafOk(pages, level, a);
      if a != j && a != j + 1 {
        SamePlaceOrNot(level, a, j);
        SamePlaceOrNot(level, a, j + 1);
      }
    }
  }

  lemma SharedGather(pages: Pages, pages': Pages, level: Level, j: nat, l': seq<Entry>, r': seq<Entry>, key: int)
    requires NoDup(level) && j + 1 < |level| && LeavesOk(pages, level)
    requires multiset(l') + multiset(r') == multiset(EntriesOf(pages, level[j].child))
             + multiset(EntriesOf(pages, level[j + 1].child))
    requires EntriesOf(pages', level[j].child) == l' && EntriesOf(pages', level[j + 1].child) == r'
    requires forall id :: id in pages && pages[id].Leaf? && id != level[j].child && id != level[j + 1].child ==>
               id in pages' && pages'[id] == pages[id]
    ensures multiset(Gather(pages', SetKey(level, j + 1, key))) == multiset(Gather(pages, level))
  {
    var a, b := level[..j], level[j + 2..];
    CutTwo(level, j);
    CutPair(level, j, key);
    GatherTwo(pages, a, level[j], level[j + 1], b);
    GatherTwo(pages', a, level[j], Item(key, level[j + 1].child), b);
    GatherApart(pages, pages', level, j);
    SameBag(Gather(pages, a), EntriesOf(pages, level[j].child), EntriesOf(pages, level[j + 1].child), Gather(pages, b),
            l' + r');
  }

  /** Only the parent's separator and the sizes of the two leaves are new. */
  lemma SharedNodes(cfg: Config, pages: Pages, pages': Pages, levels: seq<Level>, levels': seq<Level>, j: nat, p: nat,
                    d: nat, root: Id, short: Id, l': seq<Entry>, r': seq<Entry>, key: int)
    requires Neighbours(pages, levels, 0, j, p, d) && Unique(levels) && NodesOk(cfg, pages, levels, root, short)
    requires SameIds(levels, levels') && levels[0][j].child != root && levels[0][j + 1].child != root
             && INVALID !in pages
    requires short == levels[0][j].child || short == levels[0][j + 1].child
    requires pages[levels[0][j].child].Leaf? && pages[levels[0][j + 1].child].Leaf?
    requires pages' == ShareLeaves(pages, levels[0][j].child, levels[0][j + 1].child, levels[1][p].child, d, l', r',
                                   key)
    requires cfg.Min(0) <= |l'| <= cfg.leafMax && cfg.Min(0) <= |r'| <= cfg.leafMax
    ensures NodesOk(cfg, pages', levels', root, INVALID)
  {
    var left, right, par := levels[0][j].child, levels[0][j + 1].child, levels[1][p].child;
    ThreePages(pages, levels, 0, j, p, d);
    forall m, id | OnLevel(levels', m, id) ensures NodeOk(cfg, pages', id, m, root, INVALID) {
      SameOnLevel(levels, levels', m, id);
      assert NodeOk(cfg, pages, id, m, root, short);
      if id == par {
        forall c | 0 <= c < |pages'[par].items|
          ensures pages'[par].items[c].child in pages' && pages'[pages'[par].items[c].child].parent == par
        {
          assert pages'[par].items[c].child == pages[par].items[c].child;
        }
      } else if id != left && id != right {
        SameNode(cfg, pages, pages', id, m, root, short, root, INVALID);
      }
    }
  }

  lemma SharedSame(cfg: Config, pages: Pages, pages': Pages, levels: seq<Level>, j: nat, p: nat, d: nat,
                   root: Id, short: Id, l': seq<Entry>, r': seq<Entry>, key: int)
    requires Neighbours(pages, levels, 0, j, p, d) && Unique(levels) && NodesOk(cfg, pages, levels, root, short)
    requires pages[levels[0][j].child].Leaf? && pages[levels[0][j + 1].child].Leaf?
    requires pages' == ShareLeaves(pages, levels[0][j].child, levels[0][j + 1].child, levels[1][p].child, d, l', r',
                                   key)
    ensures forall m, id :: OnLevel(levels, m, id) && id != levels[1][p].child ==> SameItems(pages, pages', id)
    ensures OthersKeep(pages, pages', levels[1], p)
  {
    var above := levels[1];
    var par := above[p].child;
    ThreePages(pages, levels, 0, j, p, d);
    forall m, id | OnLevel(levels, m, id) && id != par ensures SameItems(pages, pages', id) {
      assert NodeOk(cfg, pages, id, m, root, short);
    }
    assert NoDup(levels[1]);
    forall i | 0 <= i < |above| && i != p ensures SameItems(pages, pages', above[i].child) {
      AtLevel(levels, 1, i);
      SamePlaceOrNot(above, i, p);
    }
  }

  lemma SharedLinks(cfg: Config, pages: Pages, pages': Pages, levels: seq<Level>, levels': seq<Level>, j: nat, p: nat,
                    d: nat, root: Id, short: Id, l': seq<Entry>, r': seq<Entry>, key: int)
    requires Neighbours(pages, levels, 0, j, p, d) && Unique(levels) && NodesOk(cfg, pages, levels, root, short)
             && AllLinked(pages, levels)
    requires pages[levels[0][j].child].Leaf? && pages[levels[0][j + 1].child].Leaf?
    requires pages' == ShareLeaves(pages, levels[0][j].child, levels[0][j + 1].child, levels[1][p].child, d, l', r',
                                   key)
    requires levels' == levels[0 := SetKey(levels[0], j + 1, key)]
    ensures AllLinked(pages', levels')
  {
    SharedSame(cfg, pages, pages', levels, j, p, d, root, short, l', r', key);
    ThreePages(pages, levels, 0, j, p, d);
    AboveStill(cfg, pages, pages', root, short, levels, levels', 0, levels[1][p].child);
    SharedKey(pages, pages', levels, j, p, d, key);
    assert Linked(pages', levels', 0);
  }

  lemma SharedKey(pages: Pages, pages': Pages, levels: seq<Level>, j: nat, p: nat, d: nat, key: int)
    requires Neighbours(pages, levels, 0, j, p, d) && OthersKeep(pages, pages', levels[1], p)
    requires var par := levels[1][p].child;
             par in pages' && pages'[par].Internal? && pages'[par].items == SetKey(pages[par].items, d + 1, key)
    ensures SetKey(levels[0], j + 1, key) == Flat(pages', levels[1])
  {
    AtIsFlat(pages, levels, 0, j, p, d);
    KeyLink(pages, pages', levels[1], levels[0], p, d + 1, key, j + 1);
  }

  lemma SharedTop(pages: Pages, pages': Pages, levels: seq<Level>, levels': seq<Level>, j: nat, p: nat, d: nat,
                  root: Id)
    requires Neighbours(pages, levels, 0, j, p, d) && Unique(levels) && TopIs(pages, levels, root)
    requires |levels'| == |levels| && levels'[|levels| - 1] == levels[|levels| - 1]
    requires root in pages' && pages'[root].parent == pages[root].parent && INVALID !in pages
    ensures TopIs(pages', levels', root) && levels[0][j].child != root && levels[0][j + 1].child != root
  {
    ThreePages(pages, levels, 0, j, p, d);
    AtLevel(levels, |levels| - 1, 0);
  }

  lemma OneKeySameIds(levels: seq<Level>, k: nat, i: nat, key: int)
    requires k < |levels| && i < |levels[k]|
    ensures SameIds(levels, levels[k := SetKey(levels[k], i, key)])
  {
  }

  lemma SharedStructure(cfg: Config, pages: Pages, pages': Pages, root: Id, levels: seq<Level>, levels': seq<Level>,
                        limit: Id, short: Id, j: nat, p: nat, d: nat, l': seq<Entry>, r': seq<Entry>, key: int)
    requires TreeInv(cfg, pages, root, levels, limit, short) && Neighbours(pages, levels, 0, j, p, d)
    requires short == levels[0][j].child || short == levels[0][j + 1].child
    requires pages[levels[0][j].child].Leaf? && pages[levels[0][j + 1].child].Leaf?
    requires cfg.Min(0) <= |l'| <= cfg.leafMax && cfg.Min(0) <= |r'| <= cfg.leafMax
    requires pages' == ShareLeaves(pages, levels[0][j].child, levels[0][j + 1].child, levels[1][p].child, d, l', r',
                                   key)
    requires levels' == levels[0 := SetKey(levels[0], j + 1, key)]
    ensures TopIs(pages', levels', root) && AllLinked(pages', levels') && NodesOk(cfg, pages', levels', root, INVALID)
    ensures Unique(levels') && Covers(pages', levels', limit)
  {
    OneKeySameIds(levels, 0, j + 1, key);
    SharedTop(pages, pages', levels, levels', j, p, d, root);
    SharedLinks(cfg, pages, pages', levels, levels', j, p, d, root, short, l', r', key);
    SharedNodes(cfg, pages, pages', levels, levels', j, p, d, root, short, l', r', key);
    SameUnique(levels, levels');
    MovedCovers(pages, pages', levels, levels', limit);
  }

  lemma SharedOrder(cfg: Config, pages: Pages, pages': Pages, levels: seq<Level>, levels': seq<Level>, j: nat, p: nat,
                    d: nat, l': seq<Entry>, r': seq<Entry>, key: int)
    requires Neighbours(pages, levels, 0, j, p, d) && Unique(levels) && LeavesOk(pages, levels[0])
    requires pages[levels[0][j].child].Leaf? && pages[levels[0][j + 1].child].Leaf?
    requires Shares(cfg, pages[levels[0][j].child].entries, pages[levels[0][j + 1].child].entries, l', r', key)
    requires pages' == ShareLeaves(pages, levels[0][j].child, levels[0][j + 1].child, levels[1][p].child, d, l', r',
                                   key)
    requires levels' == levels[0 := SetKey(levels[0], j + 1, key)]
    ensures LeavesOk(pages', levels'[0]) && Content(pages', levels') == Content(pages, levels)
  {
    ThreePages(pages, levels, 0, j, p, d);
    assert NoDup(levels[0]);
    assert LeafOk(pages, levels[0], j) && LeafOk(pages, levels[0], j + 1);
    SharedLeaves(cfg, pages, pages', levels[0], j, l', r', key);
    SharedGather(pages, pages', levels[0], j, l', r', key);
  }

  /** Sharing out the entries of two leaves. */
  lemma LeafShareKeepsTree(cfg: Config, pages: Pages, pages': Pages, root: Id, levels: seq<Level>, levels': seq<Level>,
                           limit: Id, short: Id, j: nat, p: nat, d: nat, l': seq<Entry>, r': seq<Entry>, key: int)
    requires TreeInv(cfg, pages, root, levels, limit, short) && Neighbours(pages, levels, 0, j, p, d)
    requires short == levels[0][j].child || short == levels[0][j + 1].child
    requires pages[levels[0][j].child].Leaf? && pages[levels[0][j + 1].child].Leaf?
    requires Shares(cfg, pages[levels[0][j].child].entries, pages[levels[0][j + 1].child].entries, l', r', key)
    requires pages' == ShareLeaves(pages, levels[0][j].child, levels[0][j + 1].child, levels[1][p].child, d, l', r',
                                   key)
    requires levels' == levels[0 := SetKey(levels[0], j + 1, key)]
    ensures TreeInv(cfg, pages', root, levels', limit, INVALID) && Content(pages', levels') == Content(pages, levels)
  {
    SharedStructure(cfg, pages, pages', root, levels, levels', limit, short, j, p, d, l', r', key);
    SharedOrder(cfg, pages, pages', levels, levels', j, p, d, l', r', key);
  }

  // ----- between internal pages -----

  /** The right page from entry `n` on; its first key does not count. */
  function HighPart(all: seq<Item>, n: nat): seq<Item>
    requires n < |all|
  {
    [Item(0, all[n].child)] + all[n + 1..]
  }

  /** The entries of both, shared out anew before entry `n`; the child that changes sides gets its
      new parent. */
  ghost predicate InternalShares(cfg: Config, pages: Pages, pages': Pages, levels: seq<Level>, k: nat, j: nat, p: nat,
                                 d: nat, n: nat, key: int) {
    && 0 < k && Neighbours(pages, levels, k, j, p, d)
    && var left, right, par := levels[k][j].child, levels[k][j + 1].child, levels[k + 1][p].child;
       && pages[left].Internal? && pages[right].Internal? && |pages[left].items| > 0 && |pages[right].items| > 0
       && left in pages' && right in pages' && par in pages' && pages'.Keys == pages.Keys
       && var all := Joined(pages[left].items, levels[k][j + 1].key, pages[right].items);
          && (n + 1 == |pages[left].items| || n == |pages[left].items| + 1)
          && cfg.Min(k) <= n <= cfg.Max(k) && n < |all| && cfg.Min(k) <= |all| - n <= cfg.Max(k)
          && pages'[left] == pages[left].(items := all[..n])
          && pages'[right] == pages[right].(items := HighPart(all, n))
          && pages'[par] == pages[par].(items := SetKey(pages[par].items, d + 1, key))
          && SharedRest(pages, pages', left, right, par, all, n)
  }

  /** The child that changes sides, and its new parent. */
  function MovedChild(left: nat, all: seq<Item>, n: nat): Id
    requires n < |all|
  {
    if n < left || n == 0 then all[n].child else all[n - 1].child
  }

  ghost predicate SharedRest(pages: Pages, pages': Pages, left: Id, right: Id, par: Id, all: seq<Item>, n: nat)
    requires left in pages && pages[left].Internal? && n < |all|
  {
    var size := |pages[left].items|;
    forall id :: id in pages && id != left && id != right && id != par ==>
      id in pages'
      && pages'[id] == (if id == MovedChild(size, all, n) then pages[id].(parent := if n < size then right else left)
                        else pages[id])
  }

  /** The two pages at `x` and `y` divide their entries, with the separator brought down, before entry `n`. */
  ghost predicate SharesItems(pages: Pages, pages': Pages, x: Item, y: Item, n: nat) {
    && x.child in pages && y.child in pages && pages[x.child].Internal? && pages[y.child].Internal?
    && |pages[x.child].items| > 0 && |pages[y.child].items| > 0
    && var all := Joined(pages[x.child].items, y.key, pages[y.child].items);
       && 0 < n < |all|
       && x.child in pages' && pages'[x.child].Internal? && pages'[x.child].items == all[..n]
       && y.child in pages' && pages'[y.child].Internal? && pages'[y.child].items == HighPart(all, n)
  }

  lemma ShareExpand(pages: Pages, pages': Pages, x: Item, y: Item, n: nat, key: int)
    requires SharesItems(pages, pages', x, y, n)
    ensures n < |Expand(pages, x)| + |Expand(pages, y)|
    ensures Expand(pages', x) + Expand(pages', Item(key, y.child))
            == SetKey(Expand(pages, x) + Expand(pages, y), n, key)
  {
    var l, r := pages[x.child].items, pages[y.child].items;
    var all := Joined(l, y.key, r);
    assert Expand(pages, x) + Expand(pages, y) == [Item(x.key, all[0].child)] + all[1..];
    assert Expand(pages', x) == [Item(x.key, all[0].child)] + all[1..n];
    assert Expand(pages', Item(key, y.child)) == [Item(key, all[n].child)] + all[n + 1..];
  }

  /** Pages other than the two at `j` and `j + 1` keep their children. */
  ghost predicate PairOthersKeep(pages: Pages, pages': Pages, level: Level, j: nat) {
    forall i :: 0 <= i < |level| && i != j && i != j + 1 ==> SameItems(pages, pages', level[i].child)
  }

  lemma AroundPair(pages: Pages, pages': Pages, level: Level, j: nat)
    requires j + 1 < |level| && PairOthersKeep(pages, pages', level, j)
    ensures AllSame(pages, pages', level[..j]) && AllSame(pages, pages', level[j + 2..])
  {
    var a, b := level[..j], level[j + 2..];
    forall i | 0 <= i < |b| ensures SameItems(pages, pages', b[i].child) { assert b[i] == level[j + 2 + i]; }
    forall i | 0 <= i < |a| ensures SameItems(pages, pages', a[i].child) { assert a[i] == level[i]; }
  }

  lemma PairFlat(pages: Pages, pages': Pages, a: Level, x: Item, y: Item, y': Item, b: Level)
    requires AllSame(pages, pages', a) && AllSame(pages, pages', b)
    ensures Flat(pages, a + [x, y] + b) == Flat(pages, a) + (Expand(pages, x) + Expand(pages, y)) + Flat(pages, b)
    ensures Flat(pages', a + [x, y'] + b) == Flat(pages, a) + (Expand(pages', x) + Expand(pages', y')) + Flat(pages, b)
  {
    FlatAround(pages, a, x, y, b);
    FlatMiddle(pages, pages', a, [x, y'], b);
    FlatTwo(pages', x, y');
  }

  lemma CutPair(level: Level, j: nat, key: int)
    requires j + 1 < |level|
    ensures SetKey(level, j + 1, key) == level[..j] + [level[j], Item(key, level[j + 1].child)] + level[j + 2..]
  {
  }

  lemma ShareFlat(pages: Pages, pages': Pages, level: Level, j: nat, n: nat, key: int)
    requires j + 1 < |level| && SharesItems(pages, pages', level[j], level[j + 1], n)
    requires PairOthersKeep(pages, pages', level, j)
    ensures var q := |Flat(pages, level[..j])| + n;
            q < |Flat(pages, level)| && Flat(pages', SetKey(level, j + 1, key)) == SetKey(Flat(pages, level), q, key)
  {
    var a, x, y, b := level[..j], level[j], level[j + 1], level[j + 2..];
    CutTwo(level, j);
    CutPair(level, j, key);
    AroundPair(pages, pages', level, j);
    PairFlat(pages, pages', a, x, y, Item(key, y.child), b);
    ShareExpand(pages, pages', x, y, n, key);
    Rekeyed(Flat(pages, a), Expand(pages, x) + Expand(pages, y), Flat(pages, b), n, key);
  }

  lemma ShareOther(cfg: Config, pages: Pages, pages': Pages, levels: seq<Level>, k: nat, j: nat, p: nat, d: nat,
                   n: nat, key: int, root: Id, short: Id, m: nat, id: Id)
    requires InternalShares(cfg, pages, pages', levels, k, j, p, d, n, key) && NodesOk(cfg, pages, levels, root, short)
             && OnLevel(levels, m, id)
    requires id != levels[k][j].child && id != levels[k][j + 1].child
    ensures SameItems(pages, pages', id) || id == levels[k + 1][p].child
    ensures id in pages && id in pages' && (pages[id].Leaf? ==> SameBody(pages[id], pages'[id]))
  {
    assert NodeOk(cfg, pages, id, m, root, short);
  }

  lemma ShareKeepsLevel(cfg: Config, pages: Pages, pages': Pages, levels: seq<Level>, k: nat, j: nat, p: nat, d: nat,
                        n: nat, key: int, root: Id, short: Id, level: Level)
    requires InternalShares(cfg, pages, pages', levels, k, j, p, d, n, key) && NodesOk(cfg, pages, levels, root, short)
             && Unique(levels)
    requires level == levels[k]
    ensures PairOthersKeep(pages, pages', level, j)
  {
    ThreePages(pages, levels, k, j, p, d);
    assert NoDup(levels[k]);
    forall i | 0 <= i < |level| && i != j && i != j + 1 ensures SameItems(pages, pages', level[i].child) {
      AtLevel(levels, k, i);
      SamePlaceOrNot(level, i, j);
      SamePlaceOrNot(level, i, j + 1);
      ShareOther(cfg, pages, pages', levels, k, j, p, d, n, key, root, short, k, level[i].child);
    }
  }

  lemma ShareKeepsOthers(cfg: Config, pages: Pages, pages': Pages, levels: seq<Level>, k: nat, j: nat, p: nat, d: nat,
                         n: nat, key: int, root: Id, short: Id, m: nat)
    requires InternalShares(cfg, pages, pages', levels, k, j, p, d, n, key) && NodesOk(cfg, pages, levels, root, short)
             && Unique(levels)
    requires m != k && m != k + 1
    ensures forall id :: OnLevel(levels, m, id) ==> SameItems(pages, pages', id)
  {
    ThreePages(pages, levels, k, j, p, d);
    forall id | OnLevel(levels, m, id) ensures SameItems(pages, pages', id) {
      ShareOther(cfg, pages, pages', levels, k, j, p, d, n, key, root, short, m, id);
    }
  }

  lemma ShareLink(cfg: Config, pages: Pages, pages': Pages, levels: seq<Level>, k: nat, j: nat, p: nat, d: nat, n: nat,
                  key: int, root: Id, short: Id, level: Level, below: Level, q: nat)
    requires InternalShares(cfg, pages, pages', levels, k, j, p, d, n, key) && NodesOk(cfg, pages, levels, root, short)
             && Unique(levels)
    requires below == Flat(pages, level) && 0 < n && level == levels[k] && q == |Flat(pages, level[..j])| + n
    ensures q < |below| && Flat(pages', SetKey(level, j + 1, key)) == SetKey(below, q, key)
  {
    ShareKeepsLevel(cfg, pages, pages', levels, k, j, p, d, n, key, root, short, level);
    ShareFlat(pages, pages', level, j, n, key);
  }

  lemma ShareUpLink(cfg: Config, pages: Pages, pages': Pages, levels: seq<Level>, k: nat, j: nat, p: nat, d: nat,
                    n: nat, key: int, root: Id, short: Id, above: Level)
    requires InternalShares(cfg, pages, pages', levels, k, j, p, d, n, key) && NodesOk(cfg, pages, levels, root, short)
             && Unique(levels)
    requires above == levels[k + 1]
    ensures SetKey(levels[k], j + 1, key) == Flat(pages', above)
  {
    ThreePages(pages, levels, k, j, p, d);
    assert NoDup(levels[k + 1]);
    forall i | 0 <= i < |above| && i != p ensures SameItems(pages, pages', above[i].child) {
      AtLevel(levels, k + 1, i);
      SamePlaceOrNot(above, i, p);
      ShareOther(cfg, pages, pages', levels, k, j, p, d, n, key, root, short, k + 1, above[i].child);
    }
    AtIsFlat(pages, levels, k, j, p, d);
    KeyLink(pages, pages', above, levels[k], p, d + 1, key, j + 1);
  }

  /** The levels afterwards: a new separator before the right page, and before the subtree at `q`
      that now is its first. */
  ghost predicate ShareLevels(pages: Pages, levels: seq<Level>, low: seq<Level>, levels': seq<Level>, k: nat, m: nat,
                              j: nat, q: nat, key: int) {
    && m + 1 == k && k < |levels| && j + 1 < |levels[k]| && q < |levels[m]|
    && LowSet(pages, levels, low, m, q, key)
    && levels' == low[k := SetKey(levels[k], j + 1, key)]
  }

  lemma ShareSameIds(pages: Pages, levels: seq<Level>, low: seq<Level>, levels': seq<Level>, k: nat, m: nat, j: nat,
                     q: nat, key: int)
    requires ShareLevels(pages, levels, low, levels', k, m, j, q, key)
    ensures SameIds(levels, levels') && levels'[k] == SetKey(levels[k], j + 1, key)
    ensures forall a :: k < a < |levels| ==> levels'[a] == levels[a]
    ensures forall a :: 0 <= a < k ==> levels'[a] == low[a]
    ensures levels'[m] == SetKey(levels[m], q, key)
  {
    assert low[k] == levels[k];
  }

  lemma ShareUpper(cfg: Config, pages: Pages, pages': Pages, levels: seq<Level>, levels': seq<Level>,
                   k: nat, j: nat, p: nat, d: nat, n: nat, key: int, root: Id, short: Id, m: nat)
    requires InternalShares(cfg, pages, pages', levels, k, j, p, d, n, key) && NodesOk(cfg, pages, levels, root, short)
             && Unique(levels)
    requires k < m && m + 1 < |levels| == |levels'| && Linked(pages, levels, m)
    requires levels'[m] == levels[m] && levels'[m + 1] == levels[m + 1]
    ensures Linked(pages', levels', m)
  {
    ShareKeepsOthers(cfg, pages, pages', levels, k, j, p, d, n, key, root, short, m + 1);
    StillLinked(pages, pages', levels, levels', m);
  }

  lemma ShareLower(cfg: Config, pages: Pages, pages': Pages, levels: seq<Level>, low: seq<Level>, levels': seq<Level>,
                   k: nat, j: nat, p: nat, d: nat, n: nat, key: int, root: Id, short: Id, m: nat)
    requires InternalShares(cfg, pages, pages', levels, k, j, p, d, n, key) && NodesOk(cfg, pages, levels, root, short)
             && Unique(levels)
    requires SameIds(levels, low) && m + 1 < k && k < |levels| && Linked(pages, low, m)
    requires |levels'| == |levels| && levels'[m] == low[m] && levels'[m + 1] == low[m + 1]
    ensures Linked(pages', levels', m)
  {
    ShareKeepsOthers(cfg, pages, pages', levels, k, j, p, d, n, key, root, short, m + 1);
    forall id | OnLevel(low, m + 1, id) ensures SameItems(pages, pages', id) { SameOnLevel(levels, low, m + 1, id); }
    StillLinked(pages, pages', low, levels', m);
  }

  lemma ShareLinksAbove(cfg: Config, pages: Pages, pages': Pages, levels: seq<Level>, levels': seq<Level>,
                        k: nat, j: nat, p: nat, d: nat, n: nat, key: int, root: Id, short: Id)
    requires InternalShares(cfg, pages, pages', levels, k, j, p, d, n, key) && NodesOk(cfg, pages, levels, root, short)
             && Unique(levels)
    requires AllLinked(pages, levels) && |levels'| == |levels| && forall m :: k < m < |levels| ==>
               levels'[m] == levels[m]
    ensures forall m :: k < m < |levels'| - 1 ==> Linked(pages', levels', m)
  {
    forall m | k < m < |levels'| - 1 ensures Linked(pages', levels', m) {
      assert Linked(pages, levels, m);
      ShareUpper(cfg, pages, pages', levels, levels', k, j, p, d, n, key, root, short, m);
    }
  }

  lemma ShareLinksBelow(cfg: Config, pages: Pages, pages': Pages, levels: seq<Level>, low: seq<Level>,
                        levels': seq<Level>, k: nat, m: nat, j: nat, p: nat, d: nat, n: nat, key: int, root: Id,
                        short: Id)
    requires InternalShares(cfg, pages, pages', levels, k, j, p, d, n, key) && NodesOk(cfg, pages, levels, root, short)
             && Unique(levels)
    requires m + 1 == k && SameIds(levels, low) && LinkedBelow(pages, low, m)
    requires k < |levels| == |levels'| && forall a :: 0 <= a < k ==> levels'[a] == low[a]
    ensures forall a :: 0 <= a < m ==> Linked(pages', levels', a)
  {
    forall a | 0 <= a < m ensures Linked(pages', levels', a) {
      assert Linked(pages, low, a);
      ShareLower(cfg, pages, pages', levels, low, levels', k, j, p, d, n, key, root, short, a);
    }
  }

  lemma ShareLinksMiddle(cfg: Config, pages: Pages, pages': Pages, levels: seq<Level>, levels': seq<Level>,
                         k: nat, m: nat, j: nat, p: nat, d: nat, n: nat, key: int, root: Id, short: Id, q: nat)
    requires InternalShares(cfg, pages, pages', levels, k, j, p, d, n, key) && NodesOk(cfg, pages, levels, root, short)
             && Unique(levels)
    requires m + 1 == k && levels[m] == Flat(pages, levels[k]) && 0 < n && |levels'| == |levels|
    requires q == |Flat(pages, levels[k][..j])| + n && q < |levels[m]|
    requires levels'[m] == SetKey(levels[m], q, key)
    requires levels'[k] == SetKey(levels[k], j + 1, key) && levels'[k + 1] == levels[k + 1]
    ensures Linked(pages', levels', m) && Linked(pages', levels', k)
  {
    ShareLink(cfg, pages, pages', levels, k, j, p, d, n, key, root, short, levels[k], levels[m], q);
    ShareUpLink(cfg, pages, pages', levels, k, j, p, d, n, key, root, short, levels[k + 1]);
  }

  lemma LinksJoin(pages: Pages, levels: seq<Level>, k: nat, m: nat)
    requires m + 1 == k && k < |levels| && (k + 1 < |levels| ==> Linked(pages, levels, k)) && Linked(pages, levels, m)
    requires forall a :: 0 <= a < m ==> Linked(pages, levels, a)
    requires forall a :: k < a < |levels| - 1 ==> Linked(pages, levels, a)
    ensures AllLinked(pages, levels)
  {
  }

  lemma ShareLinks(cfg: Config, pages: Pages, pages': Pages, levels: seq<Level>, low: seq<Level>, levels': seq<Level>,
                   k: nat, m: nat, j: nat, p: nat, d: nat, n: nat, key: int, root: Id, short: Id, q: nat)
    requires InternalShares(cfg, pages, pages', levels, k, j, p, d, n, key) && NodesOk(cfg, pages, levels, root, short)
             && Unique(levels)
    requires AllLinked(pages, levels) && ShareLevels(pages, levels, low, levels', k, m, j, q, key) && 0 < n
    requires q == |Flat(pages, levels[k][..j])| + n
    ensures AllLinked(pages', levels')
  {
    ShareSameIds(pages, levels, low, levels', k, m, j, q, key);
    ShareLinksAbove(cfg, pages, pages', levels, levels', k, j, p, d, n, key, root, short);
    ShareLinksBelow(cfg, pages, pages', levels, low, levels', k, m, j, p, d, n, key, root, short);
    BelowIs(pages, levels, k, m);
    ShareLinksMiddle(cfg, pages, pages', levels, levels', k, m, j, p, d, n, key, root, short, q);
    LinksJoin(pages', levels', k, m);
  }

  // ----- the pages after an internal share -----

  /** The children of both pages: whose they were, and that they differ. */
  ghost predicate TwoFamilies(pages: Pages, left: Id, right: Id, all: seq<Item>, size: nat) {
    && (forall a :: 0 <= a < |all| ==>
        all[a].child in pages && pages[all[a].child].parent == (if a < size then left else right))
    && (forall a, b :: 0 <= a < b < |all| ==> all[a].child != all[b].child)
  }

  lemma FamiliesOf(cfg: Config, pages: Pages, levels: seq<Level>, root: Id, short: Id, k: nat, left: Id, right: Id,
                   key: int)
    requires NodesOk(cfg, pages, levels, root, short) && AllLinked(pages, levels) && Unique(levels) && k + 1 < |levels|
    requires OnLevel(levels, k + 1, left) && OnLevel(levels, k + 1, right) && left != right
    requires left in pages && right in pages && pages[left].Internal? && pages[right].Internal?
             && |pages[right].items| > 0
    ensures TwoFamilies(pages, left, right, Joined(pages[left].items, key, pages[right].items), |pages[left].items|)
  {
    var l, r := pages[left].items, pages[right].items;
    var all := Joined(l, key, r);
    ChildrenDiffer(cfg, pages, levels, root, short, k, left);
    ChildrenDiffer(cfg, pages, levels, root, short, k, right);
    assert NodeOk(cfg, pages, left, k + 1, root, short);
    assert NodeOk(cfg, pages, right, k + 1, root, short);
    forall a | 0 <= a < |all|
      ensures all[a].child in pages && pages[all[a].child].parent == (if a < |l| then left else right)
      ensures all[a].child == if a < |l| then l[a].child else r[a - |l|].child
    {
    }
  }

  lemma ShareFamilies(cfg: Config, pages: Pages, pages': Pages, levels: seq<Level>, k: nat, j: nat, p: nat, d: nat,
                      n: nat, key: int, root: Id, short: Id)
    requires InternalShares(cfg, pages, pages', levels, k, j, p, d, n, key) && NodesOk(cfg, pages, levels, root, short)
             && Unique(levels)
    requires AllLinked(pages, levels)
    ensures var left, right := levels[k][j].child, levels[k][j + 1].child;
            TwoFamilies(pages, left, right, Joined(pages[left].items, levels[k][j + 1].key, pages[right].items),
                        |pages[left].items|)
  {
    ThreePages(pages, levels, k, j, p, d);
    FamiliesOf(cfg, pages, levels, root, short, k - 1, levels[k][j].child, levels[k][j + 1].child,
               levels[k][j + 1].key);
  }

  /** After the share each child has the parent that lists it. */
  lemma SharedParents(pages: Pages, pages': Pages, left: Id, right: Id, par: Id, all: seq<Item>, n: nat, a: nat)
    requires left in pages && pages[left].Internal? && 0 < n < |all| && a < |all|
    requires var size := |pages[left].items|;
             && TwoFamilies(pages, left, right, all, size) && (n + 1 == size || n == size + 1)
             && SharedRest(pages, pages', left, right, par, all, n)
    requires all[a].child != left && all[a].child != right && all[a].child != par
    ensures all[a].child in pages' && pages'[all[a].child].parent == if a < n then left else right
  {
  }

  lemma ChildrenBelow(cfg: Config, pages: Pages, pages': Pages, levels: seq<Level>, k: nat, j: nat, p: nat, d: nat,
                      n: nat, key: int, root: Id, short: Id, a: nat)
    requires InternalShares(cfg, pages, pages', levels, k, j, p, d, n, key) && NodesOk(cfg, pages, levels, root, short)
             && Unique(levels)
    requires AllLinked(pages, levels)
    requires var left, right := levels[k][j].child, levels[k][j + 1].child;
             a < |Joined(pages[left].items, levels[k][j + 1].key, pages[right].items)|
    ensures var left, right := levels[k][j].child, levels[k][j + 1].child;
            var id := Joined(pages[left].items, levels[k][j + 1].key, pages[right].items)[a].child;
            id != left && id != right && id != levels[k + 1][p].child
  {
    var left, right := levels[k][j].child, levels[k][j + 1].child;
    ThreePages(pages, levels, k, j, p, d);
    var l := pages[left].items;
    if a < |l| { ChildIsBelow(cfg, pages, levels, root, short, k - 1, left, a); }
    else { ChildIsBelow(cfg, pages, levels, root, short, k - 1, right, a - |l|); }
  }

  lemma ShareSideNodes(cfg: Config, pages: Pages, pages': Pages, levels: seq<Level>, k: nat, j: nat, p: nat, d: nat,
                       n: nat, key: int, root: Id, short: Id)
    requires InternalShares(cfg, pages, pages', levels, k, j, p, d, n, key) && NodesOk(cfg, pages, levels, root, short)
             && Unique(levels)
    requires AllLinked(pages, levels) && cfg.Ok() && levels[k][j].child != root && levels[k][j + 1].child != root
    ensures NodeOk(cfg, pages', levels[k][j].child, k, root, INVALID)
            && NodeOk(cfg, pages', levels[k][j + 1].child, k, root, INVALID)
  {
    var left, right, par := levels[k][j].child, levels[k][j + 1].child, levels[k + 1][p].child;
    var all := Joined(pages[left].items, levels[k][j + 1].key, pages[right].items);
    ShareFamilies(cfg, pages, pages', levels, k, j, p, d, n, key, root, short);
    forall a | 0 <= a < |all|
      ensures all[a].child in pages' && pages'[all[a].child].parent == (if a < n then left else right)
    {
      ChildrenBelow(cfg, pages, pages', levels, k, j, p, d, n, key, root, short, a);
      SharedParents(pages, pages', left, right, par, all, n, a);
    }
    SideParents(pages', left, right, all, n);
  }

  lemma SideParents(pages': Pages, left: Id, right: Id, all: seq<Item>, n: nat)
    requires 0 < n < |all| && left in pages' && right in pages'
    requires pages'[left].Internal? && pages'[left].items == all[..n] && pages'[right].Internal?
             && pages'[right].items == HighPart(all, n)
    requires forall a :: 0 <= a < |all| ==>
               all[a].child in pages' && pages'[all[a].child].parent == (if a < n then left else right)
    ensures ParentOk(pages', left) && ParentOk(pages', right)
  {
    var high := HighPart(all, n);
    forall a | 0 <= a < |high| ensures high[a].child in pages' && pages'[high[a].child].parent == right {
      assert high[a].child == all[n + a].child;
    }
  }

  lemma ShareOtherNode(cfg: Config, pages: Pages, pages': Pages, levels: seq<Level>, k: nat, j: nat, p: nat, d: nat,
                       n: nat, key: int, root: Id, short: Id, m: nat, id: Id)
    requires InternalShares(cfg, pages, pages', levels, k, j, p, d, n, key) && NodeOk(cfg, pages, id, m, root, short)
             && id != short && id != INVALID
    requires id != levels[k][j].child && id != levels[k][j + 1].child
    requires var left, right := levels[k][j].child, levels[k][j + 1].child;
             TwoFamilies(pages, left, right, Joined(pages[left].items, levels[k][j + 1].key, pages[right].items),
                         |pages[left].items|)
    ensures NodeOk(cfg, pages', id, m, root, INVALID)
  {
    if m > 0 {
      forall c | 0 <= c < |pages[id].items| && pages[id].items[c].child in pages
        ensures pages[id].items[c].child in pages'
                && pages'[pages[id].items[c].child].parent == pages[pages[id].items[c].child].parent
      {
        assert pages[pages[id].items[c].child].parent == id;
      }
      forall c | 0 <= c < |pages'[id].items|
        ensures pages'[id].items[c].child in pages' && pages'[pages'[id].items[c].child].parent == id
      {
        assert pages'[id].items[c].child == pages[id].items[c].child;
      }
    }
  }

  lemma ShareNodes(cfg: Config, pages: Pages, pages': Pages, levels: seq<Level>, levels': seq<Level>, k: nat, j: nat,
                   p: nat, d: nat, n: nat, key: int, root: Id, short: Id)
    requires InternalShares(cfg, pages, pages', levels, k, j, p, d, n, key) && NodesOk(cfg, pages, levels, root, short)
             && Unique(levels)
    requires AllLinked(pages, levels) && cfg.Ok() && levels[k][j].child != root && levels[k][j + 1].child != root
             && INVALID !in pages
    requires (short == levels[k][j].child || short == levels[k][j + 1].child) && SameIds(levels, levels')
    ensures NodesOk(cfg, pages', levels', root, INVALID)
  {
    var left, right := levels[k][j].child, levels[k][j + 1].child;
    ThreePages(pages, levels, k, j, p, d);
    ShareFamilies(cfg, pages, pages', levels, k, j, p, d, n, key, root, short);
    ShareSideNodes(cfg, pages, pages', levels, k, j, p, d, n, key, root, short);
    forall m, id | OnLevel(levels', m, id) ensures NodeOk(cfg, pages', id, m, root, INVALID) {
      SameOnLevel(levels, levels', m, id);
      if id != left && id != right {
        assert NodeOk(cfg, pages, id, m, root, short);
        ShareOtherNode(cfg, pages, pages', levels, k, j, p, d, n, key, root, short, m, id);
      } else {
        assert m == k;
      }
    }
  }

  lemma ShareTop(cfg: Config, pages: Pages, pages': Pages, levels: seq<Level>, levels': seq<Level>, k: nat, j: nat,
                 p: nat, d: nat, n: nat, key: int, root: Id, short: Id)
    requires InternalShares(cfg, pages, pages', levels, k, j, p, d, n, key) && NodesOk(cfg, pages, levels, root, short)
             && Unique(levels)
    requires AllLinked(pages, levels) && TopIs(pages, levels, root) && |levels'| == |levels| && INVALID !in pages
    requires levels'[|levels| - 1] == levels[|levels| - 1]
    ensures TopIs(pages', levels', root) && levels[k][j].child != root && levels[k][j + 1].child != root
  {
    ThreePages(pages, levels, k, j, p, d);
    AtLevel(levels, |levels| - 1, 0);
    ShareFamilies(cfg, pages, pages', levels, k, j, p, d, n, key, root, short);
  }

  lemma ShareKeepsLeafPages(cfg: Config, pages: Pages, pages': Pages, levels: seq<Level>, k: nat, j: nat, p: nat,
                            d: nat, n: nat, key: int)
    requires InternalShares(cfg, pages, pages', levels, k, j, p, d, n, key)
    ensures forall id :: id in pages && pages[id].Leaf? ==> id in pages' && SameBody(pages[id], pages'[id])
  {
  }

  lemma ShareLeavesOk(pages: Pages, pages': Pages, levels: seq<Level>, low: seq<Level>, levels': seq<Level>, k: nat,
                      q: nat, key: int)
    requires forall id :: id in pages && pages[id].Leaf? ==> id in pages' && SameBody(pages[id], pages'[id])
    requires k < |levels| && q < |levels[k]| && LowSet(pages, levels, low, k, q, key) && LeavesOk(pages, levels[0])
    requires FirstKey(pages, levels, k, q, key) && |levels'| > 0 && levels'[0] == low[0]
    ensures LeavesOk(pages', levels'[0]) && Content(pages', levels') == Content(pages, levels)
  {
    MovedLeaves(pages, pages', levels, low, k, q, key);
  }

  lemma ShareOrder(pages: Pages, pages': Pages, levels: seq<Level>, low: seq<Level>, levels': seq<Level>, k: nat,
                   m: nat, j: nat, q: nat, key: int)
    requires forall id :: id in pages && pages[id].Leaf? ==> id in pages' && SameBody(pages[id], pages'[id])
    requires ShareLevels(pages, levels, low, levels', k, m, j, q, key) && LeavesOk(pages, levels[0])
    requires FirstKey(pages, levels, m, q, key)
    ensures LeavesOk(pages', levels'[0]) && Content(pages', levels') == Content(pages, levels)
  {
    assert levels'[0] == low[0];
    ShareLeavesOk(pages, pages', levels, low, levels', m, q, key);
  }

  lemma SharePlaces(pages: Pages, pages': Pages, levels: seq<Level>, levels': seq<Level>, limit: Id)
    requires SameIds(levels, levels') && Unique(levels) && Covers(pages, levels, limit) && pages'.Keys == pages.Keys
    ensures Unique(levels') && Covers(pages', levels', limit)
  {
    SameUnique(levels, levels');
    MovedCovers(pages, pages', levels, levels', limit);
  }

  /** Sharing out the entries of two internal pages. */
  lemma InternalShareKeepsTree(cfg: Config, pages: Pages, pages': Pages, root: Id, levels: seq<Level>, low: seq<Level>,
                               levels': seq<Level>, limit: Id, short: Id, k: nat, m: nat, j: nat, p: nat, d: nat,
                               n: nat, key: int, q: nat)
    requires TreeInv(cfg, pages, root, levels, limit, short)
             && InternalShares(cfg, pages, pages', levels, k, j, p, d, n, key) && 0 < n
    requires short == levels[k][j].child || short == levels[k][j + 1].child
    requires q == |Flat(pages, levels[k][..j])| + n && ShareLevels(pages, levels, low, levels', k, m, j, q, key)
    requires FirstKey(pages, levels, m, q, key)
    ensures TreeInv(cfg, pages', root, levels', limit, INVALID) && Content(pages', levels') == Content(pages, levels)
  {
    ShareSameIds(pages, levels, low, levels', k, m, j, q, key);
    ShareTop(cfg, pages, pages', levels, levels', k, j, p, d, n, key, root, short);
    ShareLinks(cfg, pages, pages', levels, low, levels', k, m, j, p, d, n, key, root, short, q);
    ShareNodes(cfg, pages, pages', levels, levels', k, j, p, d, n, key, root, short);
    SharePlaces(pages, pages', levels, levels', limit);
    ShareKeepsLeafPages(cfg, pages, pages', levels, k, j, p, d, n, key);
    ShareOrder(pages, pages', levels, low, levels', k, m, j, q, key);
  }

  // ----- a level less -----

  /** The only child of the root becomes the root. */
  function Collapse(pages: Pages, root: Id, child: Id): Pages
    requires child in pages
  {
    pages[child := pages[child].(parent := INVALID)] - {root}
  }

  ghost predicate OneChild(pages: Pages, root: Id, child: Id) {
    root in pages && pages[root].Internal? && |pages[root].items| == 1 && pages[root].items[0].child == child
  }

  lemma CollapseTop(cfg: Config, pages: Pages, levels: seq<Level>, root: Id, short: Id, child: Id)
    requires NodesOk(cfg, pages, levels, root, short) && AllLinked(pages, levels) && TopIs(pages, levels, root)
             && Unique(levels)
    requires OneChild(pages, root, child)
    ensures |levels| > 1 && |levels[|levels| - 2]| == 1 && levels[|levels| - 2][0].child == child
    ensures child in pages && pages[child].parent == root && child != root
    ensures OnLevel(levels, |levels| - 1, root) && OnLevel(levels, |levels| - 2, child)
  {
    var top := |levels| - 1;
    AtLevel(levels, top, 0);
    assert NodeOk(cfg, pages, root, top, root, short);
    var x := levels[top][0];
    assert levels[top] == [x];
    FlatOne(pages, x);
    assert Linked(pages, levels, top - 1);
    AtLevel(levels, top - 1, 0);
  }

  lemma LowerLevels(levels: seq<Level>, k: nat, id: Id)
    requires |levels| > 1
    ensures OnLevel(levels[..|levels| - 1], k, id) <==> OnLevel(levels, k, id) && k < |levels| - 1
  {
    if k < |levels| - 1 { assert levels[..|levels| - 1][k] == levels[k]; }
  }

  lemma CollapseNodes(cfg: Config, pages: Pages, levels: seq<Level>, root: Id, child: Id)
    requires cfg.Ok() && NodesOk(cfg, pages, levels, root, root) && AllLinked(pages, levels)
             && TopIs(pages, levels, root) && Unique(levels)
    requires OneChild(pages, root, child) && INVALID !in pages
    ensures child in pages && NodesOk(cfg, Collapse(pages, root, child), levels[..|levels| - 1], child, INVALID)
  {
    CollapseTop(cfg, pages, levels, root, root, child);
    var pages' := Collapse(pages, root, child);
    forall k, id | OnLevel(levels[..|levels| - 1], k, id) ensures NodeOk(cfg, pages', id, k, child, INVALID) {
      LowerLevels(levels, k, id);
      assert NodeOk(cfg, pages, id, k, root, root);
      CollapseParents(pages, pages', root, child, id);
      SameNode(cfg, pages, pages', id, k, root, root, child, INVALID);
    }
  }

  lemma CollapseParents(pages: Pages, pages': Pages, root: Id, child: Id, id: Id)
    requires child in pages && pages[child].parent == root && pages' == Collapse(pages, root, child) && id != root
    requires id in pages && (pages[id].Internal? ==> ParentOk(pages, id)) && root in pages
             && pages[root].parent == INVALID && id != INVALID
    ensures pages[id].Internal? ==> KeepsParents(pages, pages', pages[id].items)
  {
  }

  lemma CollapseLinks(cfg: Config, pages: Pages, levels: seq<Level>, root: Id, child: Id, levels': seq<Level>)
    requires NodesOk(cfg, pages, levels, root, root) && AllLinked(pages, levels) && TopIs(pages, levels, root)
             && Unique(levels)
    requires OneChild(pages, root, child) && levels' == levels[..|levels| - 1]
    ensures child in pages && AllLinked(Collapse(pages, root, child), levels')
  {
    CollapseTop(cfg, pages, levels, root, root, child);
    var pages' := Collapse(pages, root, child);
    forall k | 0 <= k < |levels'| - 1 ensures Linked(pages', levels', k) {
      assert Linked(pages, levels, k);
      forall id | OnLevel(levels, k + 1, id) ensures SameItems(pages, pages', id) {
        assert NodeOk(cfg, pages, id, k + 1, root, root);
      }
      StillLinked(pages, pages', levels, levels', k);
    }
  }

  lemma CollapsePlaces(pages: Pages, pages': Pages, levels: seq<Level>, levels': seq<Level>, root: Id, limit: Id)
    requires Unique(levels) && Covers(pages, levels, limit) && TopIs(pages, levels, root) && |levels| > 1
    requires levels' == levels[..|levels| - 1] && pages'.Keys == pages.Keys - {root}
    ensures Unique(levels') && Covers(pages', levels', limit)
  {
    forall k, l, id | OnLevel(levels', k, id) && OnLevel(levels', l, id) ensures k == l {
      LowerLevels(levels, k, id);
      LowerLevels(levels, l, id);
    }
    forall k | 0 <= k < |levels'| ensures NoDup(levels'[k]) { assert NoDup(levels[k]); }
    forall id | id in pages' ensures exists k :: OnLevel(levels', k, id) {
      assert id in pages.Keys && id != root;
      var k :| OnLevel(levels, k, id);
      LowerLevels(levels, k, id);
      assert OnLevel(levels', k, id);
    }
  }

  lemma CollapseKeepsTree(cfg: Config, pages: Pages, pages': Pages, root: Id, levels: seq<Level>, levels': seq<Level>,
                          limit: Id, child: Id)
    requires TreeInv(cfg, pages, root, levels, limit, root) && OneChild(pages, root, child)
    requires child in pages && pages' == Collapse(pages, root, child) && levels' == levels[..|levels| - 1]
    ensures TreeInv(cfg, pages', child, levels', limit, INVALID) && Content(pages', levels') == Content(pages, levels)
  {
    CollapseTop(cfg, pages, levels, root, root, child);
    CollapseLinks(cfg, pages, levels, root, child, levels');
    CollapseNodes(cfg, pages, levels, root, child);
    CollapsePlaces(pages, pages', levels, levels', root, limit);
    LeavesSame(pages, pages', levels[0]);
    ContentSame(pages, pages', levels, levels');
  }

  /** A page that has enough entries after all is not short. */
  lemma NotShort(cfg: Config, pages: Pages, root: Id, levels: seq<Level>, limit: Id, short: Id, k: nat)
    requires TreeInv(cfg, pages, root, levels, limit, short) && OnLevel(levels, k, short) && short in pages && 0 < k
    requires if short == root then Size(pages[short]) >= 2 else Size(pages[short]) >= cfg.Min(k)
    ensures TreeInv(cfg, pages, root, levels, limit, INVALID)
  {
    forall m, id | OnLevel(levels, m, id) ensures NodeOk(cfg, pages, id, m, root, INVALID) {
      assert NodeOk(cfg, pages, id, m, root, short);
    }
  }
}
