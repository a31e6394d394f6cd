/** Merging a page into its left neighbour: the level loses a place, the parent a child. */
module BTreeMerge {
  import opened BTree
  import opened BTreeFacts
  import opened BTreeSeparators

  // ----- a level loses a place -----

  lemma DelOnLevel(levels: seq<Level>, k: nat, i: nat, j: nat, id: Id)
    requires k < |levels| && i < |levels[k]| && NoDup(levels[k])
    ensures OnLevel(levels[k := Del(levels[k], i)], j, id) <==>
              OnLevel(levels, j, id) && !(j == k && id == levels[k][i].child)
  {
    var level := levels[k];
    var levels' := levels[k := Del(level, i)];
    if j == k {
      if OnLevel(levels', k, id) {
        var m := Position(levels', k, id);
        assert Del(level, i)[m] == level[if m < i then m else m + 1];
        AtLevel(levels, k, if m < i then m else m + 1);
      }
      if OnLevel(levels, k, id) && id != level[i].child {
        var m := Position(levels, k, id);
        AtLevel(levels', k, if m < i then m else m - 1);
      }
    } else if j < |levels| {
      assert levels'[j] == levels[j];
    }
  }

  lemma DelNoDup(level: Level, i: nat)
    requires NoDup(level) && i < |level|
    ensures NoDup(Del(level, i))
  {
    var level' := Del(level, i);
    forall a, b | 0 <= a < b < |level'| ensures level'[a].child != level'[b].child {
      assert level'[a] == level[if a < i then a else a + 1];
      assert level'[b] == level[if b < i then b else b + 1];
    }
  }

  lemma DelUnique(levels: seq<Level>, k: nat, i: nat)
    requires Unique(levels) && k < |levels| && i < |levels[k]|
    ensures Unique(levels[k := Del(levels[k], i)])
  {
    var levels' := levels[k := Del(levels[k], i)];
    assert NoDup(levels[k]);
    DelNoDup(levels[k], i);
    forall j | 0 <= j < |levels'| ensures NoDup(levels'[j]) { if j != k { assert NoDup(levels[j]); } }
    forall j, l, id | OnLevel(levels', j, id) && OnLevel(levels', l, id) ensures j == l {
      DelOnLevel(levels, k, i, j, id);
      DelOnLevel(levels, k, i, l, id);
    }
  }

  lemma DelCovers(pages: Pages, pages': Pages, levels: seq<Level>, limit: Id, k: nat, i: nat)
    requires Covers(pages, levels, limit) && k < |levels| && i < |levels[k]| && NoDup(levels[k])
    requires pages'.Keys == pages.Keys - {levels[k][i].child}
    ensures Covers(pages', levels[k := Del(levels[k], i)], limit)
  {
    var levels' := levels[k := Del(levels[k], i)];
    forall id | id in pages' ensures exists j :: OnLevel(levels', j, id) {
      assert id in pages.Keys && id != levels[k][i].child;
      var j :| OnLevel(levels, j, id);
      DelOnLevel(levels, k, i, j, id);
      assert OnLevel(levels', j, id);
    }
  }

  // ----- two neighbours under one parent -----

  /** The pages at `j` and `j + 1` of level `k` are children `d` and `d + 1` of the page at `p` above. */
  ghost predicate Neighbours(pages: Pages, levels: seq<Level>, k: nat, j: nat, p: nat, d: nat) {
    && At(pages, levels, k, j, p, d) && j + 1 < |levels[k]|
    && d + 1 < |pages[levels[k + 1][p].child].items|
    && var par := levels[k + 1][p].child;
       && levels[k][j].child in pages && levels[k][j + 1].child in pages
       && pages[levels[k][j].child].parent == par && pages[levels[k][j + 1].child].parent == par
       && pages[par].items[d].child == levels[k][j].child
       && pages[par].items[d + 1] == levels[k][j + 1]
  }

  lemma NeighboursOf(cfg: Config, pages: Pages, levels: seq<Level>, root: Id, short: Id, k: nat, i: nat, p: nat,
                     c: nat, d: nat, j: nat)
    requires NodesOk(cfg, pages, levels, root, short) && At(pages, levels, k, i, p, c) && j + c == i + d
    requires d + 1 < |pages[levels[k + 1][p].child].items|
    ensures Neighbours(pages, levels, k, j, p, d)
  {
    var par := levels[k + 1][p].child;
    var d1, j1, up := d + 1, j + 1, k + 1;
    Siblings(pages, levels, k, i, p, c, d, j);
    Siblings(pages, levels, k, i, p, c, d1, j1);
    PageOk(cfg, pages, levels, root, short, up, levels[up], p);
    assert levels[k][j].child == pages[par].items[d].child;
  }

  // ----- merging leaves -----

  /** The left leaf takes all entries; the right one goes. */
  function MergeLeaves(pages: Pages, left: Id, right: Id, par: Id, d: nat, entries: seq<Entry>): Pages
    requires left in pages && right in pages && par in pages && pages[left].Leaf? && pages[right].Leaf?
             && pages[par].Internal?
    requires d + 1 < |pages[par].items|
  {
    pages[left := Leaf(entries, pages[right].next,
                       pages[left].parent)][par := pages[par].(items := Del(pages[par].items, d + 1))] - {right}
  }

  lemma MergedLeaves(pages: Pages, pages': Pages, level: Level, j: nat, entries: seq<Entry>)
    requires LeavesOk(pages, level) && NoDup(level) && j + 1 < |level| && Sorted(entries)
    requires level[j].child in pages && level[j + 1].child in pages && pages[level[j].child].Leaf?
             && pages[level[j + 1].child].Leaf?
    requires multiset(entries) == multiset(pages[level[j].child].entries) + multiset(pages[level[j + 1].child].entries)
    requires level[j].child in pages' && pages'[level[j].child].Leaf?
    requires pages'[level[j].child].entries == entries && pages'[level[j].child].next == pages[level[j + 1].child].next
    requires forall id :: id in pages && pages[id].Leaf? && id != level[j].child && id != level[j + 1].child ==>
               id in pages' && pages'[id] == pages[id]
    ensures LeavesOk(pages', Del(level, j + 1))
  {
    var level' := Del(level, j + 1);
    assert LeafOk(pages, level, j) && LeafOk(pages, level, j + 1);
    forall a | 0 <= a < |level'| ensures LeafOk(pages', level', a) {
      var b := if a <= j then a else a + 1;
      assert level'[a] == level[b];
      assert LeafOk(pages, level, b);
      if a == j {
        forall e | e in entries
          ensures (0 < j ==> level[j].key <= e.key) && (j + 2 < |level| ==> e.key <= level[j + 2].key)
        {
          assert e in multiset(entries);
        }
      } else {
        assert level[b].child != level[j].child && level[b].child != level[j + 1].child;
      }
    }
  }

  lemma GatherApart(pages: Pages, pages': Pages, level: Level, j: nat)
    requires NoDup(level) && j + 1 < |level| && LeavesOk(pages, level)
    requires forall id :: id in pages && pages[id].Leaf? && id != level[j].child && id != level[j + 1].child ==>
               id in pages' && pages'[id] == pages[id]
    ensures Gather(pages', level[..j]) == Gather(pages, level[..j])
            && Gather(pages', level[j + 2..]) == Gather(pages, level[j + 2..])
  {
    var a, b := level[..j], level[j + 2..];
    forall i | 0 <= i < |level| && i != j && i != j + 1
      ensures EntriesOf(pages', level[i].child) == EntriesOf(pages, level[i].child)
    {
      assert LeafOk(pages, level, i);
      assert level[i].child != level[j].child && level[i].child != level[j + 1].child;
    }
    forall i | 0 <= i < |b| ensures EntriesOf(pages', b[i].child) == EntriesOf(pages, b[i].child) {
      assert b[i] == level[j + 2 + i];
    }
    forall i | 0 <= i < |a| ensures EntriesOf(pages', a[i].child) == EntriesOf(pages, a[i].child) {
      assert a[i] == level[i];
    }
    GatherSame(pages, pages', a, a);
    GatherSame(pages, pages', b, b);
  }

  lemma SameBag(a: seq<Entry>, l: seq<Entry>, r: seq<Entry>, b: seq<Entry>, m: seq<Entry>)
    requires multiset(m) == multiset(l) + multiset(r)
    ensures multiset(a + m + b) == multiset(a + (l + r) + b)
  {
  }

  lemma MergedGather(pages: Pages, pages': Pages, level: Level, j: nat, entries: seq<Entry>)
    requires NoDup(level) && j + 1 < |level| && LeavesOk(pages, level)
    requires multiset(entries) == multiset(EntriesOf(pages, level[j].child))
             + multiset(EntriesOf(pages, level[j + 1].child))
    requires EntriesOf(pages', level[j].child) == entries
    requires forall id :: id in pages && pages[id].Leaf? && id != level[j].child && id != level[j + 1].child ==>
               id in pages' && pages'[id] == pages[id]
    ensures multiset(Gather(pages', Del(level, j + 1))) == multiset(Gather(pages, level))
  {
    var a, b := level[..j], level[j + 2..];
    CutTwo(level, j);
    GatherTwo(pages, a, level[j], level[j + 1], b);
    assert Del(level, j + 1) == a + [level[j]] + b;
    GatherOne(pages', a, level[j], b);
    GatherApart(pages, pages', level, j);
    SameBag(Gather(pages, a), EntriesOf(pages, level[j].child), EntriesOf(pages, level[j + 1].child), Gather(pages, b),
            entries);
  }

  lemma GatherOne(pages: Pages, a: Level, x: Item, b: Level)
    ensures Gather(pages, a + [x] + b) == Gather(pages, a) + EntriesOf(pages, x.child) + Gather(pages, b)
  {
    var level := a + [x] + b;
    GatherAt(pages, level, |a|);
    assert level[..|a|] == a && level[|a| + 1..] == b;
  }

  lemma GatherTwo(pages: Pages, a: Level, x: Item, y: Item, b: Level)
    ensures Gather(pages, a + [x, y] + b) == Gather(pages, a) + (EntriesOf(pages, x.child) + EntriesOf(pages, y.child))
            + Gather(pages, b)
  {
    assert a + [x] + [y] + b == a + [x, y] + b;
    GatherOne(pages, a + [x], y, b);
    GatherEnd(pages, a, x);
  }

  lemma GatherEnd(pages: Pages, a: Level, x: Item)
    ensures Gather(pages, a + [x]) == Gather(pages, a) + EntriesOf(pages, x.child)
  {
    GatherConcat(pages, a, [x]);
    assert [x][1..] == [];
  }

  // ----- merging, at any level -----

  /** The entries of an internal page and of its right neighbour, whose first separator comes down
      from the parent. */
  function Joined(left: seq<Item>, key: int, right: seq<Item>): seq<Item>
    requires |right| > 0
  {
    left + [Item(key, right[0].child)] + right[1..]
  }

  /** Whoever was a child of the right page is a child of the left one now. */
  ghost predicate Adopted(pages: Pages, pages': Pages, left: Id, right: Id, par: Id)
    requires right in pages
  {
    forall id :: id in pages && id != left && id != right && id != par ==>
      id in pages' && pages'[id] == (if pages[right].Internal?
        && IsChild(pages[right].items, id) then pages[id].(parent := left) else pages[id])
  }

  ghost predicate Merges(pages: Pages, pages': Pages, levels: seq<Level>, k: nat, j: nat, p: nat, d: nat) {
    && Neighbours(pages, levels, k, j, p, d)
    && var left := levels[k][j].child;
       var right := levels[k][j + 1].child;
       var par := levels[k + 1][p].child;
       && left in pages' && par in pages'
       && pages'.Keys == pages.Keys - {right}
       && pages'[par] == pages[par].(items := Del(pages[par].items, d + 1))
       && pages'[left].parent == par
       && Size(pages'[left]) == Size(pages[left]) + Size(pages[right])
       && (if k == 0 then pages[left].Leaf? && pages[right].Leaf? && pages'[left].Leaf?
           else pages[left].Internal? && pages[right].Internal? && |pages[right].items| > 0 && |pages[left].items| > 0
                && pages'[left] == Internal(Joined(pages[left].items, levels[k][j + 1].key, pages[right].items), par))
       && Adopted(pages, pages', left, right, par)
  }

  /** A page, its neighbour and their parent are three pages. */
  lemma ThreePages(pages: Pages, levels: seq<Level>, k: nat, j: nat, p: nat, d: nat)
    requires Neighbours(pages, levels, k, j, p, d) && Unique(levels)
    ensures var left := levels[k][j].child; var right := levels[k][j + 1].child; var par := levels[k + 1][p].child;
            left != right && left != par && right != par
            && OnLevel(levels, k, left) && OnLevel(levels, k, right) && OnLevel(levels, k + 1, par)
  {
    AtLevel(levels, k, j);
    AtLevel(levels, k, j + 1);
    AtLevel(levels, k + 1, p);
    assert NoDup(levels[k]);
  }

  lemma ChildIsBelow(cfg: Config, pages: Pages, levels: seq<Level>, root: Id, short: Id, k: nat, id: Id, c: nat)
    requires NodesOk(cfg, pages, levels, root, short) && AllLinked(pages, levels) && k + 1 < |levels|
    requires OnLevel(levels, k + 1, id) && id in pages && pages[id].Internal? && c < |pages[id].items|
    ensures pages[id].items[c].child in pages && pages[pages[id].items[c].child].parent == id
    ensures OnLevel(levels, k, pages[id].items[c].child)
  {
    var up := k + 1;
    assert NodeOk(cfg, pages, id, up, root, short);
    var p := Position(levels, up, id);
    BelowIs(pages, levels, up, k);
    ChildInFlat(pages, levels[up], levels[k], p, c);
    AtLevel(levels, k, |Flat(pages, levels[up][..p])| + c);
  }

  lemma ChildInFlat(pages: Pages, above: Level, flat: Level, p: nat, c: nat)
    requires p < |above| && flat == Flat(pages, above) && above[p].child in pages && pages[above[p].child].Internal?
    requires c < |pages[above[p].child].items|
    ensures var at := |Flat(pages, above[..p])| + c;
            at < |flat| && flat[at].child == pages[above[p].child].items[c].child
  {
    FlatAt(pages, above, p);
    MiddleAt(Flat(pages, above[..p]), Expand(pages, above[p]), Flat(pages, above[p + 1..]), c);
  }

  /** A page lists each child once. */
  lemma ChildrenDiffer(cfg: Config, pages: Pages, levels: seq<Level>, root: Id, short: Id, k: nat, id: Id)
    requires NodesOk(cfg, pages, levels, root, short) && AllLinked(pages, levels) && Unique(levels) && k + 1 < |levels|
    requires OnLevel(levels, k + 1, id) && id in pages && pages[id].Internal?
    ensures forall a, b :: 0 <= a < b < |pages[id].items| ==> pages[id].items[a].child != pages[id].items[b].child
  {
    var up := k + 1;
    var p := Position(levels, up, id);
    BelowIs(pages, levels, up, k);
    assert NoDup(levels[k]);
    forall a, b | 0 <= a < b < |pages[id].items| ensures pages[id].items[a].child != pages[id].items[b].child {
      ChildInFlat(pages, levels[up], levels[k], p, a);
      ChildInFlat(pages, levels[up], levels[k], p, b);
    }
  }

  lemma MergeOther(cfg: Config, pages: Pages, pages': Pages, levels: seq<Level>, k: nat, j: nat, p: nat, d: nat,
                   root: Id, short: Id, short': Id, m: nat, id: Id)
    requires Merges(pages, pages', levels, k, j, p, d) && NodeOk(cfg, pages, id, m, root, short)
    requires id != levels[k][j].child && id != levels[k][j + 1].child && id != levels[k + 1][p].child
    requires id != short && id != short'
             && (pages[levels[k][j + 1].child].Internal? ==> ParentOk(pages, levels[k][j + 1].child))
    ensures NodeOk(cfg, pages', id, m, root, short')
  {
    var left, right, par := levels[k][j].child, levels[k][j + 1].child, levels[k + 1][p].child;
    if m > 0 {
      forall c | 0 <= c < |pages[id].items| && pages[id].items[c].child in pages
        ensures pages[id].items[c].child in pages'
                && pages'[pages[id].items[c].child].parent == pages[pages[id].items[c].child].parent
      {
        var ch := pages[id].items[c].child;
        assert pages[ch].parent == id;
        assert pages[right].parent == par;
      }
    }
    SameNode(cfg, pages, pages', id, m, root, short, root, short');
  }

  lemma MergeParentChildren(cfg: Config, pages: Pages, pages': Pages, levels: seq<Level>, k: nat, j: nat, p: nat,
                            d: nat, root: Id, short: Id, par: Id, b: nat)
    requires Merges(pages, pages', levels, k, j, p, d) && Unique(levels) && NodesOk(cfg, pages, levels, root, short)
    requires AllLinked(pages, levels) && par == levels[k + 1][p].child && b < |pages[par].items| && b != d + 1
    ensures pages[par].items[b].child in pages' && pages'[pages[par].items[b].child].parent == par
  {
    ThreePages(pages, levels, k, j, p, d);
    ChildrenDiffer(cfg, pages, levels, root, short, k, par);
    ChildIsBelow(cfg, pages, levels, root, short, k, par, b);
    assert pages[par].items[b].child != levels[k][j + 1].child;
    var id := pages[par].items[b].child;
    if pages[levels[k][j + 1].child].Internal? && IsChild(pages[levels[k][j + 1].child].items, id) {
      assert NodeOk(cfg, pages, levels[k][j + 1].child, k, root, short);
    }
  }

  lemma MergeParent(cfg: Config, pages: Pages, pages': Pages, levels: seq<Level>, k: nat, j: nat, p: nat, d: nat,
                    root: Id, short: Id)
    requires Merges(pages, pages', levels, k, j, p, d) && Unique(levels) && NodesOk(cfg, pages, levels, root, short)
    requires AllLinked(pages, levels) && short != levels[k + 1][p].child && cfg.Ok()
    ensures NodeOk(cfg, pages', levels[k + 1][p].child, k + 1, root, levels[k + 1][p].child)
  {
    var par, up := levels[k + 1][p].child, k + 1;
    AtLevel(levels, up, p);
    assert NodeOk(cfg, pages, par, up, root, short);
    var items := pages[par].items;
    var rest := Del(items, d + 1);
    forall a | 0 <= a < |rest| ensures rest[a].child in pages' && pages'[rest[a].child].parent == par {
      var b := if a < d + 1 then a else a + 1;
      assert rest[a] == items[b];
      MergeParentChildren(cfg, pages, pages', levels, k, j, p, d, root, short, par, b);
    }
  }

  lemma SamePlaceOrNot(level: Level, i: nat, j: nat)
    requires NoDup(level) && i < |level| && j < |level|
    ensures i != j ==> level[i].child != level[j].child
  {
  }

  lemma MergeLeft(cfg: Config, pages: Pages, pages': Pages, levels: seq<Level>, k: nat, j: nat, p: nat, d: nat,
                  root: Id, short: Id, short': Id)
    requires Merges(pages, pages', levels, k, j, p, d) && Unique(levels) && NodesOk(cfg, pages, levels, root, short)
    requires AllLinked(pages, levels) && cfg.Ok() && levels[k][j].child != root && levels[k][j + 1].child != root
    requires short == levels[k][j].child || short == levels[k][j + 1].child
    requires Size(pages[levels[k][j].child]) + Size(pages[levels[k][j + 1].child]) <= cfg.Max(k)
    ensures NodeOk(cfg, pages', levels[k][j].child, k, root, short')
  {
    var left, right, par := levels[k][j].child, levels[k][j + 1].child, levels[k + 1][p].child;
    ThreePages(pages, levels, k, j, p, d);
    assert NodeOk(cfg, pages, left, k, root, short);
    assert NodeOk(cfg, pages, right, k, root, short);
    if k > 0 {
      var l, r := pages[left].items, pages[right].items;
      var all := Joined(l, levels[k][j + 1].key, r);
      forall a | 0 <= a < |all| ensures all[a].child in pages' && pages'[all[a].child].parent == left {
        if a < |l| {
          assert all[a] == l[a];
          ChildIsBelow(cfg, pages, levels, root, short, k - 1, left, a);
          NotBoth(pages, left, right, l[a].child, r) by { assert ParentOk(pages, right); }
        } else {
          assert all[a].child == r[a - |l|].child;
          ChildIsBelow(cfg, pages, levels, root, short, k - 1, right, a - |l|);
          assert IsChild(r, all[a].child);
        }
      }
    }
  }

  lemma NotBoth(pages: Pages, left: Id, right: Id, id: Id, items: seq<Item>)
    requires left != right && id in pages && pages[id].parent == left
    requires right in pages && pages[right].Internal? && items == pages[right].items && ParentOk(pages, right)
    ensures !IsChild(items, id)
  {
  }

  lemma MergeNodes(cfg: Config, pages: Pages, pages': Pages, levels: seq<Level>, k: nat, j: nat, p: nat, d: nat,
                   root: Id, short: Id)
    requires Merges(pages, pages', levels, k, j, p, d) && Unique(levels) && NodesOk(cfg, pages, levels, root, short)
    requires AllLinked(pages, levels) && cfg.Ok() && levels[k][j].child != root && levels[k][j + 1].child != root
    requires short == levels[k][j].child || short == levels[k][j + 1].child
    requires Size(pages[levels[k][j].child]) + Size(pages[levels[k][j + 1].child]) <= cfg.Max(k)
    ensures NodesOk(cfg, pages', levels[k := Del(levels[k], j + 1)], root, levels[k + 1][p].child)
  {
    var levels' := levels[k := Del(levels[k], j + 1)];
    var left, right, par := levels[k][j].child, levels[k][j + 1].child, levels[k + 1][p].child;
    ThreePages(pages, levels, k, j, p, d);
    assert NoDup(levels[k]);
    forall m, id | OnLevel(levels', m, id) ensures NodeOk(cfg, pages', id, m, root, par) {
      DelOnLevel(levels, k, j + 1, m, id);
      assert NodeOk(cfg, pages, id, m, root, short);
      if id == par {
        assert m == k + 1;
        MergeParent(cfg, pages, pages', levels, k, j, p, d, root, short);
      } else if id == left {
        assert m == k;
        MergeLeft(cfg, pages, pages', levels, k, j, p, d, root, short, par);
      } else {
        assert NodeOk(cfg, pages, right, k, root, short);
        MergeOther(cfg, pages, pages', levels, k, j, p, d, root, short, par, m, id);
      }
    }
  }

  lemma JoinExpand(pages: Pages, pages': Pages, x: Item, y: Item)
    requires x.child in pages && y.child in pages && pages[x.child].Internal? && pages[y.child].Internal?
    requires |pages[x.child].items| > 0 && |pages[y.child].items| > 0
    requires x.child in pages' && pages'[x.child].Internal?
             && pages'[x.child].items == Joined(pages[x.child].items, y.key, pages[y.child].items)
    ensures Expand(pages', x) == Expand(pages, x) + Expand(pages, y)
  {
    var l, r := pages[x.child].items, pages[y.child].items;
    var all := Joined(l, y.key, r);
    assert all[1..] == l[1..] + ([Item(y.key, r[0].child)] + r[1..]);
  }

  lemma FlatAround(pages: Pages, a: Level, x: Item, y: Item, b: Level)
    ensures Flat(pages, a + [x, y] + b) == Flat(pages, a) + (Expand(pages, x) + Expand(pages, y)) + Flat(pages, b)
  {
    FlatThree(pages, a, [x, y], b);
    FlatTwo(pages, x, y);
  }

  /** The level below a merge reads as before. */
  lemma JoinLink(pages: Pages, pages': Pages, level: Level, j: nat)
    requires j + 1 < |level|
    requires var x, y := level[j], level[j + 1];
             && x.child in pages && y.child in pages && pages[x.child].Internal? && pages[y.child].Internal?
             && |pages[x.child].items| > 0 && |pages[y.child].items| > 0
             && x.child in pages' && pages'[x.child].Internal?
             && pages'[x.child].items == Joined(pages[x.child].items, y.key, pages[y.child].items)
    requires forall i :: 0 <= i < |level| && i != j && i != j + 1 ==> SameItems(pages, pages', level[i].child)
    ensures Flat(pages', Del(level, j + 1)) == Flat(pages, level)
  {
    var a, x, y, b := level[..j], level[j], level[j + 1], level[j + 2..];
    assert level == a + [x, y] + b && Del(level, j + 1) == a + [x] + b;
    FlatAround(pages, a, x, y, b);
    forall i | 0 <= i < |b| ensures SameItems(pages, pages', b[i].child) { assert b[i] == level[j + 2 + i]; }
    forall i | 0 <= i < |a| ensures SameItems(pages, pages', a[i].child) { assert a[i] == level[i]; }
    FlatMiddle(pages, pages', a, [x], b);
    FlatOne(pages', x);
    JoinExpand(pages, pages', x, y);
  }

  lemma AdoptedSame(cfg: Config, pages: Pages, pages': Pages, levels: seq<Level>, k: nat, j: nat, p: nat, d: nat,
                    root: Id, short: Id, m: nat, id: Id)
    requires Merges(pages, pages', levels, k, j, p, d) && NodesOk(cfg, pages, levels, root, short)
             && OnLevel(levels, m, id)
    requires id != levels[k][j].child && id != levels[k][j + 1].child && id != levels[k + 1][p].child
    ensures SameItems(pages, pages', id)
  {
    assert NodeOk(cfg, pages, id, m, root, short);
  }

  lemma MergeOthersKeep(cfg: Config, pages: Pages, pages': Pages, levels: seq<Level>, k: nat, j: nat, p: nat, d: nat,
                        root: Id, short: Id, up: nat, above: Level)
    requires Merges(pages, pages', levels, k, j, p, d) && NodesOk(cfg, pages, levels, root, short) && Unique(levels)
             && up == k + 1 && above == levels[up]
    ensures OthersKeep(pages, pages', above, p)
  {
    ThreePages(pages, levels, k, j, p, d);
    assert NoDup(levels[up]);
    forall i | 0 <= i < |above| && i != p ensures SameItems(pages, pages', above[i].child) {
      AtLevel(levels, up, i);
      SamePlaceOrNot(above, i, p);
      AdoptedSame(cfg, pages, pages', levels, k, j, p, d, root, short, up, above[i].child);
    }
  }

  lemma MergeDropLink(cfg: Config, pages: Pages, pages': Pages, levels: seq<Level>, k: nat, j: nat, p: nat, d: nat,
                      root: Id, short: Id, up: nat, above: Level)
    requires Merges(pages, pages', levels, k, j, p, d) && NodesOk(cfg, pages, levels, root, short) && Unique(levels)
             && up == k + 1 && above == levels[up]
    ensures Del(levels[k], j + 1) == Flat(pages', above)
  {
    MergeOthersKeep(cfg, pages, pages', levels, k, j, p, d, root, short, up, above);
    AtIsFlat(pages, levels, k, j, p, d);
    DropLink(pages, pages', above, levels[k], p, d + 1, j + 1);
  }

  lemma MergeJoinLink(cfg: Config, pages: Pages, pages': Pages, levels: seq<Level>, k: nat, j: nat, p: nat, d: nat,
                      root: Id, short: Id, level: Level)
    requires Merges(pages, pages', levels, k, j, p, d) && NodesOk(cfg, pages, levels, root, short) && Unique(levels)
             && 0 < k && level == levels[k]
    ensures Flat(pages', Del(level, j + 1)) == Flat(pages, level)
  {
    ThreePages(pages, levels, k, j, p, d);
    assert NoDup(levels[k]);
    forall i | 0 <= i < |level| && i != j && i != j + 1 ensures SameItems(pages, pages', level[i].child) {
      AtLevel(levels, k, i);
      SamePlaceOrNot(level, i, j);
      SamePlaceOrNot(level, i, j + 1);
      AdoptedSame(cfg, pages, pages', levels, k, j, p, d, root, short, k, level[i].child);
    }
    JoinLink(pages, pages', level, j);
  }

  lemma MergeKeepsLevel(cfg: Config, pages: Pages, pages': Pages, levels: seq<Level>, k: nat, j: nat, p: nat, d: nat,
                        root: Id, short: Id, m: nat)
    requires Merges(pages, pages', levels, k, j, p, d) && NodesOk(cfg, pages, levels, root, short) && Unique(levels)
             && m != k && m != k + 1
    ensures forall id :: OnLevel(levels, m, id) ==> SameItems(pages, pages', id)
  {
    ThreePages(pages, levels, k, j, p, d);
    forall id | OnLevel(levels, m, id) ensures SameItems(pages, pages', id) {
      AdoptedSame(cfg, pages, pages', levels, k, j, p, d, root, short, m, id);
    }
  }

  lemma MergeOtherLink(cfg: Config, pages: Pages, pages': Pages, levels: seq<Level>, levels': seq<Level>, k: nat,
                       j: nat, p: nat, d: nat, root: Id, short: Id, m: nat)
    requires Merges(pages, pages', levels, k, j, p, d) && NodesOk(cfg, pages, levels, root, short) && Unique(levels)
    requires m + 1 < |levels| && Linked(pages, levels, m) && m != k && m + 1 != k && |levels'| == |levels|
    requires levels'[m] == levels[m] && levels'[m + 1] == levels[m + 1]
    ensures Linked(pages', levels', m)
  {
    var up := m + 1;
    MergeKeepsLevel(cfg, pages, pages', levels, k, j, p, d, root, short, up);
    StillLinked(pages, pages', levels, levels', m);
  }

  lemma MergeLinkHere(cfg: Config, pages: Pages, pages': Pages, levels: seq<Level>, levels': seq<Level>, k: nat,
                      j: nat, p: nat, d: nat, root: Id, short: Id)
    requires Merges(pages, pages', levels, k, j, p, d) && NodesOk(cfg, pages, levels, root, short) && Unique(levels)
    requires |levels'| == |levels| && levels'[k] == Del(levels[k], j + 1) && levels'[k + 1] == levels[k + 1]
    ensures Linked(pages', levels', k)
  {
    var up := k + 1;
    MergeDropLink(cfg, pages, pages', levels, k, j, p, d, root, short, up, levels[up]);
  }

  lemma MergeLinkBelow(cfg: Config, pages: Pages, pages': Pages, levels: seq<Level>, levels': seq<Level>, k: nat,
                       m: nat, j: nat, p: nat, d: nat, root: Id, short: Id)
    requires Merges(pages, pages', levels, k, j, p, d) && NodesOk(cfg, pages, levels, root, short) && Unique(levels)
             && m + 1 == k
    requires levels[m] == Flat(pages, levels[k])
    requires |levels'| == |levels| && levels'[k] == Del(levels[k], j + 1) && levels'[m] == levels[m]
    ensures Linked(pages', levels', m)
  {
    MergeJoinLink(cfg, pages, pages', levels, k, j, p, d, root, short, levels[k]);
    IsLinked(pages', levels', m, k);
  }

  lemma MergeOtherLinks(cfg: Config, pages: Pages, pages': Pages, levels: seq<Level>, levels': seq<Level>, k: nat,
                        j: nat, p: nat, d: nat, root: Id, short: Id)
    requires Merges(pages, pages', levels, k, j, p, d) && NodesOk(cfg, pages, levels, root, short) && Unique(levels)
             && AllLinked(pages, levels)
    requires |levels'| == |levels| && forall m :: 0 <= m < |levels| && m != k ==> levels'[m] == levels[m]
    ensures forall m :: 0 <= m < |levels'| - 1 && m != k && m + 1 != k ==> Linked(pages', levels', m)
  {
    forall m | 0 <= m < |levels'| - 1 && m != k && m + 1 != k ensures Linked(pages', levels', m) {
      assert Linked(pages, levels, m);
      MergeOtherLink(cfg, pages, pages', levels, levels', k, j, p, d, root, short, m);
    }
  }

  lemma MergeLinks(cfg: Config, pages: Pages, pages': Pages, levels: seq<Level>, levels': seq<Level>, k: nat, j: nat,
                   p: nat, d: nat, root: Id, short: Id)
    requires Merges(pages, pages', levels, k, j, p, d) && NodesOk(cfg, pages, levels, root, short) && Unique(levels)
             && AllLinked(pages, levels)
    requires levels' == levels[k := Del(levels[k], j + 1)]
    ensures AllLinked(pages', levels')
  {
    MergeLinkHere(cfg, pages, pages', levels, levels', k, j, p, d, root, short);
    MergeOtherLinks(cfg, pages, pages', levels, levels', k, j, p, d, root, short);
    if k > 0 {
      var m := k - 1;
      BelowIs(pages, levels, k, m);
      MergeLinkBelow(cfg, pages, pages', levels, levels', k, m, j, p, d, root, short);
      LinksMeet(pages', levels', k, m);
    } else {
      LinksMeet(pages', levels', k, k);
    }
  }

  lemma LinksMeet(pages: Pages, levels: seq<Level>, k: nat, m: nat)
    requires (m + 1 == k || m == k == 0) && k + 1 < |levels| && Linked(pages, levels, k) && Linked(pages, levels, m)
    requires forall a :: 0 <= a < |levels| - 1 && a != k && a + 1 != k ==> Linked(pages, levels, a)
    ensures AllLinked(pages, levels)
  {
  }

  lemma MergeTop(cfg: Config, pages: Pages, pages': Pages, levels: seq<Level>, k: nat, j: nat, p: nat, d: nat, root: Id)
    requires Merges(pages, pages', levels, k, j, p, d) && Unique(levels) && TopIs(pages, levels, root)
    requires INVALID !in pages && (pages[levels[k][j + 1].child].Internal? ==> ParentOk(pages, levels[k][j + 1].child))
    ensures levels[k][j].child != root && levels[k][j + 1].child != root
    ensures TopIs(pages', levels[k := Del(levels[k], j + 1)], root)
  {
    ThreePages(pages, levels, k, j, p, d);
    var right, par := levels[k][j + 1].child, levels[k + 1][p].child;
    AtLevel(levels, |levels| - 1, 0);
    assert levels[k := Del(levels[k], j + 1)][|levels| - 1] == levels[|levels| - 1];
  }

  lemma MergePlaces(pages: Pages, pages': Pages, levels: seq<Level>, k: nat, j: nat, p: nat, d: nat, limit: Id)
    requires Merges(pages, pages', levels, k, j, p, d) && Unique(levels) && Covers(pages, levels, limit)
    ensures Unique(levels[k := Del(levels[k], j + 1)]) && Covers(pages', levels[k := Del(levels[k], j + 1)], limit)
  {
    DelUnique(levels, k, j + 1);
    assert NoDup(levels[k]);
    DelCovers(pages, pages', levels, limit, k, j + 1);
  }

  /** Everything but the leaves' order. */
  /** One of the two pages is short, and both together fit in one. */
  ghost predicate MergeFits(cfg: Config, pages: Pages, levels: seq<Level>, k: nat, j: nat, short: Id) {
    && k < |levels| && j + 1 < |levels[k]|
    && var left, right := levels[k][j].child, levels[k][j + 1].child;
       && (short == left || short == right) && left in pages && right in pages
       && Size(pages[left]) + Size(pages[right]) <= cfg.Max(k)
  }

  ghost predicate PageAt(levels: seq<Level>, k: nat, p: nat, id: Id) {
    k < |levels| && p < |levels[k]| && levels[k][p].child == id
  }

  /** Places `j` and `j + 1` of level `k` become one, below the page `par` at `p` of level `m`. */
  ghost predicate MergeReady(cfg: Config, pages: Pages, pages': Pages, levels: seq<Level>, levels': seq<Level>,
                             short: Id, k: nat, m: nat, j: nat, p: nat, d: nat, par: Id) {
    && Merges(pages, pages', levels, k, j, p, d) && MergeFits(cfg, pages, levels, k, j, short)
    && m == k + 1 && PageAt(levels, m, p, par)
    && levels' == levels[k := Del(levels[k], j + 1)]
  }

  lemma MergeStructure(cfg: Config, pages: Pages, pages': Pages, root: Id, levels: seq<Level>, levels': seq<Level>,
                       limit: Id, short: Id, k: nat, m: nat, j: nat, p: nat, d: nat, par: Id)
    requires TreeInv(cfg, pages, root, levels, limit, short)
    requires MergeReady(cfg, pages, pages', levels, levels', short, k, m, j, p, d, par)
    ensures TopIs(pages', levels', root) && AllLinked(pages', levels') && Unique(levels')
            && Covers(pages', levels', limit)
    ensures NodesOk(cfg, pages', levels', root, par)
  {
    ThreePages(pages, levels, k, j, p, d);
    assert NodeOk(cfg, pages, levels[k][j + 1].child, k, root, short);
    MergeTop(cfg, pages, pages', levels, k, j, p, d, root);
    MergeLinks(cfg, pages, pages', levels, levels', k, j, p, d, root, short);
    MergeNodes(cfg, pages, pages', levels, k, j, p, d, root, short);
    MergePlaces(pages, pages', levels, k, j, p, d, limit);
  }

  /** Merging internal pages. */
  lemma InternalMergeKeepsTree(cfg: Config, pages: Pages, pages': Pages, root: Id, levels: seq<Level>,
                               levels': seq<Level>, limit: Id, short: Id, k: nat, m: nat, j: nat, p: nat, d: nat,
                               par: Id)
    requires TreeInv(cfg, pages, root, levels, limit, short) && 0 < k
    requires MergeReady(cfg, pages, pages', levels, levels', short, k, m, j, p, d, par)
    ensures TreeInv(cfg, pages', root, levels', limit, par) && Content(pages', levels') == Content(pages, levels)
  {
    MergeStructure(cfg, pages, pages', root, levels, levels', limit, short, k, m, j, p, d, par);
    MergeKeepsLeaves(pages, pages', levels, k, j, p, d);
    LeavesSame(pages, pages', levels[0]);
    ContentSame(pages, pages', levels, levels');
  }

  lemma MergeKeepsLeaves(pages: Pages, pages': Pages, levels: seq<Level>, k: nat, j: nat, p: nat, d: nat)
    requires Merges(pages, pages', levels, k, j, p, d) && 0 < k
    ensures forall id :: id in pages && pages[id].Leaf? ==> id in pages' && SameBody(pages[id], pages'[id])
  {
  }

  ghost predicate LeafPair(pages: Pages, levels: seq<Level>, j: nat, p: nat, d: nat, entries: seq<Entry>) {
    && Neighbours(pages, levels, 0, j, p, d)
    && pages[levels[0][j].child].Leaf? && pages[levels[0][j + 1].child].Leaf? && Sorted(entries)
    && multiset(entries) == multiset(pages[levels[0][j].child].entries)
      + multiset(pages[levels[0][j + 1].child].entries)
    && |entries| == |pages[levels[0][j].child].entries| + |pages[levels[0][j + 1].child].entries|
  }

  lemma LeavesMerge(pages: Pages, pages': Pages, levels: seq<Level>, j: nat, p: nat, d: nat, entries: seq<Entry>)
    requires LeafPair(pages, levels, j, p, d, entries) && Unique(levels)
    requires pages' == MergeLeaves(pages, levels[0][j].child, levels[0][j + 1].child, levels[1][p].child, d, entries)
    ensures Merges(pages, pages', levels, 0, j, p, d)
  {
    ThreePages(pages, levels, 0, j, p, d);
  }

  lemma LeavesMergeOrder(pages: Pages, pages': Pages, levels: seq<Level>, levels': seq<Level>, j: nat, p: nat, d: nat,
                         entries: seq<Entry>)
    requires LeafPair(pages, levels, j, p, d, entries) && Unique(levels) && LeavesOk(pages, levels[0])
    requires levels' == levels[0 := Del(levels[0], j + 1)]
    requires pages' == MergeLeaves(pages, levels[0][j].child, levels[0][j + 1].child, levels[1][p].child, d, entries)
    ensures LeavesOk(pages', levels'[0]) && Content(pages', levels') == Content(pages, levels)
  {
    ThreePages(pages, levels, 0, j, p, d);
    assert NoDup(levels[0]);
    MergedLeaves(pages, pages', levels[0], j, entries);
    MergedGather(pages, pages', levels[0], j, entries);
  }

  lemma LeafMergeIs(pages: Pages, pages': Pages, levels: seq<Level>, levels': seq<Level>, j: nat, p: nat, d: nat,
                    entries: seq<Entry>)
    requires LeafPair(pages, levels, j, p, d, entries) && Unique(levels) && LeavesOk(pages, levels[0])
    requires pages' == MergeLeaves(pages, levels[0][j].child, levels[0][j + 1].child, levels[1][p].child, d, entries)
    requires levels' == levels[0 := Del(levels[0], j + 1)]
    ensures Merges(pages, pages', levels, 0, j, p, d)
    ensures LeavesOk(pages', levels'[0]) && Content(pages', levels') == Content(pages, levels)
  {
    LeavesMerge(pages, pages', levels, j, p, d, entries);
    LeavesMergeOrder(pages, pages', levels, levels', j, p, d, entries);
  }

  lemma TreeFromParts(cfg: Config, pages: Pages, root: Id, levels: seq<Level>, limit: Id, short: Id)
    requires cfg.Ok() && TopIs(pages, levels, root) && AllLinked(pages, levels)
             && NodesOk(cfg, pages, levels, root, short)
    requires Unique(levels) && Covers(pages, levels, limit) && LeavesOk(pages, levels[0])
    ensures TreeInv(cfg, pages, root, levels, limit, short)
  {
  }

  ghost predicate LeavesInOrder(pages: Pages, levels: seq<Level>) { |levels| > 0 && LeavesOk(pages, levels[0]) }

  /** Merging leaves. */
  lemma LeafMergeKeepsTree(cfg: Config, pages: Pages, pages': Pages, root: Id, levels: seq<Level>, levels': seq<Level>,
                           limit: Id, short: Id, k: nat, m: nat, j: nat, p: nat, d: nat, par: Id)
    requires TreeInv(cfg, pages, root, levels, limit, short) && k == 0
    requires MergeReady(cfg, pages, pages', levels, levels', short, k, m, j, p, d, par)
             && LeavesInOrder(pages', levels')
    ensures TreeInv(cfg, pages', root, levels', limit, par)
  {
    MergeStructure(cfg, pages, pages', root, levels, levels', limit, short, k, m, j, p, d, par);
    TreeFromParts(cfg, pages', root, levels', limit, par);
  }
}
