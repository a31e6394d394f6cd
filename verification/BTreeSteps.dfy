/** What each method of the index does, and that it leads from a well-formed tree to the next. */
module BTreeSteps {
  import opened BTree
  import opened BTreeFacts
  import opened BTreeInsert
  import opened BTreeSeparators
  import opened BTreeMerge

  datatype Status = Ok | AlreadyExists | NotFound | InvalidArgument

  /** A page split off to the right, and the separator before it. */
  datatype Split = NoSplit | Split(separator: int, rightId: Id)

  // ----- descent -----

  /** The pages from the root down to the parent of `id`, a page of level `k`. */
  ghost predicate PathOk(pages: Pages, levels: seq<Level>, path: seq<Id>, id: Id, k: nat) {
    && k < |levels| && |path| == |levels| - 1 - k
    && OnLevel(levels, k, id) && id in pages
    && (forall a :: 0 <= a < |path| ==> path[a] in pages && OnLevel(levels, |levels| - 1 - a, path[a]))
    && (forall a :: 0 <= a < |path| ==> ParentIs(pages, Next(path, id, a), path[a]))
  }

  /** The page after step `a` of the path. */
  function Next(path: seq<Id>, id: Id, a: nat): Id {
    if a + 1 < |path| then path[a + 1] else id
  }

  predicate ParentIs(pages: Pages, id: Id, par: Id) {
    id in pages && pages[id].parent == par
  }

  lemma PathDown(pages: Pages, levels: seq<Level>, path: seq<Id>, id: Id, k: nat, child: Id)
    requires PathOk(pages, levels, path, id, k) && 0 < k && OnLevel(levels, k - 1, child) && ParentIs(pages, child, id)
    ensures PathOk(pages, levels, path + [id], child, k - 1)
  {
    var path' := path + [id];
    forall a | 0 <= a < |path'| ensures path'[a] in pages && OnLevel(levels, |levels| - 1 - a, path'[a]) {
      if a < |path| { assert path'[a] == path[a]; }
    }
    forall a | 0 <= a < |path'| ensures ParentIs(pages, Next(path', child, a), path'[a]) {
      if a < |path| { assert ParentIs(pages, Next(path, id, a), path[a]); }
    }
  }

  lemma PathUp(pages: Pages, pages': Pages, levels: seq<Level>, levels': seq<Level>, path: seq<Id>, id: Id, k: nat)
    requires PathOk(pages, levels, path, id, k) && path != []
    requires |levels'| == |levels| && forall m, d :: OnLevel(levels, m, d) ==> OnLevel(levels', m, d)
    requires forall m, d :: m > k && OnLevel(levels, m, d) && d in pages ==>
               d in pages' && pages'[d].parent == pages[d].parent
    ensures PathOk(pages', levels', path[..|path| - 1], path[|path| - 1], k + 1)
  {
    var path', last := path[..|path| - 1], path[|path| - 1];
    forall a | 0 <= a < |path| ensures path[a] in pages' && OnLevel(levels', |levels| - 1 - a, path[a]) {
      assert OnLevel(levels, |levels| - 1 - a, path[a]);
    }
    forall a | 0 <= a < |path'| ensures ParentIs(pages', Next(path', last, a), path'[a]) {
      assert Next(path', last, a) == path[a + 1];
      assert ParentIs(pages, Next(path, id, a), path[a]);
      assert OnLevel(levels, |levels| - 1 - (a + 1), path[a + 1]);
    }
  }

  lemma Descend(cfg: Config, pages: Pages, levels: seq<Level>, root: Id, k: nat, m: nat, p: nat, c: nat, key: int)
      returns (q: nat)
    requires NodesOk(cfg, pages, levels, root, INVALID) && AllLinked(pages, levels) && m + 1 == k && k < |levels|
             && Lands(levels[k], p, key)
    requires var id := levels[k][p].child;
             && id in pages && pages[id].Internal? && c < |pages[id].items|
             && (0 < c ==> pages[id].items[c].key < key)
             && (c + 1 < |pages[id].items| ==> key <= pages[id].items[c + 1].key)
    ensures q < |levels[m]| && levels[m][q].child == pages[levels[k][p].child].items[c].child
            && Lands(levels[m], q, key)
    ensures levels[m][q].child in pages && pages[levels[m][q].child].parent == levels[k][p].child
  {
    var level := levels[k];
    BelowIs(pages, levels, k, m);
    PageOk(cfg, pages, levels, root, INVALID, k, level, p);
    var post := if p + 1 < |level| then Expand(pages, level[p + 1]) else [];
    if p + 1 < |level| { PageOk(cfg, pages, levels, root, INVALID, k, level, p + 1); }
    q := DescendFlat(pages, level, levels[m], p, c, key);
  }

  lemma DescendFlat(pages: Pages, level: Level, below: Level, p: nat, c: nat, key: int) returns (q: nat)
    requires below == Flat(pages, level) && Lands(level, p, key)
    requires var id := level[p].child;
             && id in pages && pages[id].Internal? && c < |pages[id].items|
             && (0 < c ==> pages[id].items[c].key < key)
             && (c + 1 < |pages[id].items| ==> key <= pages[id].items[c + 1].key)
    requires p + 1 < |level| ==> |Expand(pages, level[p + 1])| > 0
    ensures q < |below| && below[q].child == pages[level[p].child].items[c].child && Lands(below, q, key)
  {
    var e := Expand(pages, level[p]);
    var pre, post := Flat(pages, level[..p]), Flat(pages, level[p + 1..]);
    FlatAt(pages, level, p);
    q := |pre| + c;
    MiddleAt(pre, e, post, c);
    assert p == 0 ==> level[..p] == [];
    if c + 1 < |e| {
      MiddleAt(pre, e, post, c + 1);
    } else if p + 1 < |level| {
      assert level[p + 1..][0] == level[p + 1];
      assert (pre + e + post)[|pre| + |e|] == post[0];
    } else {
      assert level[p + 1..] == [];
    }
  }

  /** Descent has one place to end. */
  lemma LandsOnce(pages: Pages, level: Level, i: nat, j: nat, key: int)
    requires LeavesOk(pages, level) && Lands(level, i, key) && Lands(level, j, key)
    ensures i == j
  {
    if i < j { SeparatorsAscend(pages, level, i + 1, j); }
    if j < i { SeparatorsAscend(pages, level, j + 1, i); }
  }

  // ----- entries of one leaf -----

  /** Where `e` belongs: everything before is smaller, nothing from here on is. */
  method LowerBound(entries: seq<Entry>, e: Entry) returns (at: nat)
    requires Sorted(entries)
    ensures at <= |entries|
    ensures forall a :: 0 <= a < at ==> EntryLess(entries[a], e)
    ensures forall a :: at <= a < |entries| ==> !EntryLess(entries[a], e)
  {
    at := 0;
    var count: nat := |entries|;
    while count != 0
      invariant at + count <= |entries|
      invariant forall a :: 0 <= a < at ==> EntryLess(entries[a], e)
      invariant forall a :: at + count <= a < |entries| ==> !EntryLess(entries[a], e)
    {
      var step := count / 2;
      var middle := at + step;
      if EntryLess(entries[middle], e) {
        at := middle + 1;
        count := count - (step + 1);
      } else {
        count := step;
      }
    }
  }

  lemma InsSorted(entries: seq<Entry>, at: nat, e: Entry)
    requires Sorted(entries) && at <= |entries|
    requires forall a :: 0 <= a < at ==> EntryLess(entries[a], e)
    requires forall a :: at <= a < |entries| ==> !EntryLess(entries[a], e)
    ensures Sorted(Ins(entries, at, e)) && multiset(Ins(entries, at, e)) == multiset(entries) + multiset{e}
    ensures e in entries <==> at < |entries| && entries[at] == e
  {
    var r := Ins(entries, at, e);
    InsAt(entries, at, e);
    forall a, b | 0 <= a < b < |r| ensures !EntryLess(r[b], r[a]) {
      if a != at && b != at {
        assert r[a] == entries[if a < at then a else a - 1] && r[b] == entries[if b < at then b else b - 1];
      }
    }
    assert entries == entries[..at] + entries[at..];
    if e in entries {
      var a :| 0 <= a < |entries| && entries[a] == e;
      assert !EntryLess(entries[a], entries[at]);
    }
  }

  lemma EraseSorted(entries: seq<Entry>, at: nat)
    requires Sorted(entries) && at < |entries|
    ensures Sorted(Del(entries, at)) && multiset(Del(entries, at)) == multiset(entries) - multiset{entries[at]}
  {
    var r := Del(entries, at);
    forall a, b | 0 <= a < b < |r| ensures !EntryLess(r[b], r[a]) {
      assert r[a] == entries[if a < at then a else a + 1] && r[b] == entries[if b < at then b else b + 1];
    }
    assert entries == entries[..at] + [entries[at]] + entries[at + 1..];
  }

  /** Sorting by key, then RID. */
  method Sort(s: seq<Entry>) returns (r: seq<Entry>)
    ensures Sorted(r) && multiset(r) == multiset(s) && |r| == |s|
  {
    r := [];
    for i := 0 to |s|
      invariant Sorted(r) && multiset(r) == multiset(s[..i]) && |r| == i
    {
      var at := LowerBound(r, s[i]);
      InsSorted(r, at, s[i]);
      assert s[..i + 1] == s[..i] + [s[i]];
      r := Ins(r, at, s[i]);
    }
    assert s[..|s|] == s;
  }

  // ----- what a change of one leaf means for the content -----

  /** Leaves other than the one at `i` keep their entries. */
  lemma GatherAround(pages: Pages, pages': Pages, level: Level, i: nat)
    requires i < |level| && LeavesOk(pages, level) && NoDup(level)
    requires forall id :: id in pages && pages[id].Leaf? && id != level[i].child ==>
               id in pages' && pages'[id] == pages[id]
    ensures Gather(pages', level[..i]) == Gather(pages, level[..i])
    ensures Gather(pages', level[i + 1..]) == Gather(pages, level[i + 1..])
  {
    var a, b := level[..i], level[i + 1..];
    forall m | 0 <= m < |level| && m != i
      ensures EntriesOf(pages', level[m].child) == EntriesOf(pages, level[m].child)
    {
      assert LeafOk(pages, level, m);
      SamePlaceOrNot(level, m, i);
    }
    forall m | 0 <= m < |b| ensures EntriesOf(pages', b[m].child) == EntriesOf(pages, b[m].child) {
      assert b[m] == level[i + 1 + m];
    }
    forall m | 0 <= m < |a| ensures EntriesOf(pages', a[m].child) == EntriesOf(pages, a[m].child) {
      assert a[m] == level[m];
    }
    GatherSame(pages, pages', a, a);
    GatherSame(pages, pages', b, b);
  }

  lemma BagOfThree(a: seq<Entry>, m: seq<Entry>, b: seq<Entry>, m': seq<Entry>)
    ensures multiset(a + m' + b) == multiset(a + m + b) - multiset(m) + multiset(m')
    ensures multiset(m) <= multiset(a + m + b)
  {
  }

  lemma OneLeafContent(pages: Pages, pages': Pages, levels: seq<Level>, i: nat, entries: seq<Entry>)
    requires |levels| > 0 && i < |levels[0]| && LeavesOk(pages, levels[0]) && NoDup(levels[0])
    requires levels[0][i].child in pages && pages[levels[0][i].child].Leaf?
    requires pages' == pages[levels[0][i].child := pages[levels[0][i].child].(entries := entries)]
    ensures Content(pages', levels) == Content(pages, levels) - multiset(pages[levels[0][i].child].entries)
            + multiset(entries)
    ensures multiset(pages[levels[0][i].child].entries) <= Content(pages, levels)
  {
    var level := levels[0];
    var a, b := level[..i], level[i + 1..];
    GatherAt(pages, level, i);
    GatherAt(pages', level, i);
    GatherAround(pages, pages', level, i);
    BagOfThree(Gather(pages, a), pages[level[i].child].entries, Gather(pages, b), entries);
  }

  lemma SplitHalves(pages: Pages, id: Id, right: Id, entries: seq<Entry>)
    requires id in pages && pages[id].Leaf? && right != id
    ensures EntriesOf(SplitLeaf(pages, id, right, entries), id) + EntriesOf(SplitLeaf(pages, id, right, entries), right)
            == entries
  {
  }

  lemma SplitGather(pages: Pages, pages': Pages, level: Level, i: nat, right: Id, entries: seq<Entry>, x: Item)
    requires i < |level| && LeavesOk(pages, level) && NoDup(level)
    requires level[i].child in pages && pages[level[i].child].Leaf? && right !in pages && x.child == right
    requires pages' == SplitLeaf(pages, level[i].child, right, entries)
    ensures Gather(pages', Ins(level, i + 1, x)) == Gather(pages, level[..i]) + entries + Gather(pages, level[i + 1..])
  {
    var a, b := level[..i], level[i + 1..];
    assert Ins(level, i + 1, x) == a + [level[i], x] + b;
    GatherTwo(pages', a, level[i], x, b);
    GatherAround(pages, pages', level, i);
    SplitHalves(pages, level[i].child, right, entries);
  }

  lemma SplitLeafContent(pages: Pages, pages': Pages, levels: seq<Level>, levels': seq<Level>, i: nat, right: Id,
                         entries: seq<Entry>, x: Item)
    requires |levels| > 0 && i < |levels[0]| && LeavesOk(pages, levels[0]) && NoDup(levels[0])
    requires levels[0][i].child in pages && pages[levels[0][i].child].Leaf? && right !in pages && x.child == right
    requires pages' == SplitLeaf(pages, levels[0][i].child, right, entries)
             && levels' == levels[0 := Ins(levels[0], i + 1, x)]
    ensures Content(pages', levels') == Content(pages, levels) - multiset(pages[levels[0][i].child].entries)
            + multiset(entries)
    ensures multiset(pages[levels[0][i].child].entries) <= Content(pages, levels)
  {
    var level := levels[0];
    GatherAt(pages, level, i);
    SplitGather(pages, pages', level, i, right, entries, x);
    BagOfThree(Gather(pages, level[..i]), pages[level[i].child].entries, Gather(pages, level[i + 1..]), entries);
  }

  // ----- one leaf changes, value level -----

  /** `all` is the leaf at `i` with `e` in its place. */
  ghost predicate LeafWith(pages: Pages, levels: seq<Level>, i: nat, id: Id, e: Entry, all: seq<Entry>) {
    && |levels| > 0 && i < |levels[0]| && levels[0][i].child == id && id in pages && pages[id].Leaf?
    && Sorted(all) && multiset(all) == multiset(pages[id].entries) + multiset{e} && |all| == |pages[id].entries| + 1
    && forall x :: x in all ==>
        (0 < i ==> levels[0][i].key <= x.key) && (i + 1 < |levels[0]| ==> x.key <= levels[0][i + 1].key)
  }

  lemma LeafWithIs(pages: Pages, levels: seq<Level>, i: nat, id: Id, at: nat, e: Entry)
    requires |levels| > 0 && LeavesOk(pages, levels[0]) && Lands(levels[0], i, e.key) && levels[0][i].child == id
             && id in pages && pages[id].Leaf?
    requires var entries := pages[id].entries;
             && at <= |entries|
             && (forall a :: 0 <= a < at ==> EntryLess(entries[a], e))
             && (forall a :: at <= a < |entries| ==> !EntryLess(entries[a], e))
    ensures LeafWith(pages, levels, i, id, e, Ins(pages[id].entries, at, e))
  {
    assert LeafOk(pages, levels[0], i);
    InsSorted(pages[id].entries, at, e);
    InsertedBounds(pages, levels[0], i, at, e);
    InsAt(pages[id].entries, at, e);
  }

  lemma LeafStaysIs(cfg: Config, pages: Pages, pages': Pages, root: Id, levels: seq<Level>, limit: Id, i: nat, id: Id,
                    e: Entry, all: seq<Entry>)
    requires TreeInv(cfg, pages, root, levels, limit, INVALID) && LeafWith(pages, levels, i, id, e, all)
             && |all| <= cfg.leafMax
    requires pages' == pages[id := pages[id].(entries := all)]
    ensures TreeInv(cfg, pages', root, levels, limit, INVALID)
  {
    PageOk(cfg, pages, levels, root, INVALID, 0, levels[0], i);
    LeafKeepsTree(cfg, pages, root, levels, limit, INVALID, INVALID, i, all);
  }

  lemma LeafInsertStays(cfg: Config, pages: Pages, pages': Pages, root: Id, levels: seq<Level>, limit: Id, i: nat,
                        id: Id, e: Entry, all: seq<Entry>)
    requires TreeInv(cfg, pages, root, levels, limit, INVALID) && LeafWith(pages, levels, i, id, e, all)
             && |all| <= cfg.leafMax
    requires pages' == pages[id := pages[id].(entries := all)]
    ensures TreeInv(cfg, pages', root, levels, limit, INVALID)
            && Content(pages', levels) == Content(pages, levels) + multiset{e}
  {
    LeafStaysIs(cfg, pages, pages', root, levels, limit, i, id, e, all);
    assert NoDup(levels[0]);
    OneLeafContent(pages, pages', levels, i, all);
  }

  lemma InsertedBounds(pages: Pages, level: Level, i: nat, at: nat, e: Entry)
    requires Lands(level, i, e.key) && LeafOk(pages, level, i) && at <= |pages[level[i].child].entries|
    ensures forall x :: x in Ins(pages[level[i].child].entries, at, e) ==>
              (0 < i ==> level[i].key <= x.key) && (i + 1 < |level| ==> x.key <= level[i + 1].key)
  {
    var entries := pages[level[i].child].entries;
    assert entries == entries[..at] + entries[at..];
    forall x | x in Ins(entries, at, e) ensures x == e || x in entries {}
  }

  lemma LeafInsertSplits(cfg: Config, pages: Pages, pages': Pages, root: Id, levels: seq<Level>, levels': seq<Level>,
                         limit: Id, next: Id, i: nat, id: Id, e: Entry, all: seq<Entry>, x: Item)
    requires IsNext(next, limit, pages)
    requires TreeInv(cfg, pages, root, levels, limit, INVALID) && 0 < limit && LeafWith(pages, levels, i, id, e, all)
             && |all| == cfg.leafMax + 1
    requires x == Item(all[|all| / 2].key, limit) && pages' == SplitLeaf(pages, id, limit, all)
             && levels' == levels[0 := Ins(levels[0], i + 1, x)]
    ensures Pending(cfg, pages', root, levels', next, 0, i)
    ensures Content(pages', levels') == Content(pages, levels) + multiset{e}
  {
    SplitLeafPends(cfg, pages, root, levels, limit, next, i, all);
    assert NoDup(levels[0]) && limit !in pages;
    SplitLeafContent(pages, pages', levels, levels', i, limit, all, x);
  }

  /** A leaf with its first entry, the whole tree. */
  lemma FirstLeaf(cfg: Config, limit: Id, next: Id, e: Entry)
    requires IsNext(next, limit, map[])
    requires cfg.Ok() && 0 < limit
    ensures var pages := map[limit := Leaf([e], INVALID, INVALID)];
            var levels := [[Item(0, limit)]];
            TreeInv(cfg, pages, limit, levels, next, INVALID) && Content(pages, levels) == multiset{e}
  {
    var pages: Pages := map[limit := Leaf([e], INVALID, INVALID)];
    var levels := [[Item(0, limit)]];
    AtLevel(levels, 0, 0);
    assert Gather(pages, levels[0]) == [e] + Gather(pages, levels[0][1..]);
    forall id | id in pages ensures exists k :: OnLevel(levels, k, id) { assert OnLevel(levels, 0, id); }
  }

  // ----- the page above, value level -----

  lemma SplitKeepsParents(cfg: Config, pages: Pages, pages': Pages, root: Id, levels: seq<Level>, limit: Id, k: nat,
                          i: nat, p: nat, c: nat, all: seq<Item>)
    requires Pending(cfg, pages, root, levels, limit, k, i) && Hangs(pages, levels, k, i, p, c) && 0 < limit
    requires all == WithChild(pages[levels[k + 1][p].child].items, c, levels[k][i + 1]) && |all| == cfg.internalMax + 1
    requires Moved(SplitInternal(pages, levels[k + 1][p].child, limit, all), pages', all[|all| / 2..], limit)
    ensures forall m, d :: m > k && OnLevel(levels, m, d) && d in pages ==>
              d in pages' && pages'[d].parent == pages[d].parent
  {
    var par := levels[k + 1][p].child;
    var mid := |all| / 2;
    SplitWhole(cfg, pages, pages', root, levels, limit, k, i, p, c, all);
    SplitParent(pages, pages', levels, k, par, limit, all);
    forall m, d | m > k && OnLevel(levels, m, d) && d in pages
      ensures d in pages' && pages'[d].parent == pages[d].parent
    {
      if d != par {
        assert d in SplitInternal(pages, par, limit, all);
        if IsChild(all[mid..], d) { MovedAre(all, mid, d); }
      }
    }
  }

  lemma InsKeepsLevels(levels: seq<Level>, k: nat, i: nat, x: Item)
    requires k < |levels| && i <= |levels[k]|
    ensures forall m, d :: OnLevel(levels, m, d) ==> OnLevel(levels[k := Ins(levels[k], i, x)], m, d)
  {
    forall m, d | OnLevel(levels, m, d) ensures OnLevel(levels[k := Ins(levels[k], i, x)], m, d) {
      InsOnLevel(levels, k, i, x, m, d);
    }
  }

  /** The first entry of `items` for the child `id`. */
  function ChildIndex(items: seq<Item>, id: Id): (c: nat)
    ensures c <= |items| && (c < |items| ==> items[c].child == id) && (forall a :: 0 <= a < c ==> items[a].child != id)
  {
    if items == [] then 0 else if items[0].child == id then 0 else 1 + ChildIndex(items[1..], id)
  }

  lemma HangsAtIndex(cfg: Config, pages: Pages, root: Id, levels: seq<Level>, limit: Id, k: nat, i: nat)
      returns (p: nat)
    requires Pending(cfg, pages, root, levels, limit, k, i) && k + 1 < |levels|
    ensures levels[k][i].child in pages
    ensures var left := levels[k][i].child; var par := pages[left].parent;
            && p < |levels[k + 1]| && levels[k + 1][p].child == par && par in pages && pages[par].Internal?
            && Hangs(pages, levels, k, i, p, ChildIndex(pages[par].items, left))
            && |pages[par].items| <= cfg.internalMax
  {
    var c;
    p, c := WhereItHangs(cfg, pages, root, levels, limit, k, i);
    var left := levels[k][i].child;
    var par := pages[left].parent;
    AtLevel(levels, k + 1, p);
    assert NodeOk(cfg, pages, par, k + 1, root, INVALID);
    FamilyOfPlain(cfg, pages, root, levels, k, i, p, c);
  }

  /** The parent lists the child once. */
  lemma FamilyOfPlain(cfg: Config, pages: Pages, root: Id, levels: seq<Level>, k: nat, i: nat, p: nat, c: nat)
    requires Hangs(pages, levels, k, i, p, c) && NodesOk(cfg, pages, levels, root, INVALID) && NoDup(levels[k])
    requires levels[k][i + 1].child in pages && pages[levels[k][i + 1].child].parent == levels[k + 1][p].child
    ensures ChildIndex(pages[levels[k + 1][p].child].items, levels[k][i].child) == c
  {
    var par := levels[k + 1][p].child;
    var items := pages[par].items;
    var all := WithChild(items, c, levels[k][i + 1]);
    FamilyOf(cfg, pages, root, levels, k, i, p, c, all);
    InsAt(items, c + 1, levels[k][i + 1]);
    forall a | 0 <= a < c ensures items[a].child != items[c].child {
      assert all[a] == items[a] && all[c] == items[c];
    }
  }

  /** `left` has been split, and `path` leads to its parent, who has to be told. */
  ghost predicate PendingSplit(cfg: Config, pages: Pages, root: Id, levels: seq<Level>, limit: Id, k: nat, i: nat,
                               left: Id, split: Split, path: seq<Id>) {
    && Pending(cfg, pages, root, levels, limit, k, i) && 0 < limit
    && split.Split? && levels[k][i].child == left && levels[k][i + 1] == Item(split.separator, split.rightId)
    && PathOk(pages, levels, path, left, k)
  }

  lemma LeafSplitPath(pages: Pages, levels: seq<Level>, path: seq<Id>, leaf: Id, right: Id, all: seq<Entry>, i: nat,
                      x: Item)
    requires PathOk(pages, levels, path, leaf, 0) && pages[leaf].Leaf? && right !in pages && |levels| > 0
             && i < |levels[0]|
    ensures PathOk(SplitLeaf(pages, leaf, right, all), levels[0 := Ins(levels[0], i + 1, x)], path, leaf, 0)
  {
    var pages' := SplitLeaf(pages, leaf, right, all);
    InsKeepsLevels(levels, 0, i + 1, x);
    forall a | 0 <= a < |path| ensures ParentIs(pages', Next(path, leaf, a), path[a]) {
      assert ParentIs(pages, Next(path, leaf, a), path[a]);
    }
  }

  lemma LeafOverflows(cfg: Config, pages: Pages, pages': Pages, root: Id, levels: seq<Level>, limit: Id, next: Id,
                      i: nat, e: Entry, leaf: Id, all: seq<Entry>, key: int, path: seq<Id>)
      returns (levels': seq<Level>)
    requires IsNext(next, limit, pages)
    requires TreeInv(cfg, pages, root, levels, limit, INVALID) && 0 < limit && LeafWith(pages, levels, i, leaf, e, all)
             && |all| == cfg.leafMax + 1
    requires PathOk(pages, levels, path, leaf, 0)
    requires pages' == SplitLeaf(pages, leaf, limit, all) && key == all[|all| / 2].key
    ensures PendingSplit(cfg, pages', root, levels', next, 0, i, leaf, Split(key, limit), path)
    ensures Content(pages', levels') == Content(pages, levels) + multiset{e}
  {
    var x := Item(key, limit);
    levels' := levels[0 := Ins(levels[0], i + 1, x)];
    LeafInsertSplits(cfg, pages, pages', root, levels, levels', limit, next, i, leaf, e, all, x);
    LeafSplitPath(pages, levels, path, leaf, limit, all, i, x) by { assert limit !in pages; }
    InsAt(levels[0], i + 1, x);
  }

  /** What adding a split-off page to the parent `par` of `left` does. */
  ghost predicate ParentTold(cfg: Config, pages: Pages, pages': Pages, limit: Id, limit': Id, par: Id, left: Id,
                             added: Split, split: Split) {
    && added.Split? && par in pages && pages[par].Internal? && ChildIndex(pages[par].items, left) < |pages[par].items|
    && var x := Item(added.separator, added.rightId);
       var c := ChildIndex(pages[par].items, left);
       var all := WithChild(pages[par].items, c, x);
       if |all| <= cfg.internalMax then
         split == NoSplit && limit' == limit && pages' == AddChild(pages, par, c, x)
       else
         && split == Split(all[|all| / 2].key, limit) && IsNext(limit', limit, pages)
         && Moved(SplitInternal(pages, par, limit, all), pages', all[|all| / 2..], limit)
  }

  lemma ParentSplitsPath(cfg: Config, pages: Pages, pages': Pages, root: Id, levels: seq<Level>, levels': seq<Level>,
                         limit: Id, k: nat, i: nat, p: nat, c: nat, all: seq<Item>, x: Item, path: seq<Id>)
    requires Pending(cfg, pages, root, levels, limit, k, i) && Hangs(pages, levels, k, i, p, c) && 0 < limit
    requires all == WithChild(pages[levels[k + 1][p].child].items, c, levels[k][i + 1]) && |all| == cfg.internalMax + 1
    requires Moved(SplitInternal(pages, levels[k + 1][p].child, limit, all), pages', all[|all| / 2..], limit)
    requires PathOk(pages, levels, path, levels[k][i].child, k) && path != []
    requires levels' == levels[k + 1 := Ins(levels[k + 1], p + 1, x)]
    ensures PathOk(pages', levels', path[..|path| - 1], path[|path| - 1], k + 1)
  {
    SplitKeepsParents(cfg, pages, pages', root, levels, limit, k, i, p, c, all);
    InsKeepsLevels(levels, k + 1, p + 1, x);
    PathUp(pages, pages', levels, levels', path, levels[k][i].child, k);
  }

  lemma ParentSplitsAt(cfg: Config, pages: Pages, pages': Pages, root: Id, levels: seq<Level>, levels': seq<Level>,
                       limit: Id, next: Id, k: nat, i: nat, p: nat, c: nat, all: seq<Item>, key: int, path: seq<Id>)
    requires IsNext(next, limit, pages)
    requires Pending(cfg, pages, root, levels, limit, k, i) && Hangs(pages, levels, k, i, p, c) && 0 < limit
    requires all == WithChild(pages[levels[k + 1][p].child].items, c, levels[k][i + 1]) && |all| == cfg.internalMax + 1
             && key == all[|all| / 2].key
    requires Moved(SplitInternal(pages, levels[k + 1][p].child, limit, all), pages', all[|all| / 2..], limit)
    requires PathOk(pages, levels, path, levels[k][i].child, k) && path != []
             && path[|path| - 1] == levels[k + 1][p].child
    requires levels' == levels[k + 1 := Ins(levels[k + 1], p + 1, Item(key, limit))]
    ensures PendingSplit(cfg, pages', root, levels', next, k + 1, p, levels[k + 1][p].child, Split(key, limit),
                         path[..|path| - 1])
    ensures Content(pages', levels') == Content(pages, levels)
  {
    SplitPends(cfg, pages, pages', root, levels, limit, next, k, i, p, c, all);
    ParentSplitsPath(cfg, pages, pages', root, levels, levels', limit, k, i, p, c, all, Item(key, limit), path);
    InsAt(levels[k + 1], p + 1, Item(key, limit));
  }

  lemma ParentSplits(cfg: Config, pages: Pages, pages': Pages, root: Id, levels: seq<Level>, limit: Id, limit': Id,
                     k: nat, i: nat, p: nat, par: Id, left: Id, added: Split, split: Split, path: seq<Id>)
      returns (levels': seq<Level>)
    requires Pending(cfg, pages, root, levels, limit, k, i) && 0 < limit && added.Split?
    requires levels[k][i].child == left && levels[k][i + 1] == Item(added.separator, added.rightId)
             && PathOk(pages, levels, path, left, k)
    requires path != [] && path[|path| - 1] == par && k + 1 < |levels| && p < |levels[k + 1]|
             && levels[k + 1][p].child == par
    requires ParentTold(cfg, pages, pages', limit, limit', par, left, added, split) && split.Split?
    requires Hangs(pages, levels, k, i, p, ChildIndex(pages[par].items, left)) && |pages[par].items| <= cfg.internalMax
    ensures PendingSplit(cfg, pages', root, levels', limit', k + 1, p, par, split, path[..|path| - 1])
    ensures Content(pages', levels') == Content(pages, levels)
  {
    var x := Item(added.separator, added.rightId);
    var c := ChildIndex(pages[par].items, left);
    InsAt(pages[par].items, c + 1, x);
    levels' := levels[k + 1 := Ins(levels[k + 1], p + 1, Item(split.separator, limit))];
    ParentSplitsAt(cfg, pages, pages', root, levels, levels', limit, limit', k, i, p, c,
                   WithChild(pages[par].items, c, x),
                   split.separator, path);
  }

  /** One turn of the insertion loop: the tree is whole again, or the split has moved up. */
  lemma ParentStep(cfg: Config, pages: Pages, pages': Pages, root: Id, levels: seq<Level>, limit: Id, limit': Id,
                   k: nat, i: nat, left: Id, added: Split, split: Split, path: seq<Id>)
      returns (levels': seq<Level>, p: nat)
    requires PendingSplit(cfg, pages, root, levels, limit, k, i, left, added, path) && path != []
    requires ParentTold(cfg, pages, pages', limit, limit', path[|path| - 1], left, added, split)
    ensures Content(pages', levels') == Content(pages, levels)
    ensures split.NoSplit? ==> TreeInv(cfg, pages', root, levels', limit', INVALID)
    ensures split.Split? ==> PendingSplit(cfg, pages', root, levels', limit', k + 1, p, path[|path| - 1], split,
                                          path[..|path| - 1])
  {
    assert ParentIs(pages, Next(path, left, |path| - 1), path[|path| - 1]);
    p := HangsAtIndex(cfg, pages, root, levels, limit, k, i);
    if split.NoSplit? {
      levels' := levels;
      ParentFits(cfg, pages, root, levels, limit, k, i, p, left, added, path[|path| - 1]);
    } else {
      levels' := ParentSplits(cfg, pages, pages', root, levels, limit, limit', k, i, p, path[|path| - 1], left, added,
                              split, path);
    }
  }

  lemma ParentFits(cfg: Config, pages: Pages, root: Id, levels: seq<Level>, limit: Id, k: nat, i: nat, p: nat,
                   left: Id, added: Split, par: Id)
    requires Pending(cfg, pages, root, levels, limit, k, i) && added.Split? && k + 1 < |levels| && p < |levels[k + 1]|
             && par == levels[k + 1][p].child
    requires levels[k][i].child == left && levels[k][i + 1] == Item(added.separator, added.rightId)
    requires par in pages && pages[par].Internal? && Hangs(pages, levels, k, i, p, ChildIndex(pages[par].items, left))
    requires |WithChild(pages[par].items, ChildIndex(pages[par].items, left), Item(added.separator, added.rightId))|
             <= cfg.internalMax
    ensures var pages' := AddChild(pages, par, ChildIndex(pages[par].items, left),
                                   Item(added.separator, added.rightId));
            TreeInv(cfg, pages', root, levels, limit, INVALID) && Content(pages', levels) == Content(pages, levels)
  {
    InsAt(pages[par].items, ChildIndex(pages[par].items, left) + 1, Item(added.separator, added.rightId));
    AddKeepsTree(cfg, pages, root, levels, limit, k, i, p, ChildIndex(pages[par].items, left));
  }

  /** The parent is there, lists the child, and its children are there. */
  ghost predicate Listed(pages: Pages, par: Id, left: Id) {
    && par in pages && pages[par].Internal? && ChildIndex(pages[par].items, left) < |pages[par].items|
    && forall a :: 0 <= a < |pages[par].items| ==> pages[par].items[a].child in pages
  }

  lemma ParentIsThere(cfg: Config, pages: Pages, root: Id, levels: seq<Level>, limit: Id, k: nat, i: nat, left: Id,
                      added: Split, path: seq<Id>)
    requires PendingSplit(cfg, pages, root, levels, limit, k, i, left, added, path) && path != []
    ensures Listed(pages, path[|path| - 1], left) && added.rightId in pages
  {
    assert ParentIs(pages, Next(path, left, |path| - 1), path[|path| - 1]);
    ParentLists(cfg, pages, root, levels, limit, k, i, left, path[|path| - 1]);
  }

  lemma ParentLists(cfg: Config, pages: Pages, root: Id, levels: seq<Level>, limit: Id, k: nat, i: nat, left: Id,
                    par: Id)
    requires Pending(cfg, pages, root, levels, limit, k, i) && k + 1 < |levels| && levels[k][i].child == left
             && left in pages && pages[left].parent == par
    ensures Listed(pages, par, left)
  {
    var p := HangsAtIndex(cfg, pages, root, levels, limit, k, i);
    AtLevel(levels, k + 1, p);
    assert NodeOk(cfg, pages, par, k + 1, root, INVALID);
  }

  lemma HighIsThere(pages: Pages, par: Id, right: Id, all: seq<Item>, items: seq<Item>, c: nat, x: Item)
    requires par in pages && c < |items| && all == WithChild(items, c, x) && x.child in pages
    requires forall a :: 0 <= a < |items| ==> items[a].child in pages
    ensures var high := all[|all| / 2..]; forall a :: 0 <= a < |high| ==>
              high[a].child in SplitInternal(pages, par, right, all)
  {
    InsAt(items, c + 1, x);
    var high := all[|all| / 2..];
    forall a | 0 <= a < |high| ensures high[a].child in pages {
      var b := |all| / 2 + a;
      assert high[a] == all[b];
      assert b <= c ==> all[b] == items[b];
      assert b > c + 1 ==> all[b] == items[b - 1];
    }
  }

  lemma MovedOneMore(pages: Pages, pages': Pages, items: seq<Item>, a: nat, par: Id)
    requires a < |items| && Moved(pages, pages', items[..a], par) && items[a].child in pages
    ensures items[a].child in pages'
    ensures Moved(pages, pages'[items[a].child := pages'[items[a].child].(parent := par)], items[..a + 1], par)
  {
    var child := items[a].child;
    forall id ensures IsChild(items[..a + 1], id) <==> IsChild(items[..a], id) || id == child {
      if IsChild(items[..a], id) {
        var c :| 0 <= c < |items[..a]| && items[..a][c].child == id;
        assert items[..a + 1][c].child == id;
      }
      assert items[..a + 1][a].child == child;
    }
  }

  /** The leaf where the key of `e` belongs holds `e`. */
  ghost predicate Candidate(pages: Pages, levels: seq<Level>, e: Entry) {
    |levels| > 0 && exists i: nat :: Lands(levels[0], i, e.key) && e in EntriesOf(pages, levels[0][i].child)
  }

  lemma CandidateIs(pages: Pages, levels: seq<Level>, i: nat, e: Entry)
    requires |levels| > 0 && LeavesOk(pages, levels[0]) && Lands(levels[0], i, e.key)
    ensures Candidate(pages, levels, e) <==> e in EntriesOf(pages, levels[0][i].child)
  {
    if Candidate(pages, levels, e) {
      var j: nat :| Lands(levels[0], j, e.key) && e in EntriesOf(pages, levels[0][j].child);
      LandsOnce(pages, levels[0], i, j, e.key);
    }
  }

  lemma LeafFacts(cfg: Config, pages: Pages, root: Id, levels: seq<Level>, limit: Id, i: nat)
    requires TreeInv(cfg, pages, root, levels, limit, INVALID) && i < |levels[0]|
    ensures var id := levels[0][i].child;
            id in pages && pages[id].Leaf? && Sorted(pages[id].entries) && |pages[id].entries| <= cfg.leafMax
  {
    assert LeafOk(pages, levels[0], i);
    AtLevel(levels, 0, i);
    assert NodeOk(cfg, pages, levels[0][i].child, 0, root, INVALID);
  }

  // ----- the leaf an insertion lands in -----

  /** The place of `e` among sorted entries. */
  function Place(entries: seq<Entry>, e: Entry): (at: nat)
    ensures at <= |entries| && (at < |entries| ==> !EntryLess(entries[at], e))
    ensures forall a :: 0 <= a < at ==> EntryLess(entries[a], e)
  {
    if entries == [] || !EntryLess(entries[0], e) then 0 else 1 + Place(entries[1..], e)
  }

  /** What inserting into a leaf does. */
  ghost predicate LeafTold(cfg: Config, pages: Pages, pages': Pages, limit: Id, limit': Id, leaf: Id, e: Entry,
                           status: Status, split: Split) {
    && leaf in pages && pages[leaf].Leaf?
    && var entries := pages[leaf].entries;
       var all := Ins(entries, Place(entries, e), e);
       && |all| >= 1
       && if e in entries then status == AlreadyExists && split == NoSplit && pages' == pages && limit' == limit
          else if |entries| < cfg.leafMax then
            status == Ok && split == NoSplit && pages' == pages[leaf := pages[leaf].(entries := all)] && limit' == limit
          else
            status == Ok && split == Split(all[|all| / 2].key, limit) && pages' == SplitLeaf(pages, leaf, limit, all)
              && IsNext(limit', limit, pages)
  }

  lemma PlaceRest(entries: seq<Entry>, e: Entry)
    requires Sorted(entries)
    ensures forall a :: Place(entries, e) <= a < |entries| ==> !EntryLess(entries[a], e)
  {
    var at := Place(entries, e);
    forall a | at <= a < |entries| ensures !EntryLess(entries[a], e) {
      if at < a { assert !EntryLess(entries[a], entries[at]); }
    }
  }

  lemma LeafStepStays(cfg: Config, pages: Pages, pages': Pages, root: Id, levels: seq<Level>, limit: Id, limit': Id,
                      i: nat, leaf: Id, e: Entry, status: Status, split: Split)
    requires TreeInv(cfg, pages, root, levels, limit, INVALID) && Lands(levels[0], i, e.key)
             && levels[0][i].child == leaf
    requires LeafTold(cfg, pages, pages', limit, limit', leaf, e, status, split) && status.Ok? && split.NoSplit?
    ensures Content(pages', levels) == Content(pages, levels) + multiset{e}
    ensures TreeInv(cfg, pages', root, levels, limit', INVALID)
  {
    LeafFacts(cfg, pages, root, levels, limit, i);
    var at := Place(pages[leaf].entries, e);
    PlaceRest(pages[leaf].entries, e);
    LeafWithIs(pages, levels, i, leaf, at, e);
    LeafInsertStays(cfg, pages, pages', root, levels, limit, i, leaf, e, Ins(pages[leaf].entries, at, e));
  }

  lemma LeafStepSplits(cfg: Config, pages: Pages, pages': Pages, root: Id, levels: seq<Level>, limit: Id, limit': Id,
                       i: nat, leaf: Id, e: Entry, status: Status, split: Split, path: seq<Id>)
      returns (levels': seq<Level>)
    requires TreeInv(cfg, pages, root, levels, limit, INVALID) && 0 < limit && Lands(levels[0], i, e.key)
             && levels[0][i].child == leaf
    requires PathOk(pages, levels, path, leaf, 0) && LeafTold(cfg, pages, pages', limit, limit', leaf, e, status, split)
             && split.Split?
    ensures Content(pages', levels') == Content(pages, levels) + multiset{e}
    ensures PendingSplit(cfg, pages', root, levels', limit', 0, i, leaf, split, path)
  {
    LeafFacts(cfg, pages, root, levels, limit, i);
    var at := Place(pages[leaf].entries, e);
    PlaceRest(pages[leaf].entries, e);
    LeafWithIs(pages, levels, i, leaf, at, e);
    levels' := LeafOverflows(cfg, pages, pages', root, levels, limit, limit', i, e, leaf,
                             Ins(pages[leaf].entries, at, e),
                             split.separator, path);
  }

  /** What an insertion into a leaf leaves: the same tree, the tree with the pair, or a split for
      the parent to be told. */
  lemma LeafStep(cfg: Config, pages: Pages, pages': Pages, root: Id, levels: seq<Level>, limit: Id, limit': Id,
                 i: nat, leaf: Id, e: Entry, status: Status, split: Split, path: seq<Id>) returns (levels': seq<Level>)
    requires TreeInv(cfg, pages, root, levels, limit, INVALID) && 0 < limit && Lands(levels[0], i, e.key)
             && levels[0][i].child == leaf
    requires PathOk(pages, levels, path, leaf, 0) && LeafTold(cfg, pages, pages', limit, limit', leaf, e, status, split)
    ensures status.AlreadyExists? ==> pages' == pages && levels' == levels && limit' == limit
    ensures status.Ok? ==> Content(pages', levels') == Content(pages, levels) + multiset{e}
    ensures split.NoSplit? ==> TreeInv(cfg, pages', root, levels', limit', INVALID)
    ensures split.Split? ==> status.Ok? && PendingSplit(cfg, pages', root, levels', limit', 0, i, leaf, split, path)
  {
    levels' := levels;
    if split.Split? {
      levels' := LeafStepSplits(cfg, pages, pages', root, levels, limit, limit', i, leaf, e, status, split, path);
    } else if status.Ok? {
      LeafStepStays(cfg, pages, pages', root, levels, limit, limit', i, leaf, e, status, split);
    }
  }
}
