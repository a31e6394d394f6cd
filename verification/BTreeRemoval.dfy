/** Removal, step by step: finding the pair, erasing it, and refilling what became short. */
module BTreeRemoval {
  import opened BTree
  import opened BTreeFacts
  import opened BTreeInsert
  import opened BTreeSeparators
  import opened BTreeMerge
  import opened BTreeBorrow
  import opened BTreeSteps

  // ----- which leaves can hold a key -----

  lemma {:induction false} GatherHolds(pages: Pages, level: Level, e: Entry)
    ensures e in Gather(pages, level) <==> exists i :: 0 <= i < |level| && e in EntriesOf(pages, level[i].child)
  {
    if level != [] {
      GatherHolds(pages, level[1..], e);
      if e in Gather(pages, level[1..]) {
        var i :| 0 <= i < |level[1..]| && e in EntriesOf(pages, level[1..][i].child);
        assert level[i + 1] == level[1..][i];
      }
      if i :| 0 <= i < |level| && e in EntriesOf(pages, level[i].child) {
        if i > 0 { assert level[1..][i - 1] == level[i]; }
      }
    }
  }

  /** Leaves left of where descent ends hold only smaller keys. */
  lemma LeftIsSmaller(pages: Pages, level: Level, i: nat, j: nat, key: int, e: Entry)
    requires LeavesOk(pages, level) && Lands(level, i, key) && j < i && e in EntriesOf(pages, level[j].child)
    ensures e.key < key
  {
    assert LeafOk(pages, level, j);
    SeparatorsAscend(pages, level, j + 1, i);
  }

  /** Leaves right of an entry hold no smaller key. */
  lemma RightIsLarger(pages: Pages, level: Level, i: nat, j: nat, x: Entry, e: Entry)
    requires LeavesOk(pages, level) && i < j < |level| && x in EntriesOf(pages, level[i].child)
             && e in EntriesOf(pages, level[j].child)
    ensures x.key <= e.key
  {
    assert LeafOk(pages, level, i) && LeafOk(pages, level, j);
    SeparatorsAscend(pages, level, i + 1, j);
  }

  /** Beyond a larger key there is nothing to find. */
  lemma NotBeyond(pages: Pages, level: Level, n: nat, x: Entry, e: Entry)
    requires LeavesOk(pages, level) && n < |level| && x in EntriesOf(pages, level[n].child) && x.key > e.key
    ensures forall m :: n < m < |level| ==> e !in EntriesOf(pages, level[m].child)
  {
    forall m | n < m < |level| ensures e in EntriesOf(pages, level[m].child) ==> x.key <= e.key {
      if e in EntriesOf(pages, level[m].child) { RightIsLarger(pages, level, n, m, x, e); }
    }
  }

  /** Nothing to find: too small before where descent ends, and not in the leaves from there on. */
  lemma NotInTree(pages: Pages, level: Level, i: nat, e: Entry)
    requires LeavesOk(pages, level) && Lands(level, i, e.key)
    requires forall m :: i <= m < |level| ==> e !in EntriesOf(pages, level[m].child)
    ensures e !in Gather(pages, level)
  {
    GatherHolds(pages, level, e);
    forall m | 0 <= m < i ensures e in EntriesOf(pages, level[m].child) ==> e.key < e.key {
      if e in EntriesOf(pages, level[m].child) { LeftIsSmaller(pages, level, i, m, e.key, e); }
    }
  }

  // ----- where a page hangs -----

  /** A page other than the root, its parent, and its place there. */
  ghost predicate Placed(cfg: Config, pages: Pages, levels: seq<Level>, k: nat, i: nat, p: nat, id: Id) {
    && k + 1 < |levels| && i < |levels[k]| && levels[k][i].child == id && id in pages
    && var par := pages[id].parent;
       && par in pages && pages[par].Internal? && p < |levels[k + 1]| && levels[k + 1][p].child == par
       && ChildIndex(pages[par].items, id) < |pages[par].items|
       && At(pages, levels, k, i, p, ChildIndex(pages[par].items, id))
  }

  lemma IndexIs(cfg: Config, pages: Pages, root: Id, levels: seq<Level>, short: Id, k: nat, i: nat, p: nat, c: nat)
    requires Unique(levels) && At(pages, levels, k, i, p, c)
    ensures ChildIndex(pages[levels[k + 1][p].child].items, levels[k][i].child) == c
  {
    var items := pages[levels[k + 1][p].child].items;
    assert NoDup(levels[k]);
    Siblings(pages, levels, k, i, p, c, c, i);
    forall a | 0 <= a < c ensures items[a].child != items[c].child {
      var at := |Flat(pages, levels[k + 1][..p])| + a;
      Siblings(pages, levels, k, i, p, c, a, at);
      SamePlaceOrNot(levels[k], at, i);
    }
  }

  lemma PlaceIn(cfg: Config, pages: Pages, root: Id, levels: seq<Level>, limit: Id, short: Id, k: nat, i: nat)
      returns (p: nat)
    requires TreeInv(cfg, pages, root, levels, limit, short) && k < |levels| && i < |levels[k]|
             && levels[k][i].child != root
    ensures Placed(cfg, pages, levels, k, i, p, levels[k][i].child)
  {
    assert k + 1 < |levels|;
    assert Linked(pages, levels, k);
    var c;
    p, c := PlaceOf(cfg, pages, levels, root, short, k, i);
    IndexIs(cfg, pages, root, levels, short, k, i, p, c);
  }

  // ----- erasing -----

  lemma ErasedBounds(pages: Pages, level: Level, i: nat, at: nat)
    requires i < |level| && LeafOk(pages, level, i) && at < |pages[level[i].child].entries|
    ensures forall e :: e in Del(pages[level[i].child].entries, at) ==>
              (0 < i ==> level[i].key <= e.key) && (i + 1 < |level| ==> e.key <= level[i + 1].key)
  {
    var entries := pages[level[i].child].entries;
    forall e | e in Del(entries, at) ensures e in entries {
      var a :| 0 <= a < |Del(entries, at)| && Del(entries, at)[a] == e;
      assert e == entries[if a < at then a else a + 1];
    }
  }

  lemma EraseKeepsTree(cfg: Config, pages: Pages, pages': Pages, root: Id, levels: seq<Level>, limit: Id, i: nat,
                       id: Id, at: nat, short: Id)
    requires TreeInv(cfg, pages, root, levels, limit, INVALID) && i < |levels[0]| && levels[0][i].child == id
    requires id in pages && pages[id].Leaf? && at < |pages[id].entries|
    requires if id == root then |pages[id].entries| > 1 && short == INVALID
             else short == (if |pages[id].entries| - 1 >= cfg.Min(0) then INVALID else id)
    requires pages' == pages[id := pages[id].(entries := Del(pages[id].entries, at))]
    ensures TreeInv(cfg, pages', root, levels, limit, short)
  {
    var entries := pages[id].entries;
    assert LeafOk(pages, levels[0], i);
    PageOk(cfg, pages, levels, root, INVALID, 0, levels[0], i);
    ErasedBounds(pages, levels[0], i, at);
    EraseSorted(entries, at);
    LeafKeepsTree(cfg, pages, root, levels, limit, INVALID, short, i, Del(entries, at));
  }

  /** Erasing one entry of a leaf; if that leaves too few, the leaf is short. */
  lemma EraseStays(cfg: Config, pages: Pages, pages': Pages, root: Id, levels: seq<Level>, limit: Id, i: nat, id: Id,
                   at: nat, short: Id)
    requires TreeInv(cfg, pages, root, levels, limit, INVALID) && i < |levels[0]| && levels[0][i].child == id
    requires id in pages && pages[id].Leaf? && at < |pages[id].entries|
    requires if id == root then |pages[id].entries| > 1 && short == INVALID
             else short == (if |pages[id].entries| - 1 >= cfg.Min(0) then INVALID else id)
    requires pages' == pages[id := pages[id].(entries := Del(pages[id].entries, at))]
    ensures TreeInv(cfg, pages', root, levels, limit, short)
    ensures pages[id].entries[at] in Content(pages, levels)
    ensures Content(pages', levels) == Content(pages, levels) - multiset{pages[id].entries[at]}
  {
    var entries := pages[id].entries;
    EraseKeepsTree(cfg, pages, pages', root, levels, limit, i, id, at, short);
    LeafFacts(cfg, pages, root, levels, limit, i);
    EraseSorted(entries, at);
    assert NoDup(levels[0]);
    OneLeafContent(pages, pages', levels, i, Del(entries, at));
    assert entries[at] in multiset(entries);
  }

  /** A leaf that is the root is the whole tree. */
  lemma OnlyLeaf(cfg: Config, pages: Pages, root: Id, levels: seq<Level>, limit: Id)
    requires TreeInv(cfg, pages, root, levels, limit, INVALID) && root in pages && pages[root].Leaf?
    ensures |levels| == 1 && |levels[0]| == 1 && levels[0][0].child == root && pages.Keys == {root}
    ensures Content(pages, levels) == multiset(pages[root].entries)
  {
    var top := |levels| - 1;
    AtLevel(levels, top, 0);
    assert NodeOk(cfg, pages, root, top, root, INVALID);
    forall id | id in pages ensures id == root {
      var k :| OnLevel(levels, k, id);
      var i := Position(levels, k, id);
    }
    assert Gather(pages, levels[0]) == pages[root].entries + Gather(pages, levels[0][1..]);
  }

  // ----- the separator above a leaf that lost its first entry -----

  lemma LeftmostUp(pages: Pages, levels: seq<Level>, k: nat, i: nat, p: nat)
    requires At(pages, levels, k, i, p, 0)
    ensures Leftmost(pages, levels, k + 1, p) == Leftmost(pages, levels, k, i)
  {
  }

  // ----- refilling a leaf -----

  function Last(s: seq<Entry>): Entry
    requires |s| > 0
  {
    s[|s| - 1]
  }

  function Front(s: seq<Entry>): seq<Entry>
    requires |s| > 0
  {
    s[..|s| - 1]
  }

  ghost predicate SortOf(r: seq<Entry>, s: seq<Entry>) {
    Sorted(r) && multiset(r) == multiset(s) && |r| == |s|
  }

  /** `leaf` is child `c` of `par`, and so are the neighbours it has there. */
  ghost predicate Among(pages: Pages, leaf: Id, par: Id, c: nat) {
    && leaf in pages && pages[leaf].Leaf? && pages[leaf].parent == par && par in pages && pages[par].Internal?
    && ChildIndex(pages[par].items, leaf) == c < |pages[par].items|
    && (forall a :: 0 <= a < |pages[par].items| ==>
        pages[par].items[a].child in pages && pages[pages[par].items[a].child].Leaf?)
  }

  function EntriesAt(pages: Pages, par: Id, a: nat): seq<Entry> {
    if par in pages && pages[par].Internal?
      && a < |pages[par].items| then EntriesOf(pages, pages[par].items[a].child) else []
  }

  /** Children `d` and `d + 1` of `par` are leaves. */
  ghost predicate LeafPairOf(pages: Pages, par: Id, d: nat) {
    && par in pages && pages[par].Internal? && d + 1 < |pages[par].items|
    && pages[par].items[d].child in pages && pages[pages[par].items[d].child].Leaf?
    && pages[par].items[d + 1].child in pages && pages[pages[par].items[d + 1].child].Leaf?
  }

  /** The last entry of child `d` moves to child `d + 1`. */
  ghost predicate TakesFromLeft(pages: Pages, pages': Pages, par: Id, d: nat, sorted: seq<Entry>) {
    && LeafPairOf(pages, par, d)
    && var l, e := EntriesAt(pages, par, d), EntriesAt(pages, par, d + 1);
       && |l| > 0 && SortOf(sorted, [Last(l)] + e)
       && pages' == ShareLeaves(pages, pages[par].items[d].child, pages[par].items[d + 1].child, par, d, Front(l),
                                sorted, sorted[0].key)
  }

  /** The first entry of child `d + 1` moves to child `d`. */
  ghost predicate TakesFromRight(pages: Pages, pages': Pages, par: Id, d: nat, sorted: seq<Entry>) {
    && LeafPairOf(pages, par, d)
    && var e, r := EntriesAt(pages, par, d), EntriesAt(pages, par, d + 1);
       && |r| > 1 && SortOf(sorted, e + [r[0]])
       && pages' == ShareLeaves(pages, pages[par].items[d].child, pages[par].items[d + 1].child, par, d, sorted, r[1..],
                                r[1].key)
  }

  /** Child `d + 1` goes into child `d`. */
  ghost predicate JoinsLeaves(pages: Pages, pages': Pages, par: Id, d: nat, sorted: seq<Entry>) {
    && LeafPairOf(pages, par, d)
    && SortOf(sorted, EntriesAt(pages, par, d) + EntriesAt(pages, par, d + 1))
    && pages' == MergeLeaves(pages, pages[par].items[d].child, pages[par].items[d + 1].child, par, d, sorted)
  }

  /** What refilling the short leaf, child `c`, does: borrow from the left, or from the right, or
      merge. `d` is the left child of the two concerned, `up` the page that may be short next. */
  ghost predicate LeafRefilled(cfg: Config, pages: Pages, pages': Pages, par: Id, c: nat, d: nat, up: Id,
                               sorted: seq<Entry>) {
    if 0 < c && |EntriesAt(pages, par, c - 1)| > cfg.Min(0) then
      up == INVALID && d + 1 == c && TakesFromLeft(pages, pages', par, d, sorted)
    else if |EntriesAt(pages, par, c + 1)| > cfg.Min(0) then
      up == INVALID && d == c && TakesFromRight(pages, pages', par, d, sorted)
    else
      up == par && (if c == 0 then d == c else d + 1 == c) && JoinsLeaves(pages, pages', par, d, sorted)
  }

  /** The three cases of a refill, in terms of the two leaves concerned. */
  ghost predicate RefillCase(cfg: Config, pages: Pages, pages': Pages, par: Id, c: nat, d: nat, up: Id,
                             sorted: seq<Entry>) {
    || (up == INVALID && d + 1 == c && |EntriesAt(pages, par, d)| > cfg.Min(0)
      && TakesFromLeft(pages, pages', par, d, sorted))
    || (up == INVALID && d == c && |EntriesAt(pages, par, d + 1)| > cfg.Min(0)
      && TakesFromRight(pages, pages', par, d, sorted))
    || (up == par && (d == c || d + 1 == c) && |EntriesAt(pages, par, if d == c then d + 1 else d)| <= cfg.Min(0)
        && JoinsLeaves(pages, pages', par, d, sorted))
  }

  lemma RefillIsCase(cfg: Config, pages: Pages, pages': Pages, par: Id, c: nat, d: nat, up: Id, sorted: seq<Entry>)
    requires LeafRefilled(cfg, pages, pages', par, c, d, up, sorted)
    ensures RefillCase(cfg, pages, pages', par, c, d, up, sorted)
  {
  }

  /** Two neighbouring leaves in order, within bounds. */
  ghost predicate LeavesAside(cfg: Config, pages: Pages, levels: seq<Level>, j: nat, p: nat, d: nat, l: seq<Entry>,
                              r: seq<Entry>) {
    && Neighbours(pages, levels, 0, j, p, d)
    && pages[levels[0][j].child].Leaf? && pages[levels[0][j + 1].child].Leaf?
    && pages[levels[0][j].child].entries == l && pages[levels[0][j + 1].child].entries == r
    && Sorted(l) && Sorted(r) && |l| <= cfg.leafMax && |r| <= cfg.leafMax
    && (forall x :: x in l ==> x.key <= levels[0][j + 1].key) && (forall x :: x in r ==> levels[0][j + 1].key <= x.key)
  }

  /** Two neighbouring leaves. */
  lemma LeafNeighbours(cfg: Config, pages: Pages, root: Id, levels: seq<Level>, limit: Id, short: Id, j: nat, p: nat,
                       d: nat)
    requires TreeInv(cfg, pages, root, levels, limit, short) && Neighbours(pages, levels, 0, j, p, d)
    ensures LeavesAside(cfg, pages, levels, j, p, d, EntriesOf(pages, levels[0][j].child),
                        EntriesOf(pages, levels[0][j + 1].child))
  {
    assert LeafOk(pages, levels[0], j) && LeafOk(pages, levels[0], j + 1);
    PageOk(cfg, pages, levels, root, short, 0, levels[0], j);
    PageOk(cfg, pages, levels, root, short, 0, levels[0], j + 1);
  }

  lemma BorrowLeftShares(cfg: Config, l: seq<Entry>, e: seq<Entry>, sorted: seq<Entry>, sep: int)
    requires cfg.Ok() && Sorted(l) && |l| > cfg.Min(0) && |l| <= cfg.leafMax && |e| + 1 == cfg.Min(0)
             && SortOf(sorted, [Last(l)] + e)
    requires (forall x :: x in l ==> x.key <= sep) && (forall x :: x in e ==> sep <= x.key)
    ensures Shares(cfg, l, e, Front(l), sorted, sorted[0].key)
  {
    var last := Last(l);
    assert sorted[0] in multiset(sorted);
    assert sorted[0] == last || sorted[0] in e;
    assert l == Front(l) + [last];
    forall x | x in Front(l) ensures x.key <= sorted[0].key {
      var a :| 0 <= a < |l| - 1 && l[a] == x;
      assert !EntryLess(last, x);
      assert x in l && x.key <= sep;
    }
    SortedFirst(sorted);
    assert sorted[0] in sorted;
  }

  lemma SortedFirst(s: seq<Entry>)
    requires Sorted(s) && |s| > 0
    ensures forall x :: x in s ==> s[0].key <= x.key
  {
    forall x | x in s ensures s[0].key <= x.key {
      var a :| 0 <= a < |s| && s[a] == x;
      if a > 0 { assert !EntryLess(s[a], s[0]); }
    }
  }

  lemma BorrowRightShares(cfg: Config, e: seq<Entry>, r: seq<Entry>, sorted: seq<Entry>, sep: int)
    requires cfg.Ok() && Sorted(r) && |r| > cfg.Min(0) && |r| <= cfg.leafMax && |e| + 1 == cfg.Min(0)
             && SortOf(sorted, e + [r[0]])
    requires (forall x :: x in e ==> x.key <= sep) && (forall x :: x in r ==> sep <= x.key)
    ensures |r| > 1 && Shares(cfg, e, r, sorted, r[1..], r[1].key)
  {
    assert r == [r[0]] + r[1..];
    SortedFirst(r[1..]);
    assert !EntryLess(r[1], r[0]);
    forall x | x in sorted ensures x.key <= r[1].key {
      assert x in multiset(sorted);
      assert x == r[0] || x in e;
      assert r[1] in r;
    }
    assert r[1..][0] == r[1] && r[1] in r[1..];
  }

  /** The state of a tree whose leaf `leaf`, at `i`, has one entry too few. */
  ghost predicate ShortLeaf(cfg: Config, pages: Pages, root: Id, levels: seq<Level>, limit: Id, i: nat, leaf: Id) {
    && TreeInv(cfg, pages, root, levels, limit, leaf) && i < |levels[0]| && levels[0][i].child == leaf && leaf != root
    && leaf in pages && pages[leaf].Leaf? && |pages[leaf].entries| + 1 == cfg.Min(0)
  }

  lemma BorrowLeftCore(cfg: Config, pages: Pages, pages': Pages, root: Id, levels: seq<Level>, limit: Id, j: nat,
                       p: nat, d: nat, l: seq<Entry>, e: seq<Entry>, sorted: seq<Entry>) returns (levels': seq<Level>)
    requires LeavesAside(cfg, pages, levels, j, p, d, l, e)
    requires TreeInv(cfg, pages, root, levels, limit, levels[0][j + 1].child)
    requires |l| > cfg.Min(0) && |e| + 1 == cfg.Min(0) && SortOf(sorted, [Last(l)] + e)
    requires pages' == ShareLeaves(pages, levels[0][j].child, levels[0][j + 1].child, levels[1][p].child, d, Front(l),
                                   sorted, sorted[0].key)
    ensures TreeInv(cfg, pages', root, levels', limit, INVALID) && Content(pages', levels') == Content(pages, levels)
  {
    BorrowLeftShares(cfg, l, e, sorted, levels[0][j + 1].key);
    levels' := levels[0 := SetKey(levels[0], j + 1, sorted[0].key)];
    LeafShareKeepsTree(cfg, pages, pages', root, levels, levels', limit, levels[0][j + 1].child, j, p, d, Front(l),
                       sorted, sorted[0].key);
  }

  lemma BorrowRightCore(cfg: Config, pages: Pages, pages': Pages, root: Id, levels: seq<Level>, limit: Id, j: nat,
                        p: nat, d: nat, e: seq<Entry>, r: seq<Entry>, sorted: seq<Entry>) returns (levels': seq<Level>)
    requires LeavesAside(cfg, pages, levels, j, p, d, e, r)
    requires TreeInv(cfg, pages, root, levels, limit, levels[0][j].child)
    requires |r| > cfg.Min(0) && |r| > 1 && |e| + 1 == cfg.Min(0) && SortOf(sorted, e + [r[0]])
    requires pages' == ShareLeaves(pages, levels[0][j].child, levels[0][j + 1].child, levels[1][p].child, d, sorted,
                                   r[1..], r[1].key)
    ensures TreeInv(cfg, pages', root, levels', limit, INVALID) && Content(pages', levels') == Content(pages, levels)
  {
    BorrowRightShares(cfg, e, r, sorted, levels[0][j + 1].key);
    levels' := levels[0 := SetKey(levels[0], j + 1, r[1].key)];
    LeafShareKeepsTree(cfg, pages, pages', root, levels, levels', limit, levels[0][j].child, j, p, d, sorted, r[1..],
                       r[1].key);
  }

  /** Children `d` and `d + 1` of the parent `par`, one of them the leaf at `i`, as leaves side by side. */
  lemma AsidePlaces(cfg: Config, pages: Pages, root: Id, levels: seq<Level>, short: Id, i: nat, p: nat, c: nat, d: nat)
      returns (j: nat)
    requires NodesOk(cfg, pages, levels, root, short) && At(pages, levels, 0, i, p, c)
    requires d + 1 < |pages[levels[1][p].child].items| && (d == c || d + 1 == c)
    ensures Neighbours(pages, levels, 0, j, p, d) && (if d == c then j == i else j + 1 == i)
  {
    j := |Flat(pages, levels[1][..p])| + d;
    NeighboursOf(cfg, pages, levels, root, short, 0, i, p, c, d, j);
  }

  lemma Aside(cfg: Config, pages: Pages, root: Id, levels: seq<Level>, limit: Id, i: nat, p: nat, leaf: Id, par: Id,
              c: nat, d: nat) returns (j: nat)
    requires ShortLeaf(cfg, pages, root, levels, limit, i, leaf) && Placed(cfg, pages, levels, 0, i, p, leaf)
    requires par == pages[leaf].parent && c == ChildIndex(pages[par].items, leaf) && LeafPairOf(pages, par, d)
             && (d == c || d + 1 == c)
    ensures j + 1 < |levels[0]| && levels[0][j].child == pages[par].items[d].child
            && levels[0][j + 1].child == pages[par].items[d + 1].child
    ensures LeavesAside(cfg, pages, levels, j, p, d, EntriesAt(pages, par, d), EntriesAt(pages, par, d + 1))
    ensures levels[1][p].child == par && (if d == c then levels[0][j].child else levels[0][j + 1].child) == leaf
    ensures |EntriesAt(pages, par, c)| + 1 == cfg.Min(0)
  {
    j := AsidePlaces(cfg, pages, root, levels, leaf, i, p, c, d);
    LeafNeighbours(cfg, pages, root, levels, limit, leaf, j, p, d);
  }

  lemma MergeSize(cfg: Config, n: nat, m: nat)
    requires cfg.Ok() && n + 1 == cfg.Min(0) && m <= cfg.Min(0)
    ensures n + m <= cfg.leafMax
  {
  }

  lemma MergeCore(cfg: Config, pages: Pages, pages': Pages, root: Id, levels: seq<Level>, limit: Id, j: nat, p: nat,
                  d: nat, short: Id, l: seq<Entry>, r: seq<Entry>, sorted: seq<Entry>) returns (levels': seq<Level>)
    requires LeavesAside(cfg, pages, levels, j, p, d, l, r) && TreeInv(cfg, pages, root, levels, limit, short)
    requires short == levels[0][j].child || short == levels[0][j + 1].child
    requires SortOf(sorted, l + r) && |l| + |r| <= cfg.leafMax
    requires pages' == MergeLeaves(pages, levels[0][j].child, levels[0][j + 1].child, levels[1][p].child, d, sorted)
    ensures TreeInv(cfg, pages', root, levels', limit, levels[1][p].child)
            && Content(pages', levels') == Content(pages, levels)
    ensures OnLevel(levels', 1, levels[1][p].child) && |levels'| == |levels|
  {
    levels' := levels[0 := Del(levels[0], j + 1)];
    LeafMergeIs(pages, pages', levels, levels', j, p, d, sorted);
    var par, m: nat := levels[1][p].child, 1;
    LeafMergeKeepsTree(cfg, pages, pages', root, levels, levels', limit, short, 0, m, j, p, d, par);
    AtLevel(levels', 1, p);
  }

  /** Refilling a short leaf leaves a whole tree, or makes its parent the short page. */
  lemma RefillStep(cfg: Config, pages: Pages, pages': Pages, root: Id, levels: seq<Level>, limit: Id, i: nat, p: nat,
                   leaf: Id, par: Id, c: nat, d: nat, up: Id, sorted: seq<Entry>)
      returns (levels': seq<Level>)
    requires ShortLeaf(cfg, pages, root, levels, limit, i, leaf) && Placed(cfg, pages, levels, 0, i, p, leaf)
    requires RefillCase(cfg, pages, pages', par, c, d, up, sorted) && par == pages[leaf].parent
             && c == ChildIndex(pages[par].items, leaf)
    ensures TreeInv(cfg, pages', root, levels', limit, up) && Content(pages', levels') == Content(pages, levels)
    ensures up != INVALID ==> OnLevel(levels', 1, up) && |levels'| == |levels|
  {
    var j := Aside(cfg, pages, root, levels, limit, i, p, leaf, par, c, d);
    if up == INVALID {
      levels' := ShareStep(cfg, pages, pages', root, levels, limit, j, p, par, c, d, sorted);
    } else {
      levels' := JoinStep(cfg, pages, pages', root, levels, limit, j, p, leaf, par, c, d, sorted);
    }
  }

  lemma ShareStep(cfg: Config, pages: Pages, pages': Pages, root: Id, levels: seq<Level>, limit: Id, j: nat, p: nat,
                  par: Id, c: nat, d: nat, sorted: seq<Entry>)
      returns (levels': seq<Level>)
    requires |levels| > 1 && j + 1 < |levels[0]| && LeafPairOf(pages, par, d)
    requires levels[0][j].child == pages[par].items[d].child && levels[0][j + 1].child == pages[par].items[d + 1].child
    requires LeavesAside(cfg, pages, levels, j, p, d, EntriesAt(pages, par, d), EntriesAt(pages, par, d + 1))
             && levels[1][p].child == par
    requires TreeInv(cfg, pages, root, levels, limit, if d == c then levels[0][j].child else levels[0][j + 1].child)
    requires |EntriesAt(pages, par, c)| + 1 == cfg.Min(0) && par != INVALID
    requires RefillCase(cfg, pages, pages', par, c, d, INVALID, sorted)
    ensures TreeInv(cfg, pages', root, levels', limit, INVALID) && Content(pages', levels') == Content(pages, levels)
  {
    if d == c {
      levels' := BorrowRightCore(cfg, pages, pages', root, levels, limit, j, p, d, EntriesAt(pages, par, d),
                                 EntriesAt(pages, par, d + 1), sorted);
    } else {
      levels' := BorrowLeftCore(cfg, pages, pages', root, levels, limit, j, p, d, EntriesAt(pages, par, d),
                                EntriesAt(pages, par, d + 1), sorted);
    }
  }

  lemma JoinStep(cfg: Config, pages: Pages, pages': Pages, root: Id, levels: seq<Level>, limit: Id, j: nat, p: nat,
                 leaf: Id, par: Id, c: nat, d: nat, sorted: seq<Entry>)
      returns (levels': seq<Level>)
    requires |levels| > 1 && j + 1 < |levels[0]| && LeafPairOf(pages, par, d)
    requires levels[0][j].child == pages[par].items[d].child && levels[0][j + 1].child == pages[par].items[d + 1].child
    requires LeavesAside(cfg, pages, levels, j, p, d, EntriesAt(pages, par, d), EntriesAt(pages, par, d + 1))
             && levels[1][p].child == par
    requires TreeInv(cfg, pages, root, levels, limit, leaf)
             && leaf == (if d == c then levels[0][j].child else levels[0][j + 1].child)
    requires |EntriesAt(pages, par, c)| + 1 == cfg.Min(0) && par != INVALID
    requires RefillCase(cfg, pages, pages', par, c, d, par, sorted)
    ensures TreeInv(cfg, pages', root, levels', limit, par) && Content(pages', levels') == Content(pages, levels)
    ensures OnLevel(levels', 1, par) && |levels'| == |levels|
  {
    var l, r := EntriesAt(pages, par, d), EntriesAt(pages, par, d + 1);
    if d == c { MergeSize(cfg, |l|, |r|); } else { MergeSize(cfg, |r|, |l|); }
    levels' := MergeCore(cfg, pages, pages', root, levels, limit, j, p, d, leaf, l, r, sorted);
  }
}
