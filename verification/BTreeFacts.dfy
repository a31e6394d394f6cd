/** What changing a page, or a few, does to the rest of the tree. */
module BTreeFacts {
  import opened BTree

  ghost predicate AllSame(pages: Pages, pages': Pages, level: Level) {
    forall i :: 0 <= i < |level| ==> SameItems(pages, pages', level[i].child)
  }

  /** The children of the middle of a level change; those of the rest do not. */
  lemma FlatMiddle(pages: Pages, pages': Pages, a: Level, m: Level, b: Level)
    requires AllSame(pages, pages', a) && AllSame(pages, pages', b)
    ensures Flat(pages', a + m + b) == Flat(pages, a) + Flat(pages', m) + Flat(pages, b)
  {
    FlatThree(pages', a, m, b);
    FlatSame(pages, pages', a);
    FlatSame(pages, pages', b);
  }

  ghost predicate LinkedBut(pages: Pages, levels: seq<Level>, k: nat) {
    forall j :: 0 <= j < |levels| - 1 && j != k ==> Linked(pages, levels, j)
  }

  lemma FlatTwo(pages: Pages, x: Item, y: Item)
    ensures Flat(pages, [x, y]) == Expand(pages, x) + Expand(pages, y)
  {
    assert [x, y] == [x] + [y];
    FlatConcat(pages, [x], [y]);
    FlatOne(pages, x);
    FlatOne(pages, y);
  }

  /** Levels whose pages keep their children stay linked. */
  lemma StillLinked(pages: Pages, pages': Pages, levels: seq<Level>, levels': seq<Level>, k: nat)
    requires k + 1 < |levels| && k + 1 < |levels'| && Linked(pages, levels, k)
    requires levels'[k] == levels[k] && levels'[k + 1] == levels[k + 1]
    requires forall id :: OnLevel(levels, k + 1, id) ==> SameItems(pages, pages', id)
    ensures Linked(pages', levels', k)
  {
    var above := levels[k + 1];
    forall i | 0 <= i < |above| ensures SameItems(pages, pages', above[i].child) {
      assert OnLevel(levels, k + 1, above[i].child);
    }
    FlatSame(pages, pages', above);
  }

  ghost predicate KeepsParents(pages: Pages, pages': Pages, items: seq<Item>) {
    forall c :: 0 <= c < |items| && items[c].child in pages ==>
      items[c].child in pages' && pages'[items[c].child].parent == pages[items[c].child].parent
  }

  /** A page whose own content and whose children's parents are as before. */
  lemma SameNode(cfg: Config, pages: Pages, pages': Pages, id: Id, k: nat, root: Id, short: Id, root': Id, short': Id)
    requires NodeOk(cfg, pages, id, k, root, short)
    requires SameItems(pages, pages', id) && Size(pages'[id]) == Size(pages[id])
    requires SizeOk(cfg, Size(pages[id]), k, id, root', short')
    requires k > 0 ==> KeepsParents(pages, pages', pages[id].items)
    ensures NodeOk(cfg, pages', id, k, root', short')
  {
    if k > 0 {
      forall c | 0 <= c < |pages'[id].items|
        ensures pages'[id].items[c].child in pages' && pages'[pages'[id].items[c].child].parent == id
      {
        assert pages'[id].items[c] == pages[id].items[c];
      }
    }
  }

  lemma AtLevel(levels: seq<Level>, k: nat, i: nat)
    requires k < |levels| && i < |levels[k]|
    ensures OnLevel(levels, k, levels[k][i].child)
  {
  }

  lemma Position(levels: seq<Level>, k: nat, id: Id) returns (i: nat)
    requires OnLevel(levels, k, id)
    ensures i < |levels[k]| && levels[k][i].child == id
  {
    i :| 0 <= i < |levels[k]| && levels[k][i].child == id;
  }

  /** The page above: where it is, and which of its children we are. */
  lemma Above(cfg: Config, pages: Pages, levels: seq<Level>, root: Id, short: Id, k: nat, above: Level, flat: Level,
              i: nat) returns (p: nat, c: nat)
    requires k < |levels| && above == levels[k] && 0 < k && flat == Flat(pages, above) && i < |flat|
    requires NodesOk(cfg, pages, levels, root, short)
    ensures p < |above|
    ensures var par := above[p].child;
            && par in pages && pages[par].Internal? && c < |pages[par].items|
            && pages[par].items[c].child == flat[i].child
            && flat[i].child in pages && pages[flat[i].child].parent == par
            && i == |Flat(pages, above[..p])| + c
            && flat[i].key == (if c == 0 then above[p].key else pages[par].items[c].key)
            && flat == Flat(pages, above[..p]) + Expand(pages, above[p]) + Flat(pages, above[p + 1..])
  {
    p, c := Locate(pages, above, i);
    PageOk(cfg, pages, levels, root, short, k, above, p);
    FlatAt(pages, above, p);
  }

  lemma PageOk(cfg: Config, pages: Pages, levels: seq<Level>, root: Id, short: Id, k: nat, level: Level, p: nat)
    requires NodesOk(cfg, pages, levels, root, short) && k < |levels| && level == levels[k] && p < |level|
    ensures NodeOk(cfg, pages, level[p].child, k, root, short)
  {
    AtLevel(levels, k, p);
  }

  lemma IsLinked(pages: Pages, levels: seq<Level>, m: nat, k: nat)
    requires m + 1 == k && k < |levels| && levels[m] == Flat(pages, levels[k])
    ensures Linked(pages, levels, m)
  {
  }

  lemma BelowIs(pages: Pages, levels: seq<Level>, k: nat, m: nat)
    requires AllLinked(pages, levels) && k < |levels| && m + 1 == k
    ensures levels[m] == Flat(pages, levels[k])
  {
    assert Linked(pages, levels, m);
  }

  // ----- separators are in order -----

  lemma {:induction false} SeparatorsAscend(pages: Pages, level: Level, i: nat, j: nat)
    requires LeavesOk(pages, level) && 0 < i <= j < |level|
    ensures level[i].key <= level[j].key
    decreases j
  {
    if i < j {
      SeparatorsAscend(pages, level, i, j - 1);
      assert LeafOk(pages, level, j - 1);
    }
  }

  // ----- adding, dropping and renaming places -----

  lemma InsAt<T>(s: seq<T>, i: nat, x: T)
    requires i <= |s|
    ensures |Ins(s, i, x)| == |s| + 1 && Ins(s, i, x)[i] == x
    ensures forall j :: 0 <= j < i ==> Ins(s, i, x)[j] == s[j]
    ensures forall j :: i < j <= |s| ==> Ins(s, i, x)[j] == s[j - 1]
    ensures Del(Ins(s, i, x), i) == s
  {
  }

  lemma InsOnLevel(levels: seq<Level>, k: nat, i: nat, x: Item, j: nat, id: Id)
    requires k < |levels| && i <= |levels[k]|
    ensures OnLevel(levels[k := Ins(levels[k], i, x)], j, id) <==> OnLevel(levels, j, id) || (j == k && id == x.child)
  {
    var levels' := levels[k := Ins(levels[k], i, x)];
    InsAt(levels[k], i, x);
    if j == k {
      if OnLevel(levels', k, id) {
        var m := Position(levels', k, id);
        assert m < i || m == i || levels'[k][m] == levels[k][m - 1];
      }
      if OnLevel(levels, k, id) {
        var m := Position(levels, k, id);
        if m < i { AtLevel(levels', k, m); } else { AtLevel(levels', k, m + 1); }
      }
      AtLevel(levels', k, i);
    } else if j < |levels| {
      assert levels'[j] == levels[j];
    }
  }

  lemma InsNoDup(level: Level, i: nat, x: Item)
    requires NoDup(level) && i <= |level| && forall j :: 0 <= j < |level| ==> level[j].child != x.child
    ensures NoDup(Ins(level, i, x))
  {
    InsAt(level, i, x);
  }

  lemma InsUnique(levels: seq<Level>, k: nat, i: nat, x: Item)
    requires Unique(levels) && k < |levels| && i <= |levels[k]| && forall j :: !OnLevel(levels, j, x.child)
    ensures Unique(levels[k := Ins(levels[k], i, x)])
  {
    var levels' := levels[k := Ins(levels[k], i, x)];
    forall j, l, id | OnLevel(levels', j, id) && OnLevel(levels', l, id) ensures j == l {
      InsOnLevel(levels, k, i, x, j, id);
      InsOnLevel(levels, k, i, x, l, id);
    }
    forall j | 0 <= j < |levels[k]| ensures levels[k][j].child != x.child { AtLevel(levels, k, j); }
    InsNoDup(levels[k], i, x) by { assert NoDup(levels[k]); }
    forall j | 0 <= j < |levels'| ensures NoDup(levels'[j]) { if j != k { assert NoDup(levels[j]); } }
  }

  /** A new page takes the number that was next. */
  lemma InsCovers(pages: Pages, pages': Pages, levels: seq<Level>, limit: Id, next: Id, k: nat, i: nat, x: Item)
    requires IsNext(next, limit, pages)
    requires Covers(pages, levels, limit) && k < |levels| && i <= |levels[k]| && x.child == limit
    requires pages'.Keys == pages.Keys + {limit} && 0 < limit
    ensures Covers(pages', levels[k := Ins(levels[k], i, x)], next)
  {
    var levels' := levels[k := Ins(levels[k], i, x)];
    forall id | id in pages' ensures exists j :: OnLevel(levels', j, id) {
      assert id in pages.Keys || id == limit;
      if id == limit {
        InsOnLevel(levels, k, i, x, k, id);
        assert OnLevel(levels', k, id);
      } else {
        var j :| OnLevel(levels, j, id);
        InsOnLevel(levels, k, i, x, j, id);
        assert OnLevel(levels', j, id);
      }
    }
  }

  lemma UnusedNotOnLevel(cfg: Config, pages: Pages, levels: seq<Level>, root: Id, short: Id, id: Id)
    requires NodesOk(cfg, pages, levels, root, short) && id !in pages
    ensures forall k :: !OnLevel(levels, k, id)
  {
    forall k, d | OnLevel(levels, k, d) ensures d in pages { assert NodeOk(cfg, pages, d, k, root, short); }
  }

  // ----- pages whose content stays, though perhaps under another parent -----

  predicate SameBody(a: Node, b: Node) {
    if a.Leaf? then b.Leaf? && b.entries == a.entries && b.next == a.next else b.Internal? && b.items == a.items
  }

  lemma LeavesSame(pages: Pages, pages': Pages, level: Level)
    requires LeavesOk(pages, level)
    requires forall id :: id in pages && pages[id].Leaf? ==> id in pages' && SameBody(pages[id], pages'[id])
    ensures LeavesOk(pages', level)
  {
    forall i | 0 <= i < |level| ensures LeafOk(pages', level, i) { assert LeafOk(pages, level, i); }
  }

  lemma ContentSame(pages: Pages, pages': Pages, levels: seq<Level>, levels': seq<Level>)
    requires |levels| > 0 && |levels'| > 0 && levels'[0] == levels[0] && LeavesOk(pages, levels[0])
    requires forall id :: id in pages && pages[id].Leaf? ==> id in pages' && SameBody(pages[id], pages'[id])
    ensures Content(pages', levels') == Content(pages, levels)
  {
    forall i | 0 <= i < |levels[0]|
      ensures EntriesOf(pages', levels[0][i].child) == EntriesOf(pages, levels[0][i].child)
    {
      assert LeafOk(pages, levels[0], i);
    }
    GatherSame(pages, pages', levels[0], levels'[0]);
  }
}
