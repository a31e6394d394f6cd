/** Removal, continued: refilling an internal page from its neighbours. */
module BTreeRefill {
  import opened BTree
  import opened BTreeFacts
  import opened BTreeInsert
  import opened BTreeSeparators
  import opened BTreeMerge
  import opened BTreeBorrow
  import opened BTreeSteps
  import opened BTreeRemoval

  // ----- the smallest key below a page -----

  /** From `id`, first children lead down `k` levels to a leaf that is not empty. */
  ghost predicate LeadsDown(pages: Pages, id: Id, k: nat)
    decreases k
  {
    && id in pages
    && if k == 0 then pages[id].Leaf? && |pages[id].entries| > 0
       else pages[id].Internal? && |pages[id].items| > 0 && LeadsDown(pages, pages[id].items[0].child, k - 1)
  }

  ghost function FirstOf(pages: Pages, id: Id, k: nat): int
    requires LeadsDown(pages, id, k)
    decreases k
  {
    if k == 0 then pages[id].entries[0].key else FirstOf(pages, pages[id].items[0].child, k - 1)
  }

  lemma FirstChildPlace(cfg: Config, pages: Pages, root: Id, levels: seq<Level>, short: Id, k: nat, m: nat, i: nat)
      returns (q: nat)
    requires NodesOk(cfg, pages, levels, root, short) && AllLinked(pages, levels) && m + 1 == k && k < |levels|
             && i < |levels[k]|
    ensures q == |Flat(pages, levels[k][..i])| && q < |levels[m]|
    ensures var id := levels[k][i].child;
            id in pages && pages[id].Internal? && |pages[id].items| > 0
              && levels[m][q].child == pages[id].items[0].child
  {
    PageOk(cfg, pages, levels, root, short, k, levels[k], i);
    BelowIs(pages, levels, k, m);
    ChildInFlat(pages, levels[k], levels[m], i, 0);
    q := |Flat(pages, levels[k][..i])|;
  }

  lemma LeftmostStep(pages: Pages, levels: seq<Level>, k: nat, m: nat, i: nat, q: nat, id: Id)
    requires m + 1 == k && k < |levels| && i < |levels[k]| && q == |Flat(pages, levels[k][..i])|
    requires id in pages && pages[id].Internal? && |pages[id].items| > 0
             && LeadsDown(pages, pages[id].items[0].child, m)
    ensures Leftmost(pages, levels, k, i) == Leftmost(pages, levels, m, q)
    ensures LeadsDown(pages, id, k) && FirstOf(pages, id, k) == FirstOf(pages, pages[id].items[0].child, m)
  {
  }

  lemma {:induction false} FirstKeyIs(cfg: Config, pages: Pages, root: Id, levels: seq<Level>, limit: Id, short: Id,
                                      k: nat, i: nat)
    requires TreeInv(cfg, pages, root, levels, limit, short) && k < |levels| && i < |levels[k]|
    requires short in pages ==> pages[short].Internal?
    ensures var id := levels[k][i].child;
            LeadsDown(pages, id, k) && FirstKey(pages, levels, k, i, FirstOf(pages, id, k))
    decreases k
  {
    if k == 0 {
      PageOk(cfg, pages, levels, root, short, 0, levels[0], i);
    } else {
      var m := k - 1;
      var q := FirstChildPlace(cfg, pages, root, levels, short, k, m, i);
      FirstKeyIs(cfg, pages, root, levels, limit, short, m, q);
      LeftmostStep(pages, levels, k, m, i, q, levels[k][i].child);
    }
  }

  // ----- what refilling does -----

  /** `id` is child `c` of `par`; all children of `par` are internal pages. */
  ghost predicate AmongInternal(pages: Pages, id: Id, par: Id, c: nat) {
    && id in pages && pages[id].Internal? && pages[id].parent == par && par in pages && pages[par].Internal?
    && ChildIndex(pages[par].items, id) == c < |pages[par].items|
    && (forall a :: 0 <= a < |pages[par].items| ==> InternalChild(pages, par, pages[par].items[a].child))
  }

  predicate InternalChild(pages: Pages, par: Id, id: Id) {
    id in pages && pages[id].Internal? && |pages[id].items| > 0 && pages[id].parent == par
  }

  function ItemsAt(pages: Pages, par: Id, a: nat): seq<Item> {
    if par in pages && pages[par].Internal? && a < |pages[par].items|
       && pages[par].items[a].child in pages && pages[pages[par].items[a].child].Internal?
    then pages[pages[par].items[a].child].items else []
  }

  /** The entries of children `d` and `d + 1` of `par`, with the separator between them brought down. */
  function Both(pages: Pages, par: Id, d: nat): seq<Item> {
    if |ItemsAt(pages, par, d + 1)| > 0 then
      Joined(ItemsAt(pages, par, d), pages[par].items[d + 1].key, ItemsAt(pages, par, d + 1))
    else []
  }

  /** Children `d` and `d + 1` of `par` share their entries out anew, before entry `n`. */
  ghost predicate SharesOut(pages: Pages, pages': Pages, par: Id, d: nat, n: nat, key: int) {
    && par in pages && pages[par].Internal? && d + 1 < |pages[par].items|
    && var left, right := pages[par].items[d].child, pages[par].items[d + 1].child;
       && InternalChild(pages, par, left) && InternalChild(pages, par, right)
       && var all := Both(pages, par, d);
          && n < |all|
          && left in pages' && right in pages' && par in pages' && pages'.Keys == pages.Keys
          && pages'[left] == pages[left].(items := all[..n])
          && pages'[right] == pages[right].(items := HighPart(all, n))
          && pages'[par] == pages[par].(items := SetKey(pages[par].items, d + 1, key))
          && SharedRest(pages, pages', left, right, par, all, n)
  }

  /** Child `d + 1` of `par` goes into child `d`. */
  function JoinPages(pages: Pages, par: Id, d: nat): Pages {
    if par in pages && pages[par].Internal? && d + 1 < |pages[par].items|
       && InternalChild(pages, par, pages[par].items[d].child) then
      pages[pages[par].items[d].child := pages[pages[par].items[d].child].(items := Both(pages, par, d))]
           [par := pages[par].(items := Del(pages[par].items, d + 1))]
      - {pages[par].items[d + 1].child}
    else pages
  }

  ghost predicate Joins(pages: Pages, pages': Pages, par: Id, d: nat) {
    && par in pages && pages[par].Internal? && d + 1 < |pages[par].items|
    && InternalChild(pages, par, pages[par].items[d].child) && InternalChild(pages, par, pages[par].items[d + 1].child)
    && Moved(JoinPages(pages, par, d), pages', ItemsAt(pages, par, d + 1), pages[par].items[d].child)
  }

  /** What refilling a short internal page, child `c`, does. `d` is the left child of the two
      concerned; `key` is the separator a share needs. */
  ghost predicate InternalRefilled(cfg: Config, pages: Pages, pages': Pages, par: Id, c: nat, d: nat, up: Id, m: nat,
                                   key: int) {
    if 0 < c && |ItemsAt(pages, par, c - 1)| > cfg.Min(1) then
      up == INVALID && d + 1 == c && SharesAt(pages, pages', par, d, |ItemsAt(pages, par, d)| - 1, m, key)
    else if |ItemsAt(pages, par, c + 1)| > cfg.Min(1) then
      up == INVALID && d == c && SharesAt(pages, pages', par, d, |ItemsAt(pages, par, d)| + 1, m, key)
    else
      up == par && (if c == 0 then d == c else d + 1 == c) && Joins(pages, pages', par, d)
  }

  ghost predicate SharesAt(pages: Pages, pages': Pages, par: Id, d: nat, n: int, m: nat, key: int) {
    0 <= n && SharesOut(pages, pages', par, d, n, key) && SplitsAt(pages, par, d, n, m, key)
  }

  lemma RefilledFromLeft(cfg: Config, pages: Pages, pages': Pages, par: Id, c: nat, left: nat, n: nat, m: nat, key: int)
    requires left + 1 == c && |ItemsAt(pages, par, left)| > cfg.Min(1) && n + 1 == |ItemsAt(pages, par, left)|
    requires SharesOut(pages, pages', par, left, n, key) && SplitsAt(pages, par, left, n, m, key)
    ensures InternalRefilled(cfg, pages, pages', par, c, left, INVALID, m, key)
  {
  }

  lemma RefilledFromRight(cfg: Config, pages: Pages, pages': Pages, par: Id, c: nat, left: int, right: nat, n: nat,
                          m: nat, key: int)
    requires left == c - 1 && right == c + 1 && |ItemsAt(pages, par, right)| > cfg.Min(1)
             && n == |ItemsAt(pages, par, c)| + 1
    requires 0 < c ==> |ItemsAt(pages, par, left)| <= cfg.Min(1)
    requires SharesOut(pages, pages', par, c, n, key) && SplitsAt(pages, par, c, n, m, key)
    ensures InternalRefilled(cfg, pages, pages', par, c, c, INVALID, m, key)
  {
  }

  lemma RefilledByJoin(cfg: Config, pages: Pages, pages': Pages, par: Id, c: nat, left: int, right: nat, d: nat,
                       m: nat, key: int)
    requires left == c - 1 && right == c + 1 && |ItemsAt(pages, par, right)| <= cfg.Min(1)
    requires 0 < c ==> |ItemsAt(pages, par, left)| <= cfg.Min(1)
    requires (if c == 0 then d == c else d == left) && Joins(pages, pages', par, d)
    ensures InternalRefilled(cfg, pages, pages', par, c, d, par, m, key)
  {
  }

  /** The three cases, in terms of the two pages concerned. */
  ghost predicate InternalCase(cfg: Config, pages: Pages, pages': Pages, par: Id, c: nat, d: nat, up: Id, m: nat,
                               key: int) {
    || (up == INVALID && d + 1 == c && |ItemsAt(pages, par, d)| > cfg.Min(1)
      && SharesAt(pages, pages', par, d, |ItemsAt(pages, par, d)| - 1, m, key))
    || (up == INVALID && d == c && |ItemsAt(pages, par, d + 1)| > cfg.Min(1)
      && SharesAt(pages, pages', par, d, |ItemsAt(pages, par, d)| + 1, m, key))
    || (up == par && (d == c || d + 1 == c) && |ItemsAt(pages, par, if d == c then d + 1 else d)| <= cfg.Min(1)
      && Joins(pages, pages', par, d))
  }

  lemma InternalRefillIsCase(cfg: Config, pages: Pages, pages': Pages, par: Id, c: nat, d: nat, up: Id, m: nat,
                             key: int)
    requires InternalRefilled(cfg, pages, pages', par, c, d, up, m, key)
    ensures InternalCase(cfg, pages, pages', par, c, d, up, m, key)
  {
  }

  /** `key` is the smallest key below the page that becomes the first of the right one. */
  ghost predicate SplitsAt(pages: Pages, par: Id, d: nat, n: nat, m: nat, key: int) {
    && n < |Both(pages, par, d)|
    && LeadsDown(pages, Both(pages, par, d)[n].child, m) && FirstOf(pages, Both(pages, par, d)[n].child, m) == key
  }

  // ----- and that the tree stays one -----

  /** The state of a tree whose internal page `id`, at `i` of level `k`, has one entry too few. */
  ghost predicate ShortInternal(cfg: Config, pages: Pages, root: Id, levels: seq<Level>, limit: Id, k: nat, i: nat,
                                id: Id) {
    && TreeInv(cfg, pages, root, levels, limit, id) && 0 < k < |levels| && i < |levels[k]| && levels[k][i].child == id
      && id != root
    && id in pages && pages[id].Internal? && |pages[id].items| + 1 == cfg.Min(1)
  }

  lemma AsideInternal(cfg: Config, pages: Pages, root: Id, levels: seq<Level>, limit: Id, k: nat, i: nat, p: nat,
                      id: Id, par: Id, c: nat, d: nat) returns (j: nat)
    requires ShortInternal(cfg, pages, root, levels, limit, k, i, id) && Placed(cfg, pages, levels, k, i, p, id)
    requires AmongInternal(pages, id, par, c) && d + 1 < |pages[par].items| && (d == c || d + 1 == c)
    ensures Neighbours(pages, levels, k, j, p, d) && levels[k + 1][p].child == par
    ensures levels[k][j].child == pages[par].items[d].child && levels[k][j + 1] == pages[par].items[d + 1]
    ensures (if d == c then levels[k][j].child else levels[k][j + 1].child) == id
    ensures |ItemsAt(pages, par, d)| <= cfg.internalMax && |ItemsAt(pages, par, d + 1)| <= cfg.internalMax
  {
    j := |Flat(pages, levels[k + 1][..p])| + d;
    NeighboursOf(cfg, pages, levels, root, id, k, i, p, c, d, j);
    AtLevel(levels, k, j);
    AtLevel(levels, k, j + 1);
    assert NodeOk(cfg, pages, levels[k][j].child, k, root, id);
    assert NodeOk(cfg, pages, levels[k][j + 1].child, k, root, id);
  }

  /** The entry that becomes the first of the right page, on the level below. */
  lemma SplitPlace(pages: Pages, level: Level, below: Level, j: nat, n: nat, all: seq<Item>) returns (q: nat)
    requires below == Flat(pages, level) && j + 1 < |level|
    requires level[j].child in pages && level[j + 1].child in pages && pages[level[j].child].Internal?
             && pages[level[j + 1].child].Internal?
    requires |pages[level[j].child].items| > 0 && |pages[level[j + 1].child].items| > 0
    requires all == Joined(pages[level[j].child].items, level[j + 1].key, pages[level[j + 1].child].items) && n < |all|
    ensures q == |Flat(pages, level[..j])| + n && q < |below| && below[q].child == all[n].child
  {
    var a, x, y, b := level[..j], level[j], level[j + 1], level[j + 2..];
    assert level == a + [x, y] + b;
    FlatAround(pages, a, x, y, b);
    q := |Flat(pages, a)| + n;
    JoinedAt(pages, x, y, all, n);
  }

  lemma JoinedAt(pages: Pages, x: Item, y: Item, all: seq<Item>, n: nat)
    requires x.child in pages && y.child in pages && pages[x.child].Internal? && pages[y.child].Internal?
    requires |pages[x.child].items| > 0 && |pages[y.child].items| > 0
    requires all == Joined(pages[x.child].items, y.key, pages[y.child].items) && n < |all|
    ensures n < |Expand(pages, x) + Expand(pages, y)| && (Expand(pages, x) + Expand(pages, y))[n].child == all[n].child
  {
  }

  lemma LevelsOfShare(cfg: Config, pages: Pages, root: Id, levels: seq<Level>, short: Id, k: nat, m: nat, j: nat,
                      q: nat, key: int)
      returns (low: seq<Level>, levels': seq<Level>)
    requires NodesOk(cfg, pages, levels, root, short) && AllLinked(pages, levels) && m + 1 == k && k < |levels|
             && j + 1 < |levels[k]|
    requires q < |levels[m]|
    ensures ShareLevels(pages, levels, low, levels', k, m, j, q, key)
  {
    NodesHaveChildren(cfg, pages, levels, root, short, m);
    SetLowKeeps(pages, levels, m, q, key);
    low := SetLow(pages, levels, m, q, key);
    levels' := low[k := SetKey(levels[k], j + 1, key)];
  }

  lemma ShareCore(cfg: Config, pages: Pages, pages': Pages, root: Id, levels: seq<Level>, limit: Id, short: Id,
                  k: nat, m: nat, j: nat, p: nat, d: nat, n: nat, key: int, q: nat) returns (levels': seq<Level>)
    requires TreeInv(cfg, pages, root, levels, limit, short)
             && InternalShares(cfg, pages, pages', levels, k, j, p, d, n, key) && 0 < n
    requires short == levels[k][j].child || short == levels[k][j + 1].child
    requires m + 1 == k && q == |Flat(pages, levels[k][..j])| + n && q < |levels[m]|
             && FirstKey(pages, levels, m, q, key)
    ensures TreeInv(cfg, pages', root, levels', limit, INVALID) && Content(pages', levels') == Content(pages, levels)
  {
    var low;
    low, levels' := LevelsOfShare(cfg, pages, root, levels, short, k, m, j, q, key);
    InternalShareKeepsTree(cfg, pages, pages', root, levels, low, levels', limit, short, k, m, j, p, d, n, key, q);
  }

  lemma SharesOutIs(cfg: Config, pages: Pages, pages': Pages, levels: seq<Level>, k: nat, j: nat, p: nat, d: nat,
                    n: nat, key: int, par: Id)
    requires 0 < k && Neighbours(pages, levels, k, j, p, d) && levels[k + 1][p].child == par
             && SharesOut(pages, pages', par, d, n, key)
    requires n + 1 == |ItemsAt(pages, par, d)| || n == |ItemsAt(pages, par, d)| + 1
    requires cfg.Min(1) <= n <= cfg.internalMax && cfg.Min(1) <= |Both(pages, par, d)| - n <= cfg.internalMax
    ensures InternalShares(cfg, pages, pages', levels, k, j, p, d, n, key)
  {
  }

  lemma SplitChild(pages: Pages, levels: seq<Level>, k: nat, m: nat, j: nat, p: nat, par: Id, d: nat, n: nat)
      returns (q: nat)
    requires Neighbours(pages, levels, k, j, p, d) && levels[k + 1][p].child == par && m + 1 == k
             && levels[m] == Flat(pages, levels[k])
    requires InternalChild(pages, par, levels[k][j].child) && InternalChild(pages, par, levels[k][j + 1].child)
             && n < |Both(pages, par, d)|
    ensures q == |Flat(pages, levels[k][..j])| + n && q < |levels[m]|
            && levels[m][q].child == Both(pages, par, d)[n].child
  {
    q := SplitPlace(pages, levels[k], levels[m], j, n, Both(pages, par, d));
  }

  lemma FirstKeyAt(cfg: Config, pages: Pages, root: Id, levels: seq<Level>, limit: Id, short: Id, m: nat, q: nat,
                   child: Id, key: int)
    requires TreeInv(cfg, pages, root, levels, limit, short) && m < |levels| && q < |levels[m]|
             && levels[m][q].child == child
    requires short in pages && pages[short].Internal?
    requires LeadsDown(pages, child, m) && FirstOf(pages, child, m) == key
    ensures FirstKey(pages, levels, m, q, key)
  {
    FirstKeyIs(cfg, pages, root, levels, limit, short, m, q);
  }

  lemma ShareStep(cfg: Config, pages: Pages, pages': Pages, root: Id, levels: seq<Level>, limit: Id, k: nat, m: nat,
                  j: nat, p: nat, id: Id, par: Id, d: nat, n: nat, key: int, q: nat)
      returns (levels': seq<Level>)
    requires TreeInv(cfg, pages, root, levels, limit, id) && m + 1 == k
    requires Neighbours(pages, levels, k, j, p, d) && levels[k + 1][p].child == par
    requires id == levels[k][j].child || id == levels[k][j + 1].child
    requires SharesOut(pages, pages', par, d, n, key)
    requires q == |Flat(pages, levels[k][..j])| + n && q < |levels[m]| && FirstKey(pages, levels, m, q, key)
    requires n + 1 == |ItemsAt(pages, par, d)| || n == |ItemsAt(pages, par, d)| + 1
    requires cfg.Min(1) <= n <= cfg.internalMax && cfg.Min(1) <= |Both(pages, par, d)| - n <= cfg.internalMax
    ensures TreeInv(cfg, pages', root, levels', limit, INVALID) && Content(pages', levels') == Content(pages, levels)
  {
    SharesOutIs(cfg, pages, pages', levels, k, j, p, d, n, key, par);
    levels' := ShareCore(cfg, pages, pages', root, levels, limit, id, k, m, j, p, d, n, key, q);
  }

  lemma GrandchildrenApart(cfg: Config, pages: Pages, root: Id, levels: seq<Level>, short: Id, k: nat, j: nat, p: nat,
                           d: nat)
    requires NodesOk(cfg, pages, levels, root, short) && AllLinked(pages, levels) && Unique(levels)
    requires 0 < k && Neighbours(pages, levels, k, j, p, d) && pages[levels[k][j + 1].child].Internal?
    ensures var left, right, par := levels[k][j].child, levels[k][j + 1].child, levels[k + 1][p].child;
            && left != right && left != par && right != par
            && forall a :: 0 <= a < |pages[right].items| ==>
                 pages[right].items[a].child != left && pages[right].items[a].child != par
                   && pages[right].items[a].child != right
  {
    var left, right, par := levels[k][j].child, levels[k][j + 1].child, levels[k + 1][p].child;
    ThreePages(pages, levels, k, j, p, d);
    forall a | 0 <= a < |pages[right].items|
      ensures pages[right].items[a].child != left && pages[right].items[a].child != par
              && pages[right].items[a].child != right
    {
      ChildIsBelow(cfg, pages, levels, root, short, k - 1, right, a);
    }
  }

  /** Joining pages and adopting the children is a merge. */
  lemma JoinsIsMerge(cfg: Config, pages: Pages, pages': Pages, root: Id, levels: seq<Level>, limit: Id, short: Id,
                     k: nat, j: nat, p: nat, par: Id, d: nat)
    requires TreeInv(cfg, pages, root, levels, limit, short) && 0 < k && Neighbours(pages, levels, k, j, p, d)
             && levels[k + 1][p].child == par
    requires Joins(pages, pages', par, d)
    ensures Merges(pages, pages', levels, k, j, p, d)
  {
    GrandchildrenApart(cfg, pages, root, levels, short, k, j, p, d);
    JoinsAdopts(pages, pages', par, d);
  }

  lemma JoinsAdopts(pages: Pages, pages': Pages, par: Id, d: nat)
    requires Joins(pages, pages', par, d)
    requires var left, right := pages[par].items[d].child, pages[par].items[d + 1].child;
             && left != right && left != par && right != par
             && forall a :: 0 <= a < |pages[right].items| ==>
                  pages[right].items[a].child != left && pages[right].items[a].child != par
                    && pages[right].items[a].child != right
    ensures var left, right := pages[par].items[d].child, pages[par].items[d + 1].child;
            && left in pages' && par in pages' && pages'.Keys == pages.Keys - {right}
            && pages'[left] == pages[left].(items := Both(pages, par, d))
            && pages'[par] == pages[par].(items := Del(pages[par].items, d + 1))
            && Adopted(pages, pages', left, right, par)
  {
    var left, right := pages[par].items[d].child, pages[par].items[d + 1].child;
    var r := pages[right].items;
    var joined := JoinPages(pages, par, d);
    assert !IsChild(r, left) && !IsChild(r, par);
    assert joined.Keys == pages.Keys - {right};
    assert left in joined && par in joined;
    forall id | id in pages && id != left && id != right && id != par
      ensures id in pages' && pages'[id] == (if IsChild(r, id) then pages[id].(parent := left) else pages[id])
    {
      assert id in joined && joined[id] == pages[id];
    }
  }

  lemma JoinStep(cfg: Config, pages: Pages, pages': Pages, root: Id, levels: seq<Level>, limit: Id, k: nat, j: nat,
                 p: nat, id: Id, par: Id, d: nat)
      returns (levels': seq<Level>)
    requires TreeInv(cfg, pages, root, levels, limit, id) && 0 < k
    requires Neighbours(pages, levels, k, j, p, d) && levels[k + 1][p].child == par
    requires id == levels[k][j].child || id == levels[k][j + 1].child
    requires Joins(pages, pages', par, d) && |ItemsAt(pages, par, d)| + |ItemsAt(pages, par, d + 1)| <= cfg.internalMax
    ensures TreeInv(cfg, pages', root, levels', limit, par) && Content(pages', levels') == Content(pages, levels)
    ensures OnLevel(levels', k + 1, par) && |levels'| == |levels|
  {
    JoinsIsMerge(cfg, pages, pages', root, levels, limit, id, k, j, p, par, d);
    var m := k + 1;
    levels' := levels[k := Del(levels[k], j + 1)];
    InternalMergeKeepsTree(cfg, pages, pages', root, levels, levels', limit, id, k, m, j, p, d, par);
    AtLevel(levels', k + 1, p);
  }

  /** A share between children `d` and `d + 1` of `par`, one of them the short page. */
  /** Dividing before entry `n` moves one entry over and leaves both pages with enough. */
  ghost predicate DividesWell(cfg: Config, pages: Pages, par: Id, c: nat, d: nat, n: nat) {
    && (d == c || d + 1 == c)
    && (n + 1 == |ItemsAt(pages, par, d)| || n == |ItemsAt(pages, par, d)| + 1)
    && cfg.Min(1) <= n <= cfg.internalMax && cfg.Min(1) <= |Both(pages, par, d)| - n <= cfg.internalMax
  }

  lemma ShareAsideStep(cfg: Config, pages: Pages, pages': Pages, root: Id, levels: seq<Level>, limit: Id, k: nat,
                       m: nat, i: nat, p: nat, id: Id, par: Id, c: nat, d: nat, n: nat, key: int)
      returns (levels': seq<Level>)
    requires ShortInternal(cfg, pages, root, levels, limit, k, i, id) && Placed(cfg, pages, levels, k, i, p, id)
             && AmongInternal(pages, id, par, c)
    requires m + 1 == k && DividesWell(cfg, pages, par, c, d, n)
    requires SharesOut(pages, pages', par, d, n, key) && SplitsAt(pages, par, d, n, m, key)
    ensures TreeInv(cfg, pages', root, levels', limit, INVALID) && Content(pages', levels') == Content(pages, levels)
  {
    var j := AsideInternal(cfg, pages, root, levels, limit, k, i, p, id, par, c, d);
    BelowIs(pages, levels, k, m);
    var q := SplitChild(pages, levels, k, m, j, p, par, d, n);
    FirstKeyAt(cfg, pages, root, levels, limit, id, m, q, Both(pages, par, d)[n].child, key);
    levels' := ShareStep(cfg, pages, pages', root, levels, limit, k, m, j, p, id, par, d, n, key, q);
  }

  lemma ShareSizes(cfg: Config, pages: Pages, root: Id, levels: seq<Level>, limit: Id, k: nat, i: nat, p: nat, id: Id,
                   par: Id, c: nat, d: nat)
    requires ShortInternal(cfg, pages, root, levels, limit, k, i, id) && Placed(cfg, pages, levels, k, i, p, id)
    requires AmongInternal(pages, id, par, c) && d + 1 < |pages[par].items| && (d == c || d + 1 == c)
    ensures |ItemsAt(pages, par, d)| <= cfg.internalMax && |ItemsAt(pages, par, d + 1)| <= cfg.internalMax
    ensures |Both(pages, par, d)| == |ItemsAt(pages, par, d)| + |ItemsAt(pages, par, d + 1)|
    ensures |ItemsAt(pages, par, c)| + 1 == cfg.Min(1)
  {
    var j := AsideInternal(cfg, pages, root, levels, limit, k, i, p, id, par, c, d);
  }

  lemma JoinWithStep(cfg: Config, pages: Pages, pages': Pages, root: Id, levels: seq<Level>, limit: Id, k: nat, i: nat,
                     p: nat, id: Id, par: Id, c: nat, d: nat)
      returns (levels': seq<Level>)
    requires ShortInternal(cfg, pages, root, levels, limit, k, i, id) && Placed(cfg, pages, levels, k, i, p, id)
             && AmongInternal(pages, id, par, c)
    requires Joins(pages, pages', par, d) && (d == c || d + 1 == c)
    requires |ItemsAt(pages, par, if d == c then d + 1 else d)| <= cfg.Min(1)
    ensures TreeInv(cfg, pages', root, levels', limit, par) && Content(pages', levels') == Content(pages, levels)
    ensures OnLevel(levels', k + 1, par) && |levels'| == |levels|
  {
    var j := AsideInternal(cfg, pages, root, levels, limit, k, i, p, id, par, c, d);
    levels' := JoinStep(cfg, pages, pages', root, levels, limit, k, j, p, id, par, d);
  }

  /** The entry before which the two children are divided anew: one more than the short left child has, or one
      fewer than the left child has. */
  function DividedAt(pages: Pages, par: Id, c: nat, d: nat): int {
    if d == c then |ItemsAt(pages, par, d)| + 1 else |ItemsAt(pages, par, d)| - 1
  }

  lemma SharesWhere(cfg: Config, pages: Pages, pages': Pages, par: Id, c: nat, d: nat, m: nat, key: int)
      returns (n: nat)
    requires InternalCase(cfg, pages, pages', par, c, d, INVALID, m, key) && par != INVALID
    ensures n == DividedAt(pages, par, c, d) && SharesAt(pages, pages', par, d, n, m, key) && (d == c || d + 1 == c)
    ensures |ItemsAt(pages, par, if d == c then d + 1 else d)| > cfg.Min(1)
  {
    n := DividedAt(pages, par, c, d);
  }

  lemma DividedWell(cfg: Config, pages: Pages, par: Id, c: nat, d: nat, n: nat)
    requires (d == c || d + 1 == c) && n == DividedAt(pages, par, c, d) && cfg.Ok()
    requires |ItemsAt(pages, par, d)| <= cfg.internalMax && |ItemsAt(pages, par, d + 1)| <= cfg.internalMax
    requires |Both(pages, par, d)| == |ItemsAt(pages, par, d)| + |ItemsAt(pages, par, d + 1)|
    requires |ItemsAt(pages, par, c)| + 1 == cfg.Min(1) < |ItemsAt(pages, par, if d == c then d + 1 else d)| + 1
    requires |ItemsAt(pages, par, if d == c then d + 1 else d)| > cfg.Min(1)
    ensures DividesWell(cfg, pages, par, c, d, n)
  {
  }

  lemma RefillByShare(cfg: Config, pages: Pages, pages': Pages, root: Id, levels: seq<Level>, limit: Id, k: nat,
                      m: nat, i: nat, p: nat, id: Id, par: Id, c: nat, d: nat, key: int)
      returns (levels': seq<Level>)
    requires ShortInternal(cfg, pages, root, levels, limit, k, i, id) && Placed(cfg, pages, levels, k, i, p, id)
             && AmongInternal(pages, id, par, c)
    requires InternalCase(cfg, pages, pages', par, c, d, INVALID, m, key) && m + 1 == k && par != INVALID
    ensures TreeInv(cfg, pages', root, levels', limit, INVALID) && Content(pages', levels') == Content(pages, levels)
  {
    var n := SharesWhere(cfg, pages, pages', par, c, d, m, key);
    ShareSizes(cfg, pages, root, levels, limit, k, i, p, id, par, c, d);
    DividedWell(cfg, pages, par, c, d, n);
    levels' := ShareAsideStep(cfg, pages, pages', root, levels, limit, k, m, i, p, id, par, c, d, n, key);
  }

  lemma InternalCaseStep(cfg: Config, pages: Pages, pages': Pages, root: Id, levels: seq<Level>, limit: Id, k: nat,
                         m: nat, i: nat, p: nat, id: Id, par: Id, c: nat, d: nat, up: Id, key: int)
      returns (levels': seq<Level>)
    requires ShortInternal(cfg, pages, root, levels, limit, k, i, id) && Placed(cfg, pages, levels, k, i, p, id)
             && AmongInternal(pages, id, par, c)
    requires InternalCase(cfg, pages, pages', par, c, d, up, m, key) && m + 1 == k && par != INVALID
    ensures TreeInv(cfg, pages', root, levels', limit, up) && Content(pages', levels') == Content(pages, levels)
    ensures up != INVALID ==> OnLevel(levels', k + 1, up) && |levels'| == |levels|
  {
    if up == INVALID {
      levels' := RefillByShare(cfg, pages, pages', root, levels, limit, k, m, i, p, id, par, c, d, key);
    } else {
      levels' := JoinWithStep(cfg, pages, pages', root, levels, limit, k, i, p, id, par, c, d);
    }
  }

  /** Refilling a short internal page leaves a whole tree, or makes its parent the short page. */
  lemma InternalRefillStep(cfg: Config, pages: Pages, pages': Pages, root: Id, levels: seq<Level>, limit: Id, k: nat,
                           m: nat, i: nat, p: nat, id: Id, par: Id, c: nat, d: nat, up: Id, key: int)
      returns (levels': seq<Level>)
    requires ShortInternal(cfg, pages, root, levels, limit, k, i, id) && Placed(cfg, pages, levels, k, i, p, id)
             && AmongInternal(pages, id, par, c)
    requires InternalRefilled(cfg, pages, pages', par, c, d, up, m, key) && m + 1 == k && par != INVALID
    ensures TreeInv(cfg, pages', root, levels', limit, up) && Content(pages', levels') == Content(pages, levels)
    ensures up != INVALID ==> OnLevel(levels', k + 1, up) && |levels'| == |levels|
  {
    InternalRefillIsCase(cfg, pages, pages', par, c, d, up, m, key);
    levels' := InternalCaseStep(cfg, pages, pages', root, levels, limit, k, m, i, p, id, par, c, d, up, key);
  }

  /** What the neighbours of a short page are like, when it is not the root. */
  lemma AmongIs(cfg: Config, pages: Pages, root: Id, levels: seq<Level>, limit: Id, k: nat, i: nat, id: Id)
      returns (p: nat)
    requires ShortInternal(cfg, pages, root, levels, limit, k, i, id)
    ensures Placed(cfg, pages, levels, k, i, p, id) && pages[id].parent in pages && pages[pages[id].parent].Internal?
    ensures AmongInternal(pages, id, pages[id].parent, ChildIndex(pages[pages[id].parent].items, id))
    ensures |pages[pages[id].parent].items| >= 2 && pages[id].parent != INVALID
  {
    p := PlaceIn(cfg, pages, root, levels, limit, id, k, i);
    var par := pages[id].parent;
    AtLevel(levels, k + 1, p);
    AtLevel(levels, k, i);
    assert NodeOk(cfg, pages, par, k + 1, root, id);
    forall a | 0 <= a < |pages[par].items| ensures InternalChild(pages, par, pages[par].items[a].child) {
      ChildIsBelow(cfg, pages, levels, root, id, k, par, a);
      assert NodeOk(cfg, pages, pages[par].items[a].child, k, root, id);
    }
  }

  lemma ShortIs(cfg: Config, pages: Pages, root: Id, levels: seq<Level>, limit: Id, k: nat, m: nat, i: nat, id: Id)
      returns (p: nat)
    requires ShortInternal(cfg, pages, root, levels, limit, k, i, id) && m + 1 == k
    ensures Placed(cfg, pages, levels, k, i, p, id) && pages[id].parent in pages && pages[pages[id].parent].Internal?
    ensures AmongInternal(pages, id, pages[id].parent, ChildIndex(pages[pages[id].parent].items, id))
    ensures |pages[pages[id].parent].items| >= 2 && pages[id].parent != INVALID
            && ThreeGenerations(pages, pages[id].parent, m)
  {
    p := AmongIs(cfg, pages, root, levels, limit, k, i, id);
    AtLevel(levels, k + 1, p);
    GenerationsAre(cfg, pages, root, levels, limit, id, k, m, pages[id].parent);
  }

  lemma LeafAmongIs(cfg: Config, pages: Pages, root: Id, levels: seq<Level>, limit: Id, i: nat, leaf: Id)
      returns (p: nat)
    requires ShortLeaf(cfg, pages, root, levels, limit, i, leaf)
    ensures Placed(cfg, pages, levels, 0, i, p, leaf) && pages[leaf].parent in pages
            && pages[pages[leaf].parent].Internal?
    ensures Among(pages, leaf, pages[leaf].parent, ChildIndex(pages[pages[leaf].parent].items, leaf))
    ensures |pages[pages[leaf].parent].items| >= 2
  {
    p := PlaceIn(cfg, pages, root, levels, limit, leaf, 0, i);
    var par := pages[leaf].parent;
    AtLevel(levels, 1, p);
    AtLevel(levels, 0, i);
    assert NodeOk(cfg, pages, par, 1, root, leaf);
    forall a | 0 <= a < |pages[par].items|
      ensures pages[par].items[a].child in pages && pages[pages[par].items[a].child].Leaf?
    {
      ChildIsBelow(cfg, pages, levels, root, leaf, 0, par, a);
      assert NodeOk(cfg, pages, pages[par].items[a].child, 0, root, leaf);
    }
  }

  // ----- what the program needs to know around a short page -----

  /** The children of `par` and theirs: all different pages, and each grandchild leads down to a leaf. */
  ghost predicate ThreeGenerations(pages: Pages, par: Id, m: nat) {
    && par in pages && pages[par].Internal?
    && (forall a :: 0 <= a < |pages[par].items| ==> pages[par].items[a].child != par)
    && (forall a, b :: 0 <= a < b < |pages[par].items| ==> pages[par].items[a].child != pages[par].items[b].child)
    && (forall a, b :: 0 <= a < |pages[par].items| && 0 <= b < |ItemsAt(pages, par, a)| ==>
        Grandchild(pages, par, ItemsAt(pages, par, a)[b].child, m))
  }

  ghost predicate Grandchild(pages: Pages, par: Id, id: Id, m: nat) {
    && par in pages && pages[par].Internal? && id in pages && id != par && LeadsDown(pages, id, m)
    && forall a :: 0 <= a < |pages[par].items| ==> pages[par].items[a].child != id
  }

  lemma GrandchildIs(cfg: Config, pages: Pages, root: Id, levels: seq<Level>, limit: Id, short: Id, k: nat, m: nat,
                     par: Id, child: Id, b: nat)
    requires TreeInv(cfg, pages, root, levels, limit, short) && m + 1 == k && k + 1 < |levels| && short in pages
             && pages[short].Internal?
    requires OnLevel(levels, k + 1, par) && OnLevel(levels, k, child) && child in pages && pages[child].Internal?
             && b < |pages[child].items|
    requires par in pages && pages[par].Internal?
    requires forall a :: 0 <= a < |pages[par].items| ==> OnLevel(levels, k, pages[par].items[a].child)
    ensures Grandchild(pages, par, pages[child].items[b].child, m)
  {
    ChildIsBelow(cfg, pages, levels, root, short, m, child, b);
    var q := Position(levels, m, pages[child].items[b].child);
    FirstKeyIs(cfg, pages, root, levels, limit, short, m, q);
  }

  lemma GenerationsAre(cfg: Config, pages: Pages, root: Id, levels: seq<Level>, limit: Id, short: Id, k: nat, m: nat,
                       par: Id)
    requires TreeInv(cfg, pages, root, levels, limit, short) && m + 1 == k && k + 1 < |levels| && short in pages
             && pages[short].Internal?
    requires OnLevel(levels, k + 1, par) && par in pages && pages[par].Internal?
    ensures ThreeGenerations(pages, par, m)
  {
    ChildrenDiffer(cfg, pages, levels, root, short, k, par);
    forall a | 0 <= a < |pages[par].items|
      ensures OnLevel(levels, k, pages[par].items[a].child) && pages[par].items[a].child != par
    {
      ChildIsBelow(cfg, pages, levels, root, short, k, par, a);
    }
    forall a, b | 0 <= a < |pages[par].items| && 0 <= b < |ItemsAt(pages, par, a)|
      ensures Grandchild(pages, par, ItemsAt(pages, par, a)[b].child, m)
    {
      GrandchildIs(cfg, pages, root, levels, limit, short, k, m, par, pages[par].items[a].child, b);
    }
  }

  lemma SharedChild(pages: Pages, par: Id, d: nat, n: nat, m: nat)
    requires ThreeGenerations(pages, par, m) && d + 1 < |pages[par].items|
    requires InternalChild(pages, par, pages[par].items[d].child)
             && InternalChild(pages, par, pages[par].items[d + 1].child)
    requires n < |Both(pages, par, d)| && (n + 1 == |ItemsAt(pages, par, d)| || n == |ItemsAt(pages, par, d)| + 1)
    ensures Grandchild(pages, par, Both(pages, par, d)[n].child, m)
    ensures Grandchild(pages, par, MovedChild(|ItemsAt(pages, par, d)|, Both(pages, par, d), n), m)
  {
    BothAt(pages, par, d, n, m);
    if n > 0 { BothAt(pages, par, d, n - 1, m); }
  }

  lemma BothAt(pages: Pages, par: Id, d: nat, a: nat, m: nat)
    requires ThreeGenerations(pages, par, m) && d + 1 < |pages[par].items| && a < |Both(pages, par, d)|
    requires InternalChild(pages, par, pages[par].items[d].child)
             && InternalChild(pages, par, pages[par].items[d + 1].child)
    ensures Grandchild(pages, par, Both(pages, par, d)[a].child, m)
  {
    var l, r := ItemsAt(pages, par, d), ItemsAt(pages, par, d + 1);
    if a < |l| {
      assert Both(pages, par, d)[a] == l[a];
    } else {
      assert Both(pages, par, d)[a].child == r[a - |l|].child;
    }
  }

  lemma JoinedChildren(pages: Pages, par: Id, d: nat, m: nat)
    requires ThreeGenerations(pages, par, m) && d + 1 < |pages[par].items|
    requires InternalChild(pages, par, pages[par].items[d].child)
             && InternalChild(pages, par, pages[par].items[d + 1].child)
    ensures var r := ItemsAt(pages, par, d + 1);
            forall a :: 0 <= a < |r| ==> r[a].child in JoinPages(pages, par, d)
  {
    var r := ItemsAt(pages, par, d + 1);
    forall a | 0 <= a < |r| ensures r[a].child in JoinPages(pages, par, d) {
      assert Grandchild(pages, par, r[a].child, m);
    }
  }

  // ----- sizes and parents -----

  lemma PageIs(cfg: Config, pages: Pages, root: Id, levels: seq<Level>, limit: Id, short: Id, k: nat, id: Id)
    requires TreeInv(cfg, pages, root, levels, limit, short) && OnLevel(levels, k, id) && 0 < k
    ensures id in pages && pages[id].Internal? && |pages[id].items| >= 1 && id != INVALID
    ensures id != root && id == short ==> |pages[id].items| + 1 >= cfg.Min(1)
  {
    assert NodeOk(cfg, pages, id, k, root, short);
  }

  lemma LeafSize(cfg: Config, pages: Pages, root: Id, levels: seq<Level>, limit: Id, t: nat)
    requires TreeInv(cfg, pages, root, levels, limit, INVALID) && t < |levels[0]| && levels[0][t].child != root
    ensures levels[0][t].child in pages && pages[levels[0][t].child].Leaf?
            && |pages[levels[0][t].child].entries| >= cfg.Min(0)
  {
    AtLevel(levels, 0, t);
    assert NodeOk(cfg, pages, levels[0][t].child, 0, root, INVALID);
  }

  /** Only the root has no parent. */
  lemma CurrentIs(cfg: Config, pages: Pages, root: Id, levels: seq<Level>, limit: Id, k: nat, i: nat, id: Id)
    requires TreeInv(cfg, pages, root, levels, limit, INVALID) && k < |levels| && i < |levels[k]|
             && levels[k][i].child == id
    ensures id in pages && (pages[id].parent == INVALID <==> id == root)
    ensures k + 1 == |levels| ==> id == root
  {
    AtLevel(levels, k, i);
    assert NodeOk(cfg, pages, id, k, root, INVALID);
    if id != root { var p := PlaceIn(cfg, pages, root, levels, limit, INVALID, k, i); }
  }

  lemma LastEntry(entries: seq<Entry>, e: Entry)
    requires |entries| == 1 && e in entries
    ensures multiset(entries) == multiset{e}
  {
    assert entries == [e];
  }
}
