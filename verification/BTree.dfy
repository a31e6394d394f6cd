/** The disk-paged B+ tree: pages, the levels they form, and what a well-formed tree is.

    A level is the left-to-right sequence of its pages. Each is listed with the separator before it,
    the key at which its parent or a higher ancestor tells it from its left neighbour; the separator
    of the first page of a level means nothing. Level 0 are the leaves. */
module BTree {

  type Id = nat

  const INVALID: Id := 0

  datatype Rid = Rid(page: nat, slot: nat)

  datatype Entry = Entry(key: int, rid: Rid)

  datatype Item = Item(key: int, child: Id)

  datatype Node =
    | Leaf(entries: seq<Entry>, next: Id, parent: Id)
    | Internal(items: seq<Item>, parent: Id)

  type Pages = map<Id, Node>
  type Level = seq<Item>

  /** Every page carries the capacity of its kind. */
  datatype Config = Config(leafMax: nat, internalMax: nat) {
    predicate Ok() { leafMax >= 2 && internalMax >= 3 }
    function Max(k: nat): nat { if k == 0 then leafMax else internalMax }
    function Min(k: nat): nat { (Max(k) + 1) / 2 }
  }

  predicate RidLess(a: Rid, b: Rid) {
    a.page < b.page || (a.page == b.page && a.slot < b.slot)
  }

  predicate EntryLess(a: Entry, b: Entry) {
    a.key < b.key || (a.key == b.key && RidLess(a.rid, b.rid))
  }

  ghost predicate Sorted(s: seq<Entry>) {
    forall i, j :: 0 <= i < j < |s| ==> !EntryLess(s[j], s[i])
  }

  function Size(node: Node): nat {
    if node.Leaf? then |node.entries| else |node.items|
  }

  // ----- levels -----

  function Ins<T>(s: seq<T>, i: nat, x: T): seq<T>
    requires i <= |s|
  {
    s[..i] + [x] + s[i..]
  }

  function Del<T>(s: seq<T>, i: nat): seq<T>
    requires i < |s|
  {
    s[..i] + s[i + 1..]
  }

  function SetKey(level: Level, i: nat, key: int): Level
    requires i < |level|
  {
    level[i := Item(key, level[i].child)]
  }

  /** The places of the children of a page on the level below. */
  function Expand(pages: Pages, x: Item): Level {
    if x.child in pages && pages[x.child].Internal? && |pages[x.child].items| > 0 then
      [Item(x.key, pages[x.child].items[0].child)] + pages[x.child].items[1..]
    else []
  }

  /** The level below. */
  function Flat(pages: Pages, level: Level): Level {
    if level == [] then [] else Expand(pages, level[0]) + Flat(pages, level[1..])
  }

  ghost predicate IsChild(items: seq<Item>, id: Id) {
    exists c :: 0 <= c < |items| && items[c].child == id
  }

  ghost predicate OnLevel(levels: seq<Level>, k: nat, id: Id) {
    k < |levels| && exists i :: 0 <= i < |levels[k]| && levels[k][i].child == id
  }

  // ----- invariant -----

  ghost predicate ParentOk(pages: Pages, id: Id)
    requires id in pages && pages[id].Internal?
  {
    forall c :: 0 <= c < |pages[id].items| ==>
      pages[id].items[c].child in pages && pages[pages[id].items[c].child].parent == id
  }

  /** At most one page may be short of entries, and by one only. */
  ghost predicate SizeOk(cfg: Config, n: nat, k: nat, id: Id, root: Id, short: Id) {
    && n <= cfg.Max(k)
    && (if id == root then n >= (if k == 0 || id == short then 1 else 2)
        else n + (if id == short then 1 else 0) >= cfg.Min(k))
  }

  ghost predicate NodeOk(cfg: Config, pages: Pages, id: Id, k: nat, root: Id, short: Id) {
    && id in pages
    && (if k == 0 then pages[id].Leaf? else pages[id].Internal? && |pages[id].items| >= 1 && ParentOk(pages, id))
    && SizeOk(cfg, Size(pages[id]), k, id, root, short)
  }

  ghost predicate NodesOk(cfg: Config, pages: Pages, levels: seq<Level>, root: Id, short: Id) {
    forall k, id :: OnLevel(levels, k, id) ==> NodeOk(cfg, pages, id, k, root, short)
  }

  ghost predicate NoDup(level: Level) {
    forall i, j :: 0 <= i < j < |level| ==> level[i].child != level[j].child
  }

  /** No page occurs twice in the tree. */
  ghost predicate Unique(levels: seq<Level>) {
    && (forall k :: 0 <= k < |levels| ==> NoDup(levels[k]))
    && (forall k, l, id :: OnLevel(levels, k, id) && OnLevel(levels, l, id) ==> k == l)
  }

  /** The pages are those of the tree, and `limit` is the number that the next new page gets. Any number that is not
      in use will do: the data file hands out again what merged pages gave back. */
  ghost predicate Covers(pages: Pages, levels: seq<Level>, limit: Id) {
    && INVALID !in pages && limit !in pages && limit != INVALID
    && (forall id :: id in pages ==> exists k :: OnLevel(levels, k, id))
  }

  ghost predicate IsNext(next: Id, limit: Id, pages: Pages) { next !in pages && next != limit && next != INVALID }

  ghost predicate Linked(pages: Pages, levels: seq<Level>, k: nat)
    requires k + 1 < |levels|
  {
    levels[k] == Flat(pages, levels[k + 1])
  }

  ghost predicate AllLinked(pages: Pages, levels: seq<Level>) {
    forall k :: 0 <= k < |levels| - 1 ==> Linked(pages, levels, k)
  }

  ghost predicate TopIs(pages: Pages, levels: seq<Level>, root: Id) {
    && |levels| > 0
    && |levels[|levels| - 1]| == 1 && levels[|levels| - 1][0].child == root
    && root in pages && pages[root].parent == INVALID
  }

  /** Separators are inclusive on both sides. */
  ghost predicate LeafBounds(pages: Pages, level: Level, i: nat)
    requires i < |level| && level[i].child in pages && pages[level[i].child].Leaf?
  {
    forall e :: e in pages[level[i].child].entries ==>
      && (0 < i ==> level[i].key <= e.key)
      && (i + 1 < |level| ==> e.key <= level[i + 1].key)
  }

  ghost predicate LeafOk(pages: Pages, level: Level, i: nat)
    requires i < |level|
  {
    && level[i].child in pages && pages[level[i].child].Leaf?
    && Sorted(pages[level[i].child].entries)
    && pages[level[i].child].next == (if i + 1 < |level| then level[i + 1].child else INVALID)
    && LeafBounds(pages, level, i)
    && (0 < i && i + 1 < |level| ==> level[i].key <= level[i + 1].key)
  }

  ghost predicate LeavesOk(pages: Pages, level: Level) {
    forall i :: 0 <= i < |level| ==> LeafOk(pages, level, i)
  }

  ghost predicate TreeInv(cfg: Config, pages: Pages, root: Id, levels: seq<Level>, limit: Id, short: Id) {
    && cfg.Ok()
    && TopIs(pages, levels, root)
    && AllLinked(pages, levels)
    && NodesOk(cfg, pages, levels, root, short)
    && Unique(levels)
    && Covers(pages, levels, limit)
    && LeavesOk(pages, levels[0])
  }

  /** The entries of the leaves, left to right. */
  function Gather(pages: Pages, level: Level): seq<Entry> {
    if level == [] then []
    else (if level[0].child in pages && pages[level[0].child].Leaf? then pages[level[0].child].entries else [])
         + Gather(pages, level[1..])
  }

  ghost function Content(pages: Pages, levels: seq<Level>): multiset<Entry> {
    if levels == [] then multiset{} else multiset(Gather(pages, levels[0]))
  }

  // ----- sequences, cut at a place -----

  lemma TailOfConcat<T>(a: seq<T>, b: seq<T>)
    requires a != []
    ensures (a + b)[0] == a[0] && (a + b)[1..] == a[1..] + b
  {
  }

  lemma CutOne<T>(s: seq<T>, i: nat)
    requires i < |s|
    ensures s == s[..i] + [s[i]] + s[i + 1..]
  {
  }

  lemma CutTwo<T>(s: seq<T>, i: nat)
    requires i + 1 < |s|
    ensures s == s[..i] + [s[i], s[i + 1]] + s[i + 2..]
  {
  }

  // ----- flattening -----

  lemma {:induction false} FlatConcat(pages: Pages, a: Level, b: Level)
    ensures Flat(pages, a + b) == Flat(pages, a) + Flat(pages, b)
  {
    if a == [] {
      assert a + b == b;
    } else {
      FlatConcat(pages, a[1..], b);
      TailOfConcat(a, b);
    }
  }

  lemma FlatOne(pages: Pages, x: Item)
    ensures Flat(pages, [x]) == Expand(pages, x)
  {
    assert [x][1..] == [];
  }

  lemma FlatAt(pages: Pages, level: Level, p: nat)
    requires p < |level|
    ensures Flat(pages, level) == Flat(pages, level[..p]) + Expand(pages, level[p]) + Flat(pages, level[p + 1..])
  {
    FlatThree(pages, level[..p], [level[p]], level[p + 1..]);
    FlatOne(pages, level[p]);
    CutOne(level, p);
  }

  lemma FlatThree(pages: Pages, a: Level, b: Level, c: Level)
    ensures Flat(pages, a + b + c) == Flat(pages, a) + Flat(pages, b) + Flat(pages, c)
  {
    FlatConcat(pages, a + b, c);
    FlatConcat(pages, a, b);
  }

  /** `id` has the same children in both. */
  predicate SameItems(pages: Pages, pages': Pages, id: Id) {
    && id in pages && id in pages'
    && (pages[id].Internal? <==> pages'[id].Internal?)
    && (pages[id].Internal? ==> pages'[id].items == pages[id].items)
  }

  lemma {:induction false} FlatSame(pages: Pages, pages': Pages, level: Level)
    requires forall i :: 0 <= i < |level| ==> SameItems(pages, pages', level[i].child)
    ensures Flat(pages', level) == Flat(pages, level)
  {
    if level != [] {
      assert SameItems(pages, pages', level[0].child);
      forall i | 0 <= i < |level[1..]| ensures SameItems(pages, pages', level[1..][i].child) {
        assert level[1..][i] == level[i + 1];
      }
      FlatSame(pages, pages', level[1..]);
    }
  }

  /** Where the page at `i` hangs: child `c` of the page at `p` above. */
  lemma {:induction false} Locate(pages: Pages, level: Level, i: nat) returns (p: nat, c: nat)
    requires i < |Flat(pages, level)|
    ensures p < |level| && c < |Expand(pages, level[p])|
    ensures i == |Flat(pages, level[..p])| + c && Flat(pages, level)[i] == Expand(pages, level[p])[c]
  {
    var n := |Expand(pages, level[0])|;
    if i < n {
      p, c := 0, i;
      assert level[..0] == [];
    } else {
      var rest := level[1..];
      var q;
      q, c := Locate(pages, rest, i - n);
      p := q + 1;
      FlatTail(pages, level, rest, q, p);
    }
  }

  lemma FlatTail(pages: Pages, level: Level, rest: Level, q: nat, p: nat)
    requires level != [] && rest == level[1..] && q < |rest| && p == q + 1
    ensures |Flat(pages, level[..p])| == |Expand(pages, level[0])| + |Flat(pages, rest[..q])| && level[p] == rest[q]
  {
    assert level[..p] == [level[0]] + rest[..q];
    FlatConcat(pages, [level[0]], rest[..q]);
    FlatOne(pages, level[0]);
  }

  // ----- gathering -----

  lemma {:induction false} GatherConcat(pages: Pages, a: Level, b: Level)
    ensures Gather(pages, a + b) == Gather(pages, a) + Gather(pages, b)
  {
    if a == [] {
      assert a + b == b;
    } else {
      GatherConcat(pages, a[1..], b);
      TailOfConcat(a, b);
    }
  }

  function EntriesOf(pages: Pages, id: Id): seq<Entry> {
    if id in pages && pages[id].Leaf? then pages[id].entries else []
  }

  lemma GatherAt(pages: Pages, level: Level, p: nat)
    requires p < |level|
    ensures Gather(pages, level) == Gather(pages, level[..p]) + EntriesOf(pages, level[p].child)
            + Gather(pages, level[p + 1..])
  {
    GatherConcat(pages, level[..p], level[p..]);
    assert level[..p] + level[p..] == level;
    assert level[p..][1..] == level[p + 1..];
  }

  lemma {:induction false} GatherSame(pages: Pages, pages': Pages, level: Level, level': Level)
    requires |level'| == |level|
    requires forall i :: 0 <= i < |level| ==> level'[i].child == level[i].child
    requires forall i :: 0 <= i < |level| ==> EntriesOf(pages', level[i].child) == EntriesOf(pages, level[i].child)
    ensures Gather(pages', level') == Gather(pages, level)
  {
    if level != [] {
      forall i | 0 <= i < |level[1..]|
        ensures level'[1..][i].child == level[1..][i].child
                && EntriesOf(pages', level[1..][i].child) == EntriesOf(pages, level[1..][i].child)
      {
        assert level[1..][i] == level[i + 1] && level'[1..][i] == level'[i + 1];
      }
      GatherSame(pages, pages', level[1..], level'[1..]);
      assert EntriesOf(pages', level[0].child) == EntriesOf(pages, level[0].child);
    }
  }
}
