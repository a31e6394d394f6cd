/** Range scans over the leaf chain. */
module BTreeScan {
  import opened BTree
  import opened BTreeInsert
  import opened BTreeRemoval

  function Filter(s: seq<Entry>, lo: int, hi: int): seq<Entry> {
    if s == [] then []
    else (if lo <= s[0].key <= hi then [s[0]] else []) + Filter(s[1..], lo, hi)
  }

  lemma {:induction false} FilterConcat(a: seq<Entry>, b: seq<Entry>, lo: int, hi: int)
    ensures Filter(a + b, lo, hi) == Filter(a, lo, hi) + Filter(b, lo, hi)
  {
    if a == [] {
      assert a + b == b;
    } else {
      FilterConcat(a[1..], b, lo, hi);
      TailOfConcat(a, b);
    }
  }

  lemma {:induction false} FilterNone(s: seq<Entry>, lo: int, hi: int)
    requires forall e :: e in s ==> e.key < lo || e.key > hi
    ensures Filter(s, lo, hi) == []
  {
    if s != [] {
      assert s[0] in s;
      FilterNone(s[1..], lo, hi);
    }
  }

  lemma {:induction false} FilterCounts(s: seq<Entry>, lo: int, hi: int, e: Entry)
    ensures multiset(Filter(s, lo, hi))[e] == if lo <= e.key <= hi then multiset(s)[e] else 0
  {
    if s != [] {
      FilterCounts(s[1..], lo, hi, e);
      assert s == [s[0]] + s[1..];
    }
  }

  lemma {:induction false} GatherIn(pages: Pages, level: Level, e: Entry) returns (i: nat)
    requires e in Gather(pages, level)
    ensures i < |level| && e in EntriesOf(pages, level[i].child)
  {
    if e in EntriesOf(pages, level[0].child) {
      i := 0;
    } else {
      var j := GatherIn(pages, level[1..], e);
      i := j + 1;
    }
  }

  lemma NoneBefore(pages: Pages, level: Level, i: nat, lo: int, hi: int)
    requires LeavesOk(pages, level) && Lands(level, i, lo)
    ensures Filter(Gather(pages, level[..i]), lo, hi) == []
  {
    var a := level[..i];
    forall e | e in Gather(pages, a) ensures e.key < lo {
      var m := GatherIn(pages, a, e);
      LeftIsSmaller(pages, level, i, m, lo, e);
    }
    FilterNone(Gather(pages, a), lo, hi);
  }

  lemma NoneAfter(pages: Pages, level: Level, n: nat, x: Entry, lo: int, hi: int)
    requires LeavesOk(pages, level) && n < |level| && x in EntriesOf(pages, level[n].child) && x.key > hi
    ensures Filter(Gather(pages, level[n + 1..]), lo, hi) == []
  {
    var c := level[n + 1..];
    forall e | e in Gather(pages, c) ensures e.key > hi {
      var m := GatherIn(pages, c, e);
      var at := n + 1 + m;
      assert c[m] == level[at];
      RightIsLarger(pages, level, n, at, x, e);
    }
    FilterNone(Gather(pages, c), lo, hi);
  }

  /** The leaves from where descent for `lo` ends up to one with a key beyond `hi` are enough. */
  lemma ScanIsWhole(pages: Pages, level: Level, i: nat, j: nat, lo: int, hi: int)
    requires LeavesOk(pages, level) && Lands(level, i, lo) && i <= j <= |level|
    requires j < |level| ==> Filter(Gather(pages, level[j..]), lo, hi) == []
    ensures Filter(Gather(pages, level[i..j]), lo, hi) == Filter(Gather(pages, level), lo, hi)
  {
    FilterThree(pages, level[..i], level[i..j], level[j..], lo, hi);
    assert level == level[..i] + level[i..j] + level[j..];
    NoneBefore(pages, level, i, lo, hi);
    assert j == |level| ==> level[j..] == [];
  }

  lemma FilterThree(pages: Pages, a: Level, b: Level, c: Level, lo: int, hi: int)
    ensures Filter(Gather(pages, a + b + c), lo, hi)
         == Filter(Gather(pages, a), lo, hi) + Filter(Gather(pages, b), lo, hi) + Filter(Gather(pages, c), lo, hi)
  {
    GatherConcat(pages, a + b, c);
    GatherConcat(pages, a, b);
    FilterConcat(Gather(pages, a + b), Gather(pages, c), lo, hi);
    FilterConcat(Gather(pages, a), Gather(pages, b), lo, hi);
  }

  lemma GatherLast(pages: Pages, level: Level, i: nat, j: nat)
    requires i <= j < |level|
    ensures Gather(pages, level[i..j + 1]) == Gather(pages, level[i..j]) + EntriesOf(pages, level[j].child)
  {
    assert level[i..j + 1] == level[i..j] + [level[j]];
    GatherConcat(pages, level[i..j], [level[j]]);
    assert [level[j]][1..] == [];
  }

  lemma FilterStep(s: seq<Entry>, a: nat, lo: int, hi: int)
    requires a < |s|
    ensures Filter(s[..a + 1], lo, hi) == Filter(s[..a], lo, hi) + (if lo <= s[a].key <= hi then [s[a]] else [])
  {
    assert s[..a + 1] == s[..a] + [s[a]];
    FilterConcat(s[..a], [s[a]], lo, hi);
    assert [s[a]][1..] == [];
  }

  /** After the first key beyond the range nothing of it follows. */
  lemma FilterTail(s: seq<Entry>, a: nat, lo: int, hi: int)
    requires Sorted(s) && a < |s| && s[a].key > hi
    ensures Filter(s, lo, hi) == Filter(s[..a], lo, hi)
  {
    assert s == s[..a] + s[a..];
    FilterConcat(s[..a], s[a..], lo, hi);
    forall e | e in s[a..] ensures e.key > hi {
      var b :| 0 <= b < |s[a..]| && s[a..][b] == e;
      if b > 0 { assert !EntryLess(s[a + b], s[a]); }
    }
    FilterNone(s[a..], lo, hi);
  }

  lemma OneMoreLeaf(pages: Pages, level: Level, i: nat, j: nat, lo: int, hi: int)
    requires i <= j < |level|
    ensures Filter(Gather(pages, level[i..j + 1]), lo, hi)
         == Filter(Gather(pages, level[i..j]), lo, hi) + Filter(EntriesOf(pages, level[j].child), lo, hi)
  {
    GatherLast(pages, level, i, j);
    FilterConcat(Gather(pages, level[i..j]), EntriesOf(pages, level[j].child), lo, hi);
  }

  lemma BeyondRange(pages: Pages, level: Level, j: nat, lo: int, hi: int)
    requires LeavesOk(pages, level) && j < |level| && exists x :: x in EntriesOf(pages, level[j].child) && x.key > hi
    ensures Filter(Gather(pages, level[j + 1..]), lo, hi) == []
  {
    var x :| x in EntriesOf(pages, level[j].child) && x.key > hi;
    NoneAfter(pages, level, j, x, lo, hi);
  }

  lemma GatherNothing(pages: Pages, level: Level, i: nat, lo: int, hi: int)
    requires i <= |level|
    ensures Filter(Gather(pages, level[i..i]), lo, hi) == []
  {
    assert level[i..i] == [];
  }

  /** A leaf and the leaf it points to. */
  lemma LeafChain(pages: Pages, level: Level, j: nat)
    requires LeavesOk(pages, level) && j < |level|
    ensures var id := level[j].child;
            id in pages && pages[id].Leaf? && Sorted(pages[id].entries)
            && pages[id].next == (if j + 1 < |level| then level[j + 1].child else INVALID)
  {
    assert LeafOk(pages, level, j);
  }

  /** No place of the level is empty. */
  ghost predicate AllThere(level: Level) {
    forall i :: 0 <= i < |level| ==> level[i].child != INVALID
  }

  lemma LeavesAreThere(pages: Pages, levels: seq<Level>, limit: Id)
    requires |levels| > 0 && Covers(pages, levels, limit) && LeavesOk(pages, levels[0])
    ensures AllThere(levels[0])
  {
    forall i | 0 <= i < |levels[0]| ensures levels[0][i].child != INVALID {
      assert LeafOk(pages, levels[0], i);
    }
  }
}
