/** What the duplicate check of an insertion sees. */
module BTreeDuplicates {
  import opened BTree
  import opened BTreeFacts
  import opened BTreeInsert
  import opened BTreeSteps
  import opened BTreeRemoval
  import opened BTreeScan

  /** Descent ends somewhere. */
  lemma {:induction false} LandsSomewhere(level: Level, n: nat, key: int) returns (i: nat)
    requires n < |level| && (0 < n ==> level[n].key < key)
    ensures Lands(level, i, key)
    decreases |level| - n
  {
    if n + 1 < |level| && level[n + 1].key < key {
      var m := n + 1;
      i := LandsSomewhere(level, m, key);
    } else {
      i := n;
    }
  }

  /** What the check sees is in the tree. */
  lemma CandidateIsHeld(pages: Pages, levels: seq<Level>, e: Entry)
    requires Candidate(pages, levels, e)
    ensures e in Content(pages, levels)
  {
    var i: nat :| Lands(levels[0], i, e.key) && e in EntriesOf(pages, levels[0][i].child);
    GatherHolds(pages, levels[0], e);
  }

  /** No leaf but the first starts at a separator equal to the key. */
  ghost predicate NoSeparatorAt(level: Level, key: int) {
    forall i :: 1 <= i < |level| ==> level[i].key != key
  }

  /** Where no separator equals its key, a pair is seen exactly when it is there. */
  lemma DuplicateIsSeen(cfg: Config, pages: Pages, root: Id, levels: seq<Level>, limit: Id, e: Entry)
    requires TreeInv(cfg, pages, root, levels, limit, INVALID) && NoSeparatorAt(levels[0], e.key)
    ensures Candidate(pages, levels, e) <==> e in Content(pages, levels)
  {
    var level := levels[0];
    if e in Content(pages, levels) {
      var m := GatherIn(pages, level, e);
      var i := LandsSomewhere(level, 0, e.key);
      if m < i {
        LeftIsSmaller(pages, level, i, m, e.key, e);
      } else if i < m {
        assert LeafOk(pages, level, m);
        SeparatorsAscend(pages, level, i + 1, m);
      }
      CandidateIs(pages, levels, i, e);
    }
    if Candidate(pages, levels, e) { CandidateIsHeld(pages, levels, e); }
  }

  predicate HasKey(pages: Pages, id: Id, key: int) {
    exists e :: e in EntriesOf(pages, id) && e.key == key
  }

  /** Some entry of the key lies right of the leaf where the key belongs. */
  ghost predicate RunsOver(pages: Pages, level: Level, key: int) {
    exists i: nat, m: nat :: Lands(level, i, key) && i < m < |level| && HasKey(pages, level[m].child, key)
  }

  lemma {:induction false} InTwoLeaves(pages: Pages, level: Level, i: nat, m: nat, e: Entry)
    requires i < m < |level| && e in EntriesOf(pages, level[i].child) && e in EntriesOf(pages, level[m].child)
    ensures multiset(Gather(pages, level))[e] >= 2
  {
    var n, rest := m - 1, level[1..];
    assert rest[n] == level[m];
    assert multiset(Gather(pages, level)) == multiset(EntriesOf(pages, level[0].child)) + multiset(Gather(pages, rest));
    if i > 0 {
      var k := i - 1;
      assert rest[k] == level[i];
      InTwoLeaves(pages, rest, k, n, e);
    } else {
      GatherHolds(pages, rest, e);
    }
  }

  /** While every pair of a key is held once, the check misses one of them exactly when they run over into leaves right
      of the one where the key belongs. */
  lemma SomeUnseenIff(cfg: Config, pages: Pages, root: Id, levels: seq<Level>, limit: Id, key: int)
    requires TreeInv(cfg, pages, root, levels, limit, INVALID)
    requires forall e: Entry :: e.key == key ==> Content(pages, levels)[e] <= 1
    ensures (exists e: Entry :: e.key == key && e in Content(pages, levels) && !Candidate(pages, levels, e))
       <==> RunsOver(pages, levels[0], key)
    ensures RunsOver(pages, levels[0], key) ==> !NoSeparatorAt(levels[0], key)
  {
    var level := levels[0];
    if e: Entry :| e.key == key && e in Content(pages, levels) && !Candidate(pages, levels, e) {
      var i := LandsSomewhere(level, 0, key);
      var m := GatherIn(pages, level, e);
      CandidateIs(pages, levels, i, e);
      if m < i { LeftIsSmaller(pages, level, i, m, key, e); }
      assert HasKey(pages, level[m].child, key);
    }
    if i: nat, m: nat :| Lands(level, i, key) && i < m < |level| && HasKey(pages, level[m].child, key) {
      var e :| e in EntriesOf(pages, level[m].child) && e.key == key;
      GatherHolds(pages, level, e);
      CandidateIs(pages, levels, i, e);
      if e in EntriesOf(pages, level[i].child) { InTwoLeaves(pages, level, i, m, e); }
      DuplicateSeenIfApart(cfg, pages, root, levels, limit, e);
    }
  }

  lemma DuplicateSeenIfApart(cfg: Config, pages: Pages, root: Id, levels: seq<Level>, limit: Id, e: Entry)
    requires TreeInv(cfg, pages, root, levels, limit, INVALID) && e in Content(pages, levels)
             && !Candidate(pages, levels, e)
    ensures !NoSeparatorAt(levels[0], e.key)
  {
    if NoSeparatorAt(levels[0], e.key) { DuplicateIsSeen(cfg, pages, root, levels, limit, e); }
  }

  lemma {:induction false} DistinctFit<T>(s: seq<T>, es: set<T>)
    requires forall e :: e in es ==> e in s
    ensures |es| <= |s|
  {
    if es != {} {
      var n := |s| - 1;
      assert s == s[..n] + [s[n]];
      DistinctFit(s[..n], es - {s[n]});
      assert |es - {s[n]}| >= |es| - 1;
    }
  }

  /** A key with more pairs than a leaf holds has pairs that the check does not see, however the tree came about. */
  lemma DuplicateIsNotSeen(cfg: Config, pages: Pages, root: Id, levels: seq<Level>, limit: Id, key: int, es: set<Entry>)
      returns (e: Entry)
    requires TreeInv(cfg, pages, root, levels, limit, INVALID) && |es| > cfg.leafMax
    requires forall x :: x in es ==> x.key == key && x in Content(pages, levels)
    ensures e in es && !Candidate(pages, levels, e)
  {
    var i := LandsSomewhere(levels[0], 0, key);
    var id := levels[0][i].child;
    AtLevel(levels, 0, i);
    assert NodeOk(cfg, pages, id, 0, root, INVALID);
    if forall x :: x in es ==> x in EntriesOf(pages, id) {
      DistinctFit(EntriesOf(pages, id), es);
    }
    e :| e in es && e !in EntriesOf(pages, id);
    CandidateIs(pages, levels, i, e);
  }
}
