/** How a pair gets into the index twice. */
module StoredTwice {
  import opened BTree
  import opened BTreeSteps
  import opened BTreeDuplicates
  import opened BPlusTreeIndex

  function Pair(key: int, n: nat): Entry { Entry(key, Rid(n, 0)) }

  function Pairs(key: int, n: nat): (es: set<Entry>)
    ensures |es| == n && forall e :: e in es <==> exists j: nat :: j < n && e == Pair(key, j)
  {
    if n == 0 then {} else Pairs(key, n - 1) + {Pair(key, n - 1)}
  }

  lemma OnePairMore(key: int, n: nat)
    ensures Pair(key, n) !in Pairs(key, n)
            && multiset(Pairs(key, n)) + multiset{Pair(key, n)} == multiset(Pairs(key, n + 1))
  {
  }

  lemma NotThereNotSeen(tree: BPlusTree, e: Entry)
    requires tree.Valid() && e !in tree.Contents()
    ensures !Candidate(tree.pages, tree.levels, e)
  {
    if Candidate(tree.pages, tree.levels, e) { CandidateIsHeld(tree.pages, tree.levels, e); }
  }

  /** As many different pairs of one key as asked for. */
  method StorePairs(tree: BPlusTree, key: int, n: nat)
    requires tree.Valid() && tree.Contents() == multiset{}
    modifies tree
    ensures tree.Valid() && tree.Contents() == multiset(Pairs(key, n))
  {
    var j := 0;
    while j < n
      invariant 0 <= j <= n && tree.Valid() && tree.Contents() == multiset(Pairs(key, j))
    {
      OnePairMore(key, j);
      NotThereNotSeen(tree, Pair(key, j));
      var status := tree.Insert(key, Rid(j, 0));
      j := j + 1;
    }
  }

  /** The same pairs again, until one is taken. */
  method StoreAgain(tree: BPlusTree, key: int, n: nat, ghost unseen: Entry) returns (e: Entry)
    requires tree.Valid() && tree.Contents() == multiset(Pairs(key, n))
    requires unseen in Pairs(key, n) && !Candidate(tree.pages, tree.levels, unseen)
    modifies tree
    ensures tree.Valid() && e in Pairs(key, n) && tree.Contents() == multiset(Pairs(key, n)) + multiset{e}
  {
    var j := 0;
    while j < n
      invariant 0 <= j <= n && tree.Valid() && tree.Contents() == multiset(Pairs(key, n))
      invariant !Candidate(tree.pages, tree.levels, unseen) && forall i: nat :: i < j ==> unseen != Pair(key, i)
    {
      e := Pair(key, j);
      var status := tree.Insert(key, Rid(j, 0));
      if status.Ok? { return; }
      j := j + 1;
    }
    assert false;
  }

  /** A run of insertions into an empty index, with any sizes of pages, after which a pair is stored twice: one
      pair more of a key than a leaf holds, and then the same pairs again. */
  method StoreTwice(cfg: Config, key: int) returns (tree: BPlusTree, e: Entry)
    requires cfg.Ok()
    ensures fresh(tree) && tree.Valid() && tree.Contents()[e] == 2
  {
    tree := new BPlusTree(cfg);
    var n := cfg.leafMax + 1;
    StorePairs(tree, key, n);
    ghost var unseen := UnseenPair(tree, key, n);
    e := StoreAgain(tree, key, n, unseen);
  }

  lemma HoldsSomething(tree: BPlusTree, e: Entry)
    requires tree.Valid() && e in tree.Contents()
    ensures tree.root != INVALID
  {
  }

  lemma UnseenPair(tree: BPlusTree, key: int, n: nat) returns (e: Entry)
    requires tree.Valid() && n > tree.cfg.leafMax && tree.Contents() == multiset(Pairs(key, n))
    ensures e in Pairs(key, n) && !Candidate(tree.pages, tree.levels, e)
  {
    assert Pair(key, 0) in Pairs(key, n);
    HoldsSomething(tree, Pair(key, 0));
    e := DuplicateIsNotSeen(tree.cfg, tree.pages, tree.root, tree.levels, tree.limit, key, Pairs(key, n));
  }
}
