/** Chunks laid end to end, and where a cut through them falls. */
module Chunks {

  function Join<T>(chunks: seq<seq<T>>): seq<T> {
    if chunks == [] then []
    else
      var n := |chunks| - 1;
      Join(chunks[..n]) + chunks[n]
  }

  /** Where chunk `n` starts. */
  function Start<T>(chunks: seq<seq<T>>, n: nat): nat
    requires n <= |chunks|
  {
    |Join(chunks[..n])|
  }

  /** How many chunks lie wholly before the cut. */
  function Whole<T>(chunks: seq<seq<T>>, cut: nat): (k: nat)
    ensures k <= |chunks|
  {
    if |Join(chunks)| <= cut || chunks == [] then |chunks| else Whole(chunks[..|chunks| - 1], cut)
  }

  lemma SliceOfSlice<T>(s: seq<T>, i: nat, j: nat, k: nat, l: nat)
    requires i <= j <= |s| && k <= l <= j - i
    ensures s[i..j][k..l] == s[i + k..i + l]
  {
    forall x | 0 <= x < l - k ensures s[i..j][k..l][x] == s[i + k..i + l][x] {
    }
  }

  lemma PrefixOfPrefix<T>(s: seq<T>, m: nat, n: nat)
    requires n <= m <= |s|
    ensures s[..m][..n] == s[..n]
  {
  }

  lemma StartOfNext<T>(chunks: seq<seq<T>>, n: nat)
    requires n < |chunks|
    ensures Start(chunks, n + 1) == Start(chunks, n) + |chunks[n]|
  {
    var m := n + 1;
    PrefixOfPrefix(chunks, m, n);
  }

  lemma {:induction false} StartsGrow<T>(chunks: seq<seq<T>>, i: nat, j: nat)
    requires i <= j <= |chunks|
    ensures Start(chunks, i) <= Start(chunks, j)
    decreases j - i
  {
    if i < j {
      StartOfNext(chunks, i);
      StartsGrow(chunks, i + 1, j);
    }
  }

  lemma {:induction false} PrefixIsJoin<T>(chunks: seq<seq<T>>, n: nat)
    requires n <= |chunks|
    ensures Start(chunks, n) <= |Join(chunks)|
    ensures Join(chunks)[..Start(chunks, n)] == Join(chunks[..n])
    decreases |chunks|
  {
    if n == |chunks| {
      assert chunks[..n] == chunks;
    } else {
      var m := |chunks| - 1;
      PrefixIsJoin(chunks[..m], n);
      PrefixOfPrefix(chunks, m, n);
      PrefixOfSum(Join(chunks[..m]), chunks[m], Start(chunks, n));
    }
  }

  lemma PrefixOfSum<T>(a: seq<T>, b: seq<T>, n: nat)
    requires n <= |a|
    ensures (a + b)[..n] == a[..n]
  {
  }

  /** The chunks before the cut end before it, and the next one does not. */
  lemma {:induction false} WholeMeans<T>(chunks: seq<seq<T>>, cut: nat)
    ensures var k := Whole(chunks, cut);
            Start(chunks, k) <= cut && (k < |chunks| ==> cut < Start(chunks, k + 1))
  {
    assert chunks[..|chunks|] == chunks;
    if |Join(chunks)| > cut && chunks != [] {
      var m := |chunks| - 1;
      var k := Whole(chunks, cut);
      WholeMeans(chunks[..m], cut);
      PrefixOfPrefix(chunks, m, k);
      if k < m {
        var l := k + 1;
        PrefixOfPrefix(chunks, m, l);
      }
    }
  }

  /** Each chunk lies where the chunks before it end. */
  lemma ChunkLies<T>(chunks: seq<seq<T>>, n: nat)
    requires n < |chunks|
    ensures Start(chunks, n) + |chunks[n]| <= |Join(chunks)|
    ensures Join(chunks)[Start(chunks, n)..Start(chunks, n) + |chunks[n]|] == chunks[n]
  {
    var m := n + 1;
    var start, all := Start(chunks, n), Join(chunks);
    var end := start + |chunks[n]|;
    StartOfNext(chunks, n);
    PrefixIsJoin(chunks, m);
    PrefixOfPrefix(chunks, m, n);
    var front := Join(chunks[..m]);
    assert front == Join(chunks[..n]) + chunks[n];
    assert all[..end] == front;
    assert all[start..end] == front[start..];
  }

  /** What a cut leaves of a chunk that starts before it. */
  lemma ChunkIsCut<T>(chunks: seq<seq<T>>, n: nat, cut: nat)
    requires n < |chunks| && Start(chunks, n) <= cut <= |Join(chunks)|
    ensures var start, b := Start(chunks, n), Join(chunks)[..cut];
            if start + |chunks[n]| <= cut then b[start..start + |chunks[n]|] == chunks[n]
            else b[start..] == chunks[n][..cut - start]
  {
    var start, all, b := Start(chunks, n), Join(chunks), Join(chunks)[..cut];
    var end := start + |chunks[n]|;
    ChunkLies(chunks, n);
    if end <= cut {
      assert b[start..end] == all[start..end];
    } else {
      SliceOfSlice(all, start, end, 0, cut - start);
      assert b[start..] == all[start..cut];
    }
  }
}
