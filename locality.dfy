/**
 * Scoring a fixed pair iteration order against the cache model
 * (src/main.rs, `test_feed_pair_locality` and the naive row-major order).
 */
module Locality {
  import opened Cache
  import opened Domain

  /** The pairs `[f1, f2]` for `f2` in `from..n`. */
  function Row(f1: nat, from: nat, n: nat): (r: Path)
    ensures |r| == if from <= n then n - from else 0
    decreases n - from
  {
    if from >= n then [] else [FeedPair(f1, from)] + Row(f1, from + 1, n)
  }

  /** The rows `f1` in `first..n` of the naive order. */
  function Rows(first: nat, n: nat): Path
    decreases n - first
  {
    if first >= n then [] else Row(first, first, n) + Rows(first + 1, n)
  }

  /** The naive order: `for f1 in 0..n { for f2 in f1..n { yield [f1, f2] } }`. */
  function NaiveOrder(n: nat): Path
  {
    Rows(0, n)
  }

  lemma {:induction false} RowsLength(first: nat, n: nat)
    requires first <= n
    ensures 2 * |Rows(first, n)| == (n - first) * (n - first + 1)
    decreases n - first
  {
    if first < n {
      RowsLength(first + 1, n);
    }
  }

  /** The naive order has exactly one entry per domain point. */
  lemma NaiveOrderLength(n: nat)
    ensures |NaiveOrder(n)| == PathLength(n)
  {
    RowsLength(0, n);
  }

  lemma {:induction false} RowMembers(f1: nat, from: nat, n: nat, p: FeedPair)
    ensures p in Row(f1, from, n) <==> p.x == f1 && from <= p.y < n
    decreases n - from
  {
    if from < n {
      RowMembers(f1, from + 1, n, p);
    }
  }

  lemma {:induction false} RowsMembers(first: nat, n: nat, p: FeedPair)
    ensures p in Rows(first, n) <==> first <= p.x && InDomain(p, n)
    decreases n - first
  {
    if first < n {
      RowMembers(first, first, n, p);
      RowsMembers(first + 1, n, p);
      var row, rest := Row(first, first, n), Rows(first + 1, n);
      assert Rows(first, n) == row + rest;
      if first <= p.x && InDomain(p, n) {
        if p.x == first {
          assert p in row;
        } else {
          assert p in rest;
        }
      }
    }
  }

  /** The naive order visits exactly the domain. */
  lemma NaiveOrderMembers(n: nat, p: FeedPair)
    ensures p in NaiveOrder(n) <==> InDomain(p, n)
  {
    RowsMembers(0, n, p);
  }

  lemma {:induction false} RowSorted(f1: nat, from: nat, n: nat)
    ensures LexSorted(Row(f1, from, n))
    ensures forall i :: 0 <= i < |Row(f1, from, n)| ==> Row(f1, from, n)[i] == FeedPair(f1, from + i)
    decreases n - from
  {
    if from < n {
      RowSorted(f1, from + 1, n);
      SortedConcat([FeedPair(f1, from)], Row(f1, from + 1, n));
    }
  }

  lemma {:induction false} RowsSorted(first: nat, n: nat)
    ensures LexSorted(Rows(first, n))
    decreases n - first
  {
    if first < n {
      RowSorted(first, first, n);
      RowsSorted(first + 1, n);
      var a := Row(first, first, n);
      var b := Rows(first + 1, n);
      forall i, j | 0 <= i < |a| && 0 <= j < |b| ensures LexLess(a[i], b[j]) {
        assert b[j] in b;
        RowsMembers(first + 1, n, b[j]);
      }
      SortedConcat(a, b);
    }
  }

  /** The naive order is strictly increasing in lexicographic order, so no pair repeats. */
  lemma NaiveOrderSorted(n: nat)
    ensures LexSorted(NaiveOrder(n))
    ensures NoDuplicates(NaiveOrder(n))
  {
    RowsSorted(0, n);
  }

  /** A subset as large as a finite set is that set. */
  lemma {:induction false} SubsetSameCard(a: set<FeedPair>, b: set<FeedPair>)
    requires a <= b && |a| == |b|
    ensures a == b
    decreases |b|
  {
    if a != b {
      var x :| x in b && x !in a;
      assert a <= b - {x};
      SubsetCard(a, b - {x});
    }
  }

  lemma {:induction false} SubsetCard(a: set<FeedPair>, b: set<FeedPair>)
    requires a <= b
    ensures |a| <= |b|
    decreases |b|
  {
    if a != {} {
      var x :| x in a;
      SubsetCard(a - {x}, b - {x});
    }
  }

  /**
   * A complete path goes through every point of the domain exactly once: it
   * is a permutation of the naive order.
   */
  lemma CompletePathCoversDomain(path: Path, n: nat, r: nat)
    requires IsCompletePath(path, n, r)
    ensures forall p :: p in path <==> InDomain(p, n)
    ensures multiset(path) == multiset(NaiveOrder(n))
  {
    var naive := NaiveOrder(n);
    NaiveOrderLength(n);
    NaiveOrderSorted(n);
    SortedIsDistinct(naive);
    var inPath := Elements(path);
    var inNaive := Elements(naive);
    forall p | p in inPath ensures p in inNaive {
      NaiveOrderMembers(n, p);
    }
    NoDuplicatesCard(path);
    NoDuplicatesCard(naive);
    SubsetSameCard(inPath, inNaive);
    forall p ensures p in path <==> InDomain(p, n) {
      NaiveOrderMembers(n, p);
      assert p in path <==> p in inPath;
      assert p in naive <==> p in inNaive;
    }
    forall p ensures multiset(path)[p] == multiset(naive)[p] {
      NoDuplicatesMultiplicity(path, p);
      NoDuplicatesMultiplicity(naive, p);
      assert p in path <==> p in inPath;
      assert p in naive <==> p in inNaive;
    }
  }

  /**
   * The cost `test_feed_pair_locality` reports for an iteration order: every
   * pair's two feeds are simulated in order against one recency list that
   * starts empty. Returns the total cost and the number of pairs.
   */
  method TestFeedPairLocality(entrySize: nat, feedPairs: Path) returns (totalCost: Cost, pairCount: nat)
    requires entrySize > 0
    ensures totalCost == Run(New(entrySize), [], Flatten(feedPairs)).cost
    ensures pairCount == |feedPairs|
    ensures totalCost >= 0
  {
    var cacheModel := New(entrySize);
    var entries: CacheEntries := [];
    totalCost := 0;
    pairCount := 0;
    for i := 0 to |feedPairs|
      invariant totalCost == Run(cacheModel, [], Flatten(feedPairs[..i])).cost
      invariant entries == Run(cacheModel, [], Flatten(feedPairs[..i])).entries
      invariant pairCount == i
    {
      ghost var done := Flatten(feedPairs[..i]);
      var feedPair := Feeds(feedPairs[i]);
      var pairCost := 0;
      assert done + feedPair[..0] == done;
      for k := 0 to |feedPair|
        invariant totalCost + pairCost == Run(cacheModel, [], done + feedPair[..k]).cost
        invariant entries == Run(cacheModel, [], done + feedPair[..k]).entries
      {
        var feedCost;
        feedCost, entries := SimulateAccess(cacheModel, entries, feedPair[k]);
        AppendPrefix(done, feedPair, k);
        RunSnoc(cacheModel, [], done + feedPair[..k], feedPair[k]);
        pairCost := pairCost + feedCost;
      }
      NextPrefix(feedPairs, i);
      totalCost := totalCost + pairCost;
      pairCount := pairCount + 1;
    }
    assert feedPairs[..|feedPairs|] == feedPairs;
  }

  lemma NextPrefix(feedPairs: Path, i: nat)
    requires i < |feedPairs|
    ensures Flatten(feedPairs[..i + 1]) == Flatten(feedPairs[..i]) + Feeds(feedPairs[i])[..2]
  {
    assert feedPairs[..i + 1] == feedPairs[..i] + [feedPairs[i]];
    FlattenSnoc(feedPairs[..i], feedPairs[i]);
  }

  lemma AppendPrefix<T>(a: seq<T>, b: seq<T>, k: nat)
    requires k < |b|
    ensures a + b[..k + 1] == (a + b[..k]) + [b[k]]
  {
    assert b[..k + 1] == b[..k] + [b[k]];
  }
}
