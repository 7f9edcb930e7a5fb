/**
 * A node of the search tree (src/brute_force.rs, `PartialPath`): the path
 * walked so far, the recency list after it and its accumulated cost. Nodes
 * are values; extending one builds a new node and leaves the old one as is.
 */
module Paths {
  import opened Cache
  import opened Domain

  datatype PartialPath = PartialPath(path: Path, cacheEntries: CacheEntries, costSoFar: Cost)
  {
    /** Number of steps taken. */
    function Len(): nat
    {
      |path|
    }

    /** The step taken last. */
    function LastStep(): FeedPair
      requires |path| > 0
    {
      path[|path| - 1]
    }

    /** Linear search for `pair` among the steps taken so far. */
    function Contains(pair: FeedPair): (found: bool)
      ensures found <==> pair in path
    {
      exists i | 0 <= i < |path| :: path[i] == pair
    }

    /**
     * Cost and recency list after one more step `nextStep`, computed on a
     * copy of this node's recency list (this node is not changed).
     */
    function EvaluateNextStep(m: CacheModel, nextStep: FeedPair): (r: Simulated)
      ensures r.cost >= costSoFar
      ensures r.cost == costSoFar + Run(m, cacheEntries, Feeds(nextStep)).cost
      ensures r.entries == Run(m, cacheEntries, Feeds(nextStep)).entries
    {
      RunTwo(m, cacheEntries, nextStep.x, nextStep.y);
      var first := Access(m, cacheEntries, nextStep.x);
      var second := Access(m, first.entries, nextStep.y);
      Simulated(costSoFar + (first.cost + second.cost), second.entries)
    }

    /** A new node one step further, with the cost and recency list supplied by the caller. */
    function CommitNextStep(nextStep: FeedPair, nextCost: Cost, nextEntries: CacheEntries): (r: PartialPath)
      ensures r.path == path + [nextStep] && r.Len() == Len() + 1 && r.LastStep() == nextStep
      ensures r.costSoFar == nextCost && r.cacheEntries == nextEntries
    {
      PartialPath(path + [nextStep], nextEntries, nextCost)
    }

    /** The complete path: this node's steps followed by `lastStep`. */
    function FinishPath(lastStep: FeedPair): (finalPath: Path)
      ensures |finalPath| == Len() + 1 && finalPath[..Len()] == path && finalPath[Len()] == lastStep
    {
      path + [lastStep]
    }
  }

  /** A seed node: one step, both of its feeds simulated against an empty recency list, no cost. */
  function New(m: CacheModel, start: FeedPair): (node: PartialPath)
    ensures node.path == [start] && node.costSoFar == 0
    ensures node.cacheEntries == Run(m, [], Feeds(start)).entries
  {
    RunTwo(m, [], start.x, start.y);
    var first := Access(m, [], start.x);
    var second := Access(m, first.entries, start.y);
    PartialPath([start], second.entries, 0)
  }

  /**
   * A seed node as the source builds it in a build without debug assertions:
   * the two accesses sit inside `debug_assert_eq!`, so they are not executed
   * and the recency list stays empty.
   */
  function NewAsWritten(start: FeedPair): PartialPath
  {
    PartialPath([start], [], 0)
  }

  /** What the two accesses of a seed would cost. */
  function SeedCost(m: CacheModel, start: FeedPair): Cost
  {
    Run(m, [], Feeds(start)).cost
  }

  /** Total cost of a path per the cache model, starting from an empty recency list. */
  function PathCost(m: CacheModel, path: Path): Cost
  {
    Run(m, [], Flatten(path)).cost
  }

  /**
   * A node agrees with its path: its recency list is the one the path leaves
   * behind, and its cost is the path's cost except for the seed's own accesses.
   */
  ghost predicate Consistent(m: CacheModel, node: PartialPath)
  {
    |node.path| > 0 &&
    node.cacheEntries == Run(m, [], Flatten(node.path)).entries &&
    node.costSoFar + SeedCost(m, node.path[0]) == PathCost(m, node.path)
  }

  /** The seed's accesses are free whenever L1 holds at least one entry. */
  lemma SeedIsFree(m: CacheModel, start: FeedPair)
    requires m.l1Entries >= 1
    ensures SeedCost(m, start) == 0
  {
    RunTwo(m, [], start.x, start.y);
    var first := Access(m, [], start.x);
    if start.y == start.x {
      AccessAgainIsFree(m, [], start.x);
    } else {
      AccessFirstTouch(m, first.entries, start.y);
    }
  }

  /** Seed nodes are consistent. */
  lemma NewIsConsistent(m: CacheModel, start: FeedPair)
    ensures Consistent(m, New(m, start))
  {
    assert Flatten([start]) == Feeds(start) by {
      assert [start][..0] == [];
    }
  }

  /** Committing the evaluated next step keeps a node consistent with its path. */
  lemma CommitKeepsConsistent(m: CacheModel, node: PartialPath, nextStep: FeedPair)
    requires Consistent(m, node)
    ensures var next := node.EvaluateNextStep(m, nextStep);
            Consistent(m, node.CommitNextStep(nextStep, next.cost, next.entries))
  {
    FlattenSnoc(node.path, nextStep);
    RunAppend(m, [], Flatten(node.path), Feeds(nextStep));
  }

  /**
   * The evaluated cost of the last step of a finished path is that path's
   * cost except for the seed's own accesses.
   */
  lemma FinishedCost(m: CacheModel, node: PartialPath, lastStep: FeedPair)
    requires Consistent(m, node)
    ensures node.EvaluateNextStep(m, lastStep).cost + SeedCost(m, node.path[0])
            == PathCost(m, node.FinishPath(lastStep))
  {
    FlattenSnoc(node.path, lastStep);
    RunAppend(m, [], Flatten(node.path), Feeds(lastStep));
  }

  /** The cache model of an 10922-byte entry: three entries fit in L1. */
  lemma ThreeEntryModel()
    ensures Cache.New(10922) == CacheModel(3, 48, 3072)
  {
  }

  /** The feeds of the path (0,1) (2,3) (0,2). */
  lemma ThreeStepFeeds()
    ensures Flatten([FeedPair(0, 1), FeedPair(2, 3), FeedPair(0, 2)]) == [0, 1] + [2, 3] + [0, 2]
  {
    FlattenSnoc([FeedPair(0, 1), FeedPair(2, 3)], FeedPair(0, 2));
    FlattenSnoc([FeedPair(0, 1)], FeedPair(2, 3));
    FlattenSnoc([], FeedPair(0, 1));
    assert [FeedPair(0, 1), FeedPair(2, 3)] + [FeedPair(0, 2)] == [FeedPair(0, 1), FeedPair(2, 3), FeedPair(0, 2)];
    assert [FeedPair(0, 1)] + [FeedPair(2, 3)] == [FeedPair(0, 1), FeedPair(2, 3)];
    assert [] + [FeedPair(0, 1)] == [FeedPair(0, 1)];
  }

  /** The first two steps of the path (0,1) (2,3) (0,2) only touch new feeds. */
  lemma FourFirstTouches(m: CacheModel)
    ensures Run(m, [], [0, 1, 2, 3]) == Simulated(0, [0, 1, 2, 3])
  {
    var feeds: seq<Entry> := [0, 1, 2, 3];
    assert NoDuplicates(feeds);
    FirstTouchesAreFree(m, [], feeds);
    assert [] + feeds == feeds;
  }

  /** With three L1 entries, coming back to feed 0 after four accesses costs 1, then feed 2 is free. */
  lemma ReuseAfterFour(m: CacheModel)
    requires m.l1Entries == 3 < m.l2Entries
    ensures Run(m, [0, 1, 2, 3], [0, 2]).cost == 1
  {
    RunTwo(m, [0, 1, 2, 3], 0, 2);
    BackToFirst(m);
    ThenToThird(m);
  }

  /** Feed 0 was used four accesses ago: one L1 miss, and it moves to the tail. */
  lemma BackToFirst(m: CacheModel)
    requires m.l1Entries == 3 < m.l2Entries
    ensures Access(m, [0, 1, 2, 3], 0) == Simulated(1, [1, 2, 3, 0])
  {
    var s: CacheEntries := [0, 1, 2, 3];
    assert s[1..] == [1, 2, 3];
    AccessRepeatTouch(m, s, 0, 0);
    assert s[..0] + s[1..] + [0] == [1, 2, 3, 0];
  }

  /** Then feed 2 was used three accesses ago: an L1 hit. */
  lemma ThenToThird(m: CacheModel)
    requires m.l1Entries == 3
    ensures Access(m, [1, 2, 3, 0], 2).cost == 0
  {
    var t: CacheEntries := [1, 2, 3, 0];
    assert t[2..] == [3, 0];
    AccessRepeatTouch(m, t, 2, 1);
  }

  /** With three L1 entries, the path (0,1) (2,3) (0,2) costs 1: feed 0 is reused four accesses later. */
  lemma ThreeEntryPathCost(m: CacheModel)
    requires m == CacheModel(3, 48, 3072)
    ensures PathCost(m, [FeedPair(0, 1), FeedPair(2, 3), FeedPair(0, 2)]) == 1
  {
    ThreeStepFeeds();
    assert [0, 1] + [2, 3] + [0, 2] == [0, 1, 2, 3] + [0, 2];
    RunAppend(m, [], [0, 1, 2, 3], [0, 2]);
    FourFirstTouches(m);
    ReuseAfterFour(m);
  }

  /** From the empty seed of (0,1), the steps (2,3) then (0,2) are reported free. */
  lemma EmptySeedCost(m: CacheModel)
    requires m == CacheModel(3, 48, 3072)
    ensures var asWritten := NewAsWritten(FeedPair(0, 1));
            var s1 := asWritten.EvaluateNextStep(m, FeedPair(2, 3));
            var n1 := asWritten.CommitNextStep(FeedPair(2, 3), s1.cost, s1.entries);
            n1.EvaluateNextStep(m, FeedPair(0, 2)).cost == 0
  {
    var asWritten := NewAsWritten(FeedPair(0, 1));
    var s1 := asWritten.EvaluateNextStep(m, FeedPair(2, 3));
    FreshPairOnEmpty(m);
    assert s1 == Simulated(0, [2, 3]);
    var n1 := asWritten.CommitNextStep(FeedPair(2, 3), s1.cost, s1.entries);
    assert n1.costSoFar == 0 && n1.cacheEntries == [2, 3];
    RepeatAfterOne(m);
  }

  /** The feeds 2 and 3 on an empty recency list are free. */
  lemma FreshPairOnEmpty(m: CacheModel)
    ensures var a := Access(m, [], 2);
            a == Simulated(0, [2]) && Access(m, a.entries, 3) == Simulated(0, [2, 3])
  {
    AccessFirstTouch(m, [], 2);
    AccessFirstTouch(m, [2], 3);
  }

  /** Feed 0 is new after (2, 3), and feed 2 then sits two accesses back: both free with three L1 entries. */
  lemma RepeatAfterOne(m: CacheModel)
    requires m.l1Entries == 3
    ensures var a := Access(m, [2, 3], 0);
            a == Simulated(0, [2, 3, 0]) && Access(m, a.entries, 2).cost == 0
  {
    AccessFirstTouch(m, [2, 3], 0);
    AccessRepeatTouch(m, [2, 3, 0], 2, 0);
  }

  /**
   * With the seed built as written, a node's cost is not its path's cost:
   * with L1 holding three entries, the path (0,1) (2,3) (0,2) costs 1, yet
   * the node built on the empty seed of (0,1) reports 0.
   */
  lemma ReleaseSeedUndercounts()
    ensures var m := Cache.New(10922);
            var asWritten := NewAsWritten(FeedPair(0, 1));
            var s1 := asWritten.EvaluateNextStep(m, FeedPair(2, 3));
            var n1 := asWritten.CommitNextStep(FeedPair(2, 3), s1.cost, s1.entries);
            var s2 := n1.EvaluateNextStep(m, FeedPair(0, 2));
            m.l1Entries == 3 && s2.cost == 0 &&
            PathCost(m, [FeedPair(0, 1), FeedPair(2, 3), FeedPair(0, 2)]) == 1
  {
    ThreeEntryModel();
    ThreeEntryPathCost(Cache.New(10922));
    EmptySeedCost(Cache.New(10922));
  }
}
