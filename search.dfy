/**
 * The brute-force search (src/brute_force.rs, `search_best_path`): seed one
 * node per start point up to the point symmetry of the domain, then keep
 * taking a highest-priority node, pruning it or extending it by each of its
 * unvisited neighbours whose cost stays below the best complete path so far.
 */
module Search {
  import opened Options
  import opened Cache
  import opened Domain
  import opened Paths
  import opened Frontier
  import opened Neighbors

  /**
   * The start points the source seeds: row by row, `x` from 0 up to the
   * smaller of `y` and `n - 1 - y`.
   */
  predicate IsSeed(s: FeedPair, n: nat)
  {
    s.y < n && s.x <= Min(s.y, n - 1 - s.y)
  }

  /** Seeds lie in the domain. */
  lemma SeedsInDomain(s: FeedPair, n: nat)
    requires IsSeed(s, n)
    ensures InDomain(s, n)
  {
  }

  /** Every point of the domain is a seed or the mirror image of one. */
  lemma SeedsCoverDomain(p: FeedPair, n: nat)
    requires InDomain(p, n)
    ensures IsSeed(p, n) || IsSeed(Mirror(p, n), n)
  {
  }

  /** A seed and its mirror image are both seeded only when they coincide. */
  lemma SeedsAreNotMirrored(p: FeedPair, n: nat)
    requires IsSeed(p, n) && IsSeed(Mirror(p, n), n)
    ensures Mirror(p, n) == p
  {
  }

  /** How many start points row `y` has: `x` runs over `0..=min(y, n - 1 - y)`. */
  function RowSeeds(n: nat, y: nat): nat
    requires y < n
  {
    Min(y, n - 1 - y) + 1
  }

  /** The start points `(0, y), ..., (k - 1, y)`, by increasing `x`. */
  function SeedRow(y: nat, k: nat): (row: Path)
    ensures |row| == k && forall i :: 0 <= i < k ==> row[i] == FeedPair(i, y)
    decreases k
  {
    if k == 0 then [] else SeedRow(y, k - 1) + [FeedPair(k - 1, y)]
  }

  /** The start points of the rows before `y`, in the order the source pushes them. */
  function SeedRows(n: nat, y: nat): Path
    requires y <= n
    decreases y
  {
    if y == 0 then [] else SeedRows(n, y - 1) + SeedRow(y - 1, RowSeeds(n, y - 1))
  }

  /** Every start point, in push order. */
  function Seeds(n: nat): Path
  {
    SeedRows(n, n)
  }

  lemma {:induction false} SeedRowsMembers(n: nat, y: nat, s: FeedPair)
    requires y <= n
    ensures s in SeedRows(n, y) <==> IsSeed(s, n) && s.y < y
    decreases y
  {
    if y > 0 {
      SeedRowsMembers(n, y - 1, s);
      var row := SeedRow(y - 1, RowSeeds(n, y - 1));
      if s in row {
        var i :| 0 <= i < |row| && row[i] == s;
      }
      if s.y == y - 1 && s.x < RowSeeds(n, y - 1) {
        assert row[s.x] == s;
      }
    }
  }

  lemma {:induction false} SeedRowsNoDuplicates(n: nat, y: nat)
    requires y <= n
    ensures NoDuplicates(SeedRows(n, y))
    decreases y
  {
    if y > 0 {
      SeedRowsNoDuplicates(n, y - 1);
      var a := SeedRows(n, y - 1);
      var b := SeedRow(y - 1, RowSeeds(n, y - 1));
      var c := a + b;
      forall i, j | 0 <= i < j < |c| ensures c[i] != c[j] {
        if j < |a| {
          assert c[i] == a[i] && c[j] == a[j];
        } else if i >= |a| {
          assert c[i] == b[i - |a|] && c[j] == b[j - |a|];
        } else {
          assert c[i] == a[i] && c[j] == b[j - |a|];
          SeedRowsMembers(n, y - 1, a[i]);
        }
      }
    }
  }

  /** The seed list holds every start point, once each, and nothing else. */
  lemma SeedsExact(n: nat, s: FeedPair)
    ensures s in Seeds(n) <==> IsSeed(s, n)
    ensures NoDuplicates(Seeds(n))
  {
    SeedRowsMembers(n, n, s);
    SeedRowsNoDuplicates(n, n);
  }

  /** The seed node of every start point of `seeds`, in order. */
  function SeedNodes(m: CacheModel, seeds: Path): (nodes: seq<PartialPath>)
    ensures |nodes| == |seeds| && forall i :: 0 <= i < |seeds| ==> nodes[i] == Paths.New(m, seeds[i])
  {
    seq(|seeds|, i requires 0 <= i < |seeds| => Paths.New(m, seeds[i]))
  }

  lemma SeedNodesSnoc(m: CacheModel, seeds: Path, s: FeedPair)
    ensures SeedNodes(m, seeds + [s]) == SeedNodes(m, seeds) + [Paths.New(m, s)]
  {
  }

  /** The buckets after seeding: every seed node pushed in order. */
  function SeedStorage(m: CacheModel, n: nat): map<nat, seq<PartialPath>>
  {
    PushAll(map[], SeedNodes(m, Seeds(n)))
  }

  /** `q` is the seed node of a start point. */
  predicate IsSeedNode(m: CacheModel, n: nat, q: PartialPath)
  {
    |q.path| == 1 && IsSeed(q.path[0], n) && q == Paths.New(m, q.path[0])
  }

  /** Distinct start points have distinct seed nodes. */
  lemma SeedNodesNoDuplicates(m: CacheModel, seeds: Path)
    requires NoDuplicates(seeds)
    ensures NoDuplicates(SeedNodes(m, seeds))
  {
    var nodes := SeedNodes(m, seeds);
    forall i, j | 0 <= i < j < |nodes| ensures nodes[i] != nodes[j] {
      assert nodes[i].path == [seeds[i]] && nodes[j].path == [seeds[j]];
    }
  }

  /** The seed nodes are exactly the nodes built from a start point. */
  lemma SeedNodesMembers(m: CacheModel, n: nat, q: PartialPath)
    ensures q in SeedNodes(m, Seeds(n)) <==> IsSeedNode(m, n, q)
  {
    var seeds := Seeds(n);
    var nodes := SeedNodes(m, seeds);
    if IsSeedNode(m, n, q) {
      SeedsExact(n, q.path[0]);
      var i :| 0 <= i < |seeds| && seeds[i] == q.path[0];
      assert nodes[i] == q;
    }
    if q in nodes {
      var i :| 0 <= i < |nodes| && nodes[i] == q;
      SeedsExact(n, seeds[i]);
      assert seeds[i] in seeds;
    }
  }

  /** The seed buckets are valid and hold the seed nodes. */
  lemma SeedStorageNodes(m: CacheModel, n: nat)
    ensures ValidStorage(SeedStorage(m, n))
    ensures Gather(SeedStorage(m, n)) == multiset(SeedNodes(m, Seeds(n)))
  {
    PushAllEffect(map[], SeedNodes(m, Seeds(n)));
    assert Gather(map[]) == multiset{};
  }

  /** After seeding, each seed node is held exactly once, and nothing else is held. */
  lemma SeededOnce(m: CacheModel, n: nat, q: PartialPath)
    ensures ValidStorage(SeedStorage(m, n))
    ensures Gather(SeedStorage(m, n))[q] == if IsSeedNode(m, n, q) then 1 else 0
  {
    SeedStorageNodes(m, n);
    SeedsExact(n, FeedPair(0, 0));
    SeedNodesNoDuplicates(m, Seeds(n));
    NoDuplicatesMultiplicity(SeedNodes(m, Seeds(n)), q);
    SeedNodesMembers(m, n, q);
  }

  /** Pushing the seed node of `s` after those of `pushed` extends the pushed list by `s`. */
  lemma PushSeed(m: CacheModel, pushed: Path, s: FeedPair)
    ensures PushAll(map[], SeedNodes(m, pushed + [s])) == Pushed(PushAll(map[], SeedNodes(m, pushed)), Paths.New(m, s))
  {
    SeedNodesSnoc(m, pushed, s);
    PushAllSnoc(map[], SeedNodes(m, pushed), Paths.New(m, s));
  }

  lemma SeedRowSnoc(before: Path, y: nat, x: nat)
    ensures before + SeedRow(y, x + 1) == (before + SeedRow(y, x)) + [FeedPair(x, y)]
  {
    assert SeedRow(y, x + 1) == SeedRow(y, x) + [FeedPair(x, y)];
  }

  /** Push one seed node per start point, in the order of the source's loops. */
  method SeedPaths(m: CacheModel, n: nat) returns (frontier: PartialPaths)
    ensures fresh(frontier) && frontier.Valid()
    ensures frontier.storage == SeedStorage(m, n)
    ensures forall q :: frontier.Nodes()[q] == if IsSeedNode(m, n, q) then 1 else 0
  {
    frontier := new PartialPaths();
    for startY := 0 to n
      invariant frontier.Valid()
      invariant frontier.storage == PushAll(map[], SeedNodes(m, SeedRows(n, startY)))
    {
      PushSeedRow(m, n, frontier, startY);
    }
    forall q ensures frontier.Nodes()[q] == if IsSeedNode(m, n, q) then 1 else 0 {
      SeededOnce(m, n, q);
    }
  }

  /** The inner seeding loop: push the seed nodes of row `startY`, by increasing `x`. */
  method PushSeedRow(m: CacheModel, n: nat, frontier: PartialPaths, startY: nat)
    requires startY < n && frontier.Valid()
    requires frontier.storage == PushAll(map[], SeedNodes(m, SeedRows(n, startY)))
    modifies frontier
    ensures frontier.Valid()
    ensures frontier.storage == PushAll(map[], SeedNodes(m, SeedRows(n, startY + 1)))
  {
    ghost var before := SeedRows(n, startY);
    ghost var pushed := before;
    assert before + SeedRow(startY, 0) == before;
    var count := Min(startY, n - startY - 1) + 1;
    for startX := 0 to count
      invariant pushed == before + SeedRow(startY, startX)
      invariant frontier.storage == PushAll(map[], SeedNodes(m, pushed))
    {
      PushAllEffect(map[], SeedNodes(m, pushed));
      PushSeed(m, pushed, FeedPair(startX, startY));
      SeedRowSnoc(before, startY, startX);
      frontier.Push(Paths.New(m, FeedPair(startX, startY)));
      pushed := pushed + [FeedPair(startX, startY)];
    }
    SeedRowsNext(n, startY);
    PushAllEffect(map[], SeedNodes(m, pushed));
  }

  /** Row `y` appends `Min(y, n - y - 1) + 1` start points to the seed list. */
  lemma SeedRowsNext(n: nat, y: nat)
    requires y < n
    ensures SeedRows(n, y + 1) == SeedRows(n, y) + SeedRow(y, Min(y, n - y - 1) + 1)
  {
  }

  function Pow(b: nat, e: nat): nat
  {
    if e == 0 then 1 else b * Pow(b, e - 1)
  }

  lemma {:induction false} PowPositive(b: nat, e: nat)
    requires b >= 1
    ensures Pow(b, e) >= 1
  {
    if e > 0 {
      PowPositive(b, e - 1);
      MulMonotone(1, b, Pow(b, e - 1));
    }
  }

  /** Fewer than `b` children of weight `b^(e-1)` weigh less than their parent of weight `b^e`. */
  lemma ChildrenWeighLess(b: nat, e: nat, j: nat)
    requires e >= 1 && j < b
    ensures j * Pow(b, e - 1) < Pow(b, e)
  {
    PowPositive(b, e - 1);
    MulMonotone(j, b - 1, Pow(b, e - 1));
    assert Pow(b, e) == (b - 1) * Pow(b, e - 1) + Pow(b, e - 1);
  }

  /**
   * The termination measure: a node with `k` steps still to take before the
   * path is complete weighs `(n*n + 1)^k`, more than all of its possible
   * children together.
   */
  ghost function NodeWeight(q: PartialPath, n: nat): nat
  {
    if |q.path| < PathLength(n) then Pow(n * n + 1, PathLength(n) - |q.path|) else 0
  }

  ghost function Weight(nodes: multiset<PartialPath>, n: nat): nat
    decreases |nodes|
  {
    if nodes == multiset{} then 0
    else
      var q := PickNode(nodes);
      NodeWeight(q, n) + Weight(nodes - multiset{q}, n)
  }

  ghost function PickNode(nodes: multiset<PartialPath>): (q: PartialPath)
    requires nodes != multiset{}
    ensures q in nodes
  {
    var q :| q in nodes; q
  }

  /** The weight may be summed starting from any node. */
  lemma {:induction false} WeightRemove(nodes: multiset<PartialPath>, q: PartialPath, n: nat)
    requires q in nodes
    ensures Weight(nodes, n) == NodeWeight(q, n) + Weight(nodes - multiset{q}, n)
    decreases |nodes|
  {
    var p := PickNode(nodes);
    if p != q {
      var np := nodes - multiset{p};
      var nq := nodes - multiset{q};
      WeightRemove(np, q, n);
      WeightRemove(nq, p, n);
      assert np - multiset{q} == nq - multiset{p};
    }
  }

  lemma WeightAdd(nodes: multiset<PartialPath>, q: PartialPath, n: nat)
    ensures Weight(nodes + multiset{q}, n) == Weight(nodes, n) + NodeWeight(q, n)
  {
    WeightRemove(nodes + multiset{q}, q, n);
    assert nodes + multiset{q} - multiset{q} == nodes;
  }

  /** A node in the frontier: short of complete, a valid walk, and consistent with the cache model. */
  ghost predicate NodeInv(m: CacheModel, n: nat, r: nat, q: PartialPath)
  {
    1 <= |q.path| < PathLength(n) && ValidSteps(q.path, n, r) && Consistent(m, q)
  }

  /**
   * A recorded result: a complete path, cheaper than the initial goal, whose
   * cost is the cache-model cost of the path except for its seed's accesses.
   */
  ghost predicate Recorded(m: CacheModel, n: nat, r: nat, goal: Cost, rec: (Cost, Path))
  {
    |rec.1| > 0 && IsCompletePath(rec.1, n, r) && rec.0 < goal &&
    rec.0 + SeedCost(m, rec.1[0]) == PathCost(m, rec.1)
  }

  /** Every node held is a frontier node. */
  ghost predicate FrontierInv(m: CacheModel, n: nat, r: nat, nodes: multiset<PartialPath>)
  {
    forall q :: q in nodes ==> NodeInv(m, n, r, q)
  }

  /**
   * The bookkeeping of the search: the records are valid and strictly
   * improving, and the current goal and best path are the last record's, or
   * the initial goal and no path when there is none.
   */
  ghost predicate RecordsInv(m: CacheModel, n: nat, r: nat, bestCost: Cost, records: seq<(Cost, Path)>,
                             goal: Cost, bestPath: Path)
  {
    (records == [] ==> goal == bestCost && bestPath == []) &&
    (records != [] ==> (goal, bestPath) == records[|records| - 1] && bestPath != []) &&
    (forall k :: 0 <= k < |records| ==> Recorded(m, n, r, bestCost, records[k])) &&
    (forall i, j :: 0 <= i < j < |records| ==> records[j].0 < records[i].0)
  }

  /** Recording a cheaper complete path keeps the bookkeeping. */
  lemma RecordKeepsInv(m: CacheModel, n: nat, r: nat, bestCost: Cost, records: seq<(Cost, Path)>,
                       goal: Cost, bestPath: Path, rec: (Cost, Path))
    requires RecordsInv(m, n, r, bestCost, records, goal, bestPath)
    requires |rec.1| > 0 && IsCompletePath(rec.1, n, r) && rec.0 < goal
    requires rec.0 + SeedCost(m, rec.1[0]) == PathCost(m, rec.1)
    ensures RecordsInv(m, n, r, bestCost, records + [rec], rec.0, rec.1)
  {
    if records != [] {
      assert Recorded(m, n, r, bestCost, records[|records| - 1]);
    }
    AppendRecorded(m, n, r, bestCost, records, rec);
    AppendDecreasing(records, rec);
  }

  lemma AppendRecorded(m: CacheModel, n: nat, r: nat, bestCost: Cost, records: seq<(Cost, Path)>,
                       rec: (Cost, Path))
    requires forall k :: 0 <= k < |records| ==> Recorded(m, n, r, bestCost, records[k])
    requires Recorded(m, n, r, bestCost, rec)
    ensures forall k :: 0 <= k < |records + [rec]| ==> Recorded(m, n, r, bestCost, (records + [rec])[k])
  {
    var rs := records + [rec];
    forall k | 0 <= k < |rs| ensures Recorded(m, n, r, bestCost, rs[k]) {
      if k < |records| {
        assert rs[k] == records[k];
      }
    }
  }

  lemma AppendDecreasing(records: seq<(Cost, Path)>, rec: (Cost, Path))
    requires forall i, j :: 0 <= i < j < |records| ==> records[j].0 < records[i].0
    requires records != [] ==> rec.0 < records[|records| - 1].0
    ensures forall i, j :: 0 <= i < j < |records + [rec]| ==> (records + [rec])[j].0 < (records + [rec])[i].0
  {
    var rs := records + [rec];
    forall i, j | 0 <= i < j < |rs| ensures rs[j].0 < rs[i].0 {
      if j == |records| {
        assert rs[i] == records[i];
        if i < |records| - 1 {
          assert records[|records| - 1].0 < records[i].0;
        }
      } else {
        assert rs[i] == records[i] && rs[j] == records[j];
      }
    }
  }

  /** Taking a node out of the frontier leaves frontier nodes, and the node taken is one. */
  lemma TakeKeepsInv(m: CacheModel, n: nat, r: nat, nodes: multiset<PartialPath>, q: PartialPath)
    requires FrontierInv(m, n, r, nodes + multiset{q})
    ensures FrontierInv(m, n, r, nodes) && NodeInv(m, n, r, q)
  {
    assert q in nodes + multiset{q};
    forall p | p in nodes ensures NodeInv(m, n, r, p) {
      assert p in nodes + multiset{q};
    }
  }

  /** Taking a frontier node out makes the frontier strictly lighter. */
  lemma TakeLightens(m: CacheModel, n: nat, r: nat, nodes: multiset<PartialPath>, q: PartialPath)
    requires NodeInv(m, n, r, q)
    ensures Weight(nodes, n) < Weight(nodes + multiset{q}, n)
  {
    WeightAdd(nodes, q, n);
    PowPositive(n * n + 1, PathLength(n) - |q.path|);
  }

  /** Pushing a frontier node keeps the frontier invariant. */
  lemma PushKeepsInv(m: CacheModel, n: nat, r: nat, nodes: multiset<PartialPath>, q: PartialPath)
    requires FrontierInv(m, n, r, nodes) && NodeInv(m, n, r, q)
    ensures FrontierInv(m, n, r, nodes + multiset{q})
  {
  }

  /** When L1 holds an entry, recorded costs are exactly the cache-model cost of the path. */
  lemma RecordedCostIsPathCost(m: CacheModel, n: nat, r: nat, goal: Cost, rec: (Cost, Path))
    requires m.l1Entries >= 1 && Recorded(m, n, r, goal, rec)
    ensures rec.0 == PathCost(m, rec.1)
  {
    SeedIsFree(m, rec.1[0]);
  }

  /** Seed nodes are frontier nodes. */
  lemma SeedNodeInv(m: CacheModel, n: nat, r: nat, s: FeedPair)
    requires n > 1 && IsSeed(s, n)
    ensures NodeInv(m, n, r, Paths.New(m, s))
  {
    NewIsConsistent(m, s);
    MulMonotone(2, n, n + 1);
    assert PathLength(n) >= 3;
  }

  /** An upper bound on the weight of any child of `q`. */
  ghost function ChildWeight(q: PartialPath, n: nat): nat
  {
    if |q.path| < PathLength(n) then Pow(n * n + 1, PathLength(n) - |q.path| - 1) else 0
  }

  /**
   * What the search loop works on: the frontier's buckets, the cost to beat,
   * the best path so far and, as a trace, every record met so far.
   */
  datatype SearchState = SearchState(storage: map<nat, seq<PartialPath>>, goal: Cost, bestPath: Path,
                                     records: seq<(Cost, Path)>)

  /** The invariant of the search loop. */
  ghost predicate StateInv(m: CacheModel, n: nat, r: nat, bestCost: Cost, st: SearchState)
  {
    ValidStorage(st.storage) && FrontierInv(m, n, r, Gather(st.storage)) &&
    RecordsInv(m, n, r, bestCost, st.records, st.goal, st.bestPath)
  }

  /** The state the loop starts from: the seed buckets, the initial goal, no path yet. */
  function Seeded(m: CacheModel, n: nat, bestCost: Cost): SearchState
  {
    SearchState(SeedStorage(m, n), bestCost, [], [])
  }

  lemma SeededInv(m: CacheModel, n: nat, r: nat, bestCost: Cost)
    requires n > 1
    ensures StateInv(m, n, r, bestCost, Seeded(m, n, bestCost))
  {
    var st := Seeded(m, n, bestCost);
    forall q | q in Gather(st.storage) ensures NodeInv(m, n, r, q) {
      SeededOnce(m, n, q);
      SeedNodeInv(m, n, r, q.path[0]);
    }
    SeededOnce(m, n, PartialPath([], [], 0));
  }

  /**
   * Trying the neighbour `nextStep` of `node`: skip it when the path has been
   * there or when its cost reaches the goal; when it completes the path,
   * make that path the new best; otherwise push the extended node.
   */
  function Visit(m: CacheModel, n: nat, node: PartialPath, nextStep: FeedPair, st: SearchState): SearchState
  {
    if node.Contains(nextStep) then st
    else
      var next := node.EvaluateNextStep(m, nextStep);
      if next.cost >= st.goal then st
      else if node.Len() + 1 == PathLength(n) then
        var finished := node.FinishPath(nextStep);
        st.(goal := next.cost, bestPath := finished, records := st.records + [(next.cost, finished)])
      else
        st.(storage := Pushed(st.storage, node.CommitNextStep(nextStep, next.cost, next.entries)))
  }

  /** Trying every neighbour of `steps` in order. */
  function Expand(m: CacheModel, n: nat, node: PartialPath, steps: Path, st: SearchState): SearchState
    decreases |steps|
  {
    if steps == [] then st
    else Visit(m, n, node, steps[|steps| - 1], Expand(m, n, node, steps[..|steps| - 1], st))
  }

  /**
   * One turn of the loop when the frontier is not empty: take the node at
   * index `pick` modulo the size of the top bucket; drop it when its cost
   * reaches the goal, otherwise try its neighbours in table order.
   */
  ghost function Step(m: CacheModel, n: nat, r: nat, st: SearchState, pick: nat): SearchState
    requires ValidStorage(st.storage) && st.storage != map[] && FrontierInv(m, n, r, Gather(st.storage))
  {
    var k := TopKeyOf(st.storage);
    var i := pick % |st.storage[k]|;
    var node := st.storage[k][i];
    var rest := st.(storage := Taken(st.storage, k, i));
    if node.costSoFar >= st.goal then rest
    else
      TakenNodes(st.storage, k, i);
      assert node in Gather(st.storage);
      var last := node.LastStep();
      Expand(m, n, node, Neighborhood(PointRecord(n, r, last.x, last.y)), rest)
  }

  /**
   * The loop run on the draws `picks`, from `st`; a draw after the frontier
   * has emptied changes nothing.
   */
  ghost function Drive(m: CacheModel, n: nat, r: nat, bestCost: Cost, st: SearchState, picks: seq<nat>): (st': SearchState)
    requires StateInv(m, n, r, bestCost, st)
    ensures StateInv(m, n, r, bestCost, st')
    decreases |picks|
  {
    if picks == [] then st
    else
      var before := Drive(m, n, r, bestCost, st, picks[..|picks| - 1]);
      if before.storage == map[] then before
      else
        StepKeepsInv(m, n, r, bestCost, before, picks[|picks| - 1]);
        Step(m, n, r, before, picks[|picks| - 1])
  }

  /**
   * Trying a neighbour keeps the invariant, and adds at most the weight of
   * one child to the frontier.
   */
  lemma VisitKeepsInv(m: CacheModel, n: nat, r: nat, bestCost: Cost, node: PartialPath, nextStep: FeedPair,
                      st: SearchState)
    requires StateInv(m, n, r, bestCost, st) && NodeInv(m, n, r, node)
    requires InDomain(nextStep, n) && WithinRadius(node.LastStep(), nextStep, r)
    ensures StateInv(m, n, r, bestCost, Visit(m, n, node, nextStep, st))
    ensures Weight(Gather(Visit(m, n, node, nextStep, st).storage), n)
            <= Weight(Gather(st.storage), n) + ChildWeight(node, n)
  {
    if !node.Contains(nextStep) {
      var next := node.EvaluateNextStep(m, nextStep);
      if next.cost < st.goal {
        ExtendValidSteps(node.path, nextStep, n, r);
        if node.Len() + 1 == PathLength(n) {
          FinishedCost(m, node, nextStep);
          RecordKeepsInv(m, n, r, bestCost, st.records, st.goal, st.bestPath, (next.cost, node.FinishPath(nextStep)));
        } else {
          PushChild(m, n, r, node, nextStep, st.storage);
        }
      }
    }
  }

  /** Pushing the committed child of a frontier node keeps the frontier valid. */
  lemma PushChild(m: CacheModel, n: nat, r: nat, node: PartialPath, nextStep: FeedPair,
                  s: map<nat, seq<PartialPath>>)
    requires ValidStorage(s) && FrontierInv(m, n, r, Gather(s)) && NodeInv(m, n, r, node)
    requires |node.path| + 1 != PathLength(n) && ValidSteps(node.path + [nextStep], n, r)
    ensures var next := node.EvaluateNextStep(m, nextStep);
            var s' := Pushed(s, node.CommitNextStep(nextStep, next.cost, next.entries));
            ValidStorage(s') && FrontierInv(m, n, r, Gather(s')) &&
            Weight(Gather(s'), n) == Weight(Gather(s), n) + ChildWeight(node, n)
  {
    var next := node.EvaluateNextStep(m, nextStep);
    var child := node.CommitNextStep(nextStep, next.cost, next.entries);
    CommitKeepsConsistent(m, node, nextStep);
    assert |child.path| == |node.path| + 1 < PathLength(n);
    ChildNodeWeight(node, child, n);
    PushedValid(s, child);
    PushedNodes(s, child);
    WeightAdd(Gather(s), child, n);
    PushKeepsInv(m, n, r, Gather(s), child);
  }

  /** Trying all of `steps` keeps the invariant, adding at most one child's weight per step. */
  lemma {:induction false} ExpandKeepsInv(m: CacheModel, n: nat, r: nat, bestCost: Cost, node: PartialPath,
                                          steps: Path, st: SearchState)
    requires StateInv(m, n, r, bestCost, st) && NodeInv(m, n, r, node)
    requires forall s :: s in steps ==> InDomain(s, n) && WithinRadius(node.LastStep(), s, r)
    ensures StateInv(m, n, r, bestCost, Expand(m, n, node, steps, st))
    ensures Weight(Gather(Expand(m, n, node, steps, st).storage), n)
            <= Weight(Gather(st.storage), n) + |steps| * ChildWeight(node, n)
    decreases |steps|
  {
    if steps != [] {
      var init := steps[..|steps| - 1];
      var last := steps[|steps| - 1];
      assert forall s :: s in init ==> s in steps;
      var before := Expand(m, n, node, init, st);
      assert Expand(m, n, node, steps, st) == Visit(m, n, node, last, before);
      ExpandKeepsInv(m, n, r, bestCost, node, init, st);
      VisitKeepsInv(m, n, r, bestCost, node, last, before);
      var c := ChildWeight(node, n);
      assert Weight(Gather(before.storage), n) <= Weight(Gather(st.storage), n) + |init| * c;
      MulSucc(|init|, c);
      assert |steps| == |init| + 1;
    }
  }

  /** A turn of the loop keeps the invariant and makes the frontier strictly lighter. */
  lemma StepKeepsInv(m: CacheModel, n: nat, r: nat, bestCost: Cost, st: SearchState, pick: nat)
    requires StateInv(m, n, r, bestCost, st) && st.storage != map[]
    ensures StateInv(m, n, r, bestCost, Step(m, n, r, st, pick))
    ensures Weight(Gather(Step(m, n, r, st, pick).storage), n) < Weight(Gather(st.storage), n)
  {
    var k := TopKeyOf(st.storage);
    var i := pick % |st.storage[k]|;
    var node := st.storage[k][i];
    var rest := st.(storage := Taken(st.storage, k, i));
    TakenValid(st.storage, k, i);
    TakenNodes(st.storage, k, i);
    TakeKeepsInv(m, n, r, Gather(rest.storage), node);
    TakeLightens(m, n, r, Gather(rest.storage), node);
    if node.costSoFar < st.goal {
      NeighborSteps(m, n, r, node);
      var last := node.LastStep();
      ExpandLightens(m, n, r, bestCost, node, Neighborhood(PointRecord(n, r, last.x, last.y)), rest);
      WeightAdd(Gather(rest.storage), node, n);
    }
  }

  /** Trying at most `n*n` neighbours of a frontier node adds less than the node's own weight. */
  lemma ExpandLightens(m: CacheModel, n: nat, r: nat, bestCost: Cost, node: PartialPath, steps: Path,
                       st: SearchState)
    requires StateInv(m, n, r, bestCost, st) && NodeInv(m, n, r, node)
    requires forall s :: s in steps ==> InDomain(s, n) && WithinRadius(node.LastStep(), s, r)
    requires |steps| <= n * n
    ensures StateInv(m, n, r, bestCost, Expand(m, n, node, steps, st))
    ensures Weight(Gather(Expand(m, n, node, steps, st).storage), n)
            < Weight(Gather(st.storage), n) + NodeWeight(node, n)
  {
    ExpandKeepsInv(m, n, r, bestCost, node, steps, st);
    ChildWeightsLess(node, n, |steps|);
  }

  /** A child one step longer weighs what `ChildWeight` says. */
  lemma ChildNodeWeight(q: PartialPath, child: PartialPath, n: nat)
    requires |child.path| == |q.path| + 1 < PathLength(n)
    ensures NodeWeight(child, n) == ChildWeight(q, n)
  {
  }

  /** At most `n*n` children of a node weigh less than the node. */
  lemma ChildWeightsLess(q: PartialPath, n: nat, j: nat)
    requires |q.path| < PathLength(n) && j <= n * n
    ensures j * ChildWeight(q, n) < NodeWeight(q, n)
  {
    var b, e := n * n + 1, PathLength(n) - |q.path|;
    assert NodeWeight(q, n) == Pow(b, e);
    assert ChildWeight(q, n) == Pow(b, e - 1);
    ChildrenWeighLess(b, e, j);
  }

  /** The neighbours of a frontier node's last step are at most `n*n` domain points within the radius. */
  lemma NeighborSteps(m: CacheModel, n: nat, r: nat, node: PartialPath)
    requires NodeInv(m, n, r, node)
    ensures var last := node.LastStep();
            InDomain(last, n) &&
            var steps := Neighborhood(PointRecord(n, r, last.x, last.y));
            |steps| <= n * n && forall s :: s in steps ==> InDomain(s, n) && WithinRadius(last, s, r)
  {
    var last := node.LastStep();
    LastStepInDomain(m, n, r, node);
    var steps := Neighborhood(PointRecord(n, r, last.x, last.y));
    forall s | s in steps ensures InDomain(s, n) && WithinRadius(last, s, r) {
      NeighborhoodExact(n, r, last.x, last.y, s);
    }
    NeighborhoodSize(n, r, last.x, last.y);
  }

  lemma MulSucc(a: nat, c: nat)
    ensures (a + 1) * c == a * c + c
  {
  }

  /** The neighbour table holds the record of every domain point at its slot. */
  ghost predicate TableHolds(table: seq<NeighborRecord>, n: nat, r: nat)
  {
    |table| == n * n &&
    forall x: nat, y: nat :: x <= y < n ==> table[LinearIdx(x, y, n)] == PointRecord(n, r, x, y)
  }

  lemma TableLookup(table: seq<NeighborRecord>, n: nat, r: nat, x: nat, y: nat)
    requires TableHolds(table, n, r) && x <= y < n
    ensures LinearIdx(x, y, n) < |table| && table[LinearIdx(x, y, n)] == PointRecord(n, r, x, y)
  {
  }

  /** The last step of a frontier node is a domain point. */
  lemma LastStepInDomain(m: CacheModel, n: nat, r: nat, q: PartialPath)
    requires NodeInv(m, n, r, q)
    ensures InDomain(q.LastStep(), n)
  {
  }

  /**
   * One neighbour `nextStep` of `node`: skip it if already visited or if its
   * cost reaches the goal; otherwise record the completed path when it is
   * the last step, or push the extended node.
   */
  method VisitStep(m: CacheModel, n: nat, frontier: PartialPaths, node: PartialPath, nextStep: FeedPair,
                   goal: Cost, bestPath: Path, ghost records: seq<(Cost, Path)>)
    returns (goal': Cost, bestPath': Path, ghost records': seq<(Cost, Path)>)
    requires frontier.Valid()
    modifies frontier
    ensures frontier.Valid()
    ensures SearchState(frontier.storage, goal', bestPath', records')
            == Visit(m, n, node, nextStep, SearchState(old(frontier.storage), goal, bestPath, records))
  {
    goal', bestPath', records' := goal, bestPath, records;
    if !node.Contains(nextStep) {
      var next := node.EvaluateNextStep(m, nextStep);
      if next.cost < goal {
        var nextPathLen := node.Len() + 1;
        if nextPathLen == n * (n + 1) / 2 {
          if next.cost < goal {
            bestPath' := node.FinishPath(nextStep);
            goal' := next.cost;
            records' := records + [(goal', bestPath')];
          }
        } else {
          frontier.Push(node.CommitNextStep(nextStep, next.cost, next.entries));
        }
      }
    }
  }

  /** Visit every neighbour of `node`, in the order the neighbour table lists them. */
  method ExpandNode(m: CacheModel, n: nat, frontier: PartialPaths, node: PartialPath, steps: Path,
                    goal: Cost, bestPath: Path, ghost records: seq<(Cost, Path)>)
    returns (goal': Cost, bestPath': Path, ghost records': seq<(Cost, Path)>)
    requires frontier.Valid()
    modifies frontier
    ensures frontier.Valid()
    ensures SearchState(frontier.storage, goal', bestPath', records')
            == Expand(m, n, node, steps, SearchState(old(frontier.storage), goal, bestPath, records))
  {
    ghost var start := SearchState(frontier.storage, goal, bestPath, records);
    goal', bestPath', records' := goal, bestPath, records;
    assert steps[..0] == [];
    for j := 0 to |steps|
      invariant frontier.Valid()
      invariant SearchState(frontier.storage, goal', bestPath', records') == Expand(m, n, node, steps[..j], start)
    {
      assert steps[..j + 1][..j] == steps[..j];
      goal', bestPath', records' := VisitStep(m, n, frontier, node, steps[j], goal', bestPath', records');
    }
    assert steps[..|steps|] == steps;
  }

  /**
   * One turn of the search loop: take a highest-priority node, the one at
   * index `pick` of its bucket (`pick` stands for the random draw); prune it
   * if its cost already reaches the goal, otherwise expand it. `done` tells
   * that the frontier was empty.
   */
  method SearchStep(m: CacheModel, n: nat, r: nat, frontier: PartialPaths, neighbors: array<NeighborRecord>,
                    ghost table: seq<NeighborRecord>, pick: nat, goal: Cost, bestPath: Path,
                    ghost records: seq<(Cost, Path)>)
    returns (done: bool, goal': Cost, bestPath': Path, ghost records': seq<(Cost, Path)>)
    requires frontier.Valid() && FrontierInv(m, n, r, frontier.Nodes())
    requires neighbors[..] == table && TableHolds(table, n, r)
    modifies frontier
    ensures done <==> old(frontier.storage) == map[]
    ensures done ==> frontier.storage == old(frontier.storage) && goal' == goal && bestPath' == bestPath && records' == records
    ensures !done ==> SearchState(frontier.storage, goal', bestPath', records')
                      == Step(m, n, r, SearchState(old(frontier.storage), goal, bestPath, records), pick)
  {
    goal', bestPath', records' := goal, bestPath, records;
    var popped := frontier.Pop(pick);
    if popped.None? {
      return true, goal', bestPath', records';
    }
    done := false;
    var node := popped.value;
    if node.costSoFar < goal {
      assert NodeInv(m, n, r, node);
      var last := node.LastStep();
      LastStepInDomain(m, n, r, node);
      TableLookup(table, n, r, last.x, last.y);
      goal', bestPath', records' := ExpandNode(m, n, frontier, node,
                                               Neighborhood(neighbors[LinearIdx(last.x, last.y, n)]),
                                               goal, bestPath, records);
    }
  }

  /** One more draw on a non-empty frontier is one more turn of the loop. */
  lemma DriveSnoc(m: CacheModel, n: nat, r: nat, bestCost: Cost, st: SearchState, picks: seq<nat>, pick: nat)
    requires StateInv(m, n, r, bestCost, st) && Drive(m, n, r, bestCost, st, picks).storage != map[]
    ensures Drive(m, n, r, bestCost, st, picks + [pick]) == Step(m, n, r, Drive(m, n, r, bestCost, st, picks), pick)
  {
    assert (picks + [pick])[..|picks|] == picks;
  }

  /** What the loop's state says about the result it returns. */
  lemma FinalResult(m: CacheModel, n: nat, r: nat, bestCost: Cost, st: SearchState)
    requires StateInv(m, n, r, bestCost, st)
    ensures st.bestPath == [] <==> st.records == []
    ensures st.bestPath != [] ==>
              && (st.goal, st.bestPath) == st.records[|st.records| - 1]
              && st.goal < bestCost
              && IsCompletePath(st.bestPath, n, r)
              && |st.bestPath| == PathLength(n)
  {
    if st.records != [] {
      assert Recorded(m, n, r, bestCost, st.records[|st.records| - 1]);
    }
  }

  /**
   * The search loop: turn until the frontier is empty, drawing `picks`;
   * the state it ends in is the loop run on those draws.
   */
  method RunSearch(m: CacheModel, n: nat, r: nat, bestCost: Cost, frontier: PartialPaths,
                   neighbors: array<NeighborRecord>, ghost table: seq<NeighborRecord>)
    returns (goal: Cost, bestPath: Path, ghost records: seq<(Cost, Path)>, ghost picks: seq<nat>)
    requires StateInv(m, n, r, bestCost, SearchState(frontier.storage, bestCost, [], []))
    requires neighbors[..] == table && TableHolds(table, n, r)
    modifies frontier
    ensures frontier.storage == map[]
    ensures SearchState(frontier.storage, goal, bestPath, records)
            == Drive(m, n, r, bestCost, SearchState(old(frontier.storage), bestCost, [], []), picks)
  {
    ghost var initial := SearchState(frontier.storage, bestCost, [], []);
    goal, bestPath, records, picks := bestCost, [], [], [];
    var done := false;
    while !done
      invariant neighbors[..] == table
      invariant SearchState(frontier.storage, goal, bestPath, records) == Drive(m, n, r, bestCost, initial, picks)
      invariant done ==> frontier.storage == map[]
      modifies frontier
      decreases !done, Weight(frontier.Nodes(), n)
    {
      var pick: nat :| true;
      ghost var before := SearchState(frontier.storage, goal, bestPath, records);
      assert StateInv(m, n, r, bestCost, before);
      done, goal, bestPath, records := SearchStep(m, n, r, frontier, neighbors, table, pick, goal, bestPath, records);
      if !done {
        StepKeepsInv(m, n, r, bestCost, before, pick);
        DriveSnoc(m, n, r, bestCost, initial, picks, pick);
        picks := picks + [pick];
      }
    }
  }

  /**
   * Search for a complete path of the domain cheaper than `bestCost`. Returns
   * the cheapest one met, with its cost. `picks` are the random draws the
   * loop made and `records` lists every path that improved on the best cost
   * so far, in the order they were met.
   */
  method SearchBestPath(numFeeds: nat, entrySize: nat, maxRadius: nat, bestCost: Cost)
    returns (result: Option<(Cost, Path)>, ghost records: seq<(Cost, Path)>, ghost picks: seq<nat>)
    requires numFeeds > 1 && entrySize > 0 && maxRadius >= 1 && bestCost > 0
    ensures StateInv(Cache.New(entrySize), numFeeds, maxRadius, bestCost,
                     Seeded(Cache.New(entrySize), numFeeds, bestCost))
    ensures var final := Drive(Cache.New(entrySize), numFeeds, maxRadius, bestCost,
                               Seeded(Cache.New(entrySize), numFeeds, bestCost), picks);
            final.storage == map[] && final.records == records &&
            result == if final.bestPath == [] then None else Some((final.goal, final.bestPath))
    ensures result.None? <==> records == []
    ensures result.Some? ==> result.value == records[|records| - 1]
    ensures result.Some? ==>
              && result.value.0 < bestCost
              && IsCompletePath(result.value.1, numFeeds, maxRadius)
              && |result.value.1| == PathLength(numFeeds)
    ensures forall k :: 0 <= k < |records| ==>
              Recorded(Cache.New(entrySize), numFeeds, maxRadius, bestCost, records[k])
    ensures forall i, j :: 0 <= i < j < |records| ==> records[j].0 < records[i].0
  {
    var m := Cache.New(entrySize);
    var n, r := numFeeds, maxRadius;
    var frontier := SeedPaths(m, n);
    SeededInv(m, n, r, bestCost);
    var neighbors := BuildNeighbors(n, r);
    assert TableHolds(neighbors[..], n, r);
    var goal, bestPath;
    goal, bestPath, records, picks := RunSearch(m, n, r, bestCost, frontier, neighbors, neighbors[..]);
    FinalResult(m, n, r, bestCost, SearchState(frontier.storage, goal, bestPath, records));
    if bestPath == [] {
      result := None;
    } else {
      result := Some((goal, bestPath));
    }
  }
}
