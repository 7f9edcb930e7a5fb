# crashe: cache-cost model and brute-force pair-order search, in Dafny

crashe studies the order in which the pairs `(x, y)` with `0 <= x <= y < n` of
`n` data feeds should be visited so that a CPU cache is used well. It has two
parts, and this project models both:

- **A cache cost simulator** (`CacheModel` in `src/main.rs`). A recency list
  holds feed indices, most recently accessed last. Accessing a feed looks up
  its last occurrence. The access is charged by that occurrence's age (how
  many entries sit after it): 0 below the L1 capacity, 1 below L2, 5 below L3,
  30 beyond. The feed is then moved to the tail. A feed never seen before is
  appended for free. Tier capacities are 32 KiB, 512 KiB and 32 MiB divided
  by the entry size. `test_feed_pair_locality` scores an iteration order by
  simulating both feeds of every pair in turn. The naive order is the
  row-major one.
- **A branch-and-bound search** (`src/brute_force.rs`). It looks for a complete
  path through the triangular domain, cheaper than a given bound. Each step
  goes to a not-yet-visited point within Chebyshev radius `r`.
  - Search nodes (`PartialPath`) are values: a path, its recency list and its
    cost.
  - The frontier (`PartialPaths`) is an ordered map from a rounded priority to
    buckets of nodes. Pop takes a random node of the highest bucket.
  - A neighbour table holds, per point, the first candidate column and one
    row range per candidate column.
  - The driver seeds one node per start point, up to the point symmetry
    `(x, y) -> (n-1-y, n-1-x)`. It then pops nodes, prunes any whose cost
    reaches the best cost found so far, and records every strictly cheaper
    complete path.

Modules, one per file:

- `Options`: the option type.
- `Cache`: the simulator.
  - The recency list is a `seq<nat>` that callers pass in and get back, as
    the search does.
  - `Access` is the specification. `SimulateAccess` takes the list and
    returns a new one; its tail-first `rposition` scan is a loop, and it is
    proved equal to `Access`.
  - `Run` folds `Access` over a feed sequence.
- `Domain`: pairs, paths, the domain, radius, validity of a walk, mirror
  symmetry, lexicographic order.
- `Locality`: the naive order and `TestFeedPairLocality`.
- `Neighbors`: the neighbour table, as an `array` filled by the source's
  nested loops, and the enumeration of a record.
- `Paths`: the search node and its operations.
- `Frontier`: the bucketed priority frontier, a class over a
  `map<nat, seq<PartialPath>>`.
- `Search`: seeding and the search loop. `search_best_path` is one function
  in the source. Here the state its loop works on is a `SearchState` value:
  the frontier's buckets, the cost to beat, the best path, and the list of
  records met so far. Four functions specify the loop:
  - `Visit`: one neighbour tried.
  - `Expand`: every neighbour tried in table order, a fold of `Visit`.
  - `Step`: one turn, given the random draw `pick`.
  - `Drive`: the loop run over a sequence of draws.

  The source's loops are methods, each proved to compute one of these:
  - `SeedPaths` and `PushSeedRow`: the two seeding loops. They give
    `SeedStorage`, the buckets after pushing the seed list `Seeds(n)` in the
    source's order.
  - `VisitStep` computes `Visit`, and `ExpandNode` computes `Expand`.
  - `SearchStep` computes `Step`. `RunSearch` is the `while let` loop; it
    ends in `Drive` applied to the draws it made.
  - `SearchBestPath` returns those draws as a ghost `picks`.

  The lemmas `VisitKeepsInv`, `ExpandKeepsInv` and `StepKeepsInv` prove that
  these functions keep the loop invariant `StateInv`.

The loop terminates on a ghost measure. A node with `k` steps left weighs
`(n*n + 1)^k`, and the frontier's weight strictly decreases each turn.

`PartialPath::len`, `last_step` and `cost_so_far` are `Len`, `LastStep` and
the `costSoFar` field. A frontier node always has a non-empty path, shorter
than a complete one (`Search.NodeInv`).

## Model

| member | source | states |
|---|---|---|
| Cache.New | src/main.rs:42-49 | each tier holds the largest whole number of entries that fits its capacity (`l * size <= capacity < (l + 1) * size`), and `l1 <= l2 <= l3` |
| Cache.CostModel | src/main.rs:53-63 | the cost lies between 0 and 60/2, and is 0 exactly when the age is below the L1 capacity |
| Cache.CostModelMonotone | src/main.rs:53-63 | an older entry never costs less than a younger one |
| Cache.LastPosition | src/main.rs:67 | the reverse search finds nothing exactly when the entry is absent; otherwise it returns an index holding the entry, with no occurrence after it |
| Cache.SimulateAccess | src/main.rs:65-90 | the tail-first search loop, the removal and the push compute exactly the cost and new list of `Access` |
| Cache.AccessFirstTouch | src/main.rs:81-88 | an absent entry is appended behind an unchanged prefix, the length grows by one, and the cost is 0 |
| Cache.AccessRepeatTouch | src/main.rs:67-80 | an entry whose last occurrence is at `p` costs `CostModel(len - 1 - p)`; the new list is the old one without index `p`, plus the entry, and has the same length |
| Cache.AccessAgainIsFree | src/main.rs:67-73 | touching the entry touched last is free whenever L1 holds at least one entry |
| Cache.AccessContents | src/main.rs:67-88 | the multiset of entries grows by the entry on first touch and is unchanged otherwise |
| Cache.AccessKeepsNoDuplicates | src/main.rs:67-88 | an access never creates a duplicate entry |
| Cache.AccessKeepsOrder | src/main.rs:75-77 | the relative order of all other entries is kept |
| Cache.Run | src/main.rs:101-125 | the total cost of a feed sequence is non-negative, and the list ends with the last feed accessed |
| Cache.RunAppend | src/main.rs:103-125 | simulating `s` and then `t` from the resulting list is simulating `s + t`: the costs add up |
| Cache.FirstTouchesAreFree | src/main.rs:81-88 | feeds never seen before, each accessed once, cost nothing and are appended in order |
| Cache.RunHistory | src/main.rs:65-90 | starting from an empty list, the list never holds a duplicate and holds exactly the feeds accessed so far |
| Cache.AccessCostIsReuseDistance | src/main.rs:51-80 | after a history that last touched `e` at `q`, accessing `e` costs `CostModel` of the number of distinct entries accessed since `q` |
| Domain.ExtendValidSteps | src/brute_force.rs:193-210 | extending a valid walk by an unvisited in-domain neighbour of its last step gives a valid walk |
| Domain.MirrorSymmetry | src/brute_force.rs:65-67 | the point symmetry maps the domain onto itself, is its own inverse, and keeps Chebyshev distance |
| Locality.NaiveOrderLength | src/main.rs:163-169 | the naive order has `n(n+1)/2` pairs |
| Locality.NaiveOrderMembers | src/main.rs:163-169 | the naive order yields a pair exactly when it lies in the domain `x <= y < n` |
| Locality.NaiveOrderSorted | src/main.rs:163-169 | the naive order is strictly increasing lexicographically, so it repeats no pair |
| Locality.CompletePathCoversDomain | src/brute_force.rs:56-59 | a valid walk of length `n(n+1)/2` passes through every domain point once: it is a permutation of the naive order |
| Locality.TestFeedPairLocality | src/main.rs:100-125 | the loop's total is the cost of simulating the flattened pairs from an empty list; the pair count is the number of pairs; the total is non-negative |
| Neighbors.LinearIdx | src/brute_force.rs:115 | the slot index of a point of the square lies below `n*n` |
| Neighbors.LinearIdxDistinct | src/brute_force.rs:115 | distinct points of the square get distinct slots |
| Neighbors.BuildNeighbors | src/brute_force.rs:114-140 | the table has `n*n` slots, and the slot of every domain point holds that point's record |
| Neighbors.XRangeFacts | src/brute_force.rs:118-119 | the column range contains `x`, ends by `n`, extends at most `r` each way, and contains exactly the columns of the square within `r` of `x` |
| Neighbors.YRangeFacts | src/brute_force.rs:127-128 | the row range starts at or after the candidate column, ends by `n`, and contains exactly the rows that keep the point in the domain within `r` of `y` |
| Neighbors.XRangeChecksAlwaysFail | src/brute_force.rs:120-122 | the column-range debug assertions as written are false for every column |
| Neighbors.YRangeChecksAlwaysFail | src/brute_force.rs:130-134 | the row-range debug assertions as written are false for every row |
| Neighbors.NeighborhoodExact | src/brute_force.rs:141-149 | the neighbours enumerated for a domain point are exactly the domain points within Chebyshev distance `r` of it (sound and complete) |
| Neighbors.NeighborhoodSize | src/brute_force.rs:141-149 | a point has at most `n*n` neighbours |
| Neighbors.NeighborhoodSorted | src/brute_force.rs:141-149 | the enumeration is lexicographically increasing, so it lists each neighbour once |
| Neighbors.OriginNeighborsAtRadiusOne | src/brute_force.rs:114-149 | with 4 feeds and radius 1, the origin's neighbours are (0,0), (0,1) and (1,1), in that order |
| Paths.New | src/brute_force.rs:336-347 | a seed node has path `[start]` and cost 0, and holds the list left by simulating both feeds of the start from an empty list |
| Paths.PartialPath.Contains | src/brute_force.rs:368-373 | true exactly when the pair occurs in the path |
| Paths.PartialPath.EvaluateNextStep | src/brute_force.rs:387-399 | the new cost is at least the node's cost; the cost and list are those of simulating the step's two feeds from the node's list; the node is a value and is not changed |
| Paths.PartialPath.CommitNextStep | src/brute_force.rs:408-421 | the new node's path is the old path followed by the given step, and it carries exactly the supplied cost and recency list |
| Paths.PartialPath.FinishPath | src/brute_force.rs:424-428 | the result is the node's path followed by the given step |
| Paths.SeedIsFree | src/brute_force.rs:339-341 | a seed's two accesses cost 0 whenever L1 holds at least one entry |
| Paths.NewIsConsistent | src/brute_force.rs:336-347 | a seed node agrees with its path: its list is the one its path leaves, and its cost is the path's cost minus the seed's |
| Paths.CommitKeepsConsistent | src/brute_force.rs:387-421 | committing the evaluated next step keeps a node in agreement with its path |
| Paths.FinishedCost | src/brute_force.rs:387-428 | the evaluated cost of a finishing step is the finished path's cost minus the seed's |
| Paths.ReleaseSeedUndercounts | src/brute_force.rs:339-341 | with seeds built as written in a release build, a node for the path (0,1) (2,3) (0,2) reports cost 0, while that path costs 1 with three L1 entries |
| Frontier.Priorize | src/brute_force.rs:443-451 | the priority is `1.3 * len - cost` rounded half away from zero, and 0 when that is below one half |
| Frontier.PriorizeMonotone | src/brute_force.rs:443-451 | a longer or cheaper node never ranks lower |
| Frontier.PushedValid | src/brute_force.rs:454-457 | pushing keeps every bucket non-empty and keyed by its nodes' priority |
| Frontier.PushedNodes | src/brute_force.rs:454-457 | pushing adds exactly the node |
| Frontier.PushAllEffect | src/brute_force.rs:454-457 | pushing a sequence of nodes one by one keeps the buckets valid and adds exactly those nodes |
| Frontier.TakenValid | src/brute_force.rs:463-467 | taking a node out, and dropping its bucket once empty, keeps the buckets valid |
| Frontier.TakenNodes | src/brute_force.rs:463-467 | taking a node out removes exactly that node |
| Frontier.TopKeyBounds | src/brute_force.rs:461 | with valid buckets, every node's priority is at most the largest key |
| Frontier.PartialPaths.constructor | src/brute_force.rs:438-440 | the new collection is empty and valid |
| Frontier.PartialPaths.Push | src/brute_force.rs:454-457 | the node is appended to the bucket of its priority, which is created if missing; the nodes held grow by exactly that node |
| Frontier.PartialPaths.TopKey | src/brute_force.rs:461 | the scan returns the largest key of a non-empty map |
| Frontier.PartialPaths.Pop | src/brute_force.rs:460-469 | returns None exactly when empty; otherwise it removes and returns the node at the drawn index of the highest bucket, drops that bucket once empty, keeps the buckets valid, and the node has maximal priority among those held |
| Search.SeedsInDomain | src/brute_force.rs:70-71 | every seed lies in the domain |
| Search.SeedsCoverDomain | src/brute_force.rs:61-71 | every domain point is a seed or the mirror image of one |
| Search.SeedsAreNotMirrored | src/brute_force.rs:65-71 | a point and its mirror image are both seeded only when they coincide |
| Search.SeedsExact | src/brute_force.rs:69-74 | the seed list holds each start point `x <= min(y, n-1-y)` exactly once and nothing else |
| Search.SeededOnce | src/brute_force.rs:69-74 | after seeding, the buckets are valid and hold the seed node of every start point exactly once, and nothing else |
| Search.SeedPaths | src/brute_force.rs:69-74 | the loops leave exactly the buckets of pushing the seed list in order; each seed node is held once and nothing else is held |
| Search.PushSeedRow | src/brute_force.rs:71-73 | the inner loop pushes the seed nodes of row `startY`, by increasing `x`, behind those of the earlier rows |
| Search.SeededInv | src/brute_force.rs:69-74 | the seeded state satisfies the loop invariant: every node a valid walk agreeing with its path, no record yet |
| Search.RecordKeepsInv | src/brute_force.rs:262-266 | recording a strictly cheaper complete path keeps the records valid and strictly decreasing in cost |
| Search.RecordedCostIsPathCost | src/brute_force.rs:262-266 | when L1 holds an entry, a recorded cost is exactly the cache-model cost of its path |
| Search.VisitKeepsInv | src/brute_force.rs:194-288 | trying one neighbour keeps every frontier node a valid walk consistent with its path, keeps the records valid and strictly decreasing, and adds at most one child's weight |
| Search.ExpandKeepsInv | src/brute_force.rs:192-289 | trying a list of neighbours keeps the invariant and adds at most one child's weight per neighbour |
| Search.ExpandLightens | src/brute_force.rs:192-289 | trying at most `n*n` neighbours adds less weight than the expanded node had |
| Search.StepKeepsInv | src/brute_force.rs:157-291 | a turn on a non-empty frontier keeps the invariant and leaves the frontier strictly lighter |
| Search.Drive | src/brute_force.rs:157-291 | the loop run over any sequence of draws keeps the invariant |
| Search.VisitStep | src/brute_force.rs:194-288 | computes `Visit`: a step already on the path, or whose cost reaches the goal, changes nothing; a finishing step becomes the new goal and best path and is recorded; any other step pushes the committed child and changes nothing else |
| Search.ExpandNode | src/brute_force.rs:192-289 | computes `Expand`: the neighbours are tried in table order, each on the state the previous one left |
| Search.SearchStep | src/brute_force.rs:157-291 | stops exactly on an empty frontier, changing nothing; otherwise computes `Step`: the drawn node of the highest bucket is taken out, and then only dropped if its cost reaches the goal, or else its table neighbours are tried |
| Search.RunSearch | src/brute_force.rs:157-291 | the loop ends with an empty frontier, in the state `Drive` gives for the draws it made from the seeded state |
| Search.SearchBestPath | src/brute_force.rs:34-301 | the result is read off the state the loop ends in; it is None exactly when no path was recorded, and otherwise the last record, whose path is a complete valid walk of n(n+1)/2 distinct pairs with cost below the initial bound; every record is a complete valid walk with cost below the initial bound, equal to its path's cost minus the seed's; and recorded costs strictly decrease |

## Left out

- Cost: costs are `f32` in the source and integers here. The only costs are 0, 1, 5 and 30, so sums are exact in both.
- Frontier.Priorize: computed exactly, in tenths. The source multiplies by the `f32` value of 1.3, which may round differently on a tie.
- Frontier.PartialPaths.Pop: the random draw `gen_range(0..len)` is an arbitrary number `pick`, taken modulo the bucket size. The search chooses it with `:|`, so every result holds for every sequence of draws.
- Search.SearchBestPath: does not prove the search finds a cheapest path. Seeding keeps only one point of each mirror pair. Mirroring does not obviously keep a path's cost, because each pair is accessed `x` first.
- Neighbors.NextXRange: feed indices are unbounded here. In the source they are `u8`, so `x + r + 1` wraps past 255 in a release build. The cast `as u8` at src/brute_force.rs:146 is likewise not modelled.
- Debug level: fixed at 1, so both pruning tests read `cost >= best`. The branches for levels 2 and above are dead and left out: `best_cost -= 1.0`, logging of ties, and all `println!` output. `iter_rev` serves only logging and is left out too.
- Debug assertions: their checks are not modelled as panics. The search uses the corrected seed of the third Findings row: `Paths.New` runs both seed accesses. `debug_assert!(curr_y >= curr_x)` holds by `Search.NodeInv`; the L1 size check is not a requirement.
- Cache module: `crate::cache` is not part of this model. Its `start_simulation` and `simulate_access(&mut entries, feed)` are modelled from `CacheModel` in src/main.rs, with the recency list passed in and returned rather than held by the model.
- Harness: `main`, the blocked and Morton iteration orders, the generator library and all console output are left out.

## Findings

| source | as written | input that shows it | evidently intended | confidence | as-written member | corrected member |
|---|---|---|---|---|---|---|
| src/brute_force.rs:120-122 | `next_x_range.end < num_feeds`, `x - start < r` and `end - x <= r`, all on a half-open range | every column: with `n = 4, r = 1, x = 0` the range is `0..2`, so `end - x = 2 > 1`; at `x = n - 1`, `end == n` | `end <= n`, `x - start <= r`, `end - 1 - x <= r` | high (not executed) | Neighbors.XRangeChecksAsWritten, Neighbors.XRangeChecksAlwaysFail | Neighbors.XRangeFacts |
| src/brute_force.rs:130-134 | the same three checks on the row range | every row, by the same arithmetic | `end <= n`, `y - start <= r`, `end - 1 - y <= r` | high (not executed) | Neighbors.YRangeChecksAsWritten, Neighbors.YRangeChecksAlwaysFail | Neighbors.YRangeFacts |
| src/brute_force.rs:339-341 | the seed's two `simulate_access` calls sit inside `debug_assert_eq!`, so a build without debug assertions never runs them and the seed's recency list stays empty | entry size 10922 (three L1 entries), path (0,1) (2,3) (0,2): the node reports cost 0, the cache model gives 1 | simulate both accesses, then check that they cost 0 | medium (not executed) | Paths.NewAsWritten, Paths.ReleaseSeedUndercounts | Paths.New |

With debug assertions on, the first two rows make the search panic while it
builds the neighbour table. With them off, the third row makes the search
undercount node costs. The rest of the model uses the corrected definitions.
