/**
 * The precomputed neighbour table of the search (src/brute_force.rs:114-149).
 *
 * For every domain point the table stores the first candidate `x'` and, for
 * that `x'` and each following one, the half-open range of candidate `y'`.
 * The neighbours of a point are read back by enumerating these ranges.
 */
module Neighbors {
  import opened Cache
  import opened Domain

  /** A half-open range `start..end`. */
  datatype Range = Range(start: nat, end: nat)

  /** Per-point record: `(first_next_x, [y range per x offset])`. */
  datatype NeighborRecord = NeighborRecord(firstNextX: nat, nextYRanges: seq<Range>)

  function SaturatingSub(a: nat, b: nat): nat
  {
    if a >= b then a - b else 0
  }

  function Min(a: nat, b: nat): nat
  {
    if a <= b then a else b
  }

  function Max(a: nat, b: nat): nat
  {
    if a >= b then a else b
  }

  function RangeLen(rg: Range): nat
  {
    if rg.start <= rg.end then rg.end - rg.start else 0
  }

  /** Table slot of the point `(x, y)`. */
  function LinearIdx(x: nat, y: nat, n: nat): (i: nat)
    ensures x < n && y < n ==> i < n * n
  {
    SlotBound(x, y, n);
    y * n + x
  }

  lemma SlotBound(x: nat, y: nat, n: nat)
    ensures x < n && y < n ==> y * n + x < n * n
  {
    if y < n {
      MulLess(y, n, n);
    }
  }

  /** Candidate `x'` of a point in column `x`. */
  function NextXRange(n: nat, r: nat, x: nat): Range
  {
    Range(SaturatingSub(x, r), Min(x + r + 1, n))
  }

  /** Candidate `y'` of a point in row `y` for the candidate `x'`; `y' >= x'` keeps it in the domain. */
  function NextYRange(n: nat, r: nat, y: nat, nextX: nat): Range
  {
    Range(Max(SaturatingSub(y, r), nextX), Min(y + r + 1, n))
  }

  /** The `y'` ranges for `x'` in `from..to`. */
  function NextYRanges(n: nat, r: nat, y: nat, from: nat, to: nat): (rs: seq<Range>)
    ensures |rs| == if from <= to then to - from else 0
    ensures forall k :: 0 <= k < |rs| ==> rs[k] == NextYRange(n, r, y, from + k)
  {
    seq(if from <= to then to - from else 0, k requires 0 <= k => NextYRange(n, r, y, from + k))
  }

  /** The record the table holds for the point `(x, y)`. */
  function PointRecord(n: nat, r: nat, x: nat, y: nat): NeighborRecord
  {
    var xs := NextXRange(n, r, x);
    NeighborRecord(xs.start, NextYRanges(n, r, y, xs.start, xs.end))
  }

  /** The points `(x, y')` for `y'` in a range. */
  function RangePoints(x: nat, rg: Range): (ps: Path)
    ensures |ps| == RangeLen(rg)
  {
    seq(RangeLen(rg), i requires 0 <= i < RangeLen(rg) => FeedPair(x, rg.start + i))
  }

  /** The points of consecutive ranges, the `k`-th range belonging to column `x + k`. */
  function ExpandFrom(x: nat, ranges: seq<Range>): Path
    decreases |ranges|
  {
    if ranges == [] then [] else RangePoints(x, ranges[0]) + ExpandFrom(x + 1, ranges[1..])
  }

  /** Enumerates the neighbours stored in a record (the `neighborhood` closure). */
  function Neighborhood(rec: NeighborRecord): Path
  {
    ExpandFrom(rec.firstNextX, rec.nextYRanges)
  }

  /** Fills the table for every domain point, as the nested loops of the source do. */
  method BuildNeighbors(n: nat, r: nat) returns (neighbors: array<NeighborRecord>)
    ensures fresh(neighbors) && neighbors.Length == n * n
    ensures forall x: nat, y: nat :: x <= y < n ==> neighbors[LinearIdx(x, y, n)] == PointRecord(n, r, x, y)
  {
    neighbors := new NeighborRecord[n * n](_ => NeighborRecord(0, []));
    for currX := 0 to n
      invariant forall x: nat, y: nat :: x <= y < n && x < currX ==> neighbors[LinearIdx(x, y, n)] == PointRecord(n, r, x, y)
    {
      for currY := currX to n
        invariant forall x: nat, y: nat :: x <= y < n && (x < currX || (x == currX && y < currY))
                    ==> neighbors[LinearIdx(x, y, n)] == PointRecord(n, r, x, y)
      {
        var nextXRange := NextXRange(n, r, currX);
        var nextYRanges: seq<Range> := [];
        for nextX := nextXRange.start to nextXRange.end
          invariant nextYRanges == NextYRanges(n, r, currY, nextXRange.start, nextX)
        {
          var nextYRange := NextYRange(n, r, currY, nextX);
          nextYRanges := nextYRanges + [nextYRange];
        }
        var idx := LinearIdx(currX, currY, n);
        ghost var before := neighbors[..];
        neighbors[idx] := NeighborRecord(nextXRange.start, nextYRanges);
        forall x: nat, y: nat | x <= y < n && (x < currX || (x == currX && y <= currY))
          ensures neighbors[LinearIdx(x, y, n)] == PointRecord(n, r, x, y)
        {
          if x != currX || y != currY {
            LinearIdxDistinct(x, y, currX, currY, n);
            assert neighbors[LinearIdx(x, y, n)] == before[LinearIdx(x, y, n)];
          }
        }
      }
    }
  }

  lemma MulLess(a: nat, b: nat, n: nat)
    requires a < b
    ensures a * n + n <= b * n
  {
    var d := b - a;
    assert b * n == a * n + d * n;
    assert d * n == (d - 1) * n + n;
    assert (d - 1) * n >= 0;
  }

  /** Distinct points have distinct slots. */
  lemma LinearIdxDistinct(x1: nat, y1: nat, x2: nat, y2: nat, n: nat)
    requires x1 < n && x2 < n && (x1 != x2 || y1 != y2)
    ensures LinearIdx(x1, y1, n) != LinearIdx(x2, y2, n)
  {
    if y1 < y2 {
      MulLess(y1, y2, n);
    } else if y2 < y1 {
      MulLess(y2, y1, n);
    }
  }

  /**
   * The column-range checks as the source writes them in its debug
   * assertions (src/brute_force.rs:120-122).
   */
  predicate XRangeChecksAsWritten(n: nat, r: nat, x: nat)
  {
    var xs := NextXRange(n, r, x);
    xs.end < n && (x as int) - (xs.start as int) < r && (xs.end as int) - (x as int) <= r
  }

  /**
   * Those checks fail in every column: the range ends either at `n` or at
   * `x + r + 1`, one past the bound each check allows.
   */
  lemma XRangeChecksAlwaysFail(n: nat, r: nat, x: nat)
    requires x < n
    ensures !XRangeChecksAsWritten(n, r, x)
  {
  }

  /** What holds of the candidate columns: an `x'` is a candidate iff it is in the square and within `r`. */
  lemma XRangeFacts(n: nat, r: nat, x: nat)
    requires x < n
    ensures var xs := NextXRange(n, r, x);
            xs.start <= x < xs.end <= n &&
            x - xs.start <= r && xs.end - 1 - x <= r &&
            forall x': nat :: xs.start <= x' < xs.end <==> x' < n && Dist(x, x') <= r
  {
  }

  /**
   * The row-range checks as the source writes them in its debug assertions
   * (src/brute_force.rs:130-135).
   */
  predicate YRangeChecksAsWritten(n: nat, r: nat, y: nat, nextX: nat)
  {
    var ys := NextYRange(n, r, y, nextX);
    ys.end < n && (y as int) - (ys.start as int) < r && (ys.end as int) - (y as int) <= r && ys.start >= nextX
  }

  /** Those checks fail in every row, for the same reason. */
  lemma YRangeChecksAlwaysFail(n: nat, r: nat, y: nat, nextX: nat)
    requires y < n
    ensures !YRangeChecksAsWritten(n, r, y, nextX)
  {
  }

  /** What holds of the candidate rows: a `y'` is a candidate iff it keeps `(x', y')` in the domain and is within `r`. */
  lemma YRangeFacts(n: nat, r: nat, y: nat, nextX: nat)
    requires y < n
    ensures var ys := NextYRange(n, r, y, nextX);
            ys.start >= nextX && ys.end <= n && y - ys.start <= r && ys.end - 1 - y <= r &&
            forall y': nat :: ys.start <= y' < ys.end <==> nextX <= y' < n && Dist(y, y') <= r
  {
  }

  lemma {:induction false} ExpandMembers(x: nat, ranges: seq<Range>, p: FeedPair)
    ensures p in ExpandFrom(x, ranges) <==>
              x <= p.x < x + |ranges| && ranges[p.x - x].start <= p.y < ranges[p.x - x].end
    decreases |ranges|
  {
    if ranges != [] {
      ExpandMembers(x + 1, ranges[1..], p);
      RangePointsMembers(x, ranges[0], p);
      assert ExpandFrom(x, ranges) == RangePoints(x, ranges[0]) + ExpandFrom(x + 1, ranges[1..]);
      if x < p.x < x + |ranges| {
        assert ranges[p.x - x] == ranges[1..][p.x - (x + 1)];
      }
    }
  }

  /** The points of a range are those of column `x` whose row lies in it. */
  lemma RangePointsMembers(x: nat, rg: Range, p: FeedPair)
    ensures p in RangePoints(x, rg) <==> p.x == x && rg.start <= p.y < rg.end
  {
    if p.x == x && rg.start <= p.y < rg.end {
      assert RangePoints(x, rg)[p.y - rg.start] == p;
    }
  }

  /**
   * Soundness and completeness of the table: the neighbours of a domain point
   * are exactly the domain points within Chebyshev distance `r` of it.
   */
  lemma NeighborhoodExact(n: nat, r: nat, x: nat, y: nat, p: FeedPair)
    requires x <= y < n
    ensures p in Neighborhood(PointRecord(n, r, x, y)) <==> InDomain(p, n) && WithinRadius(FeedPair(x, y), p, r)
  {
    var xs := NextXRange(n, r, x);
    ExpandMembers(xs.start, NextYRanges(n, r, y, xs.start, xs.end), p);
    XRangeFacts(n, r, x);
    if xs.start <= p.x < xs.end {
      YRangeFacts(n, r, y, p.x);
    }
  }

  lemma {:induction false} ExpandSize(x: nat, ranges: seq<Range>, bound: nat)
    requires forall k :: 0 <= k < |ranges| ==> RangeLen(ranges[k]) <= bound
    ensures |ExpandFrom(x, ranges)| <= |ranges| * bound
    decreases |ranges|
  {
    if ranges != [] {
      ExpandSize(x + 1, ranges[1..], bound);
      assert |ranges| * bound == bound + |ranges[1..]| * bound;
    }
  }

  /** A point has at most `n * n` neighbours. */
  lemma NeighborhoodSize(n: nat, r: nat, x: nat, y: nat)
    requires x <= y < n
    ensures |Neighborhood(PointRecord(n, r, x, y))| <= n * n
  {
    var xs := NextXRange(n, r, x);
    var ranges := NextYRanges(n, r, y, xs.start, xs.end);
    forall k | 0 <= k < |ranges| ensures RangeLen(ranges[k]) <= n {
      YRangeFacts(n, r, y, xs.start + k);
    }
    ExpandSize(xs.start, ranges, n);
    MulMonotone(|ranges|, n, n);
  }

  lemma {:induction false} ExpandSorted(x: nat, ranges: seq<Range>)
    ensures LexSorted(ExpandFrom(x, ranges))
    decreases |ranges|
  {
    if ranges != [] {
      ExpandSorted(x + 1, ranges[1..]);
      var a := RangePoints(x, ranges[0]);
      var b := ExpandFrom(x + 1, ranges[1..]);
      forall i, j | 0 <= i < |a| && 0 <= j < |b| ensures LexLess(a[i], b[j]) {
        assert b[j] in b;
        ExpandMembers(x + 1, ranges[1..], b[j]);
      }
      SortedConcat(a, b);
    }
  }

  /** The enumeration lists each neighbour once, in lexicographic order. */
  lemma NeighborhoodSorted(rec: NeighborRecord)
    ensures LexSorted(Neighborhood(rec)) && NoDuplicates(Neighborhood(rec))
  {
    ExpandSorted(rec.firstNextX, rec.nextYRanges);
  }

  /** With four feeds and radius one, the origin's neighbours are the three points around it. */
  lemma OriginNeighborsAtRadiusOne()
    ensures Neighborhood(PointRecord(4, 1, 0, 0)) == [FeedPair(0, 0), FeedPair(0, 1), FeedPair(1, 1)]
    ensures FeedPair(2, 2) !in Neighborhood(PointRecord(4, 1, 0, 0))
  {
    var ranges := NextYRanges(4, 1, 0, 0, 2);
    assert ranges == [Range(0, 2), Range(1, 2)];
    assert RangePoints(0, Range(0, 2)) == [FeedPair(0, 0), FeedPair(0, 1)];
    assert RangePoints(1, Range(1, 2)) == [FeedPair(1, 1)];
    assert ranges[1..][1..] == [];
  }
}
