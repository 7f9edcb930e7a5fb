/**
 * The triangular domain of feed pairs and the paths through it
 * (src/brute_force.rs, `FeedPair` and `Path`).
 */
module Domain {
  import opened Cache

  /** A feed pair `[x, y]`; accessing it touches feed `x`, then feed `y`. */
  datatype FeedPair = FeedPair(x: nat, y: nat)

  type Path = seq<FeedPair>

  /** The two feeds a pair touches, in access order. */
  function Feeds(p: FeedPair): seq<Entry>
  {
    [p.x, p.y]
  }

  /** The feeds a path touches, in access order. */
  function Flatten(path: Path): (r: seq<Entry>)
    ensures |r| == 2 * |path|
    decreases |path|
  {
    if path == [] then [] else Flatten(path[..|path| - 1]) + Feeds(path[|path| - 1])
  }

  lemma FlattenSnoc(path: Path, p: FeedPair)
    ensures Flatten(path + [p]) == Flatten(path) + Feeds(p)
  {
    assert (path + [p])[..|path|] == path;
  }

  /** The domain `0 <= x <= y < n`. */
  predicate InDomain(p: FeedPair, n: nat)
  {
    p.x <= p.y < n
  }

  /** Number of points of the domain, which is the length of a complete path. */
  function PathLength(n: nat): nat
  {
    n * (n + 1) / 2
  }

  function Dist(a: nat, b: nat): nat
  {
    if a <= b then b - a else a - b
  }

  /** Chebyshev distance at most `r`. */
  predicate WithinRadius(a: FeedPair, b: FeedPair, r: nat)
  {
    Dist(a.x, b.x) <= r && Dist(a.y, b.y) <= r
  }

  /** Every step in the domain, no step twice, each step a neighbour of the previous one. */
  predicate ValidSteps(path: Path, n: nat, r: nat)
  {
    (forall i :: 0 <= i < |path| ==> InDomain(path[i], n)) &&
    NoDuplicates(path) &&
    (forall i :: 0 < i < |path| ==> WithinRadius(path[i - 1], path[i], r))
  }

  /** A traversal of the whole domain. */
  predicate IsCompletePath(path: Path, n: nat, r: nat)
  {
    ValidSteps(path, n, r) && |path| == PathLength(n)
  }

  /** A valid path stays valid when extended by a fresh in-domain neighbour of its last step. */
  lemma ExtendValidSteps(path: Path, s: FeedPair, n: nat, r: nat)
    requires ValidSteps(path, n, r) && |path| > 0
    requires InDomain(s, n) && s !in path && WithinRadius(path[|path| - 1], s, r)
    ensures ValidSteps(path + [s], n, r)
  {
    var p := path + [s];
    forall i, j | 0 <= i < j < |p| ensures p[i] != p[j] {
      if j == |path| {
        assert p[i] == path[i];
      }
    }
  }

  /** The start point equivalent to `p` by the point symmetry of the domain. */
  function Mirror(p: FeedPair, n: nat): FeedPair
    requires InDomain(p, n)
  {
    FeedPair(n - 1 - p.y, n - 1 - p.x)
  }

  /** Mirroring maps the domain onto itself, is its own inverse and keeps distances. */
  lemma MirrorSymmetry(a: FeedPair, b: FeedPair, n: nat, r: nat)
    requires InDomain(a, n) && InDomain(b, n)
    ensures InDomain(Mirror(a, n), n) && Mirror(Mirror(a, n), n) == a
    ensures WithinRadius(Mirror(a, n), Mirror(b, n), r) <==> WithinRadius(a, b, r)
  {
  }

  /** Strict lexicographic order on pairs. */
  predicate LexLess(a: FeedPair, b: FeedPair)
  {
    a.x < b.x || (a.x == b.x && a.y < b.y)
  }

  predicate LexSorted(s: Path)
  {
    forall i, j :: 0 <= i < j < |s| ==> LexLess(s[i], s[j])
  }

  /** A strictly increasing path repeats no pair. */
  lemma SortedIsDistinct(s: Path)
    requires LexSorted(s)
    ensures NoDuplicates(s)
  {
  }

  lemma SortedConcat(a: Path, b: Path)
    requires LexSorted(a) && LexSorted(b)
    requires forall i, j :: 0 <= i < |a| && 0 <= j < |b| ==> LexLess(a[i], b[j])
    ensures LexSorted(a + b)
  {
    var c := a + b;
    forall i, j | 0 <= i < j < |c| ensures LexLess(c[i], c[j]) {
      if j < |a| {
        assert c[i] == a[i] && c[j] == a[j];
      } else if i >= |a| {
        assert c[i] == b[i - |a|] && c[j] == b[j - |a|];
      } else {
        assert c[i] == a[i] && c[j] == b[j - |a|];
      }
    }
  }

}
