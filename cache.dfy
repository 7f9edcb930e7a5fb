/**
 * Recency-based cache cost model (src/main.rs, `CacheModel`).
 *
 * The recency list ("cache entries") holds feed indices ordered by access
 * date, most recently accessed last. It never evicts anything: the cost of an
 * access depends only on how far from the tail the entry's last occurrence is.
 * The list is a value that callers pass in and get back, as the search does.
 */
module Cache {
  import opened Options

  /** A feed index used as a cache entry. */
  type Entry = nat

  /** Costs are the small integers 0, 1, 5 and 30. */
  type Cost = int

  type CacheEntries = seq<Entry>

  // Capacities in bytes and miss costs of the three cache tiers.
  const L1Capacity: nat := 32 * 1024
  const L1MissCost: Cost := 2
  const L2Capacity: nat := 512 * 1024
  const L2MissCost: Cost := 10
  const L3Capacity: nat := 32 * 1024 * 1024
  const L3MissCost: Cost := 60

  /** Tier capacities, counted in entries. */
  datatype CacheModel = CacheModel(l1Entries: nat, l2Entries: nat, l3Entries: nat)

  /** Result of simulating one or more accesses: their cost and the new recency list. */
  datatype Simulated = Simulated(cost: Cost, entries: CacheEntries)

  /** Each tier holds as many whole entries as fit in its capacity. */
  function New(entrySize: nat): (m: CacheModel)
    requires entrySize > 0
    ensures m.l1Entries * entrySize <= L1Capacity < (m.l1Entries + 1) * entrySize
    ensures m.l2Entries * entrySize <= L2Capacity < (m.l2Entries + 1) * entrySize
    ensures m.l3Entries * entrySize <= L3Capacity < (m.l3Entries + 1) * entrySize
    ensures m.l1Entries <= m.l2Entries <= m.l3Entries
  {
    DivBounds(L1Capacity, entrySize);
    DivBounds(L2Capacity, entrySize);
    DivBounds(L3Capacity, entrySize);
    DivMonotone(L1Capacity, L2Capacity, entrySize);
    DivMonotone(L2Capacity, L3Capacity, entrySize);
    CacheModel(L1Capacity / entrySize, L2Capacity / entrySize, L3Capacity / entrySize)
  }

  lemma DivBounds(a: nat, d: nat)
    requires d > 0
    ensures (a / d) * d <= a < (a / d + 1) * d
  {
    assert a == (a / d) * d + a % d;
  }

  lemma DivMonotone(a: nat, b: nat, d: nat)
    requires d > 0 && a <= b
    ensures a / d <= b / d
  {
    DivBounds(a, d);
    DivBounds(b, d);
    if a / d > b / d {
      MulMonotone(b / d + 1, a / d, d);
    }
  }

  lemma MulMonotone(x: nat, y: nat, d: nat)
    requires x <= y
    ensures x * d <= y * d
  {
  }

  /** Cost of touching an entry that `age` other accesses have pushed back. */
  function CostModel(m: CacheModel, age: nat): (c: Cost)
    ensures 0 <= c <= L3MissCost / L1MissCost
    ensures c == 0 <==> age < m.l1Entries
  {
    if age < m.l1Entries then 0
    else if age < m.l2Entries then 1
    else if age < m.l3Entries then L2MissCost / L1MissCost
    else L3MissCost / L1MissCost
  }

  /** Older entries never cost less (whatever the tier capacities). */
  lemma CostModelMonotone(m: CacheModel, younger: nat, older: nat)
    requires younger <= older
    ensures CostModel(m, younger) <= CostModel(m, older)
  {
  }

  /** Index of the last occurrence of `e` (Rust's `rposition`). */
  function LastPosition(s: CacheEntries, e: Entry): (r: Option<nat>)
    ensures r.None? <==> e !in s
    ensures r.Some? ==> r.value < |s| && s[r.value] == e && e !in s[r.value + 1..]
    decreases |s|
  {
    if |s| == 0 then None
    else if s[|s| - 1] == e then Some(|s| - 1)
    else LastPosition(s[..|s| - 1], e)
  }

  /** At most one index is the last occurrence of `e`. */
  lemma LastPositionUnique(s: CacheEntries, e: Entry, p: nat)
    requires p < |s| && s[p] == e && e !in s[p + 1..]
    ensures LastPosition(s, e) == Some(p)
  {
  }

  /** `s` with the element at index `i` taken out (Rust's `Vec::remove`). */
  function RemoveAt<T>(s: seq<T>, i: nat): (r: seq<T>)
    requires i < |s|
    ensures |r| == |s| - 1
  {
    s[..i] + s[i + 1..]
  }

  /** One simulated access: its cost, and the recency list with `e` moved to the tail. */
  function Access(m: CacheModel, entries: CacheEntries, e: Entry): (r: Simulated)
    ensures |r.entries| > 0 && r.entries[|r.entries| - 1] == e
    ensures r.cost >= 0
  {
    match LastPosition(entries, e)
    case Some(pos) => Simulated(CostModel(m, |entries| - pos - 1), RemoveAt(entries, pos) + [e])
    case None => Simulated(0, entries + [e])
  }

  /** The in-place update of the source: search from the tail, then remove and push. */
  method SimulateAccess(m: CacheModel, entries: CacheEntries, entry: Entry) returns (cost: Cost, next: CacheEntries)
    ensures Simulated(cost, next) == Access(m, entries, entry)
  {
    var i := |entries|;
    while i > 0 && entries[i - 1] != entry
      invariant 0 <= i <= |entries|
      invariant entry !in entries[i..]
    {
      i := i - 1;
    }
    if i > 0 {
      var entryPos := i - 1;
      LastPositionUnique(entries, entry, entryPos);
      var entryAge := |entries| - entryPos - 1;
      cost := CostModel(m, entryAge);
      next := RemoveAt(entries, entryPos) + [entry];
    } else {
      next := entries + [entry];
      cost := 0;
    }
  }

  /** Total cost of a sequence of accesses, and the recency list after them. */
  function Run(m: CacheModel, entries: CacheEntries, feeds: seq<Entry>): (r: Simulated)
    ensures r.cost >= 0
    ensures |feeds| > 0 ==> |r.entries| > 0 && r.entries[|r.entries| - 1] == feeds[|feeds| - 1]
    decreases |feeds|
  {
    if feeds == [] then Simulated(0, entries)
    else
      var before := Run(m, entries, feeds[..|feeds| - 1]);
      var last := Access(m, before.entries, feeds[|feeds| - 1]);
      Simulated(before.cost + last.cost, last.entries)
  }

  /** Running `s` then `t` is running `s + t`: costs add up, the state is threaded through. */
  lemma {:induction false} RunAppend(m: CacheModel, entries: CacheEntries, s: seq<Entry>, t: seq<Entry>)
    ensures Run(m, entries, s + t).entries == Run(m, Run(m, entries, s).entries, t).entries
    ensures Run(m, entries, s + t).cost == Run(m, entries, s).cost + Run(m, Run(m, entries, s).entries, t).cost
    decreases |t|
  {
    if t == [] {
      assert s + t == s;
    } else {
      var t' := t[..|t| - 1];
      assert (s + t)[..|s + t| - 1] == s + t';
      assert (s + t)[|s + t| - 1] == t[|t| - 1];
      RunAppend(m, entries, s, t');
    }
  }

  /** Running one more feed costs one more access. */
  lemma RunSnoc(m: CacheModel, entries: CacheEntries, feeds: seq<Entry>, f: Entry)
    ensures var before := Run(m, entries, feeds);
            var last := Access(m, before.entries, f);
            Run(m, entries, feeds + [f]) == Simulated(before.cost + last.cost, last.entries)
  {
    assert (feeds + [f])[..|feeds|] == feeds;
  }

  /** Feeds never seen before, each once, cost nothing and are appended in order. */
  lemma {:induction false} FirstTouchesAreFree(m: CacheModel, entries: CacheEntries, feeds: seq<Entry>)
    requires NoDuplicates(feeds) && forall i :: 0 <= i < |feeds| ==> feeds[i] !in entries
    ensures Run(m, entries, feeds) == Simulated(0, entries + feeds)
    decreases |feeds|
  {
    if feeds != [] {
      var init, f := feeds[..|feeds| - 1], feeds[|feeds| - 1];
      SplitLast(feeds);
      FirstTouchesAreFree(m, entries, init);
      RunSnoc(m, entries, init, f);
      assert f !in init && f !in entries;
      AccessFirstTouch(m, entries + init, f);
      ConcatAssoc(entries, init, [f]);
    }
  }

  /** A non-empty sequence is its front followed by its last element. */
  lemma SplitLast<T>(s: seq<T>)
    requires s != []
    ensures s == s[..|s| - 1] + [s[|s| - 1]]
  {
  }

  lemma ConcatAssoc<T>(a: seq<T>, b: seq<T>, c: seq<T>)
    ensures a + b + c == a + (b + c)
  {
  }

  /** Running a single feed is one access. */
  lemma RunOne(m: CacheModel, entries: CacheEntries, f: Entry)
    ensures Run(m, entries, [f]) == Access(m, entries, f)
  {
    assert [f][..0] == [];
  }

  /** Running a pair of feeds is two accesses in order. */
  lemma RunTwo(m: CacheModel, entries: CacheEntries, f1: Entry, f2: Entry)
    ensures var a := Access(m, entries, f1);
            var b := Access(m, a.entries, f2);
            Run(m, entries, [f1, f2]) == Simulated(a.cost + b.cost, b.entries)
  {
    assert [f1, f2][..1] == [f1];
    RunOne(m, entries, f1);
  }

  /** No element occurs twice in `s`. */
  predicate NoDuplicates<T(==)>(s: seq<T>)
  {
    forall i, j :: 0 <= i < j < |s| ==> s[i] != s[j]
  }

  /** All occurrences of `e` taken out of `s`, the others kept in order. */
  function Without(s: CacheEntries, e: Entry): (r: CacheEntries)
    ensures e !in r
    decreases |s|
  {
    if s == [] then []
    else if s[0] == e then Without(s[1..], e)
    else [s[0]] + Without(s[1..], e)
  }

  lemma {:induction false} WithoutConcat(s: CacheEntries, t: CacheEntries, e: Entry)
    ensures Without(s + t, e) == Without(s, e) + Without(t, e)
    decreases |s|
  {
    if s == [] {
      assert s + t == t;
    } else {
      assert (s + t)[0] == s[0];
      assert (s + t)[1..] == s[1..] + t;
      WithoutConcat(s[1..], t, e);
    }
  }

  /** First touch: appended at the tail, everything else untouched, no charge. */
  lemma AccessFirstTouch(m: CacheModel, s: CacheEntries, e: Entry)
    requires e !in s
    ensures Access(m, s, e).cost == 0
    ensures Access(m, s, e).entries == s + [e]
    ensures |Access(m, s, e).entries| == |s| + 1
  {
  }

  /**
   * Repeat touch: charged by the age of the last occurrence `p`, which is
   * moved to the tail; the length does not change.
   */
  lemma AccessRepeatTouch(m: CacheModel, s: CacheEntries, e: Entry, p: nat)
    requires p < |s| && s[p] == e && e !in s[p + 1..]
    ensures Access(m, s, e).cost == CostModel(m, |s| - 1 - p)
    ensures Access(m, s, e).entries == s[..p] + s[p + 1..] + [e]
    ensures |Access(m, s, e).entries| == |s|
  {
    LastPositionUnique(s, e, p);
  }

  /** Touching the entry that was touched last is free whenever L1 holds an entry. */
  lemma AccessAgainIsFree(m: CacheModel, s: CacheEntries, e: Entry)
    requires m.l1Entries >= 1
    ensures Access(m, Access(m, s, e).entries, e).cost == 0
  {
    var t := Access(m, s, e).entries;
    assert t[|t| - 1..] == [e];
    AccessRepeatTouch(m, t, e, |t| - 1);
  }

  /** An access adds `e` to the multiset of entries only on first touch. */
  lemma AccessContents(m: CacheModel, s: CacheEntries, e: Entry)
    ensures multiset(Access(m, s, e).entries) == if e in s then multiset(s) else multiset(s) + multiset{e}
  {
    match LastPosition(s, e)
    case None =>
    case Some(p) =>
      assert s == s[..p] + [s[p]] + s[p + 1..];
      assert multiset(s) == multiset(s[..p]) + multiset{e} + multiset(s[p + 1..]);
  }

  /** An access never creates a duplicate. */
  lemma AccessKeepsNoDuplicates(m: CacheModel, s: CacheEntries, e: Entry)
    requires NoDuplicates(s)
    ensures NoDuplicates(Access(m, s, e).entries)
  {
    var r := Access(m, s, e).entries;
    AccessContents(m, s, e);
    forall i, j | 0 <= i < j < |r| ensures r[i] != r[j] {
      if j == |r| - 1 {
        assert r[i] in r[..|r| - 1];
        match LastPosition(s, e)
        case None =>
          assert r[..|r| - 1] == s;
        case Some(p) =>
          assert r[..|r| - 1] == s[..p] + s[p + 1..];
          assert forall k :: 0 <= k < p ==> s[k] != s[p];
          assert e !in s[..p];
      } else {
        match LastPosition(s, e)
        case None =>
        case Some(p) =>
          var si := if i < p then i else i + 1;
          var sj := if j < p then j else j + 1;
          assert r[i] == s[si] && r[j] == s[sj];
      }
    }
  }

  /** An access keeps the relative order of every other entry. */
  lemma AccessKeepsOrder(m: CacheModel, s: CacheEntries, e: Entry)
    ensures Without(Access(m, s, e).entries, e) == Without(s, e)
  {
    assert Without([e], e) == [];
    match LastPosition(s, e)
    case None =>
      WithoutConcat(s, [e], e);
    case Some(p) =>
      WithoutConcat(s[..p] + s[p + 1..], [e], e);
      WithoutConcat(s[..p], s[p + 1..], e);
      assert s == s[..p] + ([e] + s[p + 1..]);
      WithoutConcat(s[..p], [e] + s[p + 1..], e);
      WithoutConcat([e], s[p + 1..], e);
  }

  /**
   * Starting from an empty list, the recency list never holds a duplicate and
   * holds exactly the entries accessed so far.
   */
  lemma {:induction false} RunHistory(m: CacheModel, feeds: seq<Entry>)
    ensures NoDuplicates(Run(m, [], feeds).entries)
    ensures forall x :: x in Run(m, [], feeds).entries <==> x in feeds
    decreases |feeds|
  {
    if feeds != [] {
      var init := feeds[..|feeds| - 1];
      var f := feeds[|feeds| - 1];
      RunHistory(m, init);
      var before := Run(m, [], init).entries;
      AccessKeepsNoDuplicates(m, before, f);
      AccessContents(m, before, f);
      assert feeds == init + [f];
      forall x ensures x in Run(m, [], feeds).entries <==> x in feeds {
        assert x in Run(m, [], feeds).entries <==> x in multiset(Access(m, before, f).entries);
      }
    }
  }

  /** The elements that occur in `t`. */
  function Elements<T(==,!new)>(t: seq<T>): (r: set<T>)
    ensures forall x :: x in r <==> x in t
    decreases |t|
  {
    if t == [] then {} else Elements(t[..|t| - 1]) + {t[|t| - 1]}
  }

  lemma {:induction false} NoDuplicatesCard<T(!new)>(t: seq<T>)
    requires NoDuplicates(t)
    ensures |Elements(t)| == |t|
    decreases |t|
  {
    if t != [] {
      var init := t[..|t| - 1];
      NoDuplicatesCard(init);
      assert Elements(t) == Elements(init) + {t[|t| - 1]};
      assert t[|t| - 1] !in Elements(init);
    }
  }

  /** In a sequence without repeats, every element occurs once. */
  lemma {:induction false} NoDuplicatesMultiplicity<T>(s: seq<T>, x: T)
    requires NoDuplicates(s)
    ensures multiset(s)[x] == if x in s then 1 else 0
    decreases |s|
  {
    if s != [] {
      var init := s[..|s| - 1];
      assert s == init + [s[|s| - 1]];
      NoDuplicatesMultiplicity(init, x);
      assert s[|s| - 1] !in init;
      assert multiset(s) == multiset(init) + multiset{s[|s| - 1]};
    }
  }

  /**
   * How an access to another entry `f` moves `e`: the entries newer than `e`
   * become the old ones plus `f`.
   */
  lemma AccessShiftsNewer(m: CacheModel, s: CacheEntries, f: Entry, e: Entry, p: nat) returns (p': nat)
    requires f != e && p < |s| && s[p] == e && e !in s[p + 1..]
    ensures var t := Access(m, s, f).entries;
            p' < |t| && t[p'] == e && e !in t[p' + 1..] &&
            Elements(t[p' + 1..]) == Elements(s[p + 1..]) + {f}
  {
    var t := Access(m, s, f).entries;
    if f !in s {
      AccessFirstTouch(m, s, f);
      assert t == s + [f];
      ShiftAppend(s, f, e, p);
      p' := p;
    } else {
      var pf := LastPosition(s, f).value;
      AccessRepeatTouch(m, s, f, pf);
      assert t == s[..pf] + s[pf + 1..] + [f];
      if pf < p {
        ShiftLeft(s, f, e, p, pf);
        p' := p - 1;
      } else {
        ShiftNone(s, f, e, p, pf);
        p' := p;
      }
    }
  }

  lemma ShiftAppend(s: CacheEntries, f: Entry, e: Entry, p: nat)
    requires f != e && p < |s| && s[p] == e && e !in s[p + 1..]
    ensures var t := s + [f];
            t[p] == e && e !in t[p + 1..] && Elements(t[p + 1..]) == Elements(s[p + 1..]) + {f}
  {
    var t := s + [f];
    assert t[p + 1..] == s[p + 1..] + [f];
  }

  lemma ShiftLeft(s: CacheEntries, f: Entry, e: Entry, p: nat, pf: nat)
    requires f != e && pf < p < |s| && s[p] == e && e !in s[p + 1..]
    ensures var t := s[..pf] + s[pf + 1..] + [f];
            t[p - 1] == e && e !in t[p..] && Elements(t[p..]) == Elements(s[p + 1..]) + {f}
  {
    var t := s[..pf] + s[pf + 1..] + [f];
    assert t[p - 1] == e;
    assert t[p..] == s[p + 1..] + [f];
  }

  lemma ShiftNone(s: CacheEntries, f: Entry, e: Entry, p: nat, pf: nat)
    requires f != e && p < pf < |s| && s[p] == e && s[pf] == f && e !in s[p + 1..]
    ensures var t := s[..pf] + s[pf + 1..] + [f];
            t[p] == e && e !in t[p + 1..] && Elements(t[p + 1..]) == Elements(s[p + 1..]) + {f}
  {
    var t := s[..pf] + s[pf + 1..] + [f];
    assert t[p] == e;
    assert t[p + 1..] == s[p + 1..pf] + s[pf + 1..] + [f];
    assert s[p + 1..] == s[p + 1..pf] + [f] + s[pf + 1..];
  }

  /**
   * After any history `h` started from an empty list, the entries newer than
   * `e` in the recency list are exactly those accessed since the last access
   * `q` to `e`.
   */
  lemma {:induction false} NewerAreAccessedSince(m: CacheModel, h: seq<Entry>, e: Entry, q: nat) returns (p: nat)
    requires q < |h| && h[q] == e && e !in h[q + 1..]
    ensures var s := Run(m, [], h).entries;
            p < |s| && s[p] == e && e !in s[p + 1..] && Elements(s[p + 1..]) == Elements(h[q + 1..])
    decreases |h|
  {
    var init := h[..|h| - 1];
    var f := h[|h| - 1];
    var s0 := Run(m, [], init).entries;
    var s := Run(m, [], h).entries;
    assert s == Access(m, s0, f).entries;
    if q == |h| - 1 {
      p := |s| - 1;
    } else {
      assert init[q] == e && init[q + 1..] + [f] == h[q + 1..];
      var p0 := NewerAreAccessedSince(m, init, e, q);
      p := AccessShiftsNewer(m, s0, f, e, p0);
      ShiftAppend(init, f, e, q);
    }
  }

  /**
   * The age charged by the model is the reuse distance: touching `e` after the
   * history `h`, whose last access to `e` is at `q`, costs `CostModel` of the
   * number of distinct entries accessed since then.
   */
  lemma AccessCostIsReuseDistance(m: CacheModel, h: seq<Entry>, e: Entry, q: nat)
    requires q < |h| && h[q] == e && e !in h[q + 1..]
    ensures Access(m, Run(m, [], h).entries, e).cost == CostModel(m, |Elements(h[q + 1..])|)
  {
    var s := Run(m, [], h).entries;
    var p := NewerAreAccessedSince(m, h, e, q);
    AccessRepeatTouch(m, s, e, p);
    RunHistory(m, h);
    assert NoDuplicates(s[p + 1..]);
    NoDuplicatesCard(s[p + 1..]);
  }
}
