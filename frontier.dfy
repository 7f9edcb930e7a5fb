/**
 * The collection of partial paths still to be explored (src/brute_force.rs,
 * `PartialPaths`): buckets of nodes keyed by a rounded priority, the highest
 * key being served first.
 */
module Frontier {
  import opened Options
  import opened Cache
  import opened Paths

  /**
   * Priority of a node, higher is more important: 1.3 times its length minus
   * its cost, rounded half away from zero, and 0 when that is negative (the
   * conversion to an unsigned integer saturates). Worked out in tenths.
   */
  function Priorize(node: PartialPath): (p: nat)
    ensures var v := 13 * node.Len() - 10 * node.costSoFar;
            (v < 5 ==> p == 0) && (v >= 5 ==> 10 * p - 5 <= v < 10 * p + 5)
  {
    var v := 13 * node.Len() - 10 * node.costSoFar;
    if v < 0 then 0 else (v + 5) / 10
  }

  /** A longer path never ranks lower, a more expensive one never higher. */
  lemma PriorizeMonotone(a: PartialPath, b: PartialPath)
    requires a.Len() <= b.Len() && b.costSoFar <= a.costSoFar
    ensures Priorize(a) <= Priorize(b)
  {
  }

  /** All the nodes held by the buckets of `s`, as a multiset. */
  ghost function Gather(s: map<nat, seq<PartialPath>>): multiset<PartialPath>
    decreases |s.Keys|
  {
    if s == map[] then multiset{}
    else
      var k := PickKey(s);
      multiset(s[k]) + Gather(s - {k})
  }

  ghost function PickKey(s: map<nat, seq<PartialPath>>): (k: nat)
    requires s != map[]
    ensures k in s
  {
    var k :| k in s; k
  }

  /** Gathering may start from any bucket. */
  lemma {:induction false} GatherRemove(s: map<nat, seq<PartialPath>>, k: nat)
    requires k in s
    ensures Gather(s) == multiset(s[k]) + Gather(s - {k})
    decreases |s.Keys|
  {
    var j := PickKey(s);
    if j != k {
      var sj := s - {j};
      var sk := s - {k};
      assert |sj.Keys| < |s.Keys| by {
        assert sj.Keys < s.Keys;
      }
      assert |sk.Keys| < |s.Keys| by {
        assert sk.Keys < s.Keys;
      }
      GatherRemove(sj, k);
      GatherRemove(sk, j);
      assert sj - {k} == sk - {j};
    }
  }

  /** Replacing one bucket replaces its nodes and leaves the others. */
  lemma GatherUpdate(s: map<nat, seq<PartialPath>>, k: nat, bucket: seq<PartialPath>)
    ensures Gather(s[k := bucket]) == multiset(bucket) + Gather(s - {k})
    ensures k in s ==> Gather(s) == multiset(s[k]) + Gather(s - {k})
  {
    GatherRemove(s[k := bucket], k);
    assert s[k := bucket] - {k} == s - {k};
    if k in s {
      GatherRemove(s, k);
    }
  }

  /** A gathered node sits in some bucket. */
  lemma {:induction false} GatherMember(s: map<nat, seq<PartialPath>>, node: PartialPath) returns (k: nat)
    requires node in Gather(s)
    ensures k in s && node in s[k]
    decreases |s.Keys|
  {
    var j := PickKey(s);
    if node in multiset(s[j]) {
      k := j;
    } else {
      assert (s - {j}).Keys < s.Keys;
      k := GatherMember(s - {j}, node);
    }
  }

  /** The largest key of a non-empty map. */
  ghost function TopKeyOf(s: map<nat, seq<PartialPath>>): (k: nat)
    requires s != map[]
    ensures k in s && forall j :: j in s ==> j <= k
  {
    TopKeyExists(s.Keys);
    var k :| k in s && forall j :: j in s ==> j <= k; k
  }

  lemma {:induction false} TopKeyExists(keys: set<nat>)
    requires keys != {}
    ensures exists k :: k in keys && forall j :: j in keys ==> j <= k
    decreases |keys|
  {
    var k :| k in keys;
    if keys != {k} {
      var rest := keys - {k};
      assert |rest| < |keys| by {
        assert rest < keys;
      }
      TopKeyExists(rest);
      assert keys == rest + {k};
      var m :| m in rest && forall j :: j in rest ==> j <= m;
      if m < k {
        assert forall j :: j in keys ==> j <= k;
      } else {
        assert forall j :: j in keys ==> j <= m;
      }
    }
  }

  /** Buckets are never empty and hold only nodes of their own priority. */
  ghost predicate ValidStorage(s: map<nat, seq<PartialPath>>)
  {
    forall k :: k in s ==> |s[k]| > 0 && forall j :: 0 <= j < |s[k]| ==> Priorize(s[k][j]) == k
  }

  /** The storage after pushing `node`. */
  function Pushed(s: map<nat, seq<PartialPath>>, node: PartialPath): map<nat, seq<PartialPath>>
  {
    var k := Priorize(node);
    s[k := (if k in s then s[k] else []) + [node]]
  }

  /** Pushing keeps the buckets valid. */
  lemma PushedValid(s: map<nat, seq<PartialPath>>, node: PartialPath)
    requires ValidStorage(s)
    ensures ValidStorage(Pushed(s, node))
  {
    var k := Priorize(node);
    var bucket := if k in s then s[k] else [];
    var t := Pushed(s, node);
    forall k' | k' in t
      ensures |t[k']| > 0 && forall j :: 0 <= j < |t[k']| ==> Priorize(t[k'][j]) == k'
    {
      if k' == k {
        assert t[k'] == bucket + [node];
        forall j | 0 <= j < |t[k']| ensures Priorize(t[k'][j]) == k' {
          if j < |bucket| {
            assert t[k'][j] == bucket[j];
          }
        }
      } else {
        assert t[k'] == s[k'];
      }
    }
  }

  /** Pushing adds exactly the node. */
  lemma PushedNodes(s: map<nat, seq<PartialPath>>, node: PartialPath)
    ensures Gather(Pushed(s, node)) == Gather(s) + multiset{node}
  {
    var k := Priorize(node);
    var bucket := if k in s then s[k] else [];
    GatherUpdate(s, k, bucket + [node]);
    if k in s {
      MultisetSnoc(bucket, node, Gather(s - {k}));
    } else {
      assert s - {k} == s;
      MultisetSnoc([], node, Gather(s));
    }
  }

  lemma MultisetSnoc<T>(b: seq<T>, x: T, rest: multiset<T>)
    ensures multiset(b + [x]) + rest == (multiset(b) + rest) + multiset{x}
  {
  }

  /** The storage after pushing `nodes`, one after the other. */
  function PushAll(s: map<nat, seq<PartialPath>>, nodes: seq<PartialPath>): map<nat, seq<PartialPath>>
    decreases |nodes|
  {
    if nodes == [] then s else Pushed(PushAll(s, nodes[..|nodes| - 1]), nodes[|nodes| - 1])
  }

  lemma PushAllSnoc(s: map<nat, seq<PartialPath>>, nodes: seq<PartialPath>, node: PartialPath)
    ensures PushAll(s, nodes + [node]) == Pushed(PushAll(s, nodes), node)
  {
    assert (nodes + [node])[..|nodes|] == nodes;
  }

  /** Pushing several nodes keeps the buckets valid and adds exactly those nodes. */
  lemma PushAllEffect(s: map<nat, seq<PartialPath>>, nodes: seq<PartialPath>)
    requires ValidStorage(s)
    ensures ValidStorage(PushAll(s, nodes))
    ensures Gather(PushAll(s, nodes)) == Gather(s) + multiset(nodes)
  {
    PushAllValid(s, nodes);
    PushAllNodes(s, nodes);
  }

  lemma {:induction false} PushAllValid(s: map<nat, seq<PartialPath>>, nodes: seq<PartialPath>)
    requires ValidStorage(s)
    ensures ValidStorage(PushAll(s, nodes))
    decreases |nodes|
  {
    if nodes != [] {
      var init := nodes[..|nodes| - 1];
      PushAllValid(s, init);
      PushedValid(PushAll(s, init), nodes[|nodes| - 1]);
    }
  }

  lemma {:induction false} PushAllNodes(s: map<nat, seq<PartialPath>>, nodes: seq<PartialPath>)
    ensures Gather(PushAll(s, nodes)) == Gather(s) + multiset(nodes)
    decreases |nodes|
  {
    if nodes != [] {
      var init, last := nodes[..|nodes| - 1], nodes[|nodes| - 1];
      var t := PushAll(s, init);
      PushAllNodes(s, init);
      PushedNodes(t, last);
      SplitLast(nodes);
    }
  }

  /** The storage after taking index `i` out of bucket `k`. */
  function Taken(s: map<nat, seq<PartialPath>>, k: nat, i: nat): map<nat, seq<PartialPath>>
    requires k in s && i < |s[k]|
  {
    if |s[k]| == 1 then s - {k} else s[k := RemoveAt(s[k], i)]
  }

  /** Taking a node out keeps the buckets valid. */
  lemma TakenValid(s: map<nat, seq<PartialPath>>, k: nat, i: nat)
    requires ValidStorage(s) && k in s && i < |s[k]|
    ensures ValidStorage(Taken(s, k, i))
  {
    var bucket := s[k];
    var rest := RemoveAt(bucket, i);
    if |bucket| > 1 {
      var t := Taken(s, k, i);
      assert t[k] == rest;
      forall j | 0 <= j < |rest| ensures Priorize(rest[j]) == k {
        if j < i {
          assert rest[j] == bucket[j];
        } else {
          assert rest[j] == bucket[j + 1];
        }
      }
      assert forall k' :: k' in t && k' != k ==> t[k'] == s[k'];
    }
  }

  /** Taking a node out removes exactly that node. */
  lemma TakenNodes(s: map<nat, seq<PartialPath>>, k: nat, i: nat)
    requires k in s && i < |s[k]|
    ensures Gather(Taken(s, k, i)) + multiset{s[k][i]} == Gather(s)
  {
    var bucket := s[k];
    var node := bucket[i];
    var rest := RemoveAt(bucket, i);
    assert bucket == bucket[..i] + [node] + bucket[i + 1..];
    assert multiset(bucket) == multiset(rest) + multiset{node};
    GatherUpdate(s, k, rest);
    if |bucket| == 1 {
      assert multiset(rest) == multiset{};
    }
  }

  /** Under valid buckets, every node ranks at most the top key. */
  lemma TopKeyBounds(s: map<nat, seq<PartialPath>>, q: PartialPath)
    requires ValidStorage(s) && q in Gather(s)
    ensures s != map[] && Priorize(q) <= TopKeyOf(s)
  {
    var kq := GatherMember(s, q);
    var jq :| 0 <= jq < |s[kq]| && s[kq][jq] == q;
  }

  class PartialPaths {
    var storage: map<nat, seq<PartialPath>>

    /** Buckets are never empty and hold only nodes of their own priority. */
    ghost predicate Valid()
      reads this
    {
      ValidStorage(storage)
    }

    /** The nodes held, as a multiset. */
    ghost function Nodes(): multiset<PartialPath>
      reads this
    {
      Gather(storage)
    }

    /** An empty collection. */
    constructor ()
      ensures Valid() && storage == map[] && Nodes() == multiset{}
    {
      storage := map[];
    }

    /** Record a node in the bucket of its priority, after those already there. */
    method Push(node: PartialPath)
      requires Valid()
      modifies this
      ensures Valid()
      ensures storage == Pushed(old(storage), node)
      ensures Nodes() == old(Nodes()) + multiset{node}
    {
      PushedValid(storage, node);
      PushedNodes(storage, node);
      var k := Priorize(node);
      var bucket := if k in storage then storage[k] else [];
      storage := storage[k := bucket + [node]];
    }

    /** The highest key present, found by scanning the keys. */
    method TopKey() returns (k: nat)
      requires storage != map[]
      ensures k in storage && forall j :: j in storage ==> j <= k
      ensures k == TopKeyOf(storage)
    {
      var keys := storage.Keys;
      k :| k in keys;
      keys := keys - {k};
      while keys != {}
        invariant keys <= storage.Keys && k in storage
        invariant forall j :: j in storage && j !in keys ==> j <= k
        decreases |keys|
      {
        var j :| j in keys;
        if j > k {
          k := j;
        }
        keys := keys - {j};
      }
    }

    /**
     * Take out one node of the highest-priority bucket, the one at index
     * `pick` modulo the bucket's size (`pick` stands for the random draw),
     * and drop the bucket once it is empty.
     */
    method Pop(pick: nat) returns (r: Option<PartialPath>)
      requires Valid()
      modifies this
      ensures Valid()
      ensures r.None? <==> old(storage) == map[]
      ensures r.None? ==> storage == old(storage)
      ensures r.Some? ==>
                var k := TopKeyOf(old(storage));
                var bucket := old(storage)[k];
                var i := pick % |bucket|;
                r.value == bucket[i] && storage == Taken(old(storage), k, i)
      ensures r.Some? ==> r.value in old(Nodes()) && Nodes() + multiset{r.value} == old(Nodes())
      ensures r.Some? ==> forall q :: q in old(Nodes()) ==> Priorize(q) <= Priorize(r.value)
    {
      if storage == map[] {
        return None;
      }
      var k := TopKey();
      var bucket := storage[k];
      var i := pick % |bucket|;
      var node := bucket[i];
      TakenValid(storage, k, i);
      TakenNodes(storage, k, i);
      forall q | q in Nodes() ensures Priorize(q) <= Priorize(node) {
        TopKeyBounds(storage, q);
      }
      if |bucket| == 1 {
        storage := storage - {k};
      } else {
        storage := storage[k := RemoveAt(bucket, i)];
      }
      r := Some(node);
    }
  }
}
