/** Capacity eviction: both in-memory maps, when too large, drop the entries that expire first. */
module Eviction {
  /** `evicted` brings the map down to `max` entries, and nothing evicted expires later than anything kept. */
  ghost predicate ValidEviction<K(!new)>(expiry: map<K, int>, max: nat, evicted: set<K>) {
    && evicted <= expiry.Keys
    && |expiry.Keys - evicted| == (if |expiry| > max then max else |expiry|)
    && forall e, k | e in evicted && k in expiry.Keys - evicted :: expiry[e] <= expiry[k]
  }

  /** Go ranges over a map in no particular order: any key may come next. */
  method Pick<K(==)>(keys: set<K>) returns (k: K)
    requires |keys| > 0
    ensures k in keys
  {
    k :| k in keys;
  }

  lemma {:induction false} EarliestExists<K>(expiry: map<K, int>, rest: set<K>)
    requires rest <= expiry.Keys && rest != {}
    ensures exists k :: k in rest && forall j | j in rest :: expiry[k] <= expiry[j]
    decreases |rest|
  {
    var k :| k in rest;
    if rest != {k} {
      assert rest - {k} != {};
      EarliestExists(expiry, rest - {k});
      var m :| m in rest - {k} && forall j | j in rest - {k} :: expiry[m] <= expiry[j];
      var best := if expiry[k] <= expiry[m] then k else m;
      assert best in rest && forall j | j in rest :: expiry[best] <= expiry[j];
    }
  }

  /** The keys of `expiry` in an order of nondecreasing expiry. */
  ghost predicate Sorted<K(!new)>(expiry: map<K, int>, order: seq<K>) {
    && (forall i | 0 <= i < |order| :: order[i] in expiry)
    && forall i, j | 0 <= i < j < |order| :: order[i] != order[j] && expiry[order[i]] <= expiry[order[j]]
  }

  /** `sort.Slice` by expiry. The sort is not stable and the map has no order, so ties come out in any order. */
  method SortByExpiry<K(!new, ==)>(expiry: map<K, int>) returns (order: seq<K>)
    ensures Sorted(expiry, order) && |order| == |expiry| && (set k | k in order) == expiry.Keys
  {
    order := [];
    var rest := expiry.Keys;
    while |rest| > 0
      invariant rest <= expiry.Keys && (set k | k in order) == expiry.Keys - rest
      invariant |order| + |rest| == |expiry|
      invariant Sorted(expiry, order)
      invariant forall i, k | 0 <= i < |order| && k in rest :: expiry[order[i]] <= expiry[k]
      decreases |rest|
    {
      EarliestExists(expiry, rest);
      var next :| next in rest && forall j | j in rest :: expiry[next] <= expiry[j];
      AppendSorted(expiry, order, next);
      order, rest := order + [next], rest - {next};
    }
  }

  lemma {:induction false} AppendSorted<K(!new)>(expiry: map<K, int>, order: seq<K>, next: K)
    requires Sorted(expiry, order) && next in expiry && next !in order
    requires forall i | 0 <= i < |order| :: expiry[order[i]] <= expiry[next]
    ensures Sorted(expiry, order + [next])
    ensures (set k | k in order + [next]) == (set k | k in order) + {next}
  {
  }

  lemma {:induction false} SetOfDistinct<K>(s: seq<K>)
    requires forall i, j | 0 <= i < j < |s| :: s[i] != s[j]
    ensures |set k | k in s| == |s|
  {
    if s != [] {
      var init := s[..|s| - 1];
      SetOfDistinct(init);
      assert (set k | k in s) == (set k | k in init) + {s[|s| - 1]};
    }
  }

  lemma {:induction false} IndexIn<K>(order: seq<K>, k: K) returns (i: nat)
    requires k in order
    ensures i < |order| && order[i] == k
  {
    i :| i < |order| && order[i] == k;
  }

  lemma {:induction false} FrontBeforeRest<K(!new)>(expiry: map<K, int>, order: seq<K>, over: nat, e: K, k: K)
    requires Sorted(expiry, order) && over <= |order|
    requires e in order[..over] && k in order && k !in order[..over]
    ensures expiry[e] <= expiry[k]
  {
    var i := IndexIn(order[..over], e);
    var j := IndexIn(order, k);
    assert forall m: nat | m < over :: order[..over][m] == order[m] && order[m] != k;
    assert order[i] == e && i < over <= j;
  }

  lemma {:induction false} FrontIsEarliest<K(!new)>(expiry: map<K, int>, max: nat, order: seq<K>, over: nat)
    requires Sorted(expiry, order) && |order| == |expiry| && (set k | k in order) == expiry.Keys
    requires over + max == |expiry|
    ensures ValidEviction(expiry, max, set k | k in order[..over])
  {
    var front := order[..over];
    var evicted := set k | k in front;
    SetOfDistinct(front);
    assert |expiry.Keys - evicted| == |expiry.Keys| - |evicted|;
    forall e, k | e in evicted && k in expiry.Keys - evicted ensures expiry[e] <= expiry[k] {
      FrontBeforeRest(expiry, order, over, e, k);
    }
  }

  /** The sweep's second half: sort by expiry and delete from the front until the map fits. */
  method EvictOldest<K(!new, ==)>(expiry: map<K, int>, max: nat) returns (evicted: set<K>)
    ensures ValidEviction(expiry, max, evicted)
  {
    evicted := {};
    if |expiry| > max {
      var over := |expiry| - max;
      var order := SortByExpiry(expiry);
      for i := 0 to over
        invariant evicted == set k | k in order[..i]
      {
        evicted := evicted + {order[i]};
      }
      FrontIsEarliest(expiry, max, order, over);
    } else {
      assert expiry.Keys - {} == expiry.Keys;
    }
  }
}
