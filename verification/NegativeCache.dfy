/** The negative cache: recent failures to obtain a download URL, so that rapid retries do not reach the API. */
module NegativeCache {
  import opened Wrappers
  import opened Numbers
  import opened Int64
  import opened CacheKeys
  import opened Eviction

  datatype Entry = Entry(error: string, expiresAt: int)

  type Entries = map<string, Entry>

  /** Whether `fetchCDNURL` answers from the cache at time `now`. */
  predicate Hit(m: Entries, key: string, now: int) {
    key in m && now < m[key].expiresAt
  }

  function Stored(m: Entries, key: string, error: string, now: int, ttl: int): Entries {
    m[key := Entry(error, now + ttl)]
  }

  /** A lookup drops the entry it finds expired. */
  function Consulted(m: Entries, key: string, now: int): Entries {
    if key in m && !Hit(m, key, now) then m - {key} else m
  }

  function Unexpired(m: Entries, now: int): Entries {
    map k | k in m && now <= m[k].expiresAt :: m[k]
  }

  function Expiries(m: Entries): map<string, int> {
    map k | k in m :: m[k].expiresAt
  }

  /** Whether the sync-done hook drops a key when `live` are the item ids in the store. */
  predicate Dropped(key: string, live: set<int>) {
    ItemOfKey(key).Some? && ItemOfKey(key).value !in live
  }

  function Pruned(m: Entries, live: set<int>): Entries {
    map k | k in m && !Dropped(k, live) :: m[k]
  }

  /** Sweeping out expired entries is invisible to every later lookup. */
  lemma {:induction false} SweepIsInvisible(m: Entries, swept: int, key: string, now: int)
    requires swept <= now
    ensures Hit(Unexpired(m, swept), key, now) == Hit(m, key, now)
    ensures Hit(m, key, now) ==> Unexpired(m, swept)[key] == m[key]
  {
  }

  /** The hook drops an entry exactly when its item is gone; an entry of a stored item always stays. */
  lemma {:induction false} PruneByItem(m: Entries, live: set<int>, source: Source, itemId: int, fileId: int)
    requires IsInt64(itemId)
    ensures var key := CdnCacheKey(source, itemId, fileId);
      && (key in Pruned(m, live) <==> key in m && itemId in live)
      && (key in Pruned(m, live) ==> Pruned(m, live)[key] == m[key])
  {
    ItemOfCacheKey(source, itemId, fileId);
  }

  // ---------------------------------------------------------------- runs

  datatype Step =
    | Store(key: string, error: string, at: int)
    | Consult(key: string, at: int)
    | Sweep(at: int, evicted: set<string>)
    | PruneItems(at: int, live: set<int>)

  function Apply(m: Entries, s: Step, ttl: int): Entries {
    match s
    case Store(key, error, at) => Stored(m, key, error, at, ttl)
    case Consult(key, at) => Consulted(m, key, at)
    case Sweep(at, evicted) => Unexpired(m, at) - evicted
    case PruneItems(_, live) => Pruned(m, live)
  }

  function Run(steps: seq<Step>, ttl: int): Entries {
    if steps == [] then map[] else Apply(Run(steps[..|steps| - 1], ttl), steps[|steps| - 1], ttl)
  }

  function Clock(steps: seq<Step>): int {
    if steps == [] then 0 else steps[|steps| - 1].at
  }

  /** The cache's mutex orders the steps; each sweep evicts as `EvictOldest` may. */
  ghost predicate Legal(steps: seq<Step>, ttl: int, max: nat) {
    steps == [] ||
    (var init, s := steps[..|steps| - 1], steps[|steps| - 1];
     && Legal(init, ttl, max)
     && Clock(init) <= s.at
     && (s.Sweep? ==> ValidEviction(Expiries(Unexpired(Run(init, ttl), s.at)), max, s.evicted)))
  }

  /** The two ways an unexpired entry can disappear. */
  predicate Removes(s: Step, key: string) {
    match s
    case Sweep(_, evicted) => key in evicted
    case PruneItems(_, live) => Dropped(key, live)
    case _ => false
  }

  lemma {:induction false} LegalPair(steps: seq<Step>, i: nat, j: nat, ttl: int, max: nat)
    requires Legal(steps, ttl, max) && i <= j < |steps|
    ensures steps[i].at <= steps[j].at
  {
    var n := |steps| - 1;
    if j < n {
      LegalPair(steps[..n], i, j, ttl, max);
    } else if i < n {
      LegalPair(steps[..n], i, n - 1, ttl, max);
    }
  }

  lemma {:induction false} StepKeepsEntry(m: Entries, s: Step, ttl: int, key: string, until: int)
    requires key in m && m[key].expiresAt >= until
    requires s.at < until && !Removes(s, key) && (s.Store? ==> s.at + ttl >= until)
    ensures var after := Apply(m, s, ttl); key in after && after[key].expiresAt >= until
  {
    hide Dropped;
  }

  lemma {:induction false} StaysUntil(steps: seq<Step>, i: nat, k: nat, key: string, ttl: int, max: nat)
    requires Legal(steps, ttl, max) && i < k <= |steps|
    requires steps[i].Store? && steps[i].key == key && steps[k - 1].at < steps[i].at + ttl
    requires forall m | i < m < k :: !Removes(steps[m], key)
    ensures var now := Run(steps[..k], ttl); key in now && now[key].expiresAt >= steps[i].at + ttl
  {
    hide Legal, Removes;
    assert steps[..k][..k - 1] == steps[..k - 1];
    if k > i + 1 {
      hide Apply;
      LegalPair(steps, k - 2, k - 1, ttl, max);
      LegalPair(steps, i, k - 1, ttl, max);
      StaysUntil(steps, i, k - 1, key, ttl, max);
      StepKeepsEntry(Run(steps[..k - 1], ttl), steps[k - 1], ttl, key, steps[i].at + ttl);
    }
  }

  /**
   * Once a failure is stored for a key, every lookup of that key that starts before the entry's time is up is answered
   * from the cache, unless capacity eviction or item pruning removed the entry meanwhile.
   */
  lemma {:induction false} FailureShieldsApi(steps: seq<Step>, i: nat, j: nat, key: string, ttl: int, max: nat)
    requires Legal(steps, ttl, max) && i < j < |steps|
    requires steps[i].Store? && steps[i].key == key
    requires steps[j].Consult? && steps[j].key == key && steps[j].at < steps[i].at + ttl
    requires forall m | i < m < j :: !Removes(steps[m], key)
    ensures Hit(Run(steps[..j], ttl), key, steps[j].at)
  {
    LegalPair(steps, j - 1, j, ttl, max);
    StaysUntil(steps, i, j, key, ttl, max);
  }

  /** An entry is the last failure stored for its key. */
  lemma {:induction false} EntryIsLastFailure(steps: seq<Step>, key: string, ttl: int) returns (i: nat)
    requires key in Run(steps, ttl)
    ensures i < |steps| && steps[i].Store? && steps[i].key == key
    ensures forall j | i < j < |steps| :: !(steps[j].Store? && steps[j].key == key)
    ensures Run(steps, ttl)[key] == Entry(steps[i].error, steps[i].at + ttl)
  {
    var n := |steps| - 1;
    if steps[n].Store? && steps[n].key == key {
      i := n;
    } else {
      hide Dropped;
      i := EntryIsLastFailure(steps[..n], key, ttl);
    }
  }

  /** The converse: the cache answers only with the last failure stored for the key, while its time is not up. */
  lemma {:induction false} HitMeansRecentFailure(steps: seq<Step>, key: string, now: int, ttl: int) returns (i: nat)
    requires Hit(Run(steps, ttl), key, now)
    ensures i < |steps| && steps[i].Store? && steps[i].key == key && now < steps[i].at + ttl
    ensures forall j | i < j < |steps| :: !(steps[j].Store? && steps[j].key == key)
    ensures Run(steps, ttl)[key].error == steps[i].error
  {
    i := EntryIsLastFailure(steps, key, ttl);
    hide Run;
  }

  lemma {:induction false} SweepLeaves(m: Entries, at: int, max: nat, evicted: set<string>)
    requires ValidEviction(Expiries(Unexpired(m, at)), max, evicted)
    ensures var kept := Unexpired(m, at); var after := kept - evicted;
      && |after| == Min(|kept|, max)
      && forall e, k | e in evicted && k in after :: kept[e].expiresAt <= after[k].expiresAt
  {
    var kept := Unexpired(m, at);
    assert Expiries(kept).Keys == kept.Keys;
    assert (kept - evicted).Keys == kept.Keys - evicted;
    assert |Expiries(kept)| == |Expiries(kept).Keys| == |kept.Keys| == |kept|;
    assert |(kept - evicted).Keys| == |kept - evicted|;
    forall e, k | e in evicted && k in kept - evicted ensures kept[e].expiresAt <= (kept - evicted)[k].expiresAt {
      assert Expiries(kept)[e] <= Expiries(kept)[k];
    }
  }

  /** `Server.negativeCache` and the sections its mutex protects. */
  class Cache {
    const ttl: int
    const maxEntries: nat
    var entries: Entries

    constructor (ttl: int, maxEntries: nat)
      ensures this.ttl == ttl && this.maxEntries == maxEntries && entries == map[]
    {
      this.ttl, this.maxEntries := ttl, maxEntries;
      entries := map[];
    }

    method Lookup(key: string, now: int) returns (error: Option<string>)
      modifies this
      ensures error == if Hit(old(entries), key, now) then Some(old(entries)[key].error) else None
      ensures entries == Consulted(old(entries), key, now)
      ensures error.Some? ==> entries == old(entries)
      ensures error.None? ==> key !in entries
    {
      if key in entries {
        if now < entries[key].expiresAt {
          return Some(entries[key].error);
        }
        entries := entries - {key};
      }
      error := None;
    }

    method StoreError(key: string, error: string, now: int)
      modifies this
      ensures entries == Stored(old(entries), key, error, now, ttl)
    {
      entries := entries[key := Entry(error, now + ttl)];
    }

    /**
     * `sweepNegativeCache`. At most the maximum is left, exactly that many if more were unexpired, and nothing evicted
     * expires later than anything kept.
     */
    method SweepExpired(now: int) returns (ghost evicted: set<string>)
      modifies this
      ensures ValidEviction(Expiries(Unexpired(old(entries), now)), maxEntries, evicted)
      ensures entries == Unexpired(old(entries), now) - evicted
      ensures |entries| == Min(|Unexpired(old(entries), now)|, maxEntries)
      ensures forall e, k | e in evicted && k in entries :: old(entries)[e].expiresAt <= entries[k].expiresAt
    {
      ghost var before := entries;
      var keys := entries.Keys;
      while |keys| > 0
        invariant keys <= entries.Keys && Unexpired(entries, now) == Unexpired(old(entries), now)
        invariant forall k | k in entries && k !in keys :: now <= entries[k].expiresAt
        decreases |keys|
      {
        var k := Pick(keys);
        if now > entries[k].expiresAt {
          entries := entries - {k};
        }
        keys := keys - {k};
      }
      assert entries == Unexpired(entries, now);
      var oldest := EvictOldest(Expiries(entries), maxEntries);
      SweepLeaves(before, now, maxEntries, oldest);
      entries := entries - oldest;
      evicted := oldest;
    }

    /** The second half of `PruneBreakerForMissingItems`. */
    method PruneMissing(live: set<int>)
      modifies this
      ensures entries == Pruned(old(entries), live)
    {
      var keys := entries.Keys;
      while |keys| > 0
        invariant keys <= entries.Keys && Pruned(entries, live) == Pruned(old(entries), live)
        invariant forall k | k in entries && k !in keys :: !Dropped(k, live)
        decreases |keys|
      {
        var k := Pick(keys);
        match ItemOfKey(k) {
          case None =>
          case Some(id) =>
            if id !in live {
              entries := entries - {k};
            }
        }
        keys := keys - {k};
      }
      assert entries == Pruned(entries, live);
    }
  }
}
