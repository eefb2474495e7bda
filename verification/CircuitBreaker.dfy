/** The circuit breaker as the server keeps it: a map of trackers that are updated in place. */
module CircuitBreaker {
  import opened Wrappers
  import opened Numbers
  import opened Windows
  import opened ApiErrors
  import opened Breaker
  import opened Eviction

  /** `torrentFailureTracker`. */
  class FailureTracker {
    var failures: seq<Instant>
    var staleUntil: int
    var errKind: Option<FailureKind>
    var lastErr: string
    var errorCode: string
    var trippedAt: int
    var escalations: nat
    var quarantineNotified: bool

    ghost function View(): Tracker
      reads this
    {
      Tracker(failures, staleUntil, errKind, lastErr, errorCode, trippedAt, escalations, quarantineNotified)
    }

    constructor ()
      ensures View() == FRESH
    {
      failures, staleUntil, errKind, lastErr, errorCode := [], 0, None, "", "";
      trippedAt, escalations, quarantineNotified := 0, 0, false;
    }

    /** The loop that rebuilds the failure list for the window ending `now`. */
    method Prune(now: int, window: int)
      modifies this`failures
      ensures failures == After(old(failures), now - window) + [Event(now, ())]
    {
      var all := failures;
      var active: seq<Instant> := [];
      for i := 0 to |all|
        invariant active == After(all[..i], now - window)
      {
        assert all[..i + 1] == all[..i] + [all[i]];
        AfterAppend(all[..i], all[i], now - window);
        if all[i].at > now - window {
          active := active + [all[i]];
        }
      }
      assert all[..|all|] == all;
      failures := active + [Event(now, ())];
    }

    /** The body of `recordTorrentFailure`; the gate is asked once for the label and, on a trip, once more. */
    method Record(cfg: Config, now: int, kind: FailureKind, text: string, degradedAtLabel: bool, degradedAtTrip: bool)
      modifies this
      ensures View() == Breaker.Record(cfg, old(View()),
                          Failure(now, kind, text, Classify(text).1, degradedAtLabel, degradedAtTrip))
    {
      hide Classify, After, EscalatedMinutes;
      lastErr := text;
      errorCode := Classify(text).1;
      var judged := kind;
      if kind == DatabaseError && degradedAtLabel {
        judged := Transient;
      }
      errKind := Some(judged);
      Prune(now, cfg.Window());
      if |failures| < cfg.threshold {
        return;
      }
      var minutes: int := cfg.staleMin;
      if judged == DatabaseError && !degradedAtTrip {
        minutes := EscalatedMinutes(cfg.staleMin, cfg.maxStaleMin, escalations);
        if minutes == cfg.maxStaleMin && !quarantineNotified {
          quarantineNotified := true;
        }
        escalations := escalations + 1;
      }
      staleUntil := now + minutes * MINUTE;
      trippedAt := now;
    }

    /** The body of `isTorrentStale` for a tracked item. */
    method IsStale(now: int, rearm: int) returns (stale: bool)
      modifies this
      ensures stale == Blocked(old(View()), now)
      ensures View() == Ask(old(View()), now, rearm)
    {
      if staleUntil != 0 {
        if now < staleUntil {
          return true;
        }
        staleUntil := rearm + PROBE_INTERVAL;
      }
      return false;
    }
  }

  type Trackers = map<int, Tracker>

  function TrackerOf(view: Trackers, item: int): Tracker {
    if item in view then view[item] else FRESH
  }

  /** A tracker whose quarantine is over is dropped by the sweep; one that never tripped is not. */
  function Unexpired(view: Trackers, now: int): Trackers {
    map id | id in view && !(view[id].staleUntil != 0 && now > view[id].staleUntil) :: view[id]
  }

  function Expiries(view: Trackers): map<int, int> {
    map id | id in view :: view[id].staleUntil
  }

  lemma {:induction false} SweepLeaves(view: Trackers, now: int, max: nat, evicted: set<int>, after: Trackers)
    requires ValidEviction(Expiries(Unexpired(view, now)), max, evicted) && after == Unexpired(view, now) - evicted
    ensures var kept := set id | id in view && (view[id].staleUntil == 0 || now <= view[id].staleUntil);
      && after.Keys <= kept && |after| == Min(|kept|, max)
      && (forall id | id in after :: after[id] == view[id])
      && forall id, other | id in kept - after.Keys && other in after :: view[id].staleUntil <= view[other].staleUntil
  {
    var kept := set id | id in view && (view[id].staleUntil == 0 || now <= view[id].staleUntil);
    assert Unexpired(view, now).Keys == kept == Expiries(Unexpired(view, now)).Keys;
    assert after.Keys == kept - evicted && |after| == |after.Keys|;
    assert |Expiries(Unexpired(view, now))| == |kept|;
    forall id, other | id in kept - after.Keys && other in after ensures view[id].staleUntil <= view[other].staleUntil {
      assert Expiries(Unexpired(view, now))[id] <= Expiries(Unexpired(view, now))[other];
    }
  }

  /** What the sync-done hook leaves when `live` are the item ids in the store. */
  function Restricted(view: Trackers, live: set<int>): Trackers {
    map id | id in view && id in live :: view[id]
  }

  /** `Server.torrentFailures` and the sections its mutex protects. */
  class TrackerTable {
    const cfg: Config
    const maxEntries: nat
    var trackers: map<int, FailureTracker>

    ghost predicate Valid()
      reads this
    {
      forall i, j | i in trackers && j in trackers && i != j :: trackers[i] != trackers[j]
    }

    ghost function View(): Trackers
      reads this, trackers.Values
    {
      map id | id in trackers :: trackers[id].View()
    }

    constructor (cfg: Config, maxEntries: nat)
      ensures Valid() && View() == map[] && trackers == map[]
      ensures this.cfg == cfg && this.maxEntries == maxEntries
    {
      this.cfg, this.maxEntries := cfg, maxEntries;
      trackers := map[];
    }

    twostate lemma OthersUnchanged(item: int)
      requires old(Valid()) && trackers == old(trackers) && item in trackers
      requires forall t | t in trackers.Values && t != trackers[item] :: unchanged(t)
      ensures View() == old(View())[item := trackers[item].View()]
    {
      forall id | id in trackers && id != item ensures trackers[id].View() == old(trackers[id].View()) {
        assert trackers[id] in trackers.Values && unchanged(trackers[id]);
      }
    }

    method IsTorrentStale(item: int, now: int, rearm: int) returns (stale: bool)
      requires Valid()
      modifies trackers.Values
      ensures Valid()
      ensures stale <==> item in old(View()) && Blocked(old(View())[item], now)
      ensures View() == if item in old(View()) then old(View())[item := Ask(old(View())[item], now, rearm)]
                        else old(View())
    {
      if item !in trackers {
        return false;
      }
      stale := trackers[item].IsStale(now, rearm);
      OthersUnchanged(item);
    }

    method RecordTorrentFailure(
        item: int, now: int, kind: FailureKind, text: string, degradedAtLabel: bool, degradedAtTrip: bool)
      requires Valid()
      modifies this, trackers.Values
      ensures Valid() && fresh(trackers.Values - old(trackers.Values))
      ensures View() == old(View())[item := Breaker.Record(cfg, TrackerOf(old(View()), item),
                          Failure(now, kind, text, Classify(text).1, degradedAtLabel, degradedAtTrip))]
    {
      if item !in trackers {
        var tracker := new FailureTracker();
        trackers := trackers[item := tracker];
      }
      label recorded:
      hide Classify, After, Breaker.Record;
      trackers[item].Record(cfg, now, kind, text, degradedAtLabel, degradedAtTrip);
      OthersUnchanged@recorded(item);
    }

    method ClearTorrentFailure(item: int)
      requires Valid()
      modifies this
      ensures Valid() && trackers.Values <= old(trackers.Values)
      ensures View() == old(View()) - {item}
    {
      trackers := trackers - {item};
    }

    /** Deleting map entries leaves the remaining trackers as they are. */
    twostate lemma WithoutIds(gone: set<int>)
      requires old(Valid()) && trackers == old(trackers) - gone
      requires forall t | t in old(trackers.Values) :: unchanged(t)
      ensures Valid() && trackers.Values <= old(trackers.Values)
      ensures View() == old(View()) - gone
    {
      forall id | id in trackers ensures trackers[id].View() == old(trackers[id].View()) {
        assert trackers[id] in old(trackers.Values);
      }
    }

    /**
     * `sweepCircuitBreaker`. A tracker goes if its quarantine is over, and otherwise only for want of room, because
     * none that stays expires earlier: one that never tripped stays while there is room, and is first to go without.
     */
    method Sweep(now: int) returns (ghost evicted: set<int>)
      requires Valid()
      modifies this
      ensures Valid() && trackers.Values <= old(trackers.Values)
      ensures ValidEviction(Expiries(Unexpired(old(View()), now)), maxEntries, evicted)
      ensures View() == Unexpired(old(View()), now) - evicted
      ensures var was, left := old(View()), View();
        var kept := set id | id in was && (was[id].staleUntil == 0 || now <= was[id].staleUntil);
        && left.Keys <= kept && |left| == Min(|kept|, maxEntries)
        && (forall id | id in left :: left[id] == was[id])
        && forall id, other | id in kept - left.Keys && other in left :: was[id].staleUntil <= was[other].staleUntil
    {
      DropExpired(now);
      evicted := DropOldest();
      SweepLeaves(old(View()), now, maxEntries, evicted, View());
    }

    method DropExpired(now: int)
      requires Valid()
      modifies this
      ensures Valid() && trackers.Values <= old(trackers.Values)
      ensures View() == Unexpired(old(View()), now)
    {
      var expired := ExpiredIds(now);
      trackers := trackers - expired;
      WithoutIds(expired);
      forall id | id in old(View())
        ensures id in expired <==> old(View())[id].staleUntil != 0 && now > old(View())[id].staleUntil
      {
      }
    }

    method DropOldest() returns (ghost evicted: set<int>)
      requires Valid()
      modifies this
      ensures Valid() && trackers.Values <= old(trackers.Values)
      ensures ValidEviction(Expiries(old(View())), maxEntries, evicted)
      ensures View() == old(View()) - evicted
    {
      var expiry := map id | id in trackers :: trackers[id].staleUntil;
      forall id | id in trackers ensures expiry[id] == View()[id].staleUntil {
      }
      assert expiry == Expiries(View());
      var oldest := EvictOldest(expiry, maxEntries);
      trackers := trackers - oldest;
      WithoutIds(oldest);
      evicted := oldest;
    }

    /** The sweep's first loop. */
    method ExpiredIds(now: int) returns (expired: set<int>)
      ensures forall id :: id in expired <==>
        id in trackers && trackers[id].staleUntil != 0 && now > trackers[id].staleUntil
    {
      expired := {};
      var ids := trackers.Keys;
      while |ids| > 0
        invariant ids <= trackers.Keys
        invariant forall id :: id in expired <==>
          id in trackers.Keys - ids && trackers[id].staleUntil != 0 && now > trackers[id].staleUntil
        decreases |ids|
      {
        var id := Pick(ids);
        if trackers[id].staleUntil != 0 && now > trackers[id].staleUntil {
          expired := expired + {id};
        }
        ids := ids - {id};
      }
    }

    /** The first half of `PruneBreakerForMissingItems`. */
    method PruneMissing(live: set<int>)
      requires Valid()
      modifies this
      ensures Valid() && trackers.Values <= old(trackers.Values)
      ensures View() == Restricted(old(View()), live)
    {
      var gone := trackers.Keys - live;
      trackers := trackers - gone;
      WithoutIds(gone);
      assert old(View()) - gone == Restricted(old(View()), live);
    }
  }
}
