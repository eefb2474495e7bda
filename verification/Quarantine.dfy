/**
 * Who is admitted while a breaker is tripped. An item's life is a sequence of recorded failures, questions for
 * admission and removals of its tracker: by a success, the sync-done hook, the sweep of expired trackers or eviction.
 */
module Quarantine {
  import opened Numbers
  import opened Breaker

  datatype Event = Did(step: Step) | Removed(at: int)

  function EventStart(e: Event): int {
    match e case Did(s) => Start(s) case Removed(at) => at
  }

  function EventEnd(e: Event): int {
    match e case Did(s) => End(s) case Removed(at) => at
  }

  function LifeClock(life: seq<Event>): int {
    if life == [] then 0 else EventEnd(life[|life| - 1])
  }

  /** The events hold the breaker's lock one after another, so their clock readings never go back. */
  predicate Timely(life: seq<Event>) {
    life == [] ||
    (var init, e := life[..|life| - 1], life[|life| - 1];
     Timely(init) && 0 < EventStart(e) <= EventEnd(e) && LifeClock(init) <= EventStart(e))
  }

  /** What happened to the item since its tracker was last removed. */
  function Since(life: seq<Event>): seq<Step> {
    if life == [] || life[|life| - 1].Removed? then []
    else Since(life[..|life| - 1]) + [life[|life| - 1].step]
  }

  /** The item's tracker; one that does not exist admits like a fresh one, and is fresh at its first failure. */
  function TrackerAfter(cfg: Config, life: seq<Event>): Tracker {
    Run(cfg, Since(life))
  }

  predicate FailsAt(life: seq<Event>, i: nat)
    requires i < |life|
  {
    life[i].Did? && life[i].step.Fail?
  }

  predicate AsksAt(life: seq<Event>, i: nat)
    requires i < |life|
  {
    life[i].Did? && life[i].step.Query?
  }

  /** Event `i` is a failure that trips the breaker, by all failures since the tracker was last removed. */
  predicate TripsAt(cfg: Config, life: seq<Event>, i: nat)
    requires i < |life|
  {
    FailsAt(life, i) && InWindow(cfg, Since(life[..i]), life[i].step.f) >= cfg.threshold
  }

  /** The minutes of quarantine that a failure at event `i` imposes if it trips. */
  function MinutesAt(cfg: Config, life: seq<Event>, i: nat): int
    requires i < |life| && FailsAt(life, i)
  {
    Minutes(cfg, Since(life[..i]), life[i].step.f)
  }

  /** The end of that quarantine. */
  function ImposedUntil(cfg: Config, life: seq<Event>, i: nat): int
    requires i < |life| && FailsAt(life, i)
  {
    life[i].step.f.now + MinutesAt(cfg, life, i) * MINUTE
  }

  /** The caller at event `i` is let through. */
  predicate Admitted(cfg: Config, life: seq<Event>, i: nat)
    requires i < |life| && AsksAt(life, i)
  {
    !Blocked(TrackerAfter(cfg, life[..i]), life[i].step.asked)
  }

  // ---------------------------------------------------------------- one event

  lemma {:induction false} TimelyPrefix(life: seq<Event>, k: nat)
    requires Timely(life) && k <= |life|
    ensures Timely(life[..k])
  {
    if k < |life| {
      TimelyPrefix(life[..|life| - 1], k);
      assert life[..|life| - 1][..k] == life[..k];
    } else {
      assert life[..k] == life;
    }
  }

  lemma {:induction false} TimelyPair(life: seq<Event>, i: nat, j: nat)
    requires Timely(life) && i < j < |life|
    ensures 0 < EventStart(life[i]) <= EventEnd(life[i]) <= EventStart(life[j]) <= EventEnd(life[j])
  {
    var n := |life| - 1;
    if j < n {
      TimelyPair(life[..n], i, j);
    } else if i < n - 1 {
      TimelyPair(life[..n], i, n - 1);
    }
  }

  lemma {:induction false} SinceInOrder(life: seq<Event>)
    requires Timely(life)
    ensures InOrder(Since(life)) && 0 <= Clock(Since(life)) <= LifeClock(life)
  {
    if life != [] {
      var init, e := life[..|life| - 1], life[|life| - 1];
      SinceInOrder(init);
      if e.Did? {
        assert (Since(init) + [e.step])[..|Since(init)|] == Since(init);
      }
    }
  }

  lemma {:induction false} SinceNext(life: seq<Event>, i: nat)
    requires i < |life|
    ensures Since(life[..i + 1]) == if life[i].Removed? then [] else Since(life[..i]) + [life[i].step]
  {
    assert life[..i + 1][..i] == life[..i];
  }

  lemma {:induction false} MinutesBounds(cfg: Config, steps: seq<Step>, f: Failure)
    requires cfg.Validated()
    ensures 1 <= Min(cfg.staleMin, cfg.maxStaleMin) <= Minutes(cfg, steps, f)
    ensures cfg.Floor() <= Minutes(cfg, steps, f) * MINUTE && cfg.Floor() >= MINUTE
  {
    EscalatedBounds(cfg.staleMin, cfg.maxStaleMin, ItemTrips(cfg, steps));
    hide ItemTrips, EscalatedMinutes;
  }

  /** What one event does to the end of the quarantine. */
  lemma {:induction false} OneEvent(cfg: Config, life: seq<Event>, i: nat)
    requires cfg.Validated() && Timely(life) && i < |life|
    ensures var before, after := TrackerAfter(cfg, life[..i]), TrackerAfter(cfg, life[..i + 1]);
      && (life[i].Removed? ==> after.staleUntil == 0)
      && (FailsAt(life, i) ==>
            after.staleUntil == if TripsAt(cfg, life, i) then ImposedUntil(cfg, life, i) else before.staleUntil)
      && (AsksAt(life, i) ==> after == Ask(before, life[i].step.asked, life[i].step.rearmed))
      && EventStart(life[i]) <= EventEnd(life[i])
  {
    TimelyPrefix(life, i + 1);
    SinceInOrder(life[..i + 1]);
    SinceNext(life, i);
    assert life[..i + 1][..i] == life[..i];
    var steps := Since(life[..i]);
    assert Run(cfg, []) == FRESH;
    if life[i].Did? {
      var s := life[i].step;
      Snoc(cfg, steps, s);
      if s.Fail? {
        assert s == Fail(s.f);
        TripsExactly(cfg, steps, s.f);
      }
    }
    hide Run, InWindow, ItemTrips, Record, InOrder, TripMinutes, Since, Ask;
  }

  // ---------------------------------------------------------------- admission

  lemma {:induction false} AskKeepsBound(t: Tracker, asked: int, rearmed: int, bound: int)
    requires t.staleUntil >= bound > 0 && asked <= rearmed
    ensures Ask(t, asked, rearmed).staleUntil >= bound
  {
  }

  /**
   * A quarantine that reaches to `bound` after event `i` still does after `k` events, if the tracker is not removed in
   * between and every trip in between imposes one that does.
   */
  lemma {:induction false} QuarantineReaches(cfg: Config, life: seq<Event>, i: nat, k: nat, bound: int)
    requires cfg.Validated() && Timely(life) && i < k <= |life| && bound > 0
    requires TrackerAfter(cfg, life[..i + 1]).staleUntil >= bound
    requires forall m: nat | i < m < k :: life[m].Did?
    requires forall m: nat | i < m < k && TripsAt(cfg, life, m) :: ImposedUntil(cfg, life, m) >= bound
    ensures TrackerAfter(cfg, life[..k]).staleUntil >= bound
  {
    hide TrackerAfter, Timely, TripsAt, ImposedUntil, Ask;
    if k > i + 1 {
      QuarantineReaches(cfg, life, i, k - 1, bound);
      OneEvent(cfg, life, k - 1);
      if AsksAt(life, k - 1) {
        AskKeepsBound(TrackerAfter(cfg, life[..k - 1]), life[k - 1].step.asked, life[k - 1].step.rearmed, bound);
      }
    }
  }

  /**
   * After a trip nobody is admitted before the end of the quarantine it imposes, as long as the tracker is not removed
   * and no later trip imposes an earlier end.
   */
  lemma {:induction false} NoAdmissionAfterTrip(cfg: Config, life: seq<Event>, i: nat, j: nat)
    requires cfg.Validated() && Timely(life) && i < j < |life| && AsksAt(life, j)
    requires TripsAt(cfg, life, i)
    requires forall k: nat | i < k < j :: life[k].Did?
    requires forall k: nat | i <= k < j && TripsAt(cfg, life, k) :: life[j].step.asked < ImposedUntil(cfg, life, k)
    ensures !Admitted(cfg, life, j)
  {
    OneEvent(cfg, life, i);
    TimelyPair(life, i, j);
    hide TrackerAfter, Timely, TripsAt, ImposedUntil, Ask;
    QuarantineReaches(cfg, life, i, j, life[j].step.asked + 1);
  }

  /** Whatever re-trips, nobody is admitted before the shortest quarantine is over while the tracker is there. */
  lemma {:induction false} NoAdmissionWithinFloor(cfg: Config, life: seq<Event>, i: nat, j: nat)
    requires cfg.Validated() && Timely(life) && i < j < |life| && AsksAt(life, j)
    requires TripsAt(cfg, life, i) && life[j].step.asked < life[i].step.f.now + cfg.Floor()
    requires forall k: nat | i < k < j :: life[k].Did?
    ensures !Admitted(cfg, life, j)
  {
    forall k: nat | i <= k < j && TripsAt(cfg, life, k) ensures life[j].step.asked < ImposedUntil(cfg, life, k) {
      MinutesBounds(cfg, Since(life[..k]), life[k].step.f);
      if i < k {
        TimelyPair(life, i, k);
      }
      hide Since, Timely, InWindow, Minutes;
    }
    hide Timely, TripsAt, ImposedUntil, Admitted;
    NoAdmissionAfterTrip(cfg, life, i, j);
  }

  /** Event `i` is a caller let through although the item had been quarantined. */
  predicate Probe(cfg: Config, life: seq<Event>, i: nat)
    requires i < |life|
  {
    AsksAt(life, i) && Admitted(cfg, life, i) && TrackerAfter(cfg, life[..i]).staleUntil != 0
  }

  /**
   * While the tracker is there, whoever is admitted after a probe comes at least 15 seconds later, whatever fails or
   * re-trips in between.
   */
  lemma {:induction false} ProbesAreSpaced(cfg: Config, life: seq<Event>, i: nat, j: nat)
    requires cfg.Validated() && Timely(life) && i < j < |life|
    requires Probe(cfg, life, i) && AsksAt(life, j) && Admitted(cfg, life, j)
    requires forall k: nat | i < k < j :: life[k].Did?
    ensures life[j].step.asked >= life[i].step.rearmed + PROBE_INTERVAL
  {
    OneEvent(cfg, life, i);
    TimelyPair(life, i, j);
    var bound := life[i].step.rearmed + PROBE_INTERVAL;
    forall m: nat | i < m < j && TripsAt(cfg, life, m) ensures ImposedUntil(cfg, life, m) >= bound {
      MinutesBounds(cfg, Since(life[..m]), life[m].step.f);
      TimelyPair(life, i, m);
      hide Since, Timely, InWindow, Minutes, TrackerAfter;
    }
    hide Timely, TripsAt, ImposedUntil, TrackerAfter;
    QuarantineReaches(cfg, life, i, j, bound);
  }

  // ---------------------------------------------------------------- exactly who is admitted

  /** Event `i` removes the tracker or trips the breaker. */
  predicate Resets(cfg: Config, life: seq<Event>, i: nat)
    requires i < |life|
  {
    life[i].Removed? || TripsAt(cfg, life, i)
  }

  predicate Barrier(cfg: Config, life: seq<Event>, i: nat)
    requires i < |life|
  {
    Resets(cfg, life, i) || Probe(cfg, life, i)
  }

  /** Until when event `i` turns callers away. */
  function BarrierUntil(cfg: Config, life: seq<Event>, i: nat): int
    requires i < |life|
  {
    if life[i].Removed? then 0
    else if life[i].step.Fail? then ImposedUntil(cfg, life, i)
    else life[i].step.rearmed + PROBE_INTERVAL
  }

  lemma {:induction false} Untouched(cfg: Config, life: seq<Event>, a: nat, b: nat)
    requires cfg.Validated() && Timely(life) && a <= b <= |life|
    requires forall k: nat | a <= k < b :: !Barrier(cfg, life, k)
    ensures TrackerAfter(cfg, life[..b]).staleUntil == TrackerAfter(cfg, life[..a]).staleUntil
  {
    hide TrackerAfter, Timely, TripsAt, ImposedUntil;
    if a < b {
      Untouched(cfg, life, a, b - 1);
      OneEvent(cfg, life, b - 1);
      assert !Barrier(cfg, life, b - 1);
    }
  }

  lemma {:induction false} BarrierStands(cfg: Config, life: seq<Event>, i: nat)
    requires cfg.Validated() && Timely(life) && i < |life| && Barrier(cfg, life, i)
    ensures TrackerAfter(cfg, life[..i + 1]).staleUntil == BarrierUntil(cfg, life, i)
  {
    hide TrackerAfter, Timely, InWindow, Since, ImposedUntil;
    OneEvent(cfg, life, i);
  }

  /**
   * A caller is admitted exactly when it asks no earlier than the last removal, trip or probe before it says: at once
   * after a removal, at the imposed end after a trip, 15 seconds after a probe.
   */
  lemma {:induction false} AdmittedExactly(cfg: Config, life: seq<Event>, i: nat, j: nat)
    requires cfg.Validated() && Timely(life) && i < j < |life| && AsksAt(life, j)
    requires Barrier(cfg, life, i) && forall k: nat | i < k < j :: !Barrier(cfg, life, k)
    ensures Admitted(cfg, life, j) <==> life[j].step.asked >= BarrierUntil(cfg, life, i)
  {
    TimelyPair(life, i, j);
    hide TrackerAfter, Timely, Barrier, BarrierUntil;
    BarrierStands(cfg, life, i);
    Untouched(cfg, life, i + 1, j);
  }

  /** Before there has been any, everybody is admitted. */
  lemma {:induction false} AdmittedBeforeAny(cfg: Config, life: seq<Event>, j: nat)
    requires cfg.Validated() && Timely(life) && j < |life| && AsksAt(life, j)
    requires forall k: nat | k < j :: !Barrier(cfg, life, k)
    ensures Admitted(cfg, life, j)
  {
    hide Timely, Barrier;
    Untouched(cfg, life, 0, j);
  }

  /**
   * Event `k` is the last before `j` to remove the tracker or trip the breaker, and it leaves the caller at `j` free to
   * pass: it is a removal, or a trip whose quarantine ends early enough.
   */
  predicate Releases(cfg: Config, life: seq<Event>, k: nat, j: nat)
    requires k < j < |life| && AsksAt(life, j)
  {
    && Resets(cfg, life, k) && BarrierUntil(cfg, life, k) <= life[j].step.asked
    && forall n: nat | k < n < j :: !Resets(cfg, life, n)
  }

  /** The caller at event `j` asks after the trip at event `i` and before the end that it imposes. */
  predicate AsksWithin(cfg: Config, life: seq<Event>, i: nat, j: nat)
    requires i < j < |life| && FailsAt(life, i)
  {
    AsksAt(life, j) && life[j].step.asked < ImposedUntil(cfg, life, i)
  }

  lemma {:induction false} LastReset(cfg: Config, life: seq<Event>, i: nat, j: nat) returns (k: nat)
    requires i < j <= |life| && Resets(cfg, life, i)
    ensures i <= k < j && Resets(cfg, life, k) && forall n: nat | k < n < j :: !Resets(cfg, life, n)
  {
    k := j - 1;
    if !Resets(cfg, life, k) {
      k := LastReset(cfg, life, i, j - 1);
    }
  }

  lemma {:induction false} NoAdmissionAfterLastReset(cfg: Config, life: seq<Event>, k: nat, j: nat)
    requires cfg.Validated() && Timely(life) && k < j < |life|
    requires AsksAt(life, j) && Admitted(cfg, life, j)
    requires Resets(cfg, life, k) && forall n: nat | k < n < j :: !Resets(cfg, life, n)
    ensures Releases(cfg, life, k, j)
  {
    TimelyPair(life, k, j);
    if life[k].Did? && life[j].step.asked < ImposedUntil(cfg, life, k) {
      forall n: nat | k < n < j ensures life[n].Did? && !TripsAt(cfg, life, n) {
        assert !Resets(cfg, life, n);
      }
      hide Timely, Admitted, ImposedUntil, TripsAt;
      NoAdmissionAfterTrip(cfg, life, k, j);
    }
  }

  /** Whoever is admitted before the imposed end has been released by a later removal or trip. */
  lemma {:induction false} AdmittedMeansReleased(cfg: Config, life: seq<Event>, i: nat, j: nat) returns (k: nat)
    requires cfg.Validated() && Timely(life) && i < j < |life| && TripsAt(cfg, life, i)
    requires AsksWithin(cfg, life, i, j) && Admitted(cfg, life, j)
    ensures i < k < j && Releases(cfg, life, k, j)
  {
    hide Timely, Admitted, ImposedUntil, InWindow, Since;
    k := LastReset(cfg, life, i, j);
    NoAdmissionAfterLastReset(cfg, life, k, j);
  }

  /** A caller that is released is admitted, or a probe has been before it. */
  lemma {:induction false} ReleasedMeansAdmitted(cfg: Config, life: seq<Event>, k: nat, j: nat) returns (m: nat)
    requires cfg.Validated() && Timely(life) && k < j < |life|
    requires AsksAt(life, j) && Releases(cfg, life, k, j)
    ensures k < m <= j && AsksAt(life, m) && Admitted(cfg, life, m) && life[m].step.asked <= life[j].step.asked
  {
    if p: nat :| k < p < j && Probe(cfg, life, p) {
      TimelyPair(life, p, j);
      m := p;
    } else {
      m := j;
      hide Resets, Probe, Admitted, BarrierUntil, Timely;
      AdmittedExactly(cfg, life, k, j);
    }
  }

  /**
   * Somebody is admitted between a trip and the end that it imposes if and only if somebody asks in that time after the
   * tracker was removed, or after a later trip whose own quarantine is over, and no further trip has come since.
   */
  lemma {:induction false} AdmissionBeforeEndIff(cfg: Config, life: seq<Event>, i: nat)
    requires cfg.Validated() && Timely(life) && i < |life| && TripsAt(cfg, life, i)
    ensures (exists j: nat | i < j < |life| :: AsksWithin(cfg, life, i, j) && Admitted(cfg, life, j))
       <==> (exists k: nat, j: nat | i < k < j < |life| :: AsksWithin(cfg, life, i, j) && Releases(cfg, life, k, j))
  {
    hide InWindow, Since, ImposedUntil, Admitted, Timely, Releases;
    if j: nat :| i < j < |life| && AsksWithin(cfg, life, i, j) && Admitted(cfg, life, j) {
      var k := AdmittedMeansReleased(cfg, life, i, j);
      assert AsksWithin(cfg, life, i, j) && Releases(cfg, life, k, j);
    }
    if k: nat, j: nat :| i < k < j < |life| && AsksWithin(cfg, life, i, j) && Releases(cfg, life, k, j) {
      var m := ReleasedMeansAdmitted(cfg, life, k, j);
      assert AsksWithin(cfg, life, i, m) && Admitted(cfg, life, m);
    }
  }
}
