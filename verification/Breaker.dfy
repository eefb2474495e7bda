/**
 * One item's circuit breaker as a function of what happens to it: the sliding failure window, the escalating
 * quarantine and the half-open probes. `CircuitBreaker.dfy` holds the mutable form.
 */
module Breaker {
  import opened Wrappers
  import opened Numbers
  import opened Int64
  import opened Windows
  import opened ApiErrors

  const PROBE_INTERVAL: int := 15 * SECOND

  datatype Config = Config(threshold: nat, windowSec: nat, staleMin: nat, maxStaleMin: nat) {
    /** The ranges that configuration loading enforces. */
    predicate Validated() {
      && 1 <= threshold <= 100
      && 1 <= windowSec <= 3600
      && 1 <= staleMin <= 60
      && 5 <= maxStaleMin <= 1440
    }

    function Window(): int {
      windowSec * SECOND
    }

    /** The shortest quarantine a trip can impose. */
    function Floor(): int {
      Min(staleMin, maxStaleMin) * MINUTE
    }
  }

  // ---------------------------------------------------------------- the escalated window

  /** Minutes of quarantine after `e` escalations: `base << e` on an int64, guarded against overflow, capped. */
  function EscalatedMinutes(base: int, cap: int, e: nat): int {
    var capM := if cap <= 0 then base else cap;
    var shifted := ShiftLeft64(base, e);
    var w := if shifted < base then base else shifted;
    if w > capM then capM else w
  }

  /** Whatever the shift does, the window stays between min(base, cap) and the cap. */
  lemma {:induction false} EscalatedBounds(base: int, cap: int, e: nat)
    requires base >= 1 && cap >= 1
    ensures Min(base, cap) <= EscalatedMinutes(base, cap, e) <= cap
  {
  }

  /** Without a cap there is no escalation. */
  lemma {:induction false} UnsetCap(base: int, cap: int, e: nat)
    requires base >= 1 && cap <= 0
    ensures EscalatedMinutes(base, cap, e) == base
  {
    hide ShiftLeft64;
  }

  /**
   * The window is the doubled one, min(cap, base * 2^e), if and only if the shift left a positive value or there was
   * nothing to escalate to. When neither holds the quarantine falls back to its base length.
   */
  lemma {:induction false} EscalatedExact(base: int, cap: int, e: nat)
    requires 1 <= base <= 60 && 5 <= cap <= 1440
    ensures EscalatedMinutes(base, cap, e) == Min(cap, base * Pow2(e)) <==> ShiftLeft64(base, e) > 0 || base >= cap
  {
    hide Pow2, ShiftLeft64;
    if e <= 57 {
      NoOverflow(base, e);
    } else {
      LargeShift(base, e);
    }
  }

  lemma {:induction false} LargeShift(base: int, e: nat)
    requires 1 <= base <= 60 && e >= 58
    ensures base * Pow2(e) >= 1440
    ensures ShiftLeft64(base, e) > 0 ==> ShiftLeft64(base, e) >= 1440
  {
    Pow2Of57();
    Pow2Mono(57, e);
    MulMono(Pow2(e), 1, base);
    if e < 64 {
      ShiftedIsZeroOrHuge(base, e);
    }
  }

  lemma {:induction false} NoOverflow(base: int, e: nat)
    requires 1 <= base <= 60 && e <= 57
    ensures ShiftLeft64(base, e) == base * Pow2(e) >= base
  {
    Pow2Of57();
    Pow2Mono(e, 57);
    MulMono(Pow2(e), base, 60);
    MulMono(base, 1, Pow2(e));
  }

  /** What a shift by 58 to 63 leaves is a multiple of 2^58. */
  lemma {:induction false} ShiftedIsZeroOrHuge(base: int, e: nat)
    requires 58 <= e < 64
    ensures ShiftLeft64(base, e) > 0 ==> ShiftLeft64(base, e) >= Pow2(57)
  {
    var x := ShiftLeft64(base, e);
    var k :| x == base * Pow2(e) + k * TWO_64;
    Pow2Of64(e);
    FactorOut(Pow2(e), base, k, Pow2(64 - e));
    Pow2Mono(57, e);
    if x > 0 {
      MulMono(Pow2(e), 1, base + k * Pow2(64 - e));
    }
  }

  lemma {:induction false} Pow2Of64(e: nat)
    requires e <= 64
    ensures Pow2(e) * Pow2(64 - e) == TWO_64
  {
    Pow2Add(e, 64 - e);
    Pow2Of57();
    Pow2Add(57, 7);
    assert Pow2(7) == 128;
  }

  lemma {:induction false} FactorOut(p: nat, b: int, k: int, q: nat)
    ensures b * p + k * (p * q) == p * (b + k * q)
    ensures p > 0 && p * (b + k * q) > 0 ==> b + k * q > 0
  {
    assert k * (p * q) == p * (k * q);
  }

  /** Up to 57 escalations the window is exactly the doubled one. */
  lemma {:induction false} EscalatedUpTo57(base: int, cap: int, e: nat)
    requires 1 <= base <= 60 && 5 <= cap <= 1440 && e <= 57
    ensures EscalatedMinutes(base, cap, e) == Min(cap, base * Pow2(e))
  {
    NoOverflow(base, e);
  }

  lemma {:induction false} EscalatedMonotone(base: int, cap: int, e1: nat, e2: nat)
    requires 1 <= base <= 60 && 5 <= cap <= 1440 && e1 <= e2 <= 57
    ensures EscalatedMinutes(base, cap, e1) <= EscalatedMinutes(base, cap, e2)
  {
    EscalatedUpTo57(base, cap, e1);
    EscalatedUpTo57(base, cap, e2);
    Pow2Mono(e1, e2);
    MulMono(base, Pow2(e1), Pow2(e2));
  }

  /**
   * Beyond that the shift may wrap. A larger count means a shorter window exactly when the smaller one has escalated
   * and its shift has not wrapped, while the larger one's has.
   */
  lemma {:induction false} EscalationShrinksIff(base: int, cap: int, e1: nat, e2: nat)
    requires 1 <= base <= 60 && 5 <= cap <= 1440 && e1 <= e2
    ensures EscalatedMinutes(base, cap, e2) < EscalatedMinutes(base, cap, e1)
       <==> base < cap && e1 >= 1 && ShiftLeft64(base, e1) > 0 && ShiftLeft64(base, e2) <= 0
  {
    EscalatedExact(base, cap, e1);
    EscalatedExact(base, cap, e2);
    Pow2Mono(e1, e2);
    MulMono(base, Pow2(e1), Pow2(e2));
    assert Pow2(0) == 1;
    if e1 >= 1 {
      Pow2Mono(1, e1);
      assert Pow2(1) == 2;
      MulMono(base, 2, Pow2(e1));
    }
    hide Pow2, ShiftLeft64;
  }

  /** With windows of 5 to 60 minutes, escalation 61 drops from the cap back to the base. */
  lemma {:induction false} EscalationWraps()
    ensures EscalatedMinutes(5, 60, 60) == 60 && EscalatedMinutes(5, 60, 61) == 5
  {
    Pow2Of57();
    Pow2Add(57, 3);
    Pow2Add(57, 4);
    assert Pow2(3) == 8 && Pow2(4) == 16;
  }

  // ---------------------------------------------------------------- the tracker

  /** `torrentFailureTracker`; `staleUntil` and `trippedAt` are 0 while the breaker has not tripped. */
  datatype Tracker = Tracker(
    failures: seq<Instant>,
    staleUntil: int,
    errKind: Option<FailureKind>,
    lastErr: string,
    errorCode: string,
    trippedAt: int,
    escalations: nat,
    quarantineNotified: bool)

  const FRESH := Tracker([], 0, None, "", "", 0, 0, false)

  /**
   * One recorded failure: its time, kind, error text and code, and what the API-health gate answered the two times
   * it was asked. Other requests may record outcomes between the two, so the answers can differ.
   */
  datatype Failure = Failure(
    now: int, kind: FailureKind, text: string, code: string, degradedAtLabel: bool, degradedAtTrip: bool)

  function Label(f: Failure): FailureKind {
    if f.kind == DatabaseError && f.degradedAtLabel then Transient else f.kind
  }

  predicate Escalates(f: Failure) {
    Label(f) == DatabaseError && !f.degradedAtTrip
  }

  function Active(cfg: Config, t: Tracker, now: int): (active: seq<Instant>)
    ensures |active| >= 1
  {
    After(t.failures, now - cfg.Window()) + [Event(now, ())]
  }

  predicate Trips(cfg: Config, t: Tracker, now: int) {
    |Active(cfg, t, now)| >= cfg.threshold
  }

  /** `recordTorrentFailure`. */
  function Record(cfg: Config, t: Tracker, f: Failure): Tracker {
    var noted := t.(lastErr := f.text, errorCode := f.code, errKind := Some(Label(f)),
                    failures := Active(cfg, t, f.now));
    if !Trips(cfg, t, f.now) then noted else Trip(cfg, noted, f)
  }

  function Trip(cfg: Config, t: Tracker, f: Failure): Tracker {
    if Escalates(f) then
      var minutes := EscalatedMinutes(cfg.staleMin, cfg.maxStaleMin, t.escalations);
      t.(staleUntil := f.now + minutes * MINUTE, trippedAt := f.now, escalations := t.escalations + 1,
         quarantineNotified := t.quarantineNotified || minutes == cfg.maxStaleMin)
    else
      t.(staleUntil := f.now + cfg.staleMin * MINUTE, trippedAt := f.now)
  }

  /** The minutes of quarantine that a trip after `e` escalations imposes. */
  function TripMinutes(cfg: Config, e: nat, f: Failure): int {
    if Escalates(f) then EscalatedMinutes(cfg.staleMin, cfg.maxStaleMin, e) else cfg.staleMin
  }

  /** Whether a caller that looks at time `now` is turned away. */
  predicate Blocked(t: Tracker, now: int) {
    t.staleUntil != 0 && now < t.staleUntil
  }

  /** `isTorrentStale` on a tracked item: an expired quarantine is re-armed, at the later clock reading `rearm`. */
  function Ask(t: Tracker, now: int, rearm: int): Tracker {
    if t.staleUntil == 0 || Blocked(t, now) then t else t.(staleUntil := rearm + PROBE_INTERVAL)
  }

  // ---------------------------------------------------------------- runs of one tracker

  /** What can happen to a tracker that is not removed: a failure is recorded, or a caller asks for admission. */
  datatype Step = Fail(f: Failure) | Query(asked: int, rearmed: int)

  function Start(s: Step): int {
    match s case Fail(f) => f.now case Query(asked, _) => asked
  }

  function End(s: Step): int {
    match s case Fail(f) => f.now case Query(_, rearmed) => rearmed
  }

  /** The last clock reading of a run. */
  function Clock(steps: seq<Step>): int {
    if steps == [] then 0 else End(steps[|steps| - 1])
  }

  /** The steps hold the breaker's lock one after another, so their clock readings never go back. */
  predicate InOrder(steps: seq<Step>) {
    steps == [] ||
    (var init, s := steps[..|steps| - 1], steps[|steps| - 1];
     InOrder(init) && 0 < Start(s) <= End(s) && Clock(init) <= Start(s))
  }

  function Apply(cfg: Config, t: Tracker, s: Step): Tracker {
    match s
    case Fail(f) => Record(cfg, t, f)
    case Query(asked, rearmed) => Ask(t, asked, rearmed)
  }

  function Run(cfg: Config, steps: seq<Step>): Tracker {
    if steps == [] then FRESH else Apply(cfg, Run(cfg, steps[..|steps| - 1]), steps[|steps| - 1])
  }

  /** The times of all failures ever recorded. */
  function History(steps: seq<Step>): seq<Instant> {
    if steps == [] then []
    else
      var rest, s := History(steps[..|steps| - 1]), steps[|steps| - 1];
      if s.Fail? then rest + [Event(s.f.now, ())] else rest
  }

  /** The time of the last recorded failure, 0 before the first. */
  function LastFailure(steps: seq<Step>): int {
    if steps == [] then 0
    else if steps[|steps| - 1].Fail? then steps[|steps| - 1].f.now
    else LastFailure(steps[..|steps| - 1])
  }

  /** How many failures of the whole history lie in the window that ends with this one. */
  function InWindow(cfg: Config, steps: seq<Step>, f: Failure): nat {
    |After(History(steps + [Fail(f)]), f.now - cfg.Window())|
  }

  lemma {:induction false} PrefixInOrder(steps: seq<Step>, k: nat)
    requires InOrder(steps) && k <= |steps|
    ensures InOrder(steps[..k])
  {
    if k < |steps| {
      PrefixInOrder(steps[..|steps| - 1], k);
      assert steps[..|steps| - 1][..k] == steps[..k];
    } else {
      assert steps[..k] == steps;
    }
  }

  lemma {:induction false} InOrderPair(steps: seq<Step>, i: nat, j: nat)
    requires InOrder(steps) && i < j < |steps|
    ensures 0 < End(steps[i]) <= Start(steps[j]) <= End(steps[j])
  {
    var n := |steps| - 1;
    if j < n {
      InOrderPair(steps[..n], i, j);
    } else if i < n - 1 {
      InOrderPair(steps[..n], i, n - 1);
    }
  }

  lemma {:induction false} Snoc(cfg: Config, init: seq<Step>, s: Step)
    ensures Run(cfg, init + [s]) == Apply(cfg, Run(cfg, init), s)
    ensures History(init + [s]) == if s.Fail? then History(init) + [Event(s.f.now, ())] else History(init)
    ensures LastFailure(init + [s]) == if s.Fail? then s.f.now else LastFailure(init)
  {
    assert (init + [s])[..|init|] == init;
  }

  /** The pruned list of a tracker is its whole failure history, cut to the window that ended at the last failure. */
  lemma {:induction false} FailuresArePrunedHistory(cfg: Config, steps: seq<Step>)
    requires cfg.Validated() && InOrder(steps)
    ensures Run(cfg, steps).failures == After(History(steps), LastFailure(steps) - cfg.Window())
  {
    if steps != [] {
      var init, s := steps[..|steps| - 1], steps[|steps| - 1];
      FailuresArePrunedHistory(cfg, init);
      LastFailureBefore(init);
      PrunedHistoryStep(cfg, init, s);
      assert init + [s] == steps;
    }
  }

  lemma {:induction false} LastFailureBefore(steps: seq<Step>)
    requires InOrder(steps)
    ensures 0 <= LastFailure(steps) <= Clock(steps)
  {
    if steps != [] {
      LastFailureBefore(steps[..|steps| - 1]);
    }
  }

  lemma {:induction false} PrunedHistoryStep(cfg: Config, init: seq<Step>, s: Step)
    requires cfg.Validated() && LastFailure(init) <= Start(s)
    requires Run(cfg, init).failures == After(History(init), LastFailure(init) - cfg.Window())
    ensures Run(cfg, init + [s]).failures == After(History(init + [s]), LastFailure(init + [s]) - cfg.Window())
  {
    hide After, Record, Run, History, LastFailure;
    Snoc(cfg, init, s);
    if s.Fail? {
      assert s == Fail(s.f);
      ActiveIsWindow(cfg, init, s.f);
      RecordCases(cfg, Run(cfg, init), s.f);
    }
  }

  lemma {:induction false} ActiveIsWindow(cfg: Config, steps: seq<Step>, f: Failure)
    requires Run(cfg, steps).failures == After(History(steps), LastFailure(steps) - cfg.Window())
    requires LastFailure(steps) <= f.now && cfg.Validated()
    ensures Active(cfg, Run(cfg, steps), f.now) == After(History(steps + [Fail(f)]), f.now - cfg.Window())
  {
    hide After, Run, History, LastFailure;
    var cutoff, e := f.now - cfg.Window(), Event(f.now, ());
    Snoc(cfg, steps, Fail(f));
    AfterAfter(History(steps), LastFailure(steps) - cfg.Window(), cutoff);
    AfterAppend(History(steps), e, cutoff);
  }

  lemma {:induction false} TripsOnHistory(cfg: Config, steps: seq<Step>, f: Failure)
    requires cfg.Validated() && InOrder(steps + [Fail(f)])
    ensures Trips(cfg, Run(cfg, steps), f.now) <==> InWindow(cfg, steps, f) >= cfg.threshold
    ensures Run(cfg, steps + [Fail(f)]) == Record(cfg, Run(cfg, steps), f)
  {
    hide After, Record, Run, History, LastFailure;
    assert (steps + [Fail(f)])[..|steps|] == steps;
    FailuresArePrunedHistory(cfg, steps);
    LastFailureBefore(steps);
    ActiveIsWindow(cfg, steps, f);
    Snoc(cfg, steps, Fail(f));
  }

  lemma {:induction false} RecordCases(cfg: Config, t: Tracker, f: Failure)
    requires cfg.Validated()
    ensures var after := Record(cfg, t, f);
      && after.failures == Active(cfg, t, f.now)
      && if Trips(cfg, t, f.now) then
           && after.trippedAt == f.now
           && after.staleUntil == f.now + TripMinutes(cfg, t.escalations, f) * MINUTE
           && after.escalations == t.escalations + if Escalates(f) then 1 else 0
         else
           (after.trippedAt, after.staleUntil, after.escalations) == (t.trippedAt, t.staleUntil, t.escalations)
  {
  }

  /** The failures that trip the breaker, are database errors and met a healthy API both times the gate was asked. */
  function ItemTrips(cfg: Config, steps: seq<Step>): nat {
    if steps == [] then 0
    else
      var init, s := steps[..|steps| - 1], steps[|steps| - 1];
      ItemTrips(cfg, init) +
      if s.Fail? && s.f.kind == DatabaseError && !s.f.degradedAtLabel && !s.f.degradedAtTrip
         && InWindow(cfg, init, s.f) >= cfg.threshold
      then 1 else 0
  }

  lemma {:induction false} EscalationsCountItemTrips(cfg: Config, steps: seq<Step>)
    requires cfg.Validated() && InOrder(steps)
    ensures Run(cfg, steps).escalations == ItemTrips(cfg, steps)
  {
    if steps != [] {
      var init, s := steps[..|steps| - 1], steps[|steps| - 1];
      EscalationsCountItemTrips(cfg, init);
      assert init + [s] == steps;
      EscalationStep(cfg, init, s);
    }
  }

  lemma {:induction false} EscalationStep(cfg: Config, init: seq<Step>, s: Step)
    requires cfg.Validated() && InOrder(init + [s])
    ensures Run(cfg, init + [s]).escalations - Run(cfg, init).escalations
         == ItemTrips(cfg, init + [s]) - ItemTrips(cfg, init)
  {
    hide After, Record, Run, History, LastFailure;
    assert (init + [s])[..|init|] == init;
    Snoc(cfg, init, s);
    if s.Fail? {
      assert s == Fail(s.f);
      TripsOnHistory(cfg, init, s.f);
      RecordCases(cfg, Run(cfg, init), s.f);
    }
  }

  /** The quarantine that a failure imposes if it trips the breaker after `steps`, in minutes. */
  function Minutes(cfg: Config, steps: seq<Step>, f: Failure): int {
    TripMinutes(cfg, ItemTrips(cfg, steps), f)
  }

  /**
   * The breaker trips on a failure exactly when the full history holds at least the threshold of failures in the window
   * ending there. It then imposes exactly the base window, or for an item trip the one that the number of item trips so
   * far gives; a failure that does not trip leaves quarantine and escalation alone.
   */
  lemma {:induction false} TripsExactly(cfg: Config, steps: seq<Step>, f: Failure)
    requires cfg.Validated() && InOrder(steps + [Fail(f)])
    ensures Trips(cfg, Run(cfg, steps), f.now) <==> InWindow(cfg, steps, f) >= cfg.threshold
    ensures var before, after := Run(cfg, steps), Run(cfg, steps + [Fail(f)]);
      if InWindow(cfg, steps, f) >= cfg.threshold then
        && after.trippedAt == f.now
        && after.staleUntil == f.now + Minutes(cfg, steps, f) * MINUTE
        && after.escalations == ItemTrips(cfg, steps) + if Escalates(f) then 1 else 0
      else
        && after.trippedAt == before.trippedAt
        && after.staleUntil == before.staleUntil
        && after.escalations == before.escalations
  {
    hide After, Record, Run, History, LastFailure;
    assert (steps + [Fail(f)])[..|steps|] == steps;
    TripsOnHistory(cfg, steps, f);
    EscalationsCountItemTrips(cfg, steps);
    RecordCases(cfg, Run(cfg, steps), f);
  }

  // ---------------------------------------------------------------- what the landing page shows

  /** The error shown is the last failure's, labelled a database error only if the API looked healthy. */
  lemma {:induction false} ShowsLastFailure(cfg: Config, steps: seq<Step>, i: nat)
    requires i < |steps| && steps[i].Fail? && forall j | i < j < |steps| :: steps[j].Query?
    ensures var t, f := Run(cfg, steps), steps[i].f;
      && t.lastErr == f.text && t.errorCode == f.code
      && t.errKind == Some(if f.kind == DatabaseError && f.degradedAtLabel then Transient else f.kind)
  {
    hide EscalatedMinutes, Active;
    if i < |steps| - 1 {
      ShowsLastFailure(cfg, steps[..|steps| - 1], i);
    }
  }

  /** Step `i` is a database error that trips, meets a healthy API, and imposes the longest quarantine there is. */
  predicate WarnsAt(cfg: Config, steps: seq<Step>, i: nat)
    requires i < |steps|
  {
    && steps[i].Fail? && steps[i].f.kind == DatabaseError && !steps[i].f.degradedAtLabel && !steps[i].f.degradedAtTrip
    && InWindow(cfg, steps[..i], steps[i].f) >= cfg.threshold
    && Minutes(cfg, steps[..i], steps[i].f) == cfg.maxStaleMin
  }

  lemma {:induction false} WarnedStep(cfg: Config, init: seq<Step>, s: Step)
    requires cfg.Validated() && InOrder(init + [s])
    ensures Run(cfg, init + [s]).quarantineNotified
       <==> Run(cfg, init).quarantineNotified || WarnsAt(cfg, init + [s], |init|)
  {
    assert (init + [s])[..|init|] == init;
    Snoc(cfg, init, s);
    if s.Fail? {
      assert s == Fail(s.f);
      TripsOnHistory(cfg, init, s.f);
      EscalationsCountItemTrips(cfg, init);
    }
    hide After, Run, History, InWindow, ItemTrips, EscalatedMinutes, Trips, Active, InOrder;
  }

  /** The warning about a dead item is given exactly when some item trip has imposed the longest quarantine. */
  lemma {:induction false} WarnedIff(cfg: Config, steps: seq<Step>)
    requires cfg.Validated() && InOrder(steps)
    ensures Run(cfg, steps).quarantineNotified <==> exists i: nat | i < |steps| :: WarnsAt(cfg, steps, i)
  {
    if steps != [] {
      var n, init := |steps| - 1, steps[..|steps| - 1];
      assert init + [steps[n]] == steps;
      WarnedIff(cfg, init);
      WarnedStep(cfg, init, steps[n]);
      forall i: nat | i < n ensures WarnsAt(cfg, init, i) == WarnsAt(cfg, steps, i) {
        assert init[..i] == steps[..i];
      }
      hide WarnsAt, InOrder, Run;
    }
  }
}
