/**
 * The circuit breaker and the API-health gate running side by side. Recording a failure asks the gate twice while
 * holding the breaker's lock but not the gate's, so outcomes of other requests may be recorded in between.
 */
module Outages {
  import opened Wrappers
  import opened Numbers
  import opened Windows
  import opened ApiErrors
  import opened ApiHealth
  import opened Breaker
  import opened CircuitBreaker

  /** A failure being recorded: what the gate said for the label, and the outcome history it said it about. */
  datatype Pending = Pending(item: int, now: int, kind: FailureKind, text: string, askedAt: int, degraded: bool,
                             seen: seq<Outcome>)

  /** `log` is the pruned list in memory, `history` everything ever recorded. */
  datatype State = State(log: seq<Outcome>, prunedAt: int, history: seq<Outcome>, trackers: Trackers,
                         pending: Option<Pending>)

  const INITIAL := State([], 0, [], map[], None)

  datatype Step =
    | Record(at: int, ok: bool)
    | Begin(at: int, item: int, now: int, kind: FailureKind, text: string)
    | Finish(at: int)

  predicate Enabled(st: State, s: Step) {
    match s
    case Record(_, _) => true
    case Begin(at, _, now, _, _) => st.pending.None? && now <= at
    case Finish(_) => st.pending.Some?
  }

  /** `globalDegraded`, which only sees the pruned list. */
  predicate Gate(st: State, at: int, window: int) {
    DegradedAt(st.log, at, window)
  }

  function FailureOf(p: Pending, degradedAtTrip: bool): Failure {
    Failure(p.now, p.kind, p.text, Classify(p.text).1, p.degraded, degradedAtTrip)
  }

  function Apply(cfg: Config, window: int, st: State, s: Step): State
    requires Enabled(st, s)
  {
    match s
    case Record(at, ok) =>
      var o := Event(at, ok);
      st.(log := After(st.log + [o], at - window), prunedAt := at, history := st.history + [o])
    case Begin(at, item, now, kind, text) =>
      st.(pending := Some(Pending(item, now, kind, text, at, Gate(st, at, window), st.history)))
    case Finish(at) =>
      var p := st.pending.value;
      var t := Breaker.Record(cfg, TrackerOf(st.trackers, p.item), FailureOf(p, Gate(st, at, window)));
      st.(trackers := st.trackers[p.item := t], pending := None)
  }

  /** The states that runs with nondecreasing clock readings reach; `clock` is the last reading. */
  ghost predicate Reaches(cfg: Config, window: int, steps: seq<Step>, st: State, clock: int)
    decreases |steps|
  {
    if steps == [] then st == INITIAL && clock == 0
    else
      var init, s := steps[..|steps| - 1], steps[|steps| - 1];
      exists before, earlier ::
        && Reaches(cfg, window, init, before, earlier)
        && earlier <= s.at == clock
        && Enabled(before, s)
        && st == Apply(cfg, window, before, s)
  }

  /** The pruned list answers for the whole history, and so did the answer a pending failure holds. */
  predicate Consistent(st: State, clock: int, window: int) {
    && st.prunedAt <= clock
    && st.log == After(st.history, st.prunedAt - window)
    && (st.pending.Some? ==>
          st.pending.value.degraded == DegradedAt(st.pending.value.seen, st.pending.value.askedAt, window))
  }

  lemma {:induction false} ReachableIsConsistent(cfg: Config, window: int, steps: seq<Step>, st: State, clock: int)
    requires Reaches(cfg, window, steps, st, clock)
    ensures Consistent(st, clock, window)
    decreases |steps|
  {
    if steps == [] {
      assert INITIAL.log == After(INITIAL.history, 0 - window);
    } else {
      var init, s := steps[..|steps| - 1], steps[|steps| - 1];
      var before, earlier :| Reaches(cfg, window, init, before, earlier) && earlier <= s.at == clock
        && Enabled(before, s) && st == Apply(cfg, window, before, s);
      ReachableIsConsistent(cfg, window, init, before, earlier);
      StepKeepsConsistent(cfg, window, before, earlier, s);
    }
  }

  lemma {:induction false} StepKeepsConsistent(cfg: Config, window: int, st: State, clock: int, s: Step)
    requires Consistent(st, clock, window) && Enabled(st, s) && clock <= s.at
    ensures Consistent(Apply(cfg, window, st, s), s.at, window)
  {
    hide After, Breaker.Record, Classify, Verdict;
    match s
    case Record(at, ok) =>
      AppendAfter(st.history, Event(at, ok), st.prunedAt - window, at - window);
    case Begin(at, _, _, _, _) =>
      PrunedLogGivesSameVerdict(st.history, st.prunedAt, at, window);
    case Finish(_) =>
  }

  /**
   * In every reachable state, recording a failure escalates the item's quarantine and labels it a database error
   * exactly as the whole, unpruned outcome history decides: never while that history shows an outage. Then a trip
   * imposes the base window, and the warning about a dead item is not given.
   */
  lemma {:induction false} OutagesSpareItems(
      cfg: Config, window: int, steps: seq<Step>, st: State, clock: int, at: int)
    requires Reaches(cfg, window, steps, st, clock) && clock <= at && st.pending.Some?
    ensures var p := st.pending.value;
      var before, after := TrackerOf(st.trackers, p.item), Apply(cfg, window, st, Finish(at)).trackers[p.item];
      var outageAtLabel, outageAtTrip := DegradedAt(p.seen, p.askedAt, window), DegradedAt(st.history, at, window);
      var escalated :=
        p.kind == DatabaseError && !outageAtLabel && !outageAtTrip && Breaker.Trips(cfg, before, p.now);
      && after.escalations == before.escalations + (if escalated then 1 else 0)
      && (after.errKind == Some(DatabaseError) <==> p.kind == DatabaseError && !outageAtLabel)
      && (!escalated ==> after.quarantineNotified == before.quarantineNotified)
      && after.staleUntil ==
           if !Breaker.Trips(cfg, before, p.now) then before.staleUntil
           else
             p.now + MINUTE *
             if escalated then EscalatedMinutes(cfg.staleMin, cfg.maxStaleMin, before.escalations) else cfg.staleMin
  {
    hide After, Classify, Verdict, EscalatedMinutes, Active;
    ReachableIsConsistent(cfg, window, steps, st, clock);
    PrunedLogGivesSameVerdict(st.history, st.prunedAt, at, window);
  }
}
