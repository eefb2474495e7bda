/**
 * Trips of one item compared: how the escalation grows, when the overflowing shift undoes it, and when a re-trip ends a
 * quarantine early.
 */
module Retrips {
  import opened Numbers
  import opened Int64
  import opened Breaker
  import Quarantine

  type Life = seq<Quarantine.Event>

  /** The escalations that the tracker has been through before event `i`. */
  function EscalationsAt(cfg: Config, life: Life, i: nat): nat
    requires i <= |life|
  {
    ItemTrips(cfg, Quarantine.Since(life[..i]))
  }

  /** Event `i` is a trip that escalates. */
  predicate ItemTripAt(cfg: Config, life: Life, i: nat)
    requires i < |life|
  {
    Quarantine.TripsAt(cfg, life, i) && Escalates(life[i].step.f)
  }

  predicate KeepsTracker(life: Life, i: nat, j: nat)
    requires j <= |life|
  {
    forall k: nat | i <= k < j :: life[k].Did?
  }

  lemma {:induction false} EscalationsNext(cfg: Config, life: Life, i: nat)
    requires i < |life| && life[i].Did?
    ensures EscalationsAt(cfg, life, i + 1) == EscalationsAt(cfg, life, i) + if ItemTripAt(cfg, life, i) then 1 else 0
  {
    hide InWindow, Quarantine.Since;
    Quarantine.SinceNext(life, i);
    var steps := Quarantine.Since(life[..i]);
    assert (steps + [life[i].step])[..|steps|] == steps;
  }

  lemma {:induction false} EscalationsGrow(cfg: Config, life: Life, i: nat, j: nat)
    requires i <= j <= |life| && KeepsTracker(life, i, j)
    ensures EscalationsAt(cfg, life, i) <= EscalationsAt(cfg, life, j)
  {
    hide EscalationsAt, ItemTripAt;
    if i < j {
      EscalationsGrow(cfg, life, i, j - 1);
      EscalationsNext(cfg, life, j - 1);
    }
  }

  /** Of two item trips of one tracker the later one has escalated further. */
  lemma {:induction false} ItemTripsGrow(cfg: Config, life: Life, i: nat, j: nat)
    requires i < j < |life| && KeepsTracker(life, i, j)
    requires ItemTripAt(cfg, life, i)
    ensures EscalationsAt(cfg, life, i) < EscalationsAt(cfg, life, j)
  {
    hide EscalationsAt, ItemTripAt;
    EscalationsNext(cfg, life, i);
    EscalationsGrow(cfg, life, i + 1, j);
  }

  lemma {:induction false} ItemTripMinutes(cfg: Config, life: Life, i: nat)
    requires i < |life| && Quarantine.FailsAt(life, i)
    ensures Quarantine.MinutesAt(cfg, life, i) ==
              if Escalates(life[i].step.f)
              then EscalatedMinutes(cfg.staleMin, cfg.maxStaleMin, EscalationsAt(cfg, life, i))
              else cfg.staleMin
  {
    hide ItemTrips, EscalatedMinutes, Quarantine.Since;
  }

  /** The shift by this many escalations leaves no positive number: the quarantine falls back to its base length. */
  predicate Wraps(cfg: Config, e: nat) {
    ShiftLeft64(cfg.staleMin, e) <= 0
  }

  /**
   * A later item trip of the same tracker imposes a shorter quarantine if and only if there is room to escalate, the
   * earlier trip had escalated without wrapping, and the later one wraps.
   */
  lemma {:induction false} ItemTripShortensIff(cfg: Config, life: Life, i: nat, j: nat)
    requires cfg.Validated() && i < j < |life| && KeepsTracker(life, i, j)
    requires ItemTripAt(cfg, life, i) && ItemTripAt(cfg, life, j)
    ensures Quarantine.MinutesAt(cfg, life, j) < Quarantine.MinutesAt(cfg, life, i)
       <==> && cfg.staleMin < cfg.maxStaleMin && EscalationsAt(cfg, life, i) >= 1
            && !Wraps(cfg, EscalationsAt(cfg, life, i)) && Wraps(cfg, EscalationsAt(cfg, life, j))
  {
    ItemTripsGrow(cfg, life, i, j);
    ItemTripMinutes(cfg, life, i);
    ItemTripMinutes(cfg, life, j);
    EscalationShrinksIff(cfg.staleMin, cfg.maxStaleMin, EscalationsAt(cfg, life, i), EscalationsAt(cfg, life, j));
    hide EscalationsAt, ShiftLeft64, EscalatedMinutes, Quarantine.MinutesAt, InWindow;
  }

  /** Event `j` trips while the quarantine that event `i` imposed is in force. */
  predicate TripsAgain(cfg: Config, life: Life, i: nat, j: nat)
    requires i < j < |life|
  {
    && Quarantine.TripsAt(cfg, life, i) && Quarantine.TripsAt(cfg, life, j)
    && forall k: nat | i < k < j :: !Quarantine.Barrier(cfg, life, k)
  }

  predicate BringsEndForward(cfg: Config, life: Life, j: nat)
    requires j < |life|
  {
    Quarantine.TrackerAfter(cfg, life[..j + 1]).staleUntil < Quarantine.TrackerAfter(cfg, life[..j]).staleUntil
  }

  function Elapsed(life: Life, i: nat, j: nat): int
    requires i < j < |life| && Quarantine.FailsAt(life, i) && Quarantine.FailsAt(life, j)
  {
    life[j].step.f.now - life[i].step.f.now
  }

  /** It ends the quarantine early if and only if its own is shorter by more than the time since the first trip. */
  lemma {:induction false} RetripShortensIff(cfg: Config, life: Life, i: nat, j: nat)
    requires cfg.Validated() && Quarantine.Timely(life) && i < j < |life| && TripsAgain(cfg, life, i, j)
    ensures BringsEndForward(cfg, life, j)
       <==> Elapsed(life, i, j) < (Quarantine.MinutesAt(cfg, life, i) - Quarantine.MinutesAt(cfg, life, j)) * MINUTE
  {
    hide Quarantine.TrackerAfter, Quarantine.MinutesAt, Quarantine.Timely, InWindow, Quarantine.Since;
    Quarantine.BarrierStands(cfg, life, i);
    Quarantine.Untouched(cfg, life, i + 1, j);
    Quarantine.BarrierStands(cfg, life, j);
  }

  lemma {:induction false} BarriersKeepTracker(cfg: Config, life: Life, i: nat, j: nat)
    requires i < j < |life| && TripsAgain(cfg, life, i, j)
    ensures KeepsTracker(life, i, j)
  {
    forall k: nat | i <= k < j ensures life[k].Did? {
      if i < k {
        assert !Quarantine.Barrier(cfg, life, k);
      }
    }
  }

  /**
   * By cause. With a cap not below the base window: if and only if the trip in force escalates, the re-trip does not or
   * wraps, and it comes before the first quarantine exceeds a base window by the time that has passed. With a cap below
   * the base window: if and only if the re-trip alone escalates, within the difference of the two.
   */
  lemma {:induction false} RetripShortensByCause(cfg: Config, life: Life, i: nat, j: nat)
    requires cfg.Validated() && Quarantine.Timely(life) && i < j < |life| && TripsAgain(cfg, life, i, j)
    ensures var (escalated, escalates) := (Escalates(life[i].step.f), Escalates(life[j].step.f));
      BringsEndForward(cfg, life, j) <==>
      if cfg.staleMin <= cfg.maxStaleMin then
        && escalated && (!escalates || Wraps(cfg, EscalationsAt(cfg, life, j)))
        && Elapsed(life, i, j) < (Quarantine.MinutesAt(cfg, life, i) - cfg.staleMin) * MINUTE
      else
        !escalated && escalates && Elapsed(life, i, j) < (cfg.staleMin - cfg.maxStaleMin) * MINUTE
  {
    RetripShortensIff(cfg, life, i, j);
    BarriersKeepTracker(cfg, life, i, j);
    ItemTripMinutes(cfg, life, i);
    ItemTripMinutes(cfg, life, j);
    Quarantine.TimelyPair(life, i, j);
    var (e1, e2) := (EscalationsAt(cfg, life, i), EscalationsAt(cfg, life, j));
    MinutesByCause(cfg, e1);
    MinutesByCause(cfg, e2);
    if ItemTripAt(cfg, life, i) && ItemTripAt(cfg, life, j) {
      ItemTripShortensIff(cfg, life, i, j);
    }
    hide Quarantine.TrackerAfter, Quarantine.MinutesAt, Quarantine.Timely, InWindow, Quarantine.Since, EscalationsAt,
         EscalatedMinutes, Wraps, BringsEndForward, Quarantine.Barrier;
  }

  lemma {:induction false} MinutesByCause(cfg: Config, e: nat)
    requires cfg.Validated()
    ensures var m := EscalatedMinutes(cfg.staleMin, cfg.maxStaleMin, e);
      && (cfg.staleMin <= cfg.maxStaleMin ==> m >= cfg.staleMin && (Wraps(cfg, e) ==> m == cfg.staleMin))
      && (cfg.staleMin > cfg.maxStaleMin ==> m == cfg.maxStaleMin)
  {
    hide ShiftLeft64;
  }
}
