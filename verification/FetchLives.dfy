/**
 * What concurrent fetches and sweeps do to one item: the life that `Quarantine` speaks about, so that its theorems hold
 * for every interleaving.
 */
module FetchLives {
  import opened Breaker
  import opened CircuitBreaker
  import FetchRuns
  import Quarantine

  /** What a step is to the item: an admission question, a failure, a removal of its tracker, or nothing. */
  function EventsOf(st: FetchRuns.State, s: FetchRuns.Step, item: int): seq<Quarantine.Event>
    requires FetchRuns.Enabled(st, s)
  {
    match s
    case Admit(c, at, rearmed) =>
      if st.fetches[c].file.itemId == item then [Quarantine.Did(Query(at, rearmed))] else []
    case ChargeItem(c, f, _) => if st.fetches[c].file.itemId == item then [Quarantine.Did(Fail(f))] else []
    case Succeed(c, at) => if st.fetches[c].file.itemId == item then [Quarantine.Removed(at)] else []
    case DropTrackers(at, items) => if item in items then [Quarantine.Removed(at)] else []
    case _ => []
  }

  function LifeOf(cfg: Config, ttl: int, st: FetchRuns.State, steps: seq<FetchRuns.Step>, item: int)
    : seq<Quarantine.Event>
    requires FetchRuns.Run(cfg, ttl, st, steps).Some?
  {
    if steps == [] then []
    else
      var n := |steps| - 1;
      LifeOf(cfg, ttl, st, steps[..n], item) + EventsOf(FetchRuns.Run(cfg, ttl, st, steps[..n]).value, steps[n], item)
  }

  lemma {:induction false} TrackerNext(cfg: Config, life: seq<Quarantine.Event>, e: Quarantine.Event)
    ensures Quarantine.TrackerAfter(cfg, life + [e])
         == match e case Removed(_) => FRESH case Did(s) => Breaker.Apply(cfg, Quarantine.TrackerAfter(cfg, life), s)
  {
    assert (life + [e])[..|life|] == life;
    match e {
      case Removed(_) =>
      case Did(s) => Snoc(cfg, Quarantine.Since(life), s);
    }
    hide Breaker.Apply;
  }

  /** What at most one event makes of a tracker. */
  function Happen(cfg: Config, t: Tracker, events: seq<Quarantine.Event>): Tracker {
    if events == [] then t
    else match events[0] case Removed(_) => FRESH case Did(s) => Breaker.Apply(cfg, t, s)
  }

  lemma {:induction false} AdmitHappens(
      cfg: Config, ttl: int, st: FetchRuns.State, s: FetchRuns.Step, n: nat, item: int)
    requires FetchRuns.Enabled(st, s) && s.Admit?
    ensures TrackerOf(FetchRuns.Apply(cfg, ttl, st, s, n).trackers, item)
         == Happen(cfg, TrackerOf(st.trackers, item), EventsOf(st, s, item))
  {
    hide Blocked;
    assert Ask(FRESH, s.at, s.rearmed) == FRESH;
    hide Ask;
  }

  lemma {:induction false} OtherHappens(
      cfg: Config, ttl: int, st: FetchRuns.State, s: FetchRuns.Step, n: nat, item: int)
    requires FetchRuns.Enabled(st, s) && !s.Admit?
    ensures TrackerOf(FetchRuns.Apply(cfg, ttl, st, s, n).trackers, item)
         == Happen(cfg, TrackerOf(st.trackers, item), EventsOf(st, s, item))
  {
    hide Breaker.Record;
  }

  lemma {:induction false} TrackerStep(
      cfg: Config, ttl: int, st: FetchRuns.State, s: FetchRuns.Step, n: nat, item: int, life: seq<Quarantine.Event>)
    requires FetchRuns.Enabled(st, s)
    requires TrackerOf(st.trackers, item) == Quarantine.TrackerAfter(cfg, life)
    ensures TrackerOf(FetchRuns.Apply(cfg, ttl, st, s, n).trackers, item)
         == Quarantine.TrackerAfter(cfg, life + EventsOf(st, s, item))
  {
    var events := EventsOf(st, s, item);
    assert events == [] || events == [events[0]];
    hide Breaker.Apply, Quarantine.TrackerAfter, EventsOf, TrackerOf, FetchRuns.Apply, FetchRuns.Enabled;
    if s.Admit? {
      AdmitHappens(cfg, ttl, st, s, n, item);
    } else {
      OtherHappens(cfg, ttl, st, s, n, item);
    }
    if events == [] {
      assert life + events == life;
    } else {
      TrackerNext(cfg, life, events[0]);
    }
  }

  /** In every run an item's tracker is what its life makes of it, whatever other fetches do in between. */
  lemma {:induction false} TrackerFollowsLife(
      cfg: Config, ttl: int, st: FetchRuns.State, steps: seq<FetchRuns.Step>, item: int)
    requires FetchRuns.Run(cfg, ttl, st, steps).Some? && item !in st.trackers
    ensures TrackerOf(FetchRuns.Run(cfg, ttl, st, steps).value.trackers, item)
         == Quarantine.TrackerAfter(cfg, LifeOf(cfg, ttl, st, steps, item))
  {
    hide FetchRuns.Apply, FetchRuns.Enabled, EventsOf, TrackerOf, Quarantine.TrackerAfter;
    if steps == [] {
      NoLife(cfg, st, item);
    } else {
      var n := |steps| - 1;
      TrackerFollowsLife(cfg, ttl, st, steps[..n], item);
      TrackerStep(cfg, ttl, FetchRuns.Run(cfg, ttl, st, steps[..n]).value, steps[n], n, item,
                  LifeOf(cfg, ttl, st, steps[..n], item));
    }
  }

  lemma {:induction false} NoLife(cfg: Config, st: FetchRuns.State, item: int)
    requires item !in st.trackers
    ensures TrackerOf(st.trackers, item) == Quarantine.TrackerAfter(cfg, [])
  {
  }

  // ---------------------------------------------------------------- time

  function StepStart(s: FetchRuns.Step): int {
    if s.ChargeItem? then s.f.now else s.at
  }

  function StepEnd(s: FetchRuns.Step): int {
    if s.Admit? then s.rearmed else s.at
  }

  /** The locked sections and calls follow one another, and so do the clock readings in them. */
  predicate Clocked(steps: seq<FetchRuns.Step>) {
    steps == [] ||
    (var n := |steps| - 1;
     && Clocked(steps[..n]) && 0 < StepStart(steps[n]) <= StepEnd(steps[n])
     && (n > 0 ==> StepEnd(steps[n - 1]) <= StepStart(steps[n])))
  }

  lemma {:induction false} TimelyEvent(life: seq<Quarantine.Event>, e: Quarantine.Event)
    requires Quarantine.Timely(life) && 0 < Quarantine.EventStart(e) <= Quarantine.EventEnd(e)
    requires Quarantine.LifeClock(life) <= Quarantine.EventStart(e)
    ensures Quarantine.Timely(life + [e]) && Quarantine.LifeClock(life + [e]) == Quarantine.EventEnd(e)
  {
    assert (life + [e])[..|life|] == life;
  }

  lemma {:induction false} EventTimes(st: FetchRuns.State, s: FetchRuns.Step, item: int)
    requires FetchRuns.Enabled(st, s) && StepStart(s) <= StepEnd(s)
    ensures var events := EventsOf(st, s, item);
      events == [] ||
      (&& |events| == 1 && Quarantine.EventStart(events[0]) == StepStart(s)
       && Quarantine.EventStart(events[0]) <= Quarantine.EventEnd(events[0]) <= StepEnd(s))
  {
  }

  lemma {:induction false} TimelyStep(
      st: FetchRuns.State, s: FetchRuns.Step, item: int, life: seq<Quarantine.Event>)
    requires FetchRuns.Enabled(st, s) && 0 < StepStart(s) <= StepEnd(s)
    requires Quarantine.Timely(life) && Quarantine.LifeClock(life) <= StepStart(s)
    ensures var after := life + EventsOf(st, s, item);
      Quarantine.Timely(after) && Quarantine.LifeClock(after) <= StepEnd(s)
  {
    EventTimes(st, s, item);
    var events := EventsOf(st, s, item);
    hide EventsOf, StepStart, StepEnd, Quarantine.Timely, Quarantine.LifeClock, Quarantine.EventStart,
         Quarantine.EventEnd, FetchRuns.Enabled;
    if events == [] {
      assert life + events == life;
    } else {
      assert events == [events[0]];
      TimelyEvent(life, events[0]);
    }
  }

  lemma {:induction false} LifeIsTimely(
      cfg: Config, ttl: int, st: FetchRuns.State, steps: seq<FetchRuns.Step>, item: int)
    requires FetchRuns.Run(cfg, ttl, st, steps).Some? && Clocked(steps)
    ensures var life := LifeOf(cfg, ttl, st, steps, item);
      Quarantine.Timely(life) && Quarantine.LifeClock(life) <= if steps == [] then 0 else StepEnd(steps[|steps| - 1])
  {
    if steps != [] {
      hide Quarantine.Timely, Quarantine.LifeClock, FetchRuns.Apply, FetchRuns.Enabled, EventsOf, StepStart, StepEnd;
      var n := |steps| - 1;
      LifeIsTimely(cfg, ttl, st, steps[..n], item);
      TimelyStep(FetchRuns.Run(cfg, ttl, st, steps[..n]).value, steps[n], item, LifeOf(cfg, ttl, st, steps[..n], item));
    }
  }

  // ---------------------------------------------------------------- admission

  /**
   * A fetch passes the breaker exactly when its item's life so far admits it, so every theorem about admission in a
   * life is one about concurrent fetches.
   */
  lemma {:induction false} PassesIffAdmitted(
      cfg: Config, ttl: int, st: FetchRuns.State, steps: seq<FetchRuns.Step>, i: nat)
    requires FetchRuns.Run(cfg, ttl, st, steps).Some? && i < |steps| && steps[i].Admit? && Clocked(steps)
    requires var before := FetchRuns.Run(cfg, ttl, st, steps[..i]);
      && before.Some? && FetchRuns.Enabled(before.value, steps[i])
      && before.value.fetches[steps[i].c].file.itemId !in st.trackers
    ensures var before, after := FetchRuns.Run(cfg, ttl, st, steps[..i]), FetchRuns.Run(cfg, ttl, st, steps[..i + 1]);
      var item := before.value.fetches[steps[i].c].file.itemId;
      && after.Some?
      && var life := LifeOf(cfg, ttl, st, steps[..i + 1], item);
         && Quarantine.Timely(life) && life != [] && Quarantine.AsksAt(life, |life| - 1)
         && life[|life| - 1].step == Query(steps[i].at, steps[i].rearmed)
         && steps[i].c in after.value.fetches
         && (after.value.fetches[steps[i].c].Calling? <==> Quarantine.Admitted(cfg, life, |life| - 1))
  {
    var before := FetchRuns.Run(cfg, ttl, st, steps[..i]).value;
    var item := before.fetches[steps[i].c].file.itemId;
    var life := LifeOf(cfg, ttl, st, steps[..i], item);
    var question := Quarantine.Did(Query(steps[i].at, steps[i].rearmed));
    AdmitStep(cfg, ttl, before, steps[i], i, item, life);
    NextLife(cfg, ttl, st, steps, i, item);
    ClockedPrefix(steps, i + 1);
    assert (life + [question])[..|life|] == life;
    hide FetchRuns.Run, FetchRuns.Apply, FetchRuns.Enabled, LifeOf, EventsOf, Quarantine.Timely, Quarantine.Admitted,
         Clocked, TrackerOf, Quarantine.TrackerAfter;
    FetchRuns.RunStep(cfg, ttl, st, steps, i);
    LifeIsTimely(cfg, ttl, st, steps[..i + 1], item);
    TrackerFollowsLife(cfg, ttl, st, steps[..i], item);
  }

  lemma {:induction false} NextLife(
      cfg: Config, ttl: int, st: FetchRuns.State, steps: seq<FetchRuns.Step>, i: nat, item: int)
    requires FetchRuns.Run(cfg, ttl, st, steps).Some? && i < |steps|
    ensures FetchRuns.Run(cfg, ttl, st, steps[..i]).Some? && FetchRuns.Run(cfg, ttl, st, steps[..i + 1]).Some?
    ensures var before := FetchRuns.Run(cfg, ttl, st, steps[..i]).value;
      && FetchRuns.Enabled(before, steps[i])
      && LifeOf(cfg, ttl, st, steps[..i + 1], item)
         == LifeOf(cfg, ttl, st, steps[..i], item) + EventsOf(before, steps[i], item)
  {
    FetchRuns.RunStep(cfg, ttl, st, steps, i);
    assert steps[..i + 1][..i] == steps[..i];
    hide FetchRuns.Run, FetchRuns.Apply, EventsOf, FetchRuns.Enabled;
  }

  lemma {:induction false} AdmitStep(
      cfg: Config, ttl: int, st: FetchRuns.State, s: FetchRuns.Step, n: nat, item: int, life: seq<Quarantine.Event>)
    requires FetchRuns.Enabled(st, s) && s.Admit? && st.fetches[s.c].file.itemId == item
    ensures EventsOf(st, s, item) == [Quarantine.Did(Query(s.at, s.rearmed))]
    ensures var after := FetchRuns.Apply(cfg, ttl, st, s, n); var asked := life + EventsOf(st, s, item);
      && s.c in after.fetches && Quarantine.AsksAt(asked, |life|)
      && (TrackerOf(st.trackers, item) == Quarantine.TrackerAfter(cfg, life) ==>
            (after.fetches[s.c].Calling? <==> Quarantine.Admitted(cfg, asked, |life|)))
  {
    assert (life + EventsOf(st, s, item))[..|life|] == life;
    hide Quarantine.TrackerAfter;
  }

  lemma {:induction false} ClockedPrefix(steps: seq<FetchRuns.Step>, k: nat)
    requires Clocked(steps) && k <= |steps|
    ensures Clocked(steps[..k])
  {
    if k < |steps| {
      ClockedPrefix(steps[..|steps| - 1], k);
      assert steps[..|steps| - 1][..k] == steps[..k];
    } else {
      assert steps[..k] == steps;
    }
  }
}
