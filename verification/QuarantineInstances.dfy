/** Lives of one item in which the quarantine does less than its comments say, with 5 minutes escalating up to 60. */
module QuarantineInstances {
  import opened Numbers
  import opened Int64
  import opened ApiErrors
  import opened Windows
  import opened Breaker
  import opened Retrips
  import CircuitBreaker
  import opened Quarantine

  const CFG := Config(1, 60, 5, 60)

  function FailedAt(second: nat, kind: FailureKind): Quarantine.Event {
    Did(Fail(Failure(second * SECOND, kind, "", "", false, false)))
  }

  function AskedAt(second: nat): Quarantine.Event {
    Did(Query(second * SECOND, second * SECOND))
  }

  /** `n` database errors, a second apart. */
  function Deaths(n: nat): (life: Life)
    ensures |life| == n
  {
    if n == 0 then [] else Deaths(n - 1) + [FailedAt(n, DatabaseError)]
  }

  lemma {:induction false} OneFailureIsEnough(steps: seq<Step>, f: Failure)
    ensures InWindow(CFG, steps, f) >= CFG.threshold
  {
    Snoc(CFG, steps, Fail(f));
    AfterAppend(History(steps), Windows.Event(f.now, ()), f.now - CFG.Window());
    hide After, History;
  }

  /** With a threshold of one every failure trips. */
  lemma {:induction false} FailureTrips(life: Life, i: nat)
    requires i < |life| && FailsAt(life, i)
    ensures TripsAt(CFG, life, i)
  {
    OneFailureIsEnough(Since(life[..i]), life[i].step.f);
  }

  lemma {:induction false} AfterFailure(init: Life, e: Quarantine.Event)
    requires Timely(init + [e]) && e.Did? && e.step.Fail?
    ensures TripsAt(CFG, init + [e], |init|)
    ensures TrackerAfter(CFG, init + [e]).staleUntil == e.step.f.now + MINUTE *
              if Escalates(e.step.f) then EscalatedMinutes(5, 60, EscalationsAt(CFG, init, |init|)) else 5
  {
    var life := init + [e];
    assert life[..|life|] == life && life[..|init|] == init && init[..|init|] == init;
    FailureTrips(life, |init|);
    OneEvent(CFG, life, |init|);
    ItemTripMinutes(CFG, life, |init|);
    hide Timely, TrackerAfter, EscalationsAt, EscalatedMinutes, MinutesAt, Label, InWindow, Since;
  }

  lemma {:induction false} TimelyNext(init: Life, e: Quarantine.Event)
    requires Timely(init) && LifeClock(init) <= EventStart(e) <= EventEnd(e) && EventStart(e) > 0
    ensures Timely(init + [e]) && LifeClock(init + [e]) == EventEnd(e)
  {
    assert (init + [e])[..|init|] == init;
  }

  lemma {:induction false} DeathsTimely(n: nat)
    ensures Timely(Deaths(n)) && LifeClock(Deaths(n)) == n * SECOND
  {
    if n > 0 {
      hide Timely, LifeClock;
      DeathsTimely(n - 1);
      TimelyNext(Deaths(n - 1), FailedAt(n, DatabaseError));
    }
  }

  lemma {:induction false} SamePrefix(a: Life, b: Life, n: nat)
    requires n <= |a| && n <= |b| && a[..n] == b[..n]
    ensures EscalationsAt(CFG, a, n) == EscalationsAt(CFG, b, n)
  {
  }

  lemma {:induction false} DeathsEscalate(n: nat)
    ensures EscalationsAt(CFG, Deaths(n), n) == n
  {
    if n > 0 {
      hide TripsAt, EscalationsAt;
      var init, life := Deaths(n - 1), Deaths(n);
      assert life[..n - 1] == init && init[..n - 1] == init;
      assert life[n - 1] == FailedAt(n, DatabaseError);
      DeathsEscalate(n - 1);
      assert EscalationsAt(CFG, life, n - 1) == EscalationsAt(CFG, init, n - 1) by { SamePrefix(init, life, n - 1); }
      FailureTrips(life, n - 1);
      EscalationsNext(CFG, life, n - 1);
    }
  }

  lemma {:induction false} DeathsQuarantine(n: nat)
    requires n >= 1
    ensures TrackerAfter(CFG, Deaths(n)).staleUntil == n * SECOND + EscalatedMinutes(5, 60, n - 1) * MINUTE
  {
    hide Timely, TrackerAfter, EscalationsAt, EscalatedMinutes, TripsAt;
    DeathsEscalate(n - 1);
    DeathsTimely(n);
    AfterFailure(Deaths(n - 1), FailedAt(n, DatabaseError));
  }

  /**
   * Sixty-two requests for a dead item that were admitted before it failed, and fail one after another while other
   * items do well: the last failure cuts the quarantine of an hour to five minutes.
   */
  lemma {:induction false} ManyDeathsShorten()
    ensures Timely(Deaths(62)) && Deaths(62)[..61] == Deaths(61)
    ensures TrackerAfter(CFG, Deaths(61)).staleUntil == 61 * SECOND + 60 * MINUTE
    ensures TrackerAfter(CFG, Deaths(62)).staleUntil == 62 * SECOND + 5 * MINUTE
  {
    hide TrackerAfter, EscalatedMinutes, Timely;
    EscalationWraps();
    DeathsTimely(62);
    DeathsQuarantine(61);
    DeathsQuarantine(62);
  }

  /** Two database errors quarantine an item for ten minutes, and then a request on its way times out. */
  const DEAD := Deaths(2)
  const TIMED_OUT := DEAD + [FailedAt(3, Transient)]

  lemma {:induction false} SecondTripMinutes()
    ensures EscalatedMinutes(5, 60, 1) == 10
  {
    assert Pow2(1) == 2;
  }

  lemma {:induction false} TimedOutQuarantine()
    ensures Timely(TIMED_OUT) && LifeClock(TIMED_OUT) == 3 * SECOND
    ensures TrackerAfter(CFG, DEAD).staleUntil == 2 * SECOND + 10 * MINUTE
    ensures TrackerAfter(CFG, TIMED_OUT).staleUntil == 3 * SECOND + 5 * MINUTE
  {
    hide TrackerAfter, EscalationsAt, EscalatedMinutes, TripsAt, Deaths, Timely;
    SecondTripMinutes();
    DeathsTimely(2);
    TimelyNext(DEAD, FailedAt(3, Transient));
    DeathsQuarantine(2);
    AfterFailure(DEAD, FailedAt(3, Transient));
  }

  /** The timeout cuts ten minutes to five: a caller after six minutes is admitted. */
  lemma {:induction false} TimeoutCutsQuarantineShort()
    ensures Timely(TIMED_OUT + [AskedAt(360)]) && |TIMED_OUT| == 3
    ensures TrackerAfter(CFG, DEAD).staleUntil == 2 * SECOND + 10 * MINUTE
    ensures TrackerAfter(CFG, TIMED_OUT).staleUntil == 3 * SECOND + 5 * MINUTE
    ensures Admitted(CFG, TIMED_OUT + [AskedAt(360)], 3)
  {
    hide TrackerAfter, Deaths, Timely;
    TimedOutQuarantine();
    TimelyNext(TIMED_OUT, AskedAt(360));
    assert (TIMED_OUT + [AskedAt(360)])[..3] == TIMED_OUT;
  }

  const FAILED := [FailedAt(1, Transient)]
  const SWEPT := FAILED + [Removed(302 * SECOND)]

  lemma {:induction false} FirstIsQuarantined()
    ensures Timely(FAILED) && LifeClock(FAILED) == SECOND && TrackerAfter(CFG, FAILED).staleUntil == 301 * SECOND
  {
    TimelyNext([], FailedAt(1, Transient));
    assert [] + [FailedAt(1, Transient)] == FAILED;
    hide TrackerAfter, Timely, EscalatedMinutes, TripsAt, EscalationsAt;
    AfterFailure([], FailedAt(1, Transient));
  }

  /**
   * A quarantine of five minutes is over and swept away before two callers ask, one right after the other: both pass.
   * Without the sweep the first would be a probe and the second blocked.
   */
  lemma {:induction false} SweepLetsAllPass()
    ensures CircuitBreaker.Unexpired(map[7 := TrackerAfter(CFG, FAILED)], 302 * SECOND) == map[]
    ensures var swept := SWEPT + [AskedAt(303)] + [AskedAt(303)];
      Timely(swept) && |swept| == 4 && Admitted(CFG, swept, 2) && Admitted(CFG, swept, 3)
    ensures var kept := FAILED + [AskedAt(303)] + [AskedAt(303)];
      Timely(kept) && |kept| == 3 && Admitted(CFG, kept, 1) && !Admitted(CFG, kept, 2)
  {
    hide TrackerAfter, Timely;
    FirstIsQuarantined();
    TimelyNext(FAILED, Removed(302 * SECOND));
    TwoCallers(SWEPT);
    TwoCallers(FAILED);
    assert SWEPT[..1] == FAILED && SWEPT[..2] == SWEPT;
    OneEvent(CFG, SWEPT, 1);
  }

  /** Two callers at one time both pass if there is no quarantine; one whose end has come lets only the first pass. */
  lemma {:induction false} TwoCallers(life: Life)
    requires Timely(life) && LifeClock(life) <= 303 * SECOND
    ensures var n, asked, until := |life|, life + [AskedAt(303)] + [AskedAt(303)], TrackerAfter(CFG, life).staleUntil;
      && Timely(asked) && |asked| == n + 2 && AsksAt(asked, n) && AsksAt(asked, n + 1)
      && (until == 0 ==> Admitted(CFG, asked, n) && Admitted(CFG, asked, n + 1))
      && (0 < until <= 303 * SECOND ==> Admitted(CFG, asked, n) && !Admitted(CFG, asked, n + 1))
  {
    hide TrackerAfter, Timely, TripsAt;
    var once, asked := life + [AskedAt(303)], life + [AskedAt(303)] + [AskedAt(303)];
    TimelyNext(life, AskedAt(303));
    TimelyNext(once, AskedAt(303));
    assert once[..|life|] == life && asked[..|life|] == life && asked[..|life| + 1] == once;
    assert once[..|life| + 1] == once;
    OneEvent(CFG, once, |life|);
  }
}
