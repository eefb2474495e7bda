/**
 * Any number of concurrent fetches over the negative cache and the circuit breaker. A step is one locked section of a
 * fetch or of a sweep, or one API call; the fetches interleave arbitrarily.
 */
module FetchRuns {
  import opened Wrappers
  import opened Numbers
  import opened Breaker
  import opened CircuitBreaker
  import NegativeCache
  import opened DownloadUrls

  /**
   * Where a fetch stands: past the cache, past the breaker and at the API, or with its failure charged. `since` is the
   * number of steps that came before its cache look-up, `admitted` of those before the breaker let it pass.
   */
  datatype Fetch =
    | Resting
    | Missed(file: FileRef, since: nat)
    | Calling(file: FileRef, since: nat, admitted: nat)
    | Failing(file: FileRef, since: nat)

  datatype State = State(entries: NegativeCache.Entries, trackers: Trackers, fetches: map<nat, Fetch>)

  datatype Step =
    | Lookup(c: nat, file: FileRef, at: int)
    | Admit(c: nat, at: int, rearmed: int)
    | Call(c: nat, at: int)
    | ChargeItem(c: nat, f: Failure, at: int)
    | StoreFailure(c: nat, error: string, at: int)
    | Succeed(c: nat, at: int)
    | SweepCache(at: int, evicted: set<string>)
    | PruneCache(at: int, live: set<int>)
    | DropTrackers(at: int, items: set<int>)

  predicate Enabled(st: State, s: Step) {
    match s
    case Lookup(c, _, _) => c in st.fetches && st.fetches[c].Resting?
    case Admit(c, at, rearmed) => c in st.fetches && st.fetches[c].Missed? && at <= rearmed
    case Call(c, _) => c in st.fetches && st.fetches[c].Calling?
    case ChargeItem(c, _, _) => c in st.fetches && st.fetches[c].Calling?
    case StoreFailure(c, _, _) => c in st.fetches && (st.fetches[c].Calling? || st.fetches[c].Failing?)
    case Succeed(c, _) => c in st.fetches && st.fetches[c].Calling?
    case _ => true
  }

  /** The state after the step that `n` steps precede. */
  function Apply(cfg: Config, ttl: int, st: State, s: Step, n: nat): State
    requires Enabled(st, s)
  {
    match s
    case Lookup(c, file, at) =>
      st.(entries := NegativeCache.Consulted(st.entries, file.Key(), at),
          fetches := st.fetches[c :=
            if NegativeCache.Hit(st.entries, file.Key(), at) then Resting else Missed(file, n)])
    case Admit(c, at, rearmed) =>
      var fetch := st.fetches[c];
      var item := fetch.file.itemId;
      var blocked := item in st.trackers && Blocked(st.trackers[item], at);
      st.(trackers := Asked(st.trackers, item, at, rearmed),
          fetches := st.fetches[c := if blocked then Resting else Calling(fetch.file, fetch.since, n)])
    case Call(_, _) => st
    case ChargeItem(c, f, _) =>
      var fetch := st.fetches[c];
      st.(trackers := st.trackers[fetch.file.itemId :=
                        Breaker.Record(cfg, TrackerOf(st.trackers, fetch.file.itemId), f)],
          fetches := st.fetches[c := Failing(fetch.file, fetch.since)])
    case StoreFailure(c, error, at) =>
      st.(entries := NegativeCache.Stored(st.entries, st.fetches[c].file.Key(), error, at, ttl),
          fetches := st.fetches[c := Resting])
    case Succeed(c, _) =>
      st.(trackers := st.trackers - {st.fetches[c].file.itemId}, fetches := st.fetches[c := Resting])
    case SweepCache(at, evicted) => st.(entries := NegativeCache.Unexpired(st.entries, at) - evicted)
    case PruneCache(_, live) => st.(entries := NegativeCache.Pruned(st.entries, live))
    case DropTrackers(_, items) => st.(trackers := st.trackers - items)
  }

  function Run(cfg: Config, ttl: int, st: State, steps: seq<Step>): Option<State> {
    if steps == [] then Some(st)
    else
      var n := |steps| - 1;
      match Run(cfg, ttl, st, steps[..n])
      case None => None
      case Some(mid) => if Enabled(mid, steps[n]) then Some(Apply(cfg, ttl, mid, steps[n], n)) else None
  }

  predicate Initial(st: State) {
    forall c | c in st.fetches :: st.fetches[c].Resting?
  }

  /** The clock readings of the steps never go back. */
  predicate InOrder(steps: seq<Step>) {
    |steps| <= 1 || (InOrder(steps[..|steps| - 1]) && steps[|steps| - 2].at <= steps[|steps| - 1].at)
  }

  /** The two ways an unexpired entry can disappear. */
  predicate Removes(s: Step, key: string) {
    (s.SweepCache? && key in s.evicted) || (s.PruneCache? && NegativeCache.Dropped(key, s.live))
  }

  /** Every fetch under way looked its key up before the last `n` steps were over. */
  predicate StartedBefore(st: State, n: nat) {
    forall c | c in st.fetches && !st.fetches[c].Resting? :: st.fetches[c].since < n
  }

  lemma {:induction false} StepKeepsStarted(cfg: Config, ttl: int, st: State, s: Step, n: nat)
    requires Enabled(st, s) && StartedBefore(st, n)
    ensures StartedBefore(Apply(cfg, ttl, st, s, n), n + 1)
  {
    hide Breaker.Record, NegativeCache.Hit, NegativeCache.Consulted, NegativeCache.Pruned, NegativeCache.Unexpired,
         NegativeCache.Stored, Asked, Blocked;
  }

  lemma {:induction false} FetchesStartedBefore(cfg: Config, ttl: int, st: State, steps: seq<Step>)
    requires Initial(st) && Run(cfg, ttl, st, steps).Some?
    ensures StartedBefore(Run(cfg, ttl, st, steps).value, |steps|)
  {
    hide Enabled, Apply;
    if steps != [] {
      var init, s := steps[..|steps| - 1], steps[|steps| - 1];
      FetchesStartedBefore(cfg, ttl, st, init);
      hide StartedBefore;
      StepKeepsStarted(cfg, ttl, Run(cfg, ttl, st, init).value, s, |init|);
    }
  }

  /** The entry is there until `until`, and every fetch of its key under way started before step `i`. */
  predicate Shielded(st: State, key: string, until: int, i: nat) {
    && key in st.entries && st.entries[key].expiresAt >= until
    && forall c | c in st.fetches && !st.fetches[c].Resting? ::
         st.fetches[c].file.Key() == key ==> st.fetches[c].since < i
  }

  lemma {:induction false} StepKeepsShield(
      cfg: Config, ttl: int, st: State, s: Step, n: nat, key: string, until: int, i: nat)
    requires Enabled(st, s) && Shielded(st, key, until, i)
    requires s.at < until && !Removes(s, key)
    requires s.StoreFailure? ==> s.at + ttl >= until
    ensures Shielded(Apply(cfg, ttl, st, s, n), key, until, i)
  {
    hide Breaker.Record, Asked, FileRef.Key, NegativeCache.Dropped, Blocked;
  }

  lemma {:induction false} PrefixRuns(cfg: Config, ttl: int, st: State, steps: seq<Step>, k: nat)
    requires Run(cfg, ttl, st, steps).Some? && k <= |steps|
    ensures Run(cfg, ttl, st, steps[..k]).Some?
  {
    if k < |steps| {
      PrefixRuns(cfg, ttl, st, steps[..|steps| - 1], k);
      assert steps[..|steps| - 1][..k] == steps[..k];
    } else {
      assert steps[..k] == steps;
    }
  }

  lemma {:induction false} InOrderPair(steps: seq<Step>, i: nat, j: nat)
    requires InOrder(steps) && i <= j < |steps|
    ensures steps[i].at <= steps[j].at
  {
    var n := |steps| - 1;
    if j < n {
      InOrderPair(steps[..n], i, j);
    } else if i < n {
      InOrderPair(steps[..n], i, n - 1);
    }
  }

  lemma {:induction false} RunStep(cfg: Config, ttl: int, st: State, steps: seq<Step>, k: nat)
    requires Run(cfg, ttl, st, steps).Some? && k < |steps|
    ensures var before := Run(cfg, ttl, st, steps[..k]);
      && before.Some? && Enabled(before.value, steps[k])
      && Run(cfg, ttl, st, steps[..k + 1]) == Some(Apply(cfg, ttl, before.value, steps[k], k))
  {
    PrefixRuns(cfg, ttl, st, steps, k);
    PrefixRuns(cfg, ttl, st, steps, k + 1);
    assert steps[..k + 1][..k] == steps[..k];
    hide Apply, Enabled;
  }

  /** Step `i` stores a failure for `key`. */
  predicate StoresAt(cfg: Config, ttl: int, st: State, steps: seq<Step>, i: nat, key: string)
    requires i < |steps|
  {
    && steps[i].StoreFailure?
    && var before := Run(cfg, ttl, st, steps[..i]);
       && before.Some? && steps[i].c in before.value.fetches && !before.value.fetches[steps[i].c].Resting?
       && before.value.fetches[steps[i].c].file.Key() == key
  }

  lemma {:induction false} StoringShields(cfg: Config, ttl: int, st: State, s: Step, n: nat, key: string)
    requires Enabled(st, s) && StartedBefore(st, n)
    requires s.StoreFailure? && st.fetches[s.c].file.Key() == key
    ensures Shielded(Apply(cfg, ttl, st, s, n), key, s.at + ttl, n)
  {
    hide FileRef.Key;
  }

  lemma {:induction false} StaysShielded(
      cfg: Config, ttl: int, st: State, steps: seq<Step>, i: nat, k: nat, key: string)
    requires Initial(st) && Run(cfg, ttl, st, steps).Some? && InOrder(steps) && i < k <= |steps|
    requires StoresAt(cfg, ttl, st, steps, i, key) && steps[k - 1].at < steps[i].at + ttl
    requires forall m | i < m < k :: !Removes(steps[m], key)
    ensures Run(cfg, ttl, st, steps[..k]).Some?
    ensures Shielded(Run(cfg, ttl, st, steps[..k]).value, key, steps[i].at + ttl, i)
  {
    hide Run, Apply, Shielded, InOrder, Enabled, FileRef.Key, StartedBefore;
    RunStep(cfg, ttl, st, steps, k - 1);
    if k == i + 1 {
      FetchesStartedBefore(cfg, ttl, st, steps[..i]);
      assert |steps[..i]| == i;
      StoringShields(cfg, ttl, Run(cfg, ttl, st, steps[..i]).value, steps[i], i, key);
    } else {
      hide StoresAt;
      InOrderPair(steps, k - 2, k - 1);
      InOrderPair(steps, i, k - 1);
      StaysShielded(cfg, ttl, st, steps, i, k - 1, key);
      StepKeepsShield(cfg, ttl, Run(cfg, ttl, st, steps[..k - 1]).value, steps[k - 1], k - 1, key,
                      steps[i].at + ttl, i);
    }
  }

  /**
   * Between the storing of a failure and its expiry, the only fetches that call the API for that file are those that
   * had looked it up before the failure was stored, unless eviction or item pruning removed the entry meanwhile.
   */
  lemma {:induction false} OnlyEarlierFetchesCall(
      cfg: Config, ttl: int, st: State, steps: seq<Step>, i: nat, j: nat, key: string)
    requires Initial(st) && Run(cfg, ttl, st, steps).Some? && InOrder(steps) && i < j < |steps|
    requires StoresAt(cfg, ttl, st, steps, i, key)
    requires steps[j].Call? && steps[j].at < steps[i].at + ttl
    requires forall m | i < m < j :: !Removes(steps[m], key)
    ensures var before := Run(cfg, ttl, st, steps[..j]);
      && before.Some? && steps[j].c in before.value.fetches && before.value.fetches[steps[j].c].Calling?
      && (before.value.fetches[steps[j].c].file.Key() == key ==> before.value.fetches[steps[j].c].since < i)
  {
    hide Run, Apply, InOrder, StoresAt, FileRef.Key, Removes;
    InOrderPair(steps, j - 1, j);
    StaysShielded(cfg, ttl, st, steps, i, j, key);
    RunStep(cfg, ttl, st, steps, j);
  }

  // ---------------------------------------------------------------- the breaker

  /** Every fetch at the API was admitted by one of the steps. */
  predicate AdmittedBy(st: State, steps: seq<Step>) {
    forall c | c in st.fetches && st.fetches[c].Calling? ::
      var n := st.fetches[c].admitted;
      n < |steps| && steps[n].Admit? && steps[n].c == c
  }

  lemma {:induction false} StepKeepsAdmitted(cfg: Config, ttl: int, st: State, steps: seq<Step>, s: Step)
    requires Enabled(st, s) && AdmittedBy(st, steps)
    ensures AdmittedBy(Apply(cfg, ttl, st, s, |steps|), steps + [s])
  {
    hide Breaker.Record, NegativeCache.Hit, NegativeCache.Consulted, NegativeCache.Pruned, NegativeCache.Unexpired,
         NegativeCache.Stored, Asked, Blocked;
  }

  lemma {:induction false} CallersWereAdmitted(cfg: Config, ttl: int, st: State, steps: seq<Step>)
    requires Initial(st) && Run(cfg, ttl, st, steps).Some?
    ensures AdmittedBy(Run(cfg, ttl, st, steps).value, steps)
  {
    hide Enabled, Apply;
    if steps != [] {
      var init, s := steps[..|steps| - 1], steps[|steps| - 1];
      CallersWereAdmitted(cfg, ttl, st, init);
      hide AdmittedBy;
      StepKeepsAdmitted(cfg, ttl, Run(cfg, ttl, st, init).value, init, s);
      assert init + [s] == steps;
    }
  }

  /** The item is quarantined until `until`, and its fetches at the API were admitted before step `n`. */
  predicate Quarantined(st: State, item: int, until: int, n: nat) {
    && item in st.trackers && st.trackers[item].staleUntil >= until
    && forall c | c in st.fetches && st.fetches[c].Calling? ::
         st.fetches[c].file.itemId == item ==> st.fetches[c].admitted < n
  }

  /** What can end that quarantine early: a removal of the tracker, or a charge that leaves an earlier end. */
  predicate EndsEarly(cfg: Config, st: State, s: Step, item: int, until: int)
    requires Enabled(st, s)
  {
    match s
    case Succeed(c, _) => st.fetches[c].file.itemId == item
    case DropTrackers(_, items) => item in items
    case ChargeItem(c, f, _) =>
      st.fetches[c].file.itemId == item && Breaker.Record(cfg, TrackerOf(st.trackers, item), f).staleUntil < until
    case _ => false
  }

  lemma {:induction false} StepKeepsQuarantine(
      cfg: Config, ttl: int, st: State, s: Step, n: nat, item: int, until: int, k: nat)
    requires Enabled(st, s) && Quarantined(st, item, until, k)
    requires 0 < until && s.at < until && !EndsEarly(cfg, st, s, item, until)
    ensures Quarantined(Apply(cfg, ttl, st, s, n), item, until, k)
  {
    hide Breaker.Record, NegativeCache.Hit, NegativeCache.Consulted, NegativeCache.Pruned, NegativeCache.Unexpired,
         NegativeCache.Stored;
  }

  predicate EndsEarlyAt(cfg: Config, ttl: int, st: State, steps: seq<Step>, m: nat, item: int, until: int)
    requires m < |steps|
  {
    var before := Run(cfg, ttl, st, steps[..m]);
    before.Some? && Enabled(before.value, steps[m]) && EndsEarly(cfg, before.value, steps[m], item, until)
  }

  /** After step `i` the item's breaker says until `until`, be it by a trip or by a probe. */
  predicate QuarantinesAt(cfg: Config, ttl: int, st: State, steps: seq<Step>, i: nat, item: int, until: int)
    requires i < |steps|
  {
    var after := Run(cfg, ttl, st, steps[..i + 1]);
    after.Some? && item in after.value.trackers && after.value.trackers[item].staleUntil >= until > 0
  }

  lemma {:induction false} StaysQuarantined(
      cfg: Config, ttl: int, st: State, steps: seq<Step>, i: nat, k: nat, item: int, until: int)
    requires Initial(st) && Run(cfg, ttl, st, steps).Some? && InOrder(steps) && i < k <= |steps|
    requires QuarantinesAt(cfg, ttl, st, steps, i, item, until) && steps[k - 1].at < until
    requires forall m | i < m < k :: !EndsEarlyAt(cfg, ttl, st, steps, m, item, until)
    ensures Run(cfg, ttl, st, steps[..k]).Some?
    ensures Quarantined(Run(cfg, ttl, st, steps[..k]).value, item, until, i + 1)
  {
    hide Run, Apply, InOrder, Enabled, EndsEarly;
    RunStep(cfg, ttl, st, steps, k - 1);
    if k == i + 1 {
      CallersWereAdmitted(cfg, ttl, st, steps[..k]);
    } else {
      InOrderPair(steps, k - 2, k - 1);
      StaysQuarantined(cfg, ttl, st, steps, i, k - 1, item, until);
      hide Quarantined, QuarantinesAt;
      assert !EndsEarlyAt(cfg, ttl, st, steps, k - 1, item, until);
      StepKeepsQuarantine(cfg, ttl, Run(cfg, ttl, st, steps[..k - 1]).value, steps[k - 1], k - 1, item, until, i + 1);
    }
  }

  /**
   * From a trip of an item's breaker, or a probe, to the end that it sets, the only fetches that call the API for the
   * item are those admitted until then, unless meanwhile a success, a sweep or a prune removed the tracker or a later
   * trip set an earlier end.
   */
  lemma {:induction false} OnlyEarlierAdmittedCall(
      cfg: Config, ttl: int, st: State, steps: seq<Step>, i: nat, j: nat, item: int, until: int)
    requires Initial(st) && Run(cfg, ttl, st, steps).Some? && InOrder(steps) && i < j < |steps|
    requires QuarantinesAt(cfg, ttl, st, steps, i, item, until)
    requires steps[j].Call? && steps[j].at < until
    requires forall m | i < m < j :: !EndsEarlyAt(cfg, ttl, st, steps, m, item, until)
    ensures var before := Run(cfg, ttl, st, steps[..j]);
      && before.Some? && steps[j].c in before.value.fetches && before.value.fetches[steps[j].c].Calling?
      && var n := before.value.fetches[steps[j].c].admitted;
         && n < j && steps[n].Admit? && steps[n].c == steps[j].c
         && (before.value.fetches[steps[j].c].file.itemId == item ==> n <= i)
  {
    hide Run, Apply, InOrder, QuarantinesAt, EndsEarlyAt;
    InOrderPair(steps, j - 1, j);
    StaysQuarantined(cfg, ttl, st, steps, i, j, item, until);
    RunStep(cfg, ttl, st, steps, j);
    CallersWereAdmitted(cfg, ttl, st, steps[..j]);
  }

  /** A fetch that passes a breaker whose quarantine is over holds the others back for 15 seconds. */
  lemma {:induction false} ProbeHoldsOthers(cfg: Config, ttl: int, st: State, steps: seq<Step>, i: nat, item: int)
    requires Run(cfg, ttl, st, steps).Some? && i < |steps| && steps[i].Admit?
    requires var before := Run(cfg, ttl, st, steps[..i]);
      && before.Some? && steps[i].c in before.value.fetches && before.value.fetches[steps[i].c].Missed?
      && before.value.fetches[steps[i].c].file.itemId == item && item in before.value.trackers
      && 0 < before.value.trackers[item].staleUntil <= steps[i].at
    ensures QuarantinesAt(cfg, ttl, st, steps, i, item, steps[i].rearmed + 15 * SECOND)
  {
    RunStep(cfg, ttl, st, steps, i);
    hide Run, NegativeCache.Hit, NegativeCache.Consulted, Breaker.Record;
  }

  /** A failure that trips the breaker holds the others back for at least the shortest quarantine. */
  lemma {:induction false} TripHoldsOthers(cfg: Config, ttl: int, st: State, steps: seq<Step>, i: nat, item: int)
    requires cfg.Validated() && Run(cfg, ttl, st, steps).Some? && i < |steps| && steps[i].ChargeItem?
    requires steps[i].f.now > 0
    requires var before := Run(cfg, ttl, st, steps[..i]);
      && before.Some? && steps[i].c in before.value.fetches && before.value.fetches[steps[i].c].Calling?
      && before.value.fetches[steps[i].c].file.itemId == item
      && Trips(cfg, TrackerOf(before.value.trackers, item), steps[i].f.now)
    ensures QuarantinesAt(cfg, ttl, st, steps, i, item,
                          steps[i].f.now + Min(cfg.staleMin, cfg.maxStaleMin) * MINUTE)
  {
    var t := TrackerOf(Run(cfg, ttl, st, steps[..i]).value.trackers, item);
    RunStep(cfg, ttl, st, steps, i);
    RecordCases(cfg, t, steps[i].f);
    EscalatedBounds(cfg.staleMin, cfg.maxStaleMin, t.escalations);
    hide Run, NegativeCache.Hit, NegativeCache.Consulted, Breaker.Record, EscalatedMinutes, Trips, Escalates;
  }
}
