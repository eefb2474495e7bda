/** How the server obtains a download URL: negative cache, circuit breaker, then the API with retries. */
module DownloadUrls {
  import opened Wrappers
  import opened Text
  import opened Windows
  import opened Tally
  import opened ApiErrors
  import opened CacheKeys
  import opened ApiHealth
  import opened Breaker
  import opened CircuitBreaker
  import opened NegativeCache

  /**
   * What one queued API call came back with: a URL, or an error text. `http` is the outcome that the API client
   * itself recorded for the HTTP request of a failed call: a bad one for a transport error or a status other than 200,
   * a good one when a 200 reply carried an API error or could not be decoded, none when the request was never made or
   * the reply broke off. A URL comes with a 200 reply.
   */
  datatype Reply = Url(url: string) | Failed(text: string, http: Option<bool>)

  /** The outcomes that a call adds to the health log: the client's, if any, and then the fetch's own. */
  function RecordedBy(reply: Reply): seq<bool> {
    match reply
    case Url(_) => [true, true]
    case Failed(_, http) => (if http.Some? then [http.value] else []) + [false]
  }

  /** A file as the API names it. */
  datatype FileRef = FileRef(source: Source, itemId: int, fileId: int) {
    function Key(): string {
      CdnCacheKey(source, itemId, fileId)
    }
  }

  /** The replies a fetch that passed both guards may see: retryable failures, then one reply that ends it. */
  predicate Attempts(calls: seq<Reply>, retries: nat) {
    && 1 <= |calls| <= retries + 1
    && (forall i | 0 <= i < |calls| - 1 :: calls[i].Failed? && IsRetryable(calls[i].text))
    && (Last(calls).Failed? ==> |calls| == retries + 1 || !IsRetryable(Last(calls).text))
  }

  /** The calls are answered as the API answers, in order. */
  predicate Answered(calls: seq<Reply>, api: nat -> Reply) {
    forall i: nat | i < |calls| :: calls[i] == api(i)
  }

  function Last(calls: seq<Reply>): Reply
    requires calls != []
  {
    calls[|calls| - 1]
  }

  function ResultOf(reply: Reply): Result<string, string> {
    match reply case Url(url) => Ok(url) case Failed(text, _) => Err(text)
  }

  /** The outcomes in the health log, without their times. */
  function Oks(log: seq<Outcome>): (oks: seq<bool>)
    ensures |oks| == |log|
  {
    seq(|log|, i requires 0 <= i < |log| => log[i].what)
  }

  lemma {:induction false} OksNext(log: seq<Outcome>, o: Outcome)
    ensures Oks(log + [o]) == Oks(log) + [o.what]
  {
  }

  function OksOf(calls: seq<Reply>): seq<bool> {
    if calls == [] then [] else OksOf(calls[..|calls| - 1]) + RecordedBy(calls[|calls| - 1])
  }

  lemma {:induction false} RecordedIs(reply: Reply)
    ensures RecordedBy(reply) ==
      match reply
      case Url(_) => [true, true]
      case Failed(_, None) => [false]
      case Failed(_, Some(ok)) => [ok, false]
  {
  }

  lemma {:induction false} OksSnoc(calls: seq<Reply>, reply: Reply)
    ensures OksOf(calls + [reply]) == OksOf(calls) + RecordedBy(reply)
  {
    assert (calls + [reply])[..|calls|] == calls;
  }

  /** One call after another: a failed one adds a bad outcome of its own to what the client recorded of its reply. */
  lemma {:induction false} OutcomesOfCall(calls: seq<Reply>, url: string, text: string, http: bool)
    ensures OksOf([]) == []
    ensures OksOf(calls + [Url(url)]) == OksOf(calls) + [true, true]
    ensures OksOf(calls + [Failed(text, None)]) == OksOf(calls) + [false]
    ensures OksOf(calls + [Failed(text, Some(http))]) == OksOf(calls) + [http, false]
  {
    OksSnoc(calls, Url(url));
    OksSnoc(calls, Failed(text, None));
    OksSnoc(calls, Failed(text, Some(http)));
  }

  /** What a fetch that passed both guards comes to. */
  lemma {:induction false} FetchOutcome(calls: seq<Reply>, retries: nat, r: Result<string, string>)
    requires Attempts(calls, retries) && r == ResultOf(Last(calls))
    ensures 1 <= |calls| <= retries + 1
    ensures forall i | 0 <= i < |calls| - 1 :: calls[i].Failed? && IsRetryable(calls[i].text)
    ensures r.Ok? ==> calls[|calls| - 1] == Url(r.value)
    ensures r.Err? ==>
      && calls[|calls| - 1].Failed? && r.error == calls[|calls| - 1].text
      && (|calls| == retries + 1 || !IsRetryable(r.error))
    ensures OksOf(calls) != [] && (OksOf(calls)[|OksOf(calls)| - 1] <==> r.Ok?)
    ensures Count(OksOf(calls), false) >= |calls| - if r.Ok? then 1 else 0
  {
    hide IsRetryable;
    var n := |calls| - 1;
    assert calls == calls[..n] + [calls[n]];
    FailedCallsCount(calls[..n]);
    OksSnoc(calls[..n], calls[n]);
    CallCount(OksOf(calls[..n]), calls[n]);
    hide OksOf, Count, HttpOutcomes;
  }

  /** The calls whose reply the client recorded as `ok`. */
  function HttpOutcomes(calls: seq<Reply>, ok: bool): nat {
    if calls == [] then 0
    else
      var last := calls[|calls| - 1];
      HttpOutcomes(calls[..|calls| - 1], ok) + if last.Failed? && last.http == Some(ok) then 1 else 0
  }

  lemma {:induction false} FailedCallsCount(calls: seq<Reply>)
    requires forall reply | reply in calls :: reply.Failed?
    ensures Count(OksOf(calls), false) == |calls| + HttpOutcomes(calls, false)
    ensures |OksOf(calls)| == |calls| + HttpOutcomes(calls, false) + HttpOutcomes(calls, true)
  {
    hide Count, RecordedBy;
    if calls != [] {
      var init, last := calls[..|calls| - 1], calls[|calls| - 1];
      FailedCallsCount(init);
      assert last in calls;
      match last.http {
        case None =>
        case Some(ok) => assert last.http == if ok then Some(true) else Some(false);
      }
      CallCount(OksOf(init), last);
    } else {
      NoCount();
    }
  }

  lemma {:induction false} NoCount()
    ensures Count([], false) == 0
  {
  }

  lemma {:induction false} CallCount(oks: seq<bool>, reply: Reply)
    ensures var added := RecordedBy(reply);
      && |added| == (if reply.Url? || reply.http.Some? then 2 else 1)
      && Count(oks + added, false)
         == Count(oks, false) + (if reply.Url? then 0 else if reply.http == Some(false) then 2 else 1)
      && added[|added| - 1] == reply.Url?
  {
    hide Count;
    var added := RecordedBy(reply);
    if |added| == 2 {
      assert oks + added == oks + [added[0]] + [added[1]];
      CountAppend(oks, added[0], false);
      CountAppend(oks + [added[0]], added[1], false);
    } else {
      CountAppend(oks, added[0], false);
      assert oks + added == oks + [added[0]];
    }
  }

  lemma {:induction false} BadCounted(recent: seq<Outcome>)
    ensures Failures(recent) == Count(Oks(recent), false)
  {
    if recent != [] {
      var n := |recent| - 1;
      BadCounted(recent[..n]);
      assert recent == recent[..n] + [recent[n]];
      OksNext(recent[..n], recent[n]);
      CountAppend(Oks(recent[..n]), recent[n].what, false);
      hide Oks, Count;
    }
  }

  /**
   * When a window holds just the outcomes of failed calls, the gate is degraded if and only if there are five outcomes
   * and at least four bad ones for each reply that the client took for good. Three timeouts are enough, as each counts
   * twice; errors inside 200 replies alone, however many, are not.
   */
  lemma {:induction false} FailedCallsDegradeIff(
      older: seq<Outcome>, recent: seq<Outcome>, calls: seq<Reply>, now: int, window: int)
    requires forall o | o in older :: o.at <= now - window
    requires forall o | o in recent :: o.at > now - window
    requires Oks(recent) == OksOf(calls) && forall reply | reply in calls :: reply.Failed?
    ensures DegradedAt(older + recent, now, window) <==>
      && |calls| + HttpOutcomes(calls, false) + HttpOutcomes(calls, true) >= 5
      && |calls| + HttpOutcomes(calls, false) >= 4 * HttpOutcomes(calls, true)
  {
    FailedCallsCount(calls);
    BadCounted(recent);
    FailuresCounted(recent);
    DegradedExactly(older, recent, now, window);
    hide DegradedAt, Oks, OksOf, HttpOutcomes, Failures, Count;
  }

  /** A failure charged to an item, and the times at which the health gate was asked about it. */
  datatype Charged = Charged(failure: Failure, labelAt: int, tripAt: int)

  predicate Within(c: Charged, start: int, end: int) {
    start <= c.failure.now <= c.labelAt <= c.tripAt <= end
  }

  /** The charge carries the error's text, kind and code, and the gate's answers about the whole outcome history. */
  predicate IsCharge(c: Charged, text: string, history: seq<Outcome>, window: int) {
    && c.failure.text == text && (c.failure.kind, c.failure.code) == Classify(text)
    && c.failure.degradedAtLabel == DegradedAt(history, c.labelAt, window)
    && c.failure.degradedAtTrip == DegradedAt(history, c.tripAt, window)
  }

  /** What a failed fetch makes of the trackers: an account-level error is charged to nobody. */
  function ChargedTo(cfg: Config, trackers: Trackers, item: int, charge: Option<Charged>): Trackers {
    match charge
    case None => trackers
    case Some(c) => trackers[item := Breaker.Record(cfg, TrackerOf(trackers, item), c.failure)]
  }

  /** The trackers after a caller has asked for admission. */
  function Asked(trackers: Trackers, item: int, askedAt: int, rearmedAt: int): Trackers {
    if item in trackers then trackers[item := Ask(trackers[item], askedAt, rearmedAt)] else trackers
  }

  /** One alternative that a fallback asked: the file, the answer, and the API calls behind it, if any. */
  datatype Attempt = Attempt(file: FileRef, answer: Result<string, string>, calls: seq<Reply>)

  predicate IsAttempt(a: Attempt, retries: nat) {
    if a.calls == [] then a.answer.Err? else Attempts(a.calls, retries) && a.answer == ResultOf(Last(a.calls))
  }

  /** The server's state that fetching a URL reads and writes. `clock` is the last clock reading. */
  class Gateway {
    const retries: nat
    const health: HealthTracker
    const breaker: TrackerTable
    const cache: Cache
    var clock: int

    ghost predicate Valid()
      reads this, health, health.buf, breaker
    {
      && health.Valid()
      && breaker.Valid()
      && 0 <= clock
      && health.prunedAt <= clock
    }

    ghost function Repr(): set<object>
      reads this, health, breaker
    {
      {this, health, health.buf, breaker, cache} + breaker.trackers.Values
    }

    constructor (retries: nat, window: int, cfg: Config, maxTrackers: nat, ttl: int, maxEntries: nat)
      requires window > 0
      ensures Valid() && fresh(Repr())
      ensures this.retries == retries && breaker.cfg == cfg && cache.ttl == ttl
      ensures health.history == [] && breaker.View() == map[] && cache.entries == map[]
    {
      this.retries := retries;
      health := new HealthTracker(window);
      breaker := new TrackerTable(cfg, maxTrackers);
      cache := new Cache(ttl, maxEntries);
      clock := 0;
    }

    /** `time.Now`: any reading that is not earlier than the previous one. */
    method Now() returns (now: int)
      modifies this`clock
      ensures old(clock) <= now == clock
    {
      var elapsed :| elapsed >= 0;
      clock := clock + elapsed;
      now := clock;
    }

    method RecordOutcome(ok: bool)
      requires Valid()
      modifies this`clock, health, health.buf
      ensures Valid() && clock >= old(clock)
      ensures health.buf == old(health.buf) || fresh(health.buf)
      ensures Oks(health.history) == Oks(old(health.history)) + [ok]
    {
      hide After, DegradedAt, TrackerTable.Valid, Oks;
      var now := Now();
      OksNext(health.history, Event(now, ok));
      health.RecordOutcome(now, ok);
    }

    /** The outcomes of one call: the API client's hook records the HTTP reply, then the fetch records the result. */
    method RecordCall(reply: Reply)
      requires Valid()
      modifies this`clock, health, health.buf
      ensures Valid() && clock >= old(clock)
      ensures health.buf == old(health.buf) || fresh(health.buf)
      ensures Oks(health.history) == Oks(old(health.history)) +
        match reply
        case Url(_) => [true, true]
        case Failed(_, None) => [false]
        case Failed(_, Some(ok)) => [ok, false]
    {
      match reply {
        case Url(_) => RecordOutcome(true);
        case Failed(_, http) =>
          if http.Some? {
            RecordOutcome(http.value);
          }
      }
      RecordOutcome(reply.Url?);
    }

    /**
     * `getCDNURLWithRetry`. `api(i)` is what the i-th call would be answered; `calls` lists the answers. `charge` is
     * the failure that was charged to the item, if any: none on success and none for an account-level error.
     */
    method GetWithRetry(file: FileRef, api: nat -> Reply)
      returns (r: Result<string, string>, calls: seq<Reply>, ghost charge: Option<Charged>)
      requires Valid()
      modifies Repr()
      ensures Valid() && fresh(Repr() - old(Repr())) && clock >= old(clock)
      ensures Attempts(calls, retries) && Answered(calls, api) && r == ResultOf(Last(calls))
      ensures Oks(health.history) == Oks(old(health.history)) + OksOf(calls)
      ensures |health.history| > |old(health.history)| && (Oks(health.history)[|health.history| - 1] <==> r.Ok?)
      ensures Count(Oks(health.history), false)
           >= Count(Oks(old(health.history)), false) + |calls| - if r.Ok? then 1 else 0
      ensures cache.entries == old(cache.entries)
      ensures charge.Some? <==> r.Err? && Classify(r.error).0 != Auth
      ensures charge.Some? ==>
        IsCharge(charge.value, r.error, health.history, health.window) && Within(charge.value, old(clock), clock)
      ensures breaker.View() == ChargedTo(breaker.cfg, old(breaker.View()), file.itemId, charge)
    {
      hide Classify, IsRetryable, Breaker.Record, After, DegradedAt, HealthTracker.Valid, TrackerTable.Valid, IsCharge,
           FailureTracker.View, Answered, Oks, OksOf;
      calls := CallUntilSettled(api);
      FetchOutcome(calls, retries, ResultOf(Last(calls)));
      CountConcat(Oks(old(health.history)), OksOf(calls), false);
      hide Count;
      charge := None;
      match Last(calls) {
        case Url(url) =>
          r := Ok(url);
        case Failed(text, _) =>
          r := Err(text);
          charge := Charge(file.itemId, text);
      }
    }

    /** The loop over attempts: calls until one yields a URL, fails for good, or is the last. */
    method CallUntilSettled(api: nat -> Reply) returns (calls: seq<Reply>)
      requires Valid()
      modifies this`clock, health, health.buf
      ensures Valid() && clock >= old(clock)
      ensures health.buf == old(health.buf) || fresh(health.buf)
      ensures Attempts(calls, retries) && Answered(calls, api)
      ensures Oks(health.history) == Oks(old(health.history)) + OksOf(calls)
    {
      hide IsRetryable, HealthTracker.Valid, TrackerTable.Valid, RecordedBy, Oks, OksOf;
      calls := [];
      assert OksOf(calls) == [] by {
        OutcomesOfCall(calls, "", "", true);
      }
      for attempt := 0 to retries + 1
        invariant Valid() && clock >= old(clock)
        invariant health.buf == old(health.buf) || fresh(health.buf)
        invariant |calls| == attempt && attempt <= retries && Answered(calls, api)
        invariant forall i | 0 <= i < |calls| :: calls[i].Failed? && IsRetryable(calls[i].text)
        invariant Oks(health.history) == Oks(old(health.history)) + OksOf(calls)
      {
        var reply := api(attempt);
        OksSnoc(calls, reply);
        RecordedIs(reply);
        calls := calls + [reply];
        RecordCall(reply);
        match reply {
          case Url(_) =>
            return;
          case Failed(text, _) =>
            if !IsRetryable(text) || attempt >= retries {
              return;
            }
        }
      }
      assert false;
    }

    /** `globalDegraded`, answered about the whole outcome history as of `at`. */
    method AskGate() returns (degraded: bool, ghost at: int)
      requires Valid()
      modifies this`clock
      ensures Valid() && old(clock) <= at == clock
      ensures degraded == DegradedAt(health.history, at, health.window)
    {
      var now := Now();
      degraded := health.GlobalDegraded(now);
      at := now;
    }

    /**
     * The end of a failed fetch: everything but an account-level error counts against the item. The health gate is
     * asked twice, about the whole outcome history.
     */
    method Charge(item: int, text: string) returns (ghost charge: Option<Charged>)
      requires Valid()
      modifies this`clock, breaker, breaker.trackers.Values
      ensures Valid() && old(clock) <= clock
      ensures fresh(breaker.trackers.Values - old(breaker.trackers.Values))
      ensures charge.Some? <==> Classify(text).0 != Auth
      ensures charge.Some? ==>
        IsCharge(charge.value, text, health.history, health.window) && Within(charge.value, old(clock), clock)
      ensures charge.Some? ==> charge.value.failure.text == text && charge.value.failure.kind == Classify(text).0
      ensures breaker.View() == ChargedTo(breaker.cfg, old(breaker.View()), item, charge)
      ensures var was, now := old(breaker.View()), breaker.View();
        now == if charge.None? then was
               else was[item := Breaker.Record(breaker.cfg, TrackerOf(was, item), charge.value.failure)]
    {
      hide Classify, Breaker.Record, After, DegradedAt, FailureTracker.View;
      var (kind, code) := Classify(text);
      if kind == Auth {
        charge := None;
        return;
      }
      var now := Now();
      var degradedAtLabel, degradedAtTrip;
      ghost var labelAt, tripAt;
      degradedAtLabel, labelAt := AskGate();
      degradedAtTrip, tripAt := AskGate();
      breaker.RecordTorrentFailure(item, now, kind, text, degradedAtLabel, degradedAtTrip);
      charge := Some(Charged(Failure(now, kind, text, code, degradedAtLabel, degradedAtTrip), labelAt, tripAt));
    }

    /**
     * The two guards of `fetchCDNURL`: the negative cache, consulted at `lookedAt`, and the breaker, at `askedAt`; a
     * quarantine that is over is re-armed from `rearmedAt`.
     */
    method Guard(file: FileRef)
      returns (denied: Option<string>, ghost lookedAt: int, ghost askedAt: int, ghost rearmedAt: int)
      requires Valid()
      modifies this`clock, cache, breaker.trackers.Values
      ensures Valid() && old(clock) <= lookedAt <= askedAt <= rearmedAt <= clock
      ensures var entries, trackers := old(cache.entries), old(breaker.View());
        if Hit(entries, file.Key(), lookedAt) then
          denied == Some(entries[file.Key()].error) && cache.entries == entries && breaker.View() == trackers
        else
          && cache.entries == Consulted(entries, file.Key(), lookedAt)
          && (denied.Some? <==> file.itemId in trackers && Blocked(trackers[file.itemId], askedAt))
          && breaker.View() == Asked(trackers, file.itemId, askedAt, rearmedAt)
    {
      hide After, CdnCacheKey, Hit, Consulted, Blocked, FailureTracker.View, HealthTracker.Valid, TrackerTable.Valid,
           Ask;
      var key := file.Key();
      var now := Now();
      lookedAt, askedAt, rearmedAt := now, now, now;
      denied := cache.Lookup(key, now);
      if denied.Some? {
        return;
      }
      var asked := Now();
      var rearm := Now();
      askedAt, rearmedAt := asked, rearm;
      var stale := breaker.IsTorrentStale(file.itemId, asked, rearm);
      if stale {
        denied := Some("item is marked stale by circuit breaker");
      }
    }

    /** The rest of `fetchCDNURL`: call the API, then store the failure or clear the item's tracker. */
    method AskApi(file: FileRef, api: nat -> Reply)
      returns (r: Result<string, string>, calls: seq<Reply>, ghost charge: Option<Charged>, ghost failedAt: int)
      requires Valid()
      modifies Repr()
      ensures Valid() && fresh(Repr() - old(Repr())) && old(clock) <= failedAt <= clock
      ensures Attempts(calls, retries) && Answered(calls, api) && r == ResultOf(Last(calls))
      ensures charge.Some? <==> r.Err? && Classify(r.error).0 != Auth
      ensures charge.Some? ==>
        IsCharge(charge.value, r.error, health.history, health.window) && Within(charge.value, old(clock), clock)
      ensures if r.Ok? then
          cache.entries == old(cache.entries) && breaker.View() == old(breaker.View()) - {file.itemId}
        else
          && cache.entries == Stored(old(cache.entries), file.Key(), r.error, failedAt, cache.ttl)
          && breaker.View() == ChargedTo(breaker.cfg, old(breaker.View()), file.itemId, charge)
      ensures Oks(health.history) == Oks(old(health.history)) + OksOf(calls)
    {
      hide Classify, Breaker.Record, After, DegradedAt, CdnCacheKey, Attempts, Stored, FailureTracker.View,
           HealthTracker.Valid, TrackerTable.Valid, Count, Oks, OksOf, IsCharge, Answered;
      r, calls, charge := GetWithRetry(file, api);
      failedAt := clock;
      if r.Err? {
        var now := Now();
        failedAt := now;
        cache.StoreError(file.Key(), r.error, now);
        return;
      }
      breaker.ClearTorrentFailure(file.itemId);
    }

    /**
     * `fetchCDNURL`: a recent failure or a quarantined item answers without any API call; otherwise the API is called
     * and the outcome is remembered. Other items' trackers are never touched.
     */
    method FetchCdnUrl(file: FileRef, api: nat -> Reply)
      returns (r: Result<string, string>, calls: seq<Reply>, ghost charge: Option<Charged>,
               ghost lookedAt: int, ghost askedAt: int, ghost rearmedAt: int, ghost failedAt: int)
      requires Valid()
      modifies Repr()
      ensures Valid() && fresh(Repr() - old(Repr()))
      ensures old(clock) <= lookedAt <= askedAt <= rearmedAt <= failedAt <= clock
      ensures var entries, trackers := old(cache.entries), old(breaker.View());
        var consulted, asked :=
          Consulted(entries, file.Key(), lookedAt), Asked(trackers, file.itemId, askedAt, rearmedAt);
        if Hit(entries, file.Key(), lookedAt) then
          calls == [] && r == Err(entries[file.Key()].error) && cache.entries == entries && breaker.View() == trackers
        else if file.itemId in trackers && Blocked(trackers[file.itemId], askedAt) then
          calls == [] && r.Err? && cache.entries == consulted && breaker.View() == asked
        else
          && Attempts(calls, retries) && Answered(calls, api) && r == ResultOf(Last(calls))
          && (charge.Some? <==> r.Err? && Classify(r.error).0 != Auth)
          && (charge.Some? ==>
                && IsCharge(charge.value, r.error, health.history, health.window)
                && Within(charge.value, rearmedAt, clock))
          && if r.Ok? then
               cache.entries == consulted && breaker.View() == asked - {file.itemId}
             else
               && cache.entries == Stored(consulted, file.Key(), r.error, failedAt, cache.ttl)
               && breaker.View() == ChargedTo(breaker.cfg, asked, file.itemId, charge)
      ensures Oks(health.history) == Oks(old(health.history)) + OksOf(calls)
    {
      hide After, CdnCacheKey, Consulted, Stored, Hit, Blocked, IsRetryable, Attempts, FailureTracker.View, Classify,
           IsCharge, ChargedTo, Asked, HealthTracker.Valid, TrackerTable.Valid;
      calls, charge := [], None;
      var denied;
      denied, lookedAt, askedAt, rearmedAt := Guard(file);
      failedAt := clock;
      if denied.Some? {
        r := Err(denied.value);
        return;
      }
      r, calls, charge, failedAt := AskApi(file, api);
    }

    /** One alternative: a fetch of its own. */
    method TryAlternative(file: FileRef, api: nat -> Reply) returns (a: Attempt)
      requires Valid()
      modifies Repr()
      ensures Valid() && fresh(Repr() - old(Repr())) && clock >= old(clock)
      ensures a.file == file && IsAttempt(a, retries) && forall k: nat | k < |a.calls| :: a.calls[k] == api(k)
    {
      hide After, CdnCacheKey, Consulted, Stored, Hit, Blocked, Attempts, Oks, OksOf, FailureTracker.View, Asked,
           ChargedTo, IsCharge, Classify, HealthTracker.Valid, TrackerTable.Valid;
      var answer, calls;
      ghost var charge, lookedAt, askedAt, rearmedAt, failedAt;
      answer, calls, charge, lookedAt, askedAt, rearmedAt, failedAt := FetchCdnUrl(file, api);
      AttemptsNotEmpty(calls, retries);
      a := Attempt(file, answer, calls);
    }

    /**
     * `tryCDNFallback`: the alternatives of a path, one after another until one yields a URL. `listed` is what the
     * store answered, `quoted` the path as Go quotes it.
     */
    method TryCdnFallback(listed: Result<seq<FileRef>, string>, quoted: string, api: (nat, nat) -> Reply)
      returns (r: Result<string, string>, tried: seq<Attempt>)
      requires Valid()
      modifies Repr()
      ensures Valid() && fresh(Repr() - old(Repr())) && clock >= old(clock)
      ensures forall i | 0 <= i < |tried| :: IsAttempt(tried[i], retries)
      ensures if listed.Err? then tried == []
        else |tried| <= |listed.value| && forall i | 0 <= i < |tried| :: tried[i].file == listed.value[i]
      ensures forall i: nat, k: nat | i < |tried| && k < |tried[i].calls| :: tried[i].calls[k] == api(i, k)
      ensures forall i | 0 <= i < |tried| - 1 :: tried[i].answer.Err?
      ensures r.Ok? ==> tried != [] && tried[|tried| - 1].answer == r
      ensures r.Err? ==>
        && (listed.Ok? ==> |tried| == |listed.value|)
        && (forall i | 0 <= i < |tried| :: tried[i].answer.Err?)
        && r.error == FallbackError(listed, quoted, tried)
    {
      hide IsAttempt, HealthTracker.Valid, TrackerTable.Valid;
      tried := [];
      if listed.Err? {
        return Err(FallbackError(listed, quoted, tried)), tried;
      }
      var alternatives := listed.value;
      for i := 0 to |alternatives|
        invariant Valid() && fresh(Repr() - old(Repr())) && clock >= old(clock)
        invariant |tried| == i
        invariant forall k | 0 <= k < i :: tried[k].answer.Err? && tried[k].file == alternatives[k]
        invariant forall k | 0 <= k < i :: IsAttempt(tried[k], retries)
        invariant forall j: nat, k: nat | j < i && k < |tried[j].calls| :: tried[j].calls[k] == api(j, k)
      {
        var attempt := TryAlternative(alternatives[i], (k: nat) => api(i, k));
        tried := tried + [attempt];
        if attempt.answer.Ok? {
          return attempt.answer, tried;
        }
      }
      r := Err(FallbackError(listed, quoted, tried));
    }
  }

  lemma {:induction false} AttemptsNotEmpty(calls: seq<Reply>, retries: nat)
    ensures Attempts(calls, retries) ==> calls != []
  {
  }

  const QUERY_FAILED := "querying alternatives: "
  const NO_ALTERNATIVES := "no alternatives for path "
  const ALL_FAILED := "all alternatives failed: "

  /**
   * The error of a fallback that found nothing: about the query or the path, or wrapping the last alternative's
   * error.
   */
  function FallbackError(listed: Result<seq<FileRef>, string>, quoted: string, tried: seq<Attempt>): string
    requires forall i | 0 <= i < |tried| :: tried[i].answer.Err?
  {
    if listed.Err? then QUERY_FAILED + listed.error
    else if tried == [] then NO_ALTERNATIVES + quoted
    else ALL_FAILED + tried[|tried| - 1].answer.error
  }

  /**
   * A failed fallback looks rate-limited exactly when the last alternative's error does; without alternatives, when the
   * quoted path spells the marker; without a list of them, when the database's error does. The primary's own error is
   * part of none.
   */
  lemma {:induction false} FallbackLooksRateLimited(
      listed: Result<seq<FileRef>, string>, quoted: string, tried: seq<Attempt>)
    requires forall i | 0 <= i < |tried| :: tried[i].answer.Err?
    ensures Contains(FallbackError(listed, quoted, tried), RATE_LIMITED)
       <==> Contains(if listed.Err? then listed.error
                     else if tried == [] then quoted
                     else tried[|tried| - 1].answer.error, RATE_LIMITED)
  {
    assert |RATE_LIMITED| >= 2 && RATE_LIMITED[0] == 'u' && RATE_LIMITED[1] == 'n';
    if listed.Err? {
      assert QUERY_FAILED[1] == 'u' && QUERY_FAILED[2] == 'e';
      ContainsAfterPrefix(QUERY_FAILED, listed.error, RATE_LIMITED);
    } else if tried == [] {
      assert 'u' !in NO_ALTERNATIVES;
      ContainsAfterPrefix(NO_ALTERNATIVES, quoted, RATE_LIMITED);
    } else {
      assert 'u' !in ALL_FAILED;
      ContainsAfterPrefix(ALL_FAILED, tried[|tried| - 1].answer.error, RATE_LIMITED);
    }
  }
}
