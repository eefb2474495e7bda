/** The way to an open of the CDN: what a request does about each URL, failure, wait and slot that it is given. */
module CdnDecisions {
  import opened Wrappers
  import opened Numbers
  import opened Text
  import opened ByteRanges
  import opened CdnStream
  import opened CdnPolling
  import opened CdnReactions
  import ApiErrors

  /** What the code does after `e`, from the state that `e` leads to. */
  lemma {:induction false} GoesOn(cfg: Settings, q: Query, before: seq<Event>, e: Event, more: seq<Event>)
    returns (pc: Pc, start: Pc)
    requires Settled(cfg, q, before + [e] + more)
    ensures After(cfg, q, before) == Some(pc) && Next(cfg, q, pc, e) == Some(start)
    ensures Shape(cfg, pc) && Owed(pc) + StatusLines(before) == 1
    ensures OpensBehind(pc).Some? ==> OpensBehind(pc).value == Opens(before)
    ensures Plan(start) <= more
    ensures Tail(start).Returned? ==> more == Plan(start) && After(cfg, q, before + [e] + more) == Some(Returned)
    ensures |more| > |Plan(start)| ==> Next(cfg, q, Tail(start), more[|Plan(start)|]).Some?
  {
    var events := before + [e];
    assert (events + more)[..|events|] == events;
    AfterPrefix(cfg, q, events + more, |events|);
    AfterNext(cfg, q, before, e);
    pc := After(cfg, q, before).value;
    start := After(cfg, q, events).value;
    hide After, Next, Settled, Disciplined;
    RequestIsDisciplined(cfg, q, before);
    AttemptsAreOpens(cfg, q, before);
    Carried(cfg, q, events, more, start);
  }

  predicate IsFetchState(pc: Pc) {
    pc.Fetching? || pc.Refetching? || pc.HangFetching?
  }

  predicate IsFallbackState(pc: Pc) {
    pc.FallingBack? || pc.RefallingBack? || pc.HangFallingBack?
  }

  lemma {:induction false} FetchContext(cfg: Settings, q: Query, pc: Pc, e: Event, status: int, opens: nat)
    requires Shape(cfg, pc) && Next(cfg, q, pc, e).Some? && Owed(pc) + status == 1
    requires OpensBehind(pc).Some? ==> OpensBehind(pc).value == opens
    ensures e.Fetched? ==>
      && IsFetchState(pc) && (pc.HangFetching? <==> status != 0)
      && (status == 0 ==> (pc.Fetching? <==> opens == 0) && (pc.Refetching? ==> pc.attempt == opens - 1))
    ensures e.FellBack? ==>
      && IsFallbackState(pc) && (pc.HangFallingBack? <==> status != 0)
      && (status == 0 ==> (pc.FallingBack? <==> opens == 0) && (pc.RefallingBack? ==> pc.attempt == opens - 1))
  {
  }

  lemma {:induction false} StorePlan(cfg: Settings, next: Pc)
    ensures Plan(StoreUrl(cfg, next)) == (if cfg.cacheUrls then [UrlStored] else []) + Plan(next)
    ensures Tail(StoreUrl(cfg, next)) == Tail(next)
  {
  }

  /** What follows once there is a URL in the repair loop. */
  lemma {:induction false} ProxyPlan(cfg: Settings, q: Query, i: nat)
    requires i < cfg.MaxAttempts()
    ensures Plan(Proxy(cfg, q)) == (if q.Valid() then [] else [StatusLine(416)])
    ensures Tail(Proxy(cfg, q)) == if q.Valid() then Building(0) else Returned
    ensures Plan(AttemptAt(cfg, i)) == [] && Tail(AttemptAt(cfg, i)) == Building(i)
  {
    hide Query.Valid;
  }

  /** A range is refused exactly when there is one and it cannot be had. */
  lemma {:induction false} ValidQuery(q: Query)
    ensures q.Valid() <==> q.rangeHeader == "" || ParseRange(q.rangeHeader, q.size).Ok?
  {
  }

  /**
   * A URL that the API or the fallback yields is cached; then the request is built, or in hang mode a slot awaited;
   * only on the way to the first open a range that cannot be had ends the request.
   */
  lemma {:induction false} FetchedUrlIsUsed(cfg: Settings, q: Query, before: seq<Event>, url: string, e: Event,
                                            more: seq<Event>)
    requires cfg.repairRetries >= 0 && (e == Fetched(Ok(url)) || e == FellBack(Ok(url)))
    requires Settled(cfg, q, before + [e] + more)
    ensures var stored := if cfg.cacheUrls then [UrlStored] else [];
      if StatusLines(before) == 0 && Opens(before) == 0 && q.rangeHeader != "" && ParseRange(q.rangeHeader, q.size).Err?
      then more == stored + [StatusLine(416)]
      else
        && stored <= more
        && (|more| > |stored| ==> if StatusLines(before) == 0 then more[|stored|].Built? else more[|stored|].Acquired?)
  {
    hide After, Settled, ParseRange, Query.Valid;
    var pc, start := GoesOn(cfg, q, before, e, more);
    ValidQuery(q);
    FetchContext(cfg, q, pc, e, StatusLines(before), Opens(before));
    FetchedPlan(cfg, q, pc, e, Opens(before));
  }

  lemma {:induction false} FetchedPlan(cfg: Settings, q: Query, pc: Pc, e: Event, opens: nat)
    requires cfg.repairRetries >= 0 && Shape(cfg, pc) && (e.Fetched? || e.FellBack?) && e.url.Ok?
    requires Next(cfg, q, pc, e).Some?
    requires pc.Refetching? || pc.RefallingBack? ==> pc.attempt == opens - 1
    ensures var stored := if cfg.cacheUrls then [UrlStored] else []; var start := Next(cfg, q, pc, e).value;
      if pc.Fetching? || pc.FallingBack? then
        && Plan(start) == stored + (if q.Valid() then [] else [StatusLine(416)])
        && Tail(start) == if q.Valid() then Building(0) else Returned
      else if pc.Refetching? || pc.RefallingBack? then
        Plan(start) == stored && Tail(start) == Building(opens)
      else
        Plan(start) == stored && Tail(start).HangWaiting?
  {
    ProxyPlan(cfg, q, 0);
    StorePlan(cfg, Proxy(cfg, q));
    if pc.Refetching? || pc.RefallingBack? {
      ProxyPlan(cfg, q, opens);
      StorePlan(cfg, AttemptAt(cfg, opens));
    }
    if pc.HangFetching? || pc.HangFallingBack? {
      StorePlan(cfg, HangWaiting(pc.poll));
      assert Plan(HangWaiting(pc.poll)) == [] && Tail(HangWaiting(pc.poll)) == HangWaiting(pc.poll);
    }
    hide Plan, Tail, StoreUrl, Proxy, AttemptAt, Query.Valid;
  }

  lemma {:induction false} LookedFromStart(cfg: Settings, q: Query, pc: Pc, e: Event)
    requires Shape(cfg, pc) && Next(cfg, q, pc, e).Some? && e.Looked?
    ensures pc == Start
  {
  }

  /** Every request begins by looking its URL up. */
  lemma {:induction false} StartsWithLookup(cfg: Settings, q: Query, events: seq<Event>)
    requires After(cfg, q, events).Some? && events != []
    ensures events[0].Looked?
  {
    AfterPrefix(cfg, q, events, 1);
    assert After(cfg, q, events[..1][..0]) == Some(Start);
  }

  /**
   * A look-up that fails ends the request; a cached URL is used without asking the API, unless the range cannot be had;
   * without one the API is asked.
   */
  lemma {:induction false} LookupLeadsOn(
      cfg: Settings, q: Query, before: seq<Event>, cached: Option<bool>, more: seq<Event>)
    requires cfg.repairRetries >= 0 && Settled(cfg, q, before + [Looked(cached)] + more)
    ensures cached == None ==> more == [StatusLine(500)]
    ensures cached == Some(false) && more != [] ==> more[0].Fetched?
    ensures cached == Some(true) ==>
      if q.rangeHeader != "" && ParseRange(q.rangeHeader, q.size).Err? then more == [StatusLine(416)]
      else more == [] || more[0].Built?
  {
    hide After, Settled, ParseRange, Query.Valid;
    var pc, start := GoesOn(cfg, q, before, Looked(cached), more);
    LookedFromStart(cfg, q, pc, Looked(cached));
    ValidQuery(q);
    ProxyPlan(cfg, q, 0);
    FailPlan(500);
    assert Plan(Fetching) == [] && Tail(Fetching) == Fetching;
    hide Plan, Tail, Proxy;
  }

  /** When the API gives no URL the alternatives are asked. */
  lemma {:induction false} FailedFetchFallsBack(
      cfg: Settings, q: Query, before: seq<Event>, error: string, more: seq<Event>)
    requires Settled(cfg, q, before + [Fetched(Err(error))] + more)
    ensures more != [] ==> more[0].FellBack?
  {
    hide After, Settled;
    var pc, start := GoesOn(cfg, q, before, Fetched(Err(error)), more);
    FetchContext(cfg, q, pc, Fetched(Err(error)), StatusLines(before), Opens(before));
    assert Plan(start) == [] && Tail(start) == start;
    hide Plan, Tail;
  }

  /**
   * When they give none either: before the first open the client is told of success and hang mode begins; a repair
   * ends in an error; in hang mode the next wait is twice the last, up to five minutes, if the error spells a rate
   * limit, and the same otherwise.
   */
  lemma {:induction false} FailedFallbackLeadsOn(
      cfg: Settings, q: Query, before: seq<Event>, error: string, more: seq<Event>, poll: int)
    requires Settled(cfg, q, before + [FellBack(Err(error))] + more)
    ensures StatusLines(before) == 0 && Opens(before) > 0 ==> more == [StatusLine(502)]
    ensures StatusLines(before) == 0 && Opens(before) == 0 ==>
      if q.rangeHeader != "" && ParseRange(q.rangeHeader, q.size).Err? then more == [StatusLine(416)]
      else [StatusLine(if q.rangeHeader == "" then 200 else 206)] <= more && (|more| > 1 ==> more[1].Fetched?)
    ensures After(cfg, q, before) == Some(HangFallingBack(poll)) ==>
      || more == [] || more[0].Disconnected?
      || more[0] == Waited(if Spells(error, "unexpected status 429") then Min(300 * SECOND, 2 * poll) else poll)
  {
    hide After, Settled, ParseRange, Query.Valid, LooksRateLimited, Spells;
    var pc, start := GoesOn(cfg, q, before, FellBack(Err(error)), more);
    FetchContext(cfg, q, pc, FellBack(Err(error)), StatusLines(before), Opens(before));
    ValidQuery(q);
    FailPlan(502);
    FailPlan(416);
    if q.Valid() {
      HangPlan(q);
    }
    RateLimitSpelled(error);
    if pc.HangFallingBack? {
      assert Plan(start) == [] && Tail(start) == start;
    }
    hide Plan, Tail;
  }

  lemma {:induction false} RateLimitSpelled(error: string)
    ensures LooksRateLimited(error) <==> Spells(error, "unexpected status 429")
  {
    SpellsContains(error, "unexpected status 429");
    assert ApiErrors.RATE_LIMITED == "unexpected status 429";
    hide Spells, Contains;
  }

  /** Before hang mode a request is built and then waits for a slot; in hang mode it has the slot first. */
  lemma {:induction false} BuiltLeadsOn(cfg: Settings, q: Query, before: seq<Event>, ok: bool, more: seq<Event>)
    requires Settled(cfg, q, before + [Built(ok)] + more)
    ensures !ok ==> more == if StatusLines(before) == 0 then [StatusLine(500)] else [Released]
    ensures ok && more != [] ==> if StatusLines(before) == 0 then more[0].Acquired? else more[0].Opened?
  {
    hide After, Settled;
    var pc, start := GoesOn(cfg, q, before, Built(ok), more);
    BuildContext(cfg, q, pc, Built(ok));
    FailPlan(500);
    assert Plan(Must(Released, Returned)) == [Released] && Tail(Must(Released, Returned)) == Returned;
    assert !start.Must? ==> Plan(start) == [] && Tail(start) == start;
    hide Plan, Tail;
  }

  lemma {:induction false} BuildContext(cfg: Settings, q: Query, pc: Pc, e: Event)
    requires Shape(cfg, pc) && Next(cfg, q, pc, e).Some?
    ensures e.Built? ==> pc.Building? || pc.HangBuilding?
    ensures e.Acquired? ==> pc.Waiting? || pc.HangWaiting?
    ensures e.Waited? || e.Disconnected? ==> pc.HangPausing?
    ensures e.Waited? ==> e.interval == pc.poll
  {
  }

  lemma {:induction false} AcquiredLeadsOn(cfg: Settings, q: Query, before: seq<Event>, more: seq<Event>)
    requires Settled(cfg, q, before + [Acquired] + more)
    ensures more != [] ==> if StatusLines(before) == 0 then more[0].Opened? else more[0].Built?
  {
    hide After, Settled;
    var pc, start := GoesOn(cfg, q, before, Acquired, more);
    BuildContext(cfg, q, pc, Acquired);
    assert Plan(start) == [] && Tail(start) == start;
    hide Plan, Tail;
  }

  /** After a wait the API is asked again; a client that leaves ends the request. */
  lemma {:induction false} WaitLeadsOn(cfg: Settings, q: Query, before: seq<Event>, poll: int, more: seq<Event>)
    ensures Settled(cfg, q, before + [Waited(poll)] + more) && more != [] ==> more[0].Fetched?
    ensures Settled(cfg, q, before + [Disconnected] + more) ==> more == []
  {
    hide After, Settled;
    if Settled(cfg, q, before + [Waited(poll)] + more) {
      var pc, start := GoesOn(cfg, q, before, Waited(poll), more);
      BuildContext(cfg, q, pc, Waited(poll));
      assert Plan(start) == [] && Tail(start) == start;
    }
    if Settled(cfg, q, before + [Disconnected] + more) {
      var pc, start := GoesOn(cfg, q, before, Disconnected, more);
      BuildContext(cfg, q, pc, Disconnected);
      assert Plan(start) == [] && Tail(start) == start;
    }
    hide Plan, Tail;
  }
}
