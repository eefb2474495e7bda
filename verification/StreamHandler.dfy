/** The two functions that serve file content, as code that does and meets the events of the machine. */
module StreamHandler {
  import opened Wrappers
  import opened Text
  import opened ByteRanges
  import opened ApiErrors
  import opened CdnStream
  import opened CdnEffects
  import opened CdnReactions

  /**
   * What the database, the API, the CDN and the client would answer or do if the code asked or waited as its i-th
   * event.
   */
  datatype World = World(cached: Option<bool>, primary: nat -> Result<string, string>,
                         fallback: nat -> Result<string, string>, builds: nat -> bool,
                         answers: nat -> Option<Reply>, leaves: nat -> bool) {
    /** Whether `e` is what the code meets as its i-th event. */
    predicate Gives(i: nat, e: Event) {
      match e
      case Looked(hit) => hit == cached
      case Fetched(url) => url == primary(i)
      case FellBack(url) => url == fallback(i)
      case Built(ok) => ok == builds(i)
      case Opened(answer) => answer == answers(i)
      case Waited(_) => !leaves(i)
      case Disconnected => leaves(i)
      case _ => true
    }

    /** The client is gone by the `n`-th event. */
    ghost predicate GoneBy(n: nat) {
      forall i: nat | i >= n :: leaves(i)
    }
  }

  /** More events, with `n` polls slept through among them. */
  predicate Polled(before: seq<Event>, after: seq<Event>, n: nat) {
    |after| >= |before| && Waits(after) == Waits(before) + n
  }

  lemma {:induction false} WaitsNext(events: seq<Event>, e: Event)
    ensures Waits(events + [e]) == Waits(events) + if e.Waited? then 1 else 0
  {
    assert (events + [e])[..|events|] == events;
  }

  /**
   * One request in a given world. Hang mode need not end, so the methods follow it for up to `rounds` polls, whatever
   * that number is.
   */
  class Handler {
    const cfg: Settings
    const q: Query
    const world: World
    var events: seq<Event>
    ghost var pc: Pc

    ghost predicate Valid()
      reads this
    {
      After(cfg, q, events) == Some(pc) && forall i: nat | i < |events| :: world.Gives(i, events[i])
    }

    /**
     * The code has returned, or has slept through `rounds` polls and is about to ask for a URL again. A client that
     * leaves some time ends the request within as many polls.
     */
    ghost predicate Ended(rounds: nat)
      reads this
    {
      || pc == Returned
      || (pc.HangFetching? && Waits(events) == rounds && forall n: nat | world.GoneBy(n) :: rounds <= n)
    }

    constructor (cfg: Settings, q: Query, world: World)
      ensures Valid() && this.cfg == cfg && this.q == q && this.world == world && events == [] && pc == Start
    {
      this.cfg, this.q, this.world := cfg, q, world;
      events, pc := [], Start;
    }

    /** The code does `e`, which it may do here. */
    method Do(e: Event)
      requires Valid() && Next(cfg, q, pc, e).Some? && world.Gives(|events|, e)
      modifies this
      ensures Valid() && pc == Next(cfg, q, old(pc), e).value && events == old(events) + [e]
      ensures Polled(old(events), events, if e.Waited? then 1 else 0)
    {
      hide Next;
      WaitsNext(events, e);
      assert (events + [e])[..|events|] == events;
      pc := Next(cfg, q, pc, e).value;
      events := events + [e];
    }

    /** Straight-line code: there is only one thing to do. */
    method Send(e: Event)
      requires Valid() && pc.Must? && pc.e == e && IsLocal(e)
      modifies this
      ensures Valid() && pc == old(pc).next && events == old(events) + [e] && Polled(old(events), events, 0)
    {
      Do(e);
    }

    method StoreCdnUrl(ghost next: Pc)
      requires Valid() && pc == StoreUrl(cfg, next)
      modifies this
      ensures Valid() && pc == next && Polled(old(events), events, 0)
    {
      if cfg.cacheUrls {
        Send(UrlStored);
      }
    }

    method InvalidateCdnUrl(ghost next: Pc)
      requires Valid() && pc == DropUrl(cfg, next)
      modifies this
      ensures Valid() && pc == next && Polled(old(events), events, 0)
    {
      if cfg.cacheUrls {
        Send(UrlDropped);
      }
    }

    /** What both functions do about a 416 before they return. */
    method CorrectSize(reply: Reply, ghost next: Pc)
      requires Valid() && pc == Correct(cfg, q, reply, next)
      modifies this
      ensures Valid() && pc == next && Polled(old(events), events, 0)
    {
      var size := ParseCdnTrueSize(reply.contentRange);
      if size.Some? && size.value != q.size {
        Send(SizeCorrected(size.value));
        InvalidateCdnUrl(Must(FailureCached, next));
        Send(FailureCached);
      }
    }

    /** `select` on the request's context and the poll timer. */
    method Poll(interval: int) returns (waited: bool)
      requires Valid() && pc == HangPausing(interval)
      modifies this
      ensures Valid() && pc == if waited then HangFetching(interval) else Returned
      ensures Polled(old(events), events, if waited then 1 else 0) && waited == !world.leaves(old(|events|))
    {
      waited := !world.leaves(|events|);
      if waited {
        Do(Waited(interval));
      } else {
        Do(Disconnected);
      }
    }

    /** The part of the hang loop after the CDN has answered. */
    method HandleHangReply(answer: Option<Reply>, interval: int) returns (again: bool, slower: int)
      requires Valid() && pc == AfterHangReply(cfg, q, interval, answer)
      modifies this
      ensures Valid() && Polled(old(events), events, 0)
      ensures pc == if again then HangPausing(slower) else Returned
    {
      hide Next, Disguised, Correct, DropUrl;
      again, slower := false, interval;
      if answer.None? {
        Send(Released);
        Send(Recorded(false));
        return true, slower;
      }
      var reply := answer.value;
      if reply.status == 429 || reply.status >= 500 || Disguised(reply.contentType) {
        Send(Released);
        Send(Recorded(false));
        slower := interval * 2;
        if slower > MAX_POLL_INTERVAL {
          slower := MAX_POLL_INTERVAL;
        }
        InvalidateCdnUrl(HangPausing(slower));
        return true, slower;
      }
      if reply.status == 416 {
        Send(Released);
        Send(Recorded(false));
        CorrectSize(reply, Returned);
        return;
      }
      if reply.status != 200 && reply.status != 206 {
        Send(Released);
        Send(Recorded(false));
        return;
      }
      Send(Recorded(true));
      Send(Copied(reply));
      Send(Released);
    }

    /** One round's URL: the primary item, then the alternatives; the last error decides about slowing down. */
    method HangFetch(interval: int) returns (ok: bool, slower: int)
      requires Valid() && pc == HangFetching(interval)
      modifies this
      ensures Valid() && Polled(old(events), events, 0)
      ensures |events| > old(|events|) && pc == if ok then HangWaiting(interval) else HangPausing(slower)
      ensures ok ==> slower == interval
    {
      slower := interval;
      var url := world.primary(|events|);
      Do(Fetched(url));
      if url.Err? {
        url := world.fallback(|events|);
        Do(FellBack(url));
      }
      ok := url.Ok?;
      if ok {
        StoreCdnUrl(HangWaiting(interval));
      } else if Contains(url.error, RATE_LIMITED) {
        slower := interval * 2;
        if slower > MAX_POLL_INTERVAL {
          slower := MAX_POLL_INTERVAL;
        }
      }
    }

    /** A slot, and the request to the CDN. */
    method HangBuild(interval: int) returns (built: bool)
      requires Valid() && pc == HangWaiting(interval)
      modifies this
      ensures Valid() && Polled(old(events), events, 0)
      ensures pc == if built then HangOpening(interval) else Returned
    {
      hide AfterHangReply, Waits;
      Do(Acquired);
      built := world.builds(|events|);
      Do(Built(built));
      if !built {
        Send(Released);
      }
    }

    /** One round's open. */
    method HangProxy(interval: int) returns (again: bool, slower: int)
      requires Valid() && pc == HangWaiting(interval)
      modifies this
      ensures Valid() && Polled(old(events), events, 0)
      ensures pc == if again then HangPausing(slower) else Returned
    {
      hide AfterHangReply, Waits;
      var built := HangBuild(interval);
      if !built {
        return false, interval;
      }
      var answer := world.answers(|events|);
      Do(Opened(answer));
      again, slower := HandleHangReply(answer, interval);
    }

    /** `handleGetCDNHang`, up to the given number of polls. */
    method HandleGetCdnHang(rounds: nat)
      requires Valid() && pc == EnterHang(q)
      modifies this
      ensures Valid() && Ended(rounds)
    {
      NothingPolled();
      hide Waits;
      if q.rangeHeader != "" && ParseRange(q.rangeHeader, q.size).Err? {
        Send(StatusLine(416));
        return;
      }
      Send(StatusLine(if q.rangeHeader == "" then 200 else 206));
      hide Next, ParseRange;
      PollUntilDone(rounds);
    }

    /** Before the status line there has been no poll. */
    ghost method NothingPolled()
      requires Valid() && pc == EnterHang(q)
      ensures Waits(events) == 0
    {
      RequestIsDisciplined(cfg, q, events);
      EnterHangHas(cfg, q, 416);
      NoPollBeforeStatus(cfg, q, events);
    }

    /** The loop of hang mode. */
    method PollUntilDone(rounds: nat)
      requires Valid() && pc == HangFetching(POLL_INTERVAL) && Waits(events) == 0
      modifies this
      ensures Valid() && Ended(rounds)
    {
      hide Next, Waits;
      var interval := POLL_INTERVAL;
      for round := 0 to rounds
        invariant Valid() && pc == HangFetching(interval)
        invariant Waits(events) == round <= |events|
        invariant forall n: nat | world.GoneBy(n) :: round <= n
      {
        var ok;
        ok, interval := HangFetch(interval);
        if ok {
          var again;
          again, interval := HangProxy(interval);
          if !again {
            return;
          }
        }
        ghost var at := |events|;
        var waited := Poll(interval);
        if !waited {
          return;
        }
        assert forall n: nat | world.GoneBy(n) :: at < n;
      }
    }

    /** A URL from the API before anything was sent; on failure the code goes on at `failed`. */
    method ObtainUrl(ghost next: Pc, ghost failed: Pc) returns (ok: bool)
      requires Valid()
      requires (pc.Fetching? && next == Proxy(cfg, q) && failed == EnterHang(q))
            || (pc.Refetching? && next == AttemptAt(cfg, pc.attempt + 1) && failed == Fail(502))
      modifies this
      ensures Valid() && pc == if ok then next else failed
    {
      hide Proxy, EnterHang, StoreUrl;
      var url := world.primary(|events|);
      Do(Fetched(url));
      if url.Err? {
        url := world.fallback(|events|);
        Do(FellBack(url));
      }
      ok := url.Ok?;
      if ok {
        StoreCdnUrl(next);
      }
    }

    /** The part of the attempt loop after the CDN has answered. */
    method HandleReply(answer: Option<Reply>, attempt: int, rounds: nat) returns (again: bool)
      requires Valid() && pc == AfterReply(cfg, q, attempt, answer) && attempt < cfg.MaxAttempts()
      modifies this
      ensures Valid() && if again then pc == AttemptAt(cfg, attempt + 1) else Ended(rounds)
    {
      hide Next, Disguised, Correct, DropUrl, EnterHang;
      again := false;
      if answer.None? {
        Send(Released);
        Send(Recorded(false));
        Send(StatusLine(502));
        return;
      }
      var reply := answer.value;
      if (reply.status == 403 || reply.status == 404) && cfg.autoRepair && attempt < cfg.MaxAttempts() - 1 {
        Send(Released);
        again := ObtainUrl(AttemptAt(cfg, attempt + 1), Fail(502));
        if !again {
          Send(StatusLine(502));
        }
        return;
      }
      if reply.status == 429 || reply.status >= 500 {
        GiveUpToHang(rounds);
        return;
      }
      if (reply.status == 200 || reply.status == 206) && Disguised(reply.contentType) {
        GiveUpToHang(rounds);
        return;
      }
      Settle(reply, attempt);
    }

    /** An answer that ends the request: an error status for the client, or the data. */
    method Settle(reply: Reply, attempt: int)
      requires Valid() && pc == AfterReply(cfg, q, attempt, Some(reply))
      requires !Repairs(cfg, attempt, reply) && !IsTransient(reply.status)
      requires reply.status == 200 || reply.status == 206 ==> !Disguised(reply.contentType)
      modifies this
      ensures Valid() && pc == Returned
    {
      hide Next, Disguised, Correct, EnterHang, DropUrl;
      if reply.status == 416 {
        Send(Released);
        Send(Recorded(false));
        CorrectSize(reply, Fail(416));
        Send(StatusLine(416));
        return;
      }
      if reply.status != 200 && reply.status != 206 {
        Send(Released);
        Send(Recorded(false));
        if (reply.status == 403 || reply.status == 404) && attempt == cfg.MaxAttempts() - 1 {
          Send(FailureCached);
        }
        Send(StatusLine(502));
        return;
      }
      Send(StatusLine(if q.rangeHeader == "" then 200 else 206));
      Send(Recorded(true));
      Send(Copied(reply));
      Send(Released);
    }

    /** A transient answer: give the slot back, forget the URL, and answer in hang mode. */
    method GiveUpToHang(rounds: nat)
      requires Valid() && pc == Must(Released, Must(Recorded(false), DropUrl(cfg, EnterHang(q))))
      modifies this
      ensures Valid() && Ended(rounds)
    {
      hide Next, EnterHang, DropUrl;
      Send(Released);
      Send(Recorded(false));
      InvalidateCdnUrl(EnterHang(q));
      HandleGetCdnHang(rounds);
    }

    /** One pass of the attempt loop. */
    method Attempt(attempt: int, rounds: nat) returns (again: bool)
      requires Valid() && pc == Building(attempt) && attempt < cfg.MaxAttempts()
      modifies this
      ensures Valid() && if again then pc == AttemptAt(cfg, attempt + 1) else Ended(rounds)
    {
      hide AfterReply, AfterHangReply, Waits, Proxy, EnterHang, AttemptAt, StoreUrl, LooksRateLimited, Query.Valid;
      again := false;
      var built := world.builds(|events|);
      Do(Built(built));
      if !built {
        Send(StatusLine(500));
        return;
      }
      Do(Acquired);
      var answer := world.answers(|events|);
      Do(Opened(answer));
      again := HandleReply(answer, attempt, rounds);
    }

    /**
     * `streamFileContent`: its events are those that the machine and the world determine, to the end or for as many
     * polls as one likes; there no slot is held, one status line is written and no byte of an error page is passed on.
     */
    method StreamFileContent(rounds: nat)
      requires Valid() && pc == Start
      modifies this
      ensures Valid() && Ended(rounds)
      ensures Disciplined(events) && Held(events) == 0 && StatusLines(events) == 1
      ensures var last := LastAnswer(events);
        pc == Returned && last.Got? && (last.reply.status == 200 || last.reply.status == 206)
        && !Disguised(last.reply.contentType)
        ==> |events| > 3 && events[|events| - 3..] == [Recorded(true), Copied(last.reply), Released]
    {
      Serve(rounds);
      RequestIsDisciplined(cfg, q, events);
      assert Slots(pc) == 0 && Owed(pc) == 0;
      ghost var last := LastAnswer(events);
      if pc == Returned && last.Got? && (last.reply.status == 200 || last.reply.status == 206)
        && !Disguised(last.reply.contentType) {
        LastGoodReplyIsStreamed(cfg, q, events);
      }
    }

    method Serve(rounds: nat)
      requires Valid() && pc == Start
      modifies this
      ensures Valid() && Ended(rounds)
    {
      var cached := world.cached;
      Do(Looked(cached));
      hide Next, Proxy, EnterHang;
      if cached.None? {
        Send(StatusLine(500));
        return;
      }
      if !cached.value {
        var ok := ObtainUrl(Proxy(cfg, q), EnterHang(q));
        if !ok {
          HandleGetCdnHang(rounds);
          return;
        }
      }
      ProxyFromCdn(rounds);
    }

    /** The range check and the attempt loop. */
    method ProxyFromCdn(rounds: nat)
      requires Valid() && pc == Proxy(cfg, q)
      modifies this
      ensures Valid() && Ended(rounds)
    {
      hide Next;
      if q.rangeHeader != "" && ParseRange(q.rangeHeader, q.size).Err? {
        Send(StatusLine(416));
        return;
      }
      hide ParseRange, Query.Valid;
      var attempt := 0;
      while attempt < cfg.MaxAttempts()
        invariant Valid() && pc == AttemptAt(cfg, attempt)
      {
        var again := Attempt(attempt, rounds);
        if !again {
          return;
        }
        attempt := attempt + 1;
      }
      AfterLoop();
    }

    /** The reply that follows the loop. */
    method AfterLoop()
      requires Valid() && pc == Exhausted
      modifies this
      ensures Valid() && pc == Returned
    {
      Do(StatusLine(502));
    }
  }
}
