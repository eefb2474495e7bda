/** How often a request goes back to the CDN: the poll interval of hang mode, and the bound on repairs before it. */
module CdnPolling {
  import opened Wrappers
  import opened Numbers
  import opened Int64
  import opened CdnStream

  // ---------------------------------------------------------------- the poll interval

  /** The failures since hang mode began that slow the polling down. */
  function Slowdowns(cfg: Settings, q: Query, events: seq<Event>): nat {
    if events == [] then 0
    else
      var init, e := events[..|events| - 1], events[|events| - 1];
      var pc := After(cfg, q, init);
      Slowdowns(cfg, q, init) + if pc.Some? && SlowsDown(pc.value, e) then 1 else 0
  }

  predicate SlowsDown(pc: Pc, e: Event) {
    match pc
    case HangFallingBack(_) => e.FellBack? && e.url.Err? && LooksRateLimited(e.url.error)
    case HangOpening(_) =>
      && e.Opened? && e.answer.Some?
      && (IsTransient(e.answer.value.status) || Disguised(e.answer.value.contentType))
    case _ => false
  }

  function Interval(k: nat): int {
    if POLL_INTERVAL * Pow2(k) > MAX_POLL_INTERVAL then MAX_POLL_INTERVAL else POLL_INTERVAL * Pow2(k)
  }

  lemma {:induction false} IntervalIs(k: nat)
    ensures Interval(k) == Min(300 * SECOND, 15 * SECOND * Pow2(k))
  {
  }

  lemma {:induction false} SlowerIsNext(k: nat)
    ensures Slower(Interval(k)) == Interval(k + 1)
  {
    assert Pow2(k + 1) == 2 * Pow2(k);
  }

  /** Where straight-line code ends. */
  function Tail(pc: Pc): Pc {
    if pc.Must? then Tail(pc.next) else pc
  }

  /** The poll interval of a state in hang mode. */
  function PollOf(pc: Pc): Option<int> {
    match Tail(pc)
    case HangFetching(poll) => Some(poll)
    case HangFallingBack(poll) => Some(poll)
    case HangPausing(poll) => Some(poll)
    case HangWaiting(poll) => Some(poll)
    case HangBuilding(poll) => Some(poll)
    case HangOpening(poll) => Some(poll)
    case _ => None
  }

  /** Whether hang mode has not begun, and may yet. */
  predicate BeforeHang(pc: Pc) {
    PollOf(pc).None? && !Tail(pc).Returned?
  }

  lemma {:induction false} TailOfMust()
    ensures forall e, next :: Tail(Must(e, next)) == Tail(next)
    ensures forall pc: Pc | !pc.Must? :: Tail(pc) == pc
  {
  }

  lemma {:induction false} ReplyTail(cfg: Settings, q: Query, i: int, answer: Option<Reply>)
    ensures Tail(AfterReply(cfg, q, i, answer)) in {Returned, Refetching(i), HangFetching(POLL_INTERVAL)}
  {
    TailOfMust();
    hide Tail, Disguised, Correction, Query.Valid, Query.SuccessStatus;
  }

  lemma {:induction false} HangReplyTail(cfg: Settings, q: Query, poll: int, answer: Option<Reply>)
    ensures Tail(AfterHangReply(cfg, q, poll, answer)) in
      {Returned, HangPausing(if SlowsDown(HangOpening(poll), Opened(answer)) then Slower(poll) else poll)}
  {
    TailOfMust();
    hide Tail, Disguised, Correction, Slower;
  }

  lemma {:induction false} PollStep(cfg: Settings, q: Query, pc: Pc, e: Event)
    requires Next(cfg, q, pc, e).Some?
    ensures var next := Next(cfg, q, pc, e).value;
      && (BeforeHang(next) ==> BeforeHang(pc) && !SlowsDown(pc, e))
      && (PollOf(next).Some? ==>
            (BeforeHang(pc) && PollOf(next) == Some(POLL_INTERVAL) && !SlowsDown(pc, e))
            || (PollOf(pc).Some? && PollOf(next) == Some(
                  if SlowsDown(pc, e) then Slower(PollOf(pc).value) else PollOf(pc).value)))
  {
    TailOfMust();
    if pc.Opening? {
      ReplyTail(cfg, q, pc.attempt, e.answer);
    } else if pc.HangOpening? {
      HangReplyTail(cfg, q, pc.poll, e.answer);
    }
    hide Tail, AfterReply, AfterHangReply, Disguised, LooksRateLimited, IsTransient, Slower, Query.Valid,
         Query.SuccessStatus;
  }

  lemma {:induction false} FirstInterval()
    ensures Interval(0) == POLL_INTERVAL
    ensures BeforeHang(Start) && PollOf(Start).None?
  {
  }

  lemma {:induction false} WaitedPoll(cfg: Settings, q: Query, pc: Pc, e: Event)
    requires Shape(cfg, pc) && Next(cfg, q, pc, e).Some?
    ensures e.Waited? ==> PollOf(pc) == Some(e.interval)
  {
  }

  /**
   * Hang mode polls every `Interval(k)`, where k counts the failures that slowed it down: a URL fetch whose final error
   * looks rate-limited, or a transient or disguised answer to an open. Every wait lasts exactly that long.
   */
  lemma {:induction false} PollingBacksOff(cfg: Settings, q: Query, events: seq<Event>)
    requires After(cfg, q, events).Some?
    ensures var pc := After(cfg, q, events).value; var k := Slowdowns(cfg, q, events);
      && (BeforeHang(pc) ==> k == 0)
      && (PollOf(pc).Some? ==> PollOf(pc).value == Interval(k))
    ensures events != [] && events[|events| - 1].Waited? ==>
      events[|events| - 1].interval
        == Min(300 * SECOND, 15 * SECOND * Pow2(Slowdowns(cfg, q, events[..|events| - 1])))
  {
    FirstInterval();
    hide Next, Shape, BeforeHang, PollOf, SlowsDown, Slower, Interval;
    if events != [] {
      var init, e := events[..|events| - 1], events[|events| - 1];
      PollingBacksOff(cfg, q, init);
      var pc := After(cfg, q, init).value;
      PollStep(cfg, q, pc, e);
      SlowerIsNext(Slowdowns(cfg, q, init));
      ReachableShape(cfg, q, init);
      WaitedPoll(cfg, q, pc, e);
      IntervalIs(Slowdowns(cfg, q, init));
    }
  }

  // ---------------------------------------------------------------- the repair loop

  /** Opens of the CDN before hang mode. */
  function MainOpens(cfg: Settings, q: Query, events: seq<Event>): nat {
    if events == [] then 0
    else
      var init := events[..|events| - 1];
      var pc := After(cfg, q, init);
      MainOpens(cfg, q, init) + if pc.Some? && pc.value.Opening? then 1 else 0
  }

  /** The opens behind a state that may still lead to one. */
  function OpensBehind(pc: Pc): Option<int> {
    match Tail(pc)
    case Start => Some(0)
    case Fetching => Some(0)
    case FallingBack => Some(0)
    case Building(i) => Some(i)
    case Waiting(i) => Some(i)
    case Opening(i) => Some(i)
    case Refetching(i) => Some(i + 1)
    case RefallingBack(i) => Some(i + 1)
    case _ => None
  }

  lemma {:induction false} OpensStep(cfg: Settings, q: Query, pc: Pc, e: Event)
    requires Next(cfg, q, pc, e).Some?
    ensures var next := Next(cfg, q, pc, e).value;
      OpensBehind(next).Some? ==>
        OpensBehind(pc).Some? && OpensBehind(next).value == OpensBehind(pc).value + Count(pc.Opening?)
  {
    TailOfMust();
    if pc.Opening? {
      ReplyTail(cfg, q, pc.attempt, e.answer);
    } else if pc.HangOpening? {
      HangReplyTail(cfg, q, pc.poll, e.answer);
    }
    hide AfterReply, AfterHangReply, Disguised, LooksRateLimited, Slower, Query.Valid, Query.SuccessStatus;
  }

  /** Before hang mode a request opens the CDN at most once plus the configured number of repairs. */
  lemma {:induction false} RepairsAreBounded(cfg: Settings, q: Query, events: seq<Event>)
    requires cfg.repairRetries >= 0 && After(cfg, q, events).Some?
    ensures MainOpens(cfg, q, events) <= cfg.MaxAttempts()
    ensures var behind := OpensBehind(After(cfg, q, events).value);
      behind.Some? ==> behind.value == MainOpens(cfg, q, events)
  {
    assert OpensBehind(Start) == Some(0);
    hide OpensBehind, Next;
    if events != [] {
      var init, e := events[..|events| - 1], events[|events| - 1];
      RepairsAreBounded(cfg, q, init);
      var pc := After(cfg, q, init).value;
      OpensStep(cfg, q, pc, e);
      ReachableShape(cfg, q, init);
      OpeningBehind(pc);
    }
  }

  lemma {:induction false} OpeningBehind(pc: Pc)
    ensures pc.Opening? ==> OpensBehind(pc) == Some(pc.attempt)
  {
  }
}
