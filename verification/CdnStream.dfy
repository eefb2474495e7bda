/**
 * One request for file content, from the look-up of its CDN URL to its return, as a machine over what it does: the
 * repair loop that answers with a status of its own, and the hang mode that answers at once and then polls.
 */
module CdnStream {
  import opened Wrappers
  import opened Numbers
  import opened Text
  import opened ByteRanges
  import opened ApiErrors

  const POLL_INTERVAL: int := 15 * SECOND
  const MAX_POLL_INTERVAL: int := 300 * SECOND

  /** `cdn_url_repair_retries`, `cdn_url_auto_repair`, and whether URLs are cached at all. */
  datatype Settings = Settings(repairRetries: int, autoRepair: bool, cacheUrls: bool) {
    function MaxAttempts(): int {
      repairRetries + 1
    }
  }

  /** The client's Range header ("" for none) and the recorded size of the file. */
  datatype Query = Query(rangeHeader: string, size: int) {
    predicate Valid() {
      rangeHeader == "" || ParseRange(rangeHeader, size).Ok?
    }

    function SuccessStatus(): int {
      if rangeHeader == "" then 200 else 206
    }
  }

  /** What the CDN answers to an open. */
  datatype Reply = Reply(status: int, contentType: string, contentRange: string)

  // ---------------------------------------------------------------- replies

  function LowerChar(c: char): char {
    if 'A' <= c <= 'Z' then c + 32 as char else c
  }

  /** `strings.ToLower`, as far as the letters of the markers below are concerned. */
  function Lower(s: string): (r: string)
    ensures |r| == |s|
  {
    seq(|s|, i requires 0 <= i < |s| => LowerChar(s[i]))
  }

  /** `isCDNDisguisedErrorBody`: an error page sent with a success status. */
  predicate Disguised(contentType: string) {
    "text/" <= Lower(contentType) || Contains(Lower(contentType), "html") || Contains(Lower(contentType), "json")
  }

  predicate IsTransient(status: int) {
    status == 429 || status >= 500
  }

  /** The only replies whose body may reach the client. */
  predicate Good(reply: Reply) {
    (reply.status == 200 || reply.status == 206) && !Disguised(reply.contentType)
  }

  /** The size that a 416 reports, when it is not the recorded one. */
  function Correction(q: Query, reply: Reply): Option<int> {
    match ParseCdnTrueSize(reply.contentRange)
    case Some(n) => if n != q.size then Some(n) else None
    case None => None
  }

  function Slower(poll: int): int {
    if 2 * poll > MAX_POLL_INTERVAL then MAX_POLL_INTERVAL else 2 * poll
  }

  // ---------------------------------------------------------------- the machine

  /** What a request does or meets, in order. */
  datatype Event =
    | Looked(cached: Option<bool>)
    | Fetched(url: Result<string, string>)
    | FellBack(url: Result<string, string>)
    | Built(ok: bool)
    | Acquired
    | Opened(answer: Option<Reply>)
    | Released
    | Recorded(ok: bool)
    | UrlStored
    | UrlDropped
    | SizeCorrected(size: int)
    | FailureCached
    | StatusLine(code: int)
    | Copied(reply: Reply)
    | Waited(interval: int)
    | Disconnected

  /** Where a request stands. `Must` is straight-line code: the event comes next. */
  datatype Pc =
    | Start
    | Fetching
    | FallingBack
    | Building(attempt: int)
    | Waiting(attempt: int)
    | Opening(attempt: int)
    | Refetching(attempt: int)
    | RefallingBack(attempt: int)
    | Exhausted
    | HangFetching(poll: int)
    | HangFallingBack(poll: int)
    | HangPausing(poll: int)
    | HangWaiting(poll: int)
    | HangBuilding(poll: int)
    | HangOpening(poll: int)
    | Must(e: Event, next: Pc)
    | Returned

  function Fail(code: int): Pc {
    Must(StatusLine(code), Returned)
  }

  function StoreUrl(cfg: Settings, next: Pc): Pc {
    if cfg.cacheUrls then Must(UrlStored, next) else next
  }

  function DropUrl(cfg: Settings, next: Pc): Pc {
    if cfg.cacheUrls then Must(UrlDropped, next) else next
  }

  function Correct(cfg: Settings, q: Query, reply: Reply, next: Pc): Pc {
    match Correction(q, reply)
    case Some(n) => Must(SizeCorrected(n), DropUrl(cfg, Must(FailureCached, next)))
    case None => next
  }

  /** The head of the attempt loop. */
  function AttemptAt(cfg: Settings, attempt: int): Pc {
    if attempt < cfg.MaxAttempts() then Building(attempt) else Exhausted
  }

  /** With a URL in hand: the range check, then the attempts. */
  function Proxy(cfg: Settings, q: Query): Pc {
    if q.Valid() then AttemptAt(cfg, 0) else Fail(416)
  }

  function EnterHang(q: Query): Pc {
    if q.Valid() then Must(StatusLine(q.SuccessStatus()), HangFetching(POLL_INTERVAL)) else Fail(416)
  }

  predicate Repairs(cfg: Settings, attempt: int, reply: Reply) {
    (reply.status == 403 || reply.status == 404) && cfg.autoRepair && attempt < cfg.MaxAttempts() - 1
  }

  function AfterReply(cfg: Settings, q: Query, attempt: int, answer: Option<Reply>): Pc {
    match answer
    case None => Must(Released, Must(Recorded(false), Fail(502)))
    case Some(reply) =>
      if Repairs(cfg, attempt, reply) then Must(Released, Refetching(attempt))
      else if IsTransient(reply.status) then
        Must(Released, Must(Recorded(false), DropUrl(cfg, EnterHang(q))))
      else if reply.status == 416 then
        Must(Released, Must(Recorded(false), Correct(cfg, q, reply, Fail(416))))
      else if reply.status != 200 && reply.status != 206 then
        Must(Released, Must(Recorded(false),
          if (reply.status == 403 || reply.status == 404) && attempt == cfg.MaxAttempts() - 1
          then Must(FailureCached, Fail(502)) else Fail(502)))
      else if Disguised(reply.contentType) then
        Must(Released, Must(Recorded(false), DropUrl(cfg, EnterHang(q))))
      else
        Must(StatusLine(q.SuccessStatus()), Must(Recorded(true), Must(Copied(reply), Must(Released, Returned))))
  }

  function AfterHangReply(cfg: Settings, q: Query, poll: int, answer: Option<Reply>): Pc {
    match answer
    case None => Must(Released, Must(Recorded(false), HangPausing(poll)))
    case Some(reply) =>
      if IsTransient(reply.status) || Disguised(reply.contentType) then
        Must(Released, Must(Recorded(false), DropUrl(cfg, HangPausing(Slower(poll)))))
      else if reply.status == 416 then
        Must(Released, Must(Recorded(false), Correct(cfg, q, reply, Returned)))
      else if reply.status != 200 && reply.status != 206 then
        Must(Released, Must(Recorded(false), Returned))
      else
        Must(Recorded(true), Must(Copied(reply), Must(Released, Returned)))
  }

  predicate LooksRateLimited(error: string) {
    Contains(error, RATE_LIMITED)
  }

  /** The state after `e`, if the code can do `e` in state `pc`. */
  function Next(cfg: Settings, q: Query, pc: Pc, e: Event): Option<Pc> {
    match pc
    case Start =>
      if !e.Looked? then None
      else if e.cached.None? then Some(Fail(500))
      else Some(if e.cached.value then Proxy(cfg, q) else Fetching)
    case Fetching =>
      if e.Fetched? then Some(if e.url.Ok? then StoreUrl(cfg, Proxy(cfg, q)) else FallingBack) else None
    case FallingBack =>
      if e.FellBack? then Some(if e.url.Ok? then StoreUrl(cfg, Proxy(cfg, q)) else EnterHang(q)) else None
    case Building(i) => if e.Built? then Some(if e.ok then Waiting(i) else Fail(500)) else None
    case Waiting(i) => if e.Acquired? then Some(Opening(i)) else None
    case Opening(i) => if e.Opened? then Some(AfterReply(cfg, q, i, e.answer)) else None
    case Refetching(i) =>
      if e.Fetched? then Some(if e.url.Ok? then StoreUrl(cfg, AttemptAt(cfg, i + 1)) else RefallingBack(i)) else None
    case RefallingBack(i) =>
      if e.FellBack? then Some(if e.url.Ok? then StoreUrl(cfg, AttemptAt(cfg, i + 1)) else Fail(502)) else None
    case Exhausted => if e == StatusLine(502) then Some(Returned) else None
    case HangFetching(poll) =>
      if e.Fetched? then Some(if e.url.Ok? then StoreUrl(cfg, HangWaiting(poll)) else HangFallingBack(poll)) else None
    case HangFallingBack(poll) =>
      if e.FellBack? then
        Some(match e.url
             case Ok(_) => StoreUrl(cfg, HangWaiting(poll))
             case Err(error) => HangPausing(if LooksRateLimited(error) then Slower(poll) else poll))
      else None
    case HangPausing(poll) =>
      if e == Waited(poll) then Some(HangFetching(poll)) else if e.Disconnected? then Some(Returned) else None
    case HangWaiting(poll) => if e.Acquired? then Some(HangBuilding(poll)) else None
    case HangBuilding(poll) =>
      if e.Built? then Some(if e.ok then HangOpening(poll) else Must(Released, Returned)) else None
    case HangOpening(poll) => if e.Opened? then Some(AfterHangReply(cfg, q, poll, e.answer)) else None
    case Must(expected, next) => if e == expected then Some(next) else None
    case Returned => None
  }

  /** Where a request is after the events, if the code can have done them. */
  function After(cfg: Settings, q: Query, events: seq<Event>): Option<Pc> {
    if events == [] then Some(Start)
    else
      match After(cfg, q, events[..|events| - 1])
      case None => None
      case Some(pc) => Next(cfg, q, pc, events[|events| - 1])
  }

  // ---------------------------------------------------------------- the invariant

  /** CDN slots that a request in this state holds. */
  function Slots(pc: Pc): nat {
    match pc
    case Opening(_) => 1
    case HangBuilding(_) => 1
    case HangOpening(_) => 1
    case Must(e, next) => (if e.Released? then 1 else 0) + Slots(next)
    case _ => 0
  }

  /** Status lines that it still owes the client. */
  function Owed(pc: Pc): nat {
    match pc
    case HangFetching(_) => 0
    case HangFallingBack(_) => 0
    case HangPausing(_) => 0
    case HangWaiting(_) => 0
    case HangBuilding(_) => 0
    case HangOpening(_) => 0
    case Returned => 0
    case Must(e, next) => (if e.StatusLine? then 1 else 0) + Owed(next)
    case _ => 1
  }

  /** Whether it has a URL that no open has used yet. */
  predicate HasUrl(pc: Pc) {
    match pc
    case Building(_) => true
    case Waiting(_) => true
    case Opening(_) => true
    case HangWaiting(_) => true
    case HangBuilding(_) => true
    case HangOpening(_) => true
    case Must(_, next) => HasUrl(next)
    case _ => false
  }

  predicate IsLocal(e: Event) {
    e.Released? || e.Recorded? || e.UrlStored? || e.UrlDropped? || e.SizeCorrected? || e.FailureCached?
    || e.StatusLine? || e.Copied?
  }

  predicate Shape(cfg: Settings, pc: Pc) {
    match pc
    case Building(i) => 0 <= i < cfg.MaxAttempts()
    case Waiting(i) => 0 <= i < cfg.MaxAttempts()
    case Opening(i) => 0 <= i < cfg.MaxAttempts()
    case Refetching(i) => 0 <= i < cfg.MaxAttempts() - 1
    case RefallingBack(i) => 0 <= i < cfg.MaxAttempts() - 1
    case Exhausted => cfg.repairRetries < 0
    case Must(e, next) =>
      && Shape(cfg, next) && IsLocal(e) && Slots(pc) <= 1 && Owed(pc) <= 1
      && (e.Copied? ==> Good(e.reply) && Slots(pc) == 1 && Owed(pc) == 0)
      && !(HasUrl(next) && Slots(pc) == 1)
    case _ => true
  }

  // ---------------------------------------------------------------- every event keeps it

  function Count(b: bool): int {
    if b then 1 else 0
  }

  /** What an event demands of the state it happens in, and what it does to the slots, status lines and URL. */
  ghost predicate Sound(cfg: Settings, pc: Pc, e: Event, next: Pc) {
    && Shape(cfg, next)
    && Slots(next) == Slots(pc) + Count(e.Acquired?) - Count(e.Released?) && Slots(next) <= 1
    && Owed(next) == Owed(pc) - Count(e.StatusLine?)
    && (e.Opened? ==> Slots(pc) == 1 && HasUrl(pc) && !HasUrl(next))
    && (HasUrl(next) && !HasUrl(pc) ==>
          e == Looked(Some(true)) || ((e.Fetched? || e.FellBack?) && e.url.Ok?))
    && (e.Looked? || e.Fetched? || e.FellBack? || e.Acquired? || e.Waited? || e.Disconnected? ==> Slots(pc) == 0)
    && (e.Copied? ==> Good(e.reply) && Slots(pc) == 1 && Owed(pc) == 0)
  }

  /** A well-formed state that holds `slots` slots, owes `owed` status lines and has no URL to open. */
  predicate Has(cfg: Settings, pc: Pc, slots: nat, owed: nat) {
    Shape(cfg, pc) && Slots(pc) == slots && Owed(pc) == owed && !HasUrl(pc)
  }

  lemma {:induction false} Before(cfg: Settings, e: Event, next: Pc, slots: nat, owed: nat)
    requires Has(cfg, next, slots, owed) && IsLocal(e)
    requires slots + Count(e.Released?) <= 1 && owed + Count(e.StatusLine?) <= 1
    requires e.Copied? ==> Good(e.reply) && slots == 1 && owed == 0
    ensures Has(cfg, Must(e, next), slots + Count(e.Released?), owed + Count(e.StatusLine?))
  {
    hide Good;
  }

  lemma {:induction false} DropHas(cfg: Settings, next: Pc, slots: nat, owed: nat)
    requires Has(cfg, next, slots, owed) && slots <= 1 && owed <= 1
    ensures Has(cfg, DropUrl(cfg, next), slots, owed)
  {
    Before(cfg, UrlDropped, next, slots, owed);
  }

  lemma {:induction false} CorrectHas(cfg: Settings, q: Query, reply: Reply, next: Pc, slots: nat, owed: nat)
    requires Has(cfg, next, slots, owed) && slots <= 1 && owed <= 1
    ensures Has(cfg, Correct(cfg, q, reply, next), slots, owed)
  {
    hide Has, Correction, DropUrl;
    match Correction(q, reply) {
      case None =>
      case Some(n) =>
        Before(cfg, FailureCached, next, slots, owed);
        DropHas(cfg, Must(FailureCached, next), slots, owed);
        Before(cfg, SizeCorrected(n), DropUrl(cfg, Must(FailureCached, next)), slots, owed);
    }
  }

  /** What a reply that is not streamed leads to: the slot goes back and the failure is noted before anything else. */
  lemma {:induction false} GiveBackHas(cfg: Settings, next: Pc, owed: nat)
    requires Has(cfg, next, 0, owed) && owed <= 1
    ensures Has(cfg, Must(Released, Must(Recorded(false), next)), 1, owed)
  {
    Before(cfg, Recorded(false), next, 0, owed);
    Before(cfg, Released, Must(Recorded(false), next), 0, owed);
  }

  lemma {:induction false} CopyHas(cfg: Settings, reply: Reply)
    requires Good(reply)
    ensures Has(cfg, Must(Recorded(true), Must(Copied(reply), Must(Released, Returned))), 1, 0)
  {
    assert Has(cfg, Returned, 0, 0);
    hide Has;
    Before(cfg, Released, Returned, 0, 0);
    Before(cfg, Copied(reply), Must(Released, Returned), 1, 0);
    Before(cfg, Recorded(true), Must(Copied(reply), Must(Released, Returned)), 1, 0);
  }

  lemma {:induction false} EnterHangHas(cfg: Settings, q: Query, code: int)
    ensures Has(cfg, EnterHang(q), 0, 1) && Has(cfg, Fail(code), 0, 1)
  {
    hide Query.Valid, Query.SuccessStatus;
    assert Has(cfg, Returned, 0, 0) && Has(cfg, HangFetching(POLL_INTERVAL), 0, 0);
    Before(cfg, StatusLine(code), Returned, 0, 0);
    Before(cfg, StatusLine(416), Returned, 0, 0);
    Before(cfg, StatusLine(q.SuccessStatus()), HangFetching(POLL_INTERVAL), 0, 0);
    hide Has;
  }

  lemma {:induction false} ProxyShape(cfg: Settings, q: Query)
    ensures Shape(cfg, Proxy(cfg, q)) && Slots(Proxy(cfg, q)) == 0 && Owed(Proxy(cfg, q)) == 1
  {
    EnterHangHas(cfg, q, 416);
    hide Query.Valid;
  }

  lemma {:induction false} StoreUrlShape(cfg: Settings, next: Pc)
    requires Shape(cfg, next) && Slots(next) == 0 && Owed(next) <= 1
    ensures var pc := StoreUrl(cfg, next);
      Shape(cfg, pc) && Slots(pc) == 0 && Owed(pc) == Owed(next) && HasUrl(pc) == HasUrl(next)
  {
  }

  /** The four ways on from a reply that is not streamed, none of which needs the slot. */
  lemma {:induction false} FailureShape(cfg: Settings, q: Query, reply: Reply)
    ensures Has(cfg, Fail(502), 0, 1)
    ensures Has(cfg, Must(FailureCached, Fail(502)), 0, 1)
    ensures Has(cfg, DropUrl(cfg, EnterHang(q)), 0, 1)
    ensures Has(cfg, Correct(cfg, q, reply, Fail(416)), 0, 1)
  {
    hide Has, Correct, DropUrl, EnterHang, Fail;
    EnterHangHas(cfg, q, 416);
    EnterHangHas(cfg, q, 502);
    DropHas(cfg, EnterHang(q), 0, 1);
    Before(cfg, FailureCached, Fail(502), 0, 1);
    CorrectHas(cfg, q, reply, Fail(416), 0, 1);
  }

  lemma {:induction false} StreamShape(cfg: Settings, q: Query, reply: Reply)
    requires Good(reply)
    ensures var copy := Must(Recorded(true), Must(Copied(reply), Must(Released, Returned)));
      Has(cfg, Must(StatusLine(q.SuccessStatus()), copy), 1, 1)
  {
    hide Has, Good, Query.SuccessStatus;
    var copy := Must(Recorded(true), Must(Copied(reply), Must(Released, Returned)));
    CopyHas(cfg, reply);
    Before(cfg, StatusLine(q.SuccessStatus()), copy, 1, 0);
  }

  lemma {:induction false} RepairShape(cfg: Settings, i: int)
    requires 0 <= i < cfg.MaxAttempts() - 1
    ensures Has(cfg, Must(Released, Refetching(i)), 1, 1)
  {
    Before(cfg, Released, Refetching(i), 0, 1);
  }

  lemma {:induction false} ReplyShape(cfg: Settings, q: Query, i: int, answer: Option<Reply>)
    requires 0 <= i < cfg.MaxAttempts()
    ensures Has(cfg, AfterReply(cfg, q, i, answer), 1, 1)
  {
    hide Has, Disguised, Correct, DropUrl, EnterHang, Fail, Query.SuccessStatus;
    match answer {
      case None =>
        EnterHangHas(cfg, q, 502);
        GiveBackHas(cfg, Fail(502), 1);
      case Some(reply) =>
        FailureShape(cfg, q, reply);
        if Repairs(cfg, i, reply) {
          RepairShape(cfg, i);
        } else if Good(reply) {
          StreamShape(cfg, q, reply);
        } else {
          FailedReplyShape(cfg, q, i, reply);
        }
    }
  }

  lemma {:induction false} FailedReplyShape(cfg: Settings, q: Query, i: int, reply: Reply)
    requires !Repairs(cfg, i, reply) && !Good(reply)
    ensures Has(cfg, AfterReply(cfg, q, i, Some(reply)), 1, 1)
  {
    hide Has, Disguised, Correct, DropUrl, EnterHang, Fail, Repairs;
    FailureShape(cfg, q, reply);
    GiveBackHas(cfg, Fail(502), 1);
    GiveBackHas(cfg, Must(FailureCached, Fail(502)), 1);
    GiveBackHas(cfg, DropUrl(cfg, EnterHang(q)), 1);
    GiveBackHas(cfg, Correct(cfg, q, reply, Fail(416)), 1);
  }

  lemma {:induction false} HangReplyShape(cfg: Settings, q: Query, poll: int, answer: Option<Reply>)
    ensures Has(cfg, AfterHangReply(cfg, q, poll, answer), 1, 0)
  {
    PauseHas(cfg, poll);
    PauseHas(cfg, Slower(poll));
    hide Has, Disguised, Correct, DropUrl, Slower;
    match answer {
      case None =>
        GiveBackHas(cfg, HangPausing(poll), 0);
      case Some(reply) =>
        if Good(reply) {
          CopyHas(cfg, reply);
        } else {
          CorrectHas(cfg, q, reply, Returned, 0, 0);
          DropHas(cfg, HangPausing(Slower(poll)), 0, 0);
          GiveBackHas(cfg, Returned, 0);
          GiveBackHas(cfg, DropUrl(cfg, HangPausing(Slower(poll))), 0);
          GiveBackHas(cfg, Correct(cfg, q, reply, Returned), 0);
        }
    }
  }

  lemma {:induction false} PauseHas(cfg: Settings, poll: int)
    ensures Has(cfg, HangPausing(poll), 0, 0) && Has(cfg, Returned, 0, 0)
  {
  }

  lemma {:induction false} MustSound(cfg: Settings, q: Query, pc: Pc, e: Event)
    requires pc.Must? && Shape(cfg, pc) && Slots(pc) <= 1 && Next(cfg, q, pc, e).Some?
    ensures Sound(cfg, pc, e, Next(cfg, q, pc, e).value)
  {
    hide Good;
    assert pc == Must(e, Next(cfg, q, pc, e).value);
  }

  lemma {:induction false} FetchSound(cfg: Settings, q: Query, pc: Pc, e: Event)
    requires pc.Start? || pc.Fetching? || pc.FallingBack?
    requires Next(cfg, q, pc, e).Some?
    ensures Sound(cfg, pc, e, Next(cfg, q, pc, e).value)
  {
    ProxyShape(cfg, q);
    StoreUrlShape(cfg, Proxy(cfg, q));
    EnterHangHas(cfg, q, 500);
    hide EnterHang, Proxy, StoreUrl, Good, Fail;
  }

  lemma {:induction false} RefetchSound(cfg: Settings, q: Query, pc: Pc, e: Event)
    requires pc.Refetching? || pc.RefallingBack?
    requires Shape(cfg, pc) && Next(cfg, q, pc, e).Some?
    ensures Sound(cfg, pc, e, Next(cfg, q, pc, e).value)
  {
    StoreUrlShape(cfg, AttemptAt(cfg, pc.attempt + 1));
    EnterHangHas(cfg, q, 502);
    hide EnterHang, Proxy, StoreUrl, Good, Fail;
  }

  lemma {:induction false} HangFetchSound(cfg: Settings, q: Query, pc: Pc, e: Event)
    requires pc.HangFetching? || pc.HangFallingBack? || pc.HangPausing?
    requires Next(cfg, q, pc, e).Some?
    ensures Sound(cfg, pc, e, Next(cfg, q, pc, e).value)
  {
    StoreUrlShape(cfg, HangWaiting(pc.poll));
    hide StoreUrl, LooksRateLimited, Slower, Good;
  }

  lemma {:induction false} ReplySound(cfg: Settings, q: Query, pc: Pc, e: Event)
    requires pc.Opening? || pc.HangOpening?
    requires Shape(cfg, pc) && Next(cfg, q, pc, e).Some?
    ensures Sound(cfg, pc, e, Next(cfg, q, pc, e).value)
  {
    hide AfterReply, AfterHangReply, Good;
    if pc.Opening? {
      ReplyShape(cfg, q, pc.attempt, e.answer);
    } else {
      HangReplyShape(cfg, q, pc.poll, e.answer);
    }
  }

  lemma {:induction false} OpenSound(cfg: Settings, q: Query, pc: Pc, e: Event)
    requires pc.Building? || pc.Waiting? || pc.Exhausted? || pc.HangWaiting? || pc.HangBuilding?
    requires Shape(cfg, pc) && Next(cfg, q, pc, e).Some?
    ensures Sound(cfg, pc, e, Next(cfg, q, pc, e).value)
  {
    PauseHas(cfg, 0);
    Before(cfg, Released, Returned, 0, 0);
    EnterHangHas(cfg, q, 500);
    hide AfterReply, AfterHangReply, Good, Fail, EnterHang;
  }

  lemma {:induction false} StepIsSound(cfg: Settings, q: Query, pc: Pc, e: Event)
    requires Shape(cfg, pc) && Slots(pc) <= 1 && Next(cfg, q, pc, e).Some?
    ensures Sound(cfg, pc, e, Next(cfg, q, pc, e).value)
  {
    hide Sound, Shape, Slots;
    if pc.Must? {
      MustSound(cfg, q, pc, e);
    } else if pc.Start? || pc.Fetching? || pc.FallingBack? {
      FetchSound(cfg, q, pc, e);
    } else if pc.Refetching? || pc.RefallingBack? {
      RefetchSound(cfg, q, pc, e);
    } else if pc.HangFetching? || pc.HangFallingBack? || pc.HangPausing? {
      HangFetchSound(cfg, q, pc, e);
    } else if pc.Opening? || pc.HangOpening? {
      ReplySound(cfg, q, pc, e);
    } else {
      assert !pc.Returned?;
      OpenSound(cfg, q, pc, e);
    }
  }

  // ---------------------------------------------------------------- what follows for every request

  /** Slots taken and not given back. */
  function Held(events: seq<Event>): int {
    if events == [] then 0
    else
      var e := events[|events| - 1];
      Held(events[..|events| - 1]) + Count(e.Acquired?) - Count(e.Released?)
  }

  function StatusLines(events: seq<Event>): int {
    if events == [] then 0
    else StatusLines(events[..|events| - 1]) + Count(events[|events| - 1].StatusLine?)
  }

  /** Polls that were slept through. */
  function Waits(events: seq<Event>): int {
    if events == [] then 0
    else Waits(events[..|events| - 1]) + Count(events[|events| - 1].Waited?)
  }

  /** Whether a URL was obtained since the last open. */
  predicate FreshUrl(events: seq<Event>) {
    events != [] &&
    (var e := events[|events| - 1];
     if e == Looked(Some(true)) || ((e.Fetched? || e.FellBack?) && e.url.Ok?) then true
     else !e.Opened? && FreshUrl(events[..|events| - 1]))
  }

  /** The discipline of one event after those before it. */
  predicate Lawful(before: seq<Event>, e: Event) {
    && 0 <= Held(before) + Count(e.Acquired?) - Count(e.Released?) <= 1
    && StatusLines(before) + Count(e.StatusLine?) <= 1
    && (e.Opened? ==> Held(before) == 1 && FreshUrl(before))
    && (e.Looked? || e.Fetched? || e.FellBack? || e.Acquired? || e.Waited? || e.Disconnected? ==> Held(before) == 0)
    && (e.Copied? ==> Good(e.reply) && Held(before) == 1 && StatusLines(before) == 1)
  }

  predicate Disciplined(events: seq<Event>) {
    events == [] ||
    (Disciplined(events[..|events| - 1]) && Lawful(events[..|events| - 1], events[|events| - 1]))
  }

  ghost predicate Tracks(cfg: Settings, events: seq<Event>, pc: Pc) {
    && Shape(cfg, pc) && Slots(pc) == Held(events) <= 1
    && Owed(pc) + StatusLines(events) == 1
    && (HasUrl(pc) ==> FreshUrl(events))
  }

  /**
   * Whatever the API, the CDN and the client do: a request opens the CDN only with the one slot it holds and a URL not
   * used before; it holds none while it fetches a URL, waits for a slot or a poll, or has returned; it writes exactly
   * one status line, and passes on the body of no reply but a 200 or 206 with a media type, after that line.
   */
  lemma {:induction false} RequestIsDisciplined(cfg: Settings, q: Query, events: seq<Event>)
    requires After(cfg, q, events).Some?
    ensures Disciplined(events) && Tracks(cfg, events, After(cfg, q, events).value)
    ensures After(cfg, q, events) == Some(Returned) ==> Held(events) == 0 && StatusLines(events) == 1
  {
    if events != [] {
      var init, e := events[..|events| - 1], events[|events| - 1];
      RequestIsDisciplined(cfg, q, init);
      var pc := After(cfg, q, init).value;
      StepIsSound(cfg, q, pc, e);
      hide Next, Shape, Slots, HasUrl, Good;
      assert Next(cfg, q, pc, e) == After(cfg, q, events);
    }
  }

  lemma {:induction false} ReachableShape(cfg: Settings, q: Query, events: seq<Event>)
    requires After(cfg, q, events).Some?
    ensures Shape(cfg, After(cfg, q, events).value)
  {
    RequestIsDisciplined(cfg, q, events);
  }

  lemma {:induction false} WaitOwesNothing(cfg: Settings, q: Query, pc: Pc, e: Event)
    requires Next(cfg, q, pc, e).Some?
    ensures e.Waited? ==> pc.Must? || Owed(pc) == 0
    ensures e.Waited? && Shape(cfg, pc) ==> !pc.Must?
  {
  }

  /** A request only polls once the client has its status line. */
  lemma {:induction false} NoPollBeforeStatus(cfg: Settings, q: Query, events: seq<Event>)
    requires After(cfg, q, events).Some? && StatusLines(events) == 0
    ensures Waits(events) == 0
  {
    if events != [] {
      var init, e := events[..|events| - 1], events[|events| - 1];
      RequestIsDisciplined(cfg, q, init);
      RequestIsDisciplined(cfg, q, events);
      WaitOwesNothing(cfg, q, After(cfg, q, init).value, e);
      hide Next, Shape, Disciplined;
      NoPollBeforeStatus(cfg, q, init);
    }
  }
}
