/** Why a request does what it does: every effect answers the CDN's last reply. */
module CdnEffects {
  import opened Wrappers
  import opened CdnStream

  /** The CDN's last answer so far: nothing was opened yet, the network failed, or a reply came. */
  datatype Answer = Unopened | NetworkError | Got(reply: Reply)

  function AnswerOf(answer: Option<Reply>): Answer {
    match answer case None => NetworkError case Some(reply) => Got(reply)
  }

  function LastAnswer(events: seq<Event>): Answer {
    if events == [] then Unopened
    else
      var e := events[|events| - 1];
      if e.Opened? then AnswerOf(e.answer) else LastAnswer(events[..|events| - 1])
  }

  predicate GotStatus(last: Answer, status: int) {
    last.Got? && last.reply.status == status
  }

  predicate GotStale(last: Answer) {
    GotStatus(last, 403) || GotStatus(last, 404)
  }

  predicate GotTransient(last: Answer) {
    last.Got? && IsTransient(last.reply.status)
  }

  /** Data, or an error page that looks like data. */
  predicate GotContent(last: Answer) {
    GotStatus(last, 200) || GotStatus(last, 206)
  }

  /** What the client may be told: success only for data or in the hope of it, an error only for its cause. */
  predicate Honest(cfg: Settings, q: Query, last: Answer, code: int) {
    if code == q.SuccessStatus() then q.Valid() && (last.Unopened? || GotContent(last) || GotTransient(last))
    else if code == 416 then !q.Valid() || GotStatus(last, 416)
    else if code == 502 then
      || cfg.repairRetries < 0
      || last.NetworkError?
      || (last.Got? && !GotContent(last) && !GotTransient(last) && !GotStatus(last, 416))
    else code == 500 && (last.Unopened? || GotStale(last))
  }

  /** What justifies an event in the light of the last answer. */
  predicate Justified(cfg: Settings, q: Query, last: Answer, e: Event) {
    match e
    case StatusLine(code) => Honest(cfg, q, last, code)
    case Recorded(ok) => !last.Unopened? && (ok <==> last.Got? && Good(last.reply))
    case SizeCorrected(size) => GotStatus(last, 416) && Correction(q, last.reply) == Some(size)
    case FailureCached => GotStatus(last, 416) || GotStale(last)
    case UrlDropped => last.Got? && (GotTransient(last) || Disguised(last.reply.contentType) || GotStatus(last, 416))
    case Copied(reply) => last == Got(reply)
    case _ => true
  }

  /** Everything that straight-line code will do is justified; only a stale URL leads from one attempt to the next. */
  predicate InContext(cfg: Settings, q: Query, pc: Pc, last: Answer) {
    match pc
    case Start => last.Unopened?
    case Fetching => last.Unopened?
    case FallingBack => last.Unopened?
    case Building(_) => q.Valid() && (last.Unopened? || GotStale(last))
    case Waiting(_) => q.Valid() && (last.Unopened? || GotStale(last))
    case Opening(_) => q.Valid()
    case Refetching(_) => q.Valid() && GotStale(last)
    case RefallingBack(_) => q.Valid() && GotStale(last)
    case Exhausted => cfg.repairRetries < 0 && q.Valid()
    case Must(e, next) => Justified(cfg, q, last, e) && InContext(cfg, q, next, last)
    case _ => true
  }

  lemma {:induction false} ContextOfMust(cfg: Settings, q: Query, last: Answer)
    ensures forall e, next ::
      InContext(cfg, q, Must(e, next), last) <==> Justified(cfg, q, last, e) && InContext(cfg, q, next, last)
    ensures InContext(cfg, q, Returned, last)
    ensures forall poll: int ::
      && InContext(cfg, q, HangFetching(poll), last)
      && InContext(cfg, q, HangPausing(poll), last)
      && InContext(cfg, q, HangWaiting(poll), last)
  {
  }

  lemma {:induction false} HangInContext(cfg: Settings, q: Query, last: Answer)
    requires last.Unopened? || GotContent(last) || GotTransient(last)
    ensures InContext(cfg, q, EnterHang(q), last)
  {
    ContextOfMust(cfg, q, last);
    hide InContext, Query.Valid, GotContent, GotTransient;
  }

  lemma {:induction false} ProxyInContext(cfg: Settings, q: Query)
    ensures InContext(cfg, q, Proxy(cfg, q), Unopened) && InContext(cfg, q, StoreUrl(cfg, Proxy(cfg, q)), Unopened)
  {
    ContextOfMust(cfg, q, Unopened);
    assert q.Valid() ==> InContext(cfg, q, AttemptAt(cfg, 0), Unopened);
    hide InContext, Query.Valid, AttemptAt;
  }

  lemma {:induction false} GivenBackInContext(cfg: Settings, q: Query, last: Answer, next: Pc)
    requires Justified(cfg, q, last, Recorded(false)) && InContext(cfg, q, next, last)
    ensures InContext(cfg, q, Must(Released, Must(Recorded(false), next)), last)
  {
    hide Honest;
  }

  lemma {:induction false} FailInContext(cfg: Settings, q: Query, last: Answer, code: int)
    requires Honest(cfg, q, last, code)
    ensures InContext(cfg, q, Fail(code), last)
    ensures GotStale(last) ==> InContext(cfg, q, Must(FailureCached, Fail(code)), last)
  {
    ContextOfMust(cfg, q, last);
    hide InContext, Honest;
  }

  /** A URL that went bad with the reply is dropped; a size that the reply corrects is corrected. */
  lemma {:induction false} DropInContext(cfg: Settings, q: Query, last: Answer, next: Pc)
    requires InContext(cfg, q, next, last)
    ensures last.Got? && (GotTransient(last) || Disguised(last.reply.contentType)) ==>
      InContext(cfg, q, DropUrl(cfg, next), last)
    ensures GotStatus(last, 416) ==> InContext(cfg, q, Correct(cfg, q, last.reply, next), last)
  {
    ContextOfMust(cfg, q, last);
    hide InContext, Honest, Disguised, Correction, IsTransient;
  }

  lemma {:induction false} RepairInContext(cfg: Settings, q: Query, last: Answer, i: int)
    requires q.Valid() && GotStale(last)
    ensures InContext(cfg, q, Must(Released, Refetching(i)), last)
  {
  }

  lemma {:induction false} StreamInContext(cfg: Settings, q: Query, reply: Reply)
    requires q.Valid() && Good(reply)
    ensures var copy := Must(Recorded(true), Must(Copied(reply), Must(Released, Returned)));
      InContext(cfg, q, Must(StatusLine(q.SuccessStatus()), copy), Got(reply))
  {
    ContextOfMust(cfg, q, Got(reply));
    hide InContext, Query.Valid, Disguised;
  }

  lemma {:induction false} ReplyInContext(cfg: Settings, q: Query, i: int, answer: Option<Reply>)
    requires q.Valid()
    ensures InContext(cfg, q, AfterReply(cfg, q, i, answer), AnswerOf(answer))
  {
    hide InContext, Disguised, Fail, Correct, DropUrl, EnterHang, Query.Valid;
    match answer {
      case None =>
        FailInContext(cfg, q, NetworkError, 502);
        GivenBackInContext(cfg, q, NetworkError, Fail(502));
      case Some(reply) =>
        if Repairs(cfg, i, reply) {
          RepairInContext(cfg, q, Got(reply), i);
        } else if Good(reply) {
          StreamInContext(cfg, q, reply);
        } else {
          FailedReplyInContext(cfg, q, i, reply);
        }
    }
  }

  lemma {:induction false} FailedReplyInContext(cfg: Settings, q: Query, i: int, reply: Reply)
    requires !Repairs(cfg, i, reply) && !Good(reply)
    ensures InContext(cfg, q, AfterReply(cfg, q, i, Some(reply)), Got(reply))
  {
    hide InContext, Disguised, Fail, Correct, DropUrl, EnterHang, Query.Valid, Repairs;
    var last := Got(reply);
    if IsTransient(reply.status) || GotContent(last) {
      HangInContext(cfg, q, last);
      DropInContext(cfg, q, last, EnterHang(q));
      GivenBackInContext(cfg, q, last, DropUrl(cfg, EnterHang(q)));
    } else if reply.status == 416 {
      FailInContext(cfg, q, last, 416);
      DropInContext(cfg, q, last, Fail(416));
      GivenBackInContext(cfg, q, last, Correct(cfg, q, reply, Fail(416)));
    } else {
      FailInContext(cfg, q, last, 502);
      GivenBackInContext(cfg, q, last, Fail(502));
      if GotStale(last) {
        GivenBackInContext(cfg, q, last, Must(FailureCached, Fail(502)));
      }
    }
  }

  lemma {:induction false} HangReplyInContext(cfg: Settings, q: Query, poll: int, answer: Option<Reply>)
    ensures InContext(cfg, q, AfterHangReply(cfg, q, poll, answer), AnswerOf(answer))
  {
    ContextOfMust(cfg, q, AnswerOf(answer));
    hide InContext, Disguised, Correction, Slower;
  }

  lemma {:induction false} OpenInContext(cfg: Settings, q: Query, pc: Pc, e: Event, last: Answer)
    requires pc.Opening? || pc.HangOpening?
    requires InContext(cfg, q, pc, last) && Next(cfg, q, pc, e).Some?
    ensures Justified(cfg, q, last, e)
    ensures InContext(cfg, q, Next(cfg, q, pc, e).value, if e.Opened? then AnswerOf(e.answer) else last)
  {
    if pc.Opening? {
      ReplyInContext(cfg, q, pc.attempt, e.answer);
    } else {
      HangReplyInContext(cfg, q, pc.poll, e.answer);
    }
    hide AfterReply, AfterHangReply, Honest;
  }

  lemma {:induction false} FirstUrlInContext(cfg: Settings, q: Query, pc: Pc, e: Event, last: Answer)
    requires pc.Start? || pc.Fetching? || pc.FallingBack?
    requires InContext(cfg, q, pc, last) && Next(cfg, q, pc, e).Some?
    ensures Justified(cfg, q, last, e)
    ensures InContext(cfg, q, Next(cfg, q, pc, e).value, if e.Opened? then AnswerOf(e.answer) else last)
  {
    ContextOfMust(cfg, q, last);
    ProxyInContext(cfg, q);
    HangInContext(cfg, q, last);
    assert last.Unopened?;
    hide InContext, Proxy, EnterHang, StoreUrl, Query.Valid;
  }

  lemma {:induction false} PlainInContext(cfg: Settings, q: Query, pc: Pc, e: Event, last: Answer)
    requires !pc.Start? && !pc.Fetching? && !pc.FallingBack? && !pc.Opening? && !pc.HangOpening?
    requires Shape(cfg, pc) && InContext(cfg, q, pc, last) && Next(cfg, q, pc, e).Some?
    ensures Justified(cfg, q, last, e) && !e.Opened?
    ensures InContext(cfg, q, Next(cfg, q, pc, e).value, last)
  {
    ContextOfMust(cfg, q, last);
    hide AfterReply, AfterHangReply, Proxy, EnterHang, Query.Valid, LooksRateLimited, Slower, Good;
  }

  lemma {:induction false} StepInContext(cfg: Settings, q: Query, pc: Pc, e: Event, last: Answer)
    requires Shape(cfg, pc) && InContext(cfg, q, pc, last) && Next(cfg, q, pc, e).Some?
    ensures Justified(cfg, q, last, e)
    ensures InContext(cfg, q, Next(cfg, q, pc, e).value, if e.Opened? then AnswerOf(e.answer) else last)
  {
    if pc.Opening? || pc.HangOpening? {
      hide Next, InContext, Justified;
      OpenInContext(cfg, q, pc, e, last);
    } else if pc.Start? || pc.Fetching? || pc.FallingBack? {
      hide Next, InContext, Justified;
      FirstUrlInContext(cfg, q, pc, e, last);
    } else {
      PlainInContext(cfg, q, pc, e, last);
    }
  }

  /**
   * Every effect has its cause in the CDN's last answer. In particular the client is told of success only for a valid
   * range, before any failure or after a transient one; 416 tells of an invalid range or of a 416 from the CDN, 500 of
   * a URL that cannot be used, 502 of no answer or one that is neither content nor transient; an outcome is recorded as
   * good only for a reply that is streamed; and only the reply just received is streamed.
   */
  lemma {:induction false} EffectsAreJustified(cfg: Settings, q: Query, events: seq<Event>)
    requires After(cfg, q, events).Some?
    ensures InContext(cfg, q, After(cfg, q, events).value, LastAnswer(events))
    ensures events != [] ==> Justified(cfg, q, LastAnswer(events[..|events| - 1]), events[|events| - 1])
  {
    if events != [] {
      var init, e := events[..|events| - 1], events[|events| - 1];
      EffectsAreJustified(cfg, q, init);
      ReachableShape(cfg, q, init);
      hide Next, Shape, InContext, Justified;
      StepInContext(cfg, q, After(cfg, q, init).value, e, LastAnswer(init));
    }
  }

  /**
   * The code after the attempt loop is reached if and only if the range is valid and the retry count negative, which
   * no checked configuration has.
   */
  lemma {:induction false} ExhaustedIff(cfg: Settings, q: Query)
    ensures (exists events: seq<Event> :: After(cfg, q, events) == Some(Exhausted))
       <==> cfg.repairRetries < 0 && q.Valid()
  {
    var looked := [Looked(Some(true))];
    assert After(cfg, q, looked[..0]) == Some(Start);
    assert cfg.repairRetries < 0 && q.Valid() ==> After(cfg, q, looked) == Some(Exhausted);
    if events: seq<Event> :| After(cfg, q, events) == Some(Exhausted) {
      EffectsAreJustified(cfg, q, events);
    }
  }

  // ---------------------------------------------------------------- the cached URL

  /** The URL in hand was found in the cache or put there, and not dropped since. */
  predicate CacheHoldsUrl(events: seq<Event>) {
    events != [] &&
    (match events[|events| - 1]
     case Looked(cached) => cached == Some(true)
     case UrlStored => true
     case UrlDropped => false
     case Fetched(_) => false
     case FellBack(_) => false
     case _ => CacheHoldsUrl(events[..|events| - 1]))
  }

  /** A URL that is not in the cache is about to be stored. */
  predicate KeepsCache(events: seq<Event>, pc: Pc) {
    if pc.Must? then HasUrl(pc) ==> pc.e.UrlStored? && HasUrl(pc.next) && !pc.next.Must?
    else HasUrl(pc) ==> CacheHoldsUrl(events)
  }

  lemma {:induction false} FetchKeepsCache(cfg: Settings, q: Query, events: seq<Event>, pc: Pc, e: Event)
    requires cfg.cacheUrls && Next(cfg, q, pc, e).Some? && !pc.Must? && !HasUrl(pc)
    requires HasUrl(Next(cfg, q, pc, e).value) ==>
      e == Looked(Some(true)) || ((e.Fetched? || e.FellBack?) && e.url.Ok?)
    ensures KeepsCache(events + [e], Next(cfg, q, pc, e).value)
  {
    hide Query.Valid, AfterReply, AfterHangReply, LooksRateLimited, Slower;
  }

  lemma {:induction false} StepKeepsCache(cfg: Settings, q: Query, events: seq<Event>, pc: Pc, e: Event)
    requires cfg.cacheUrls && Next(cfg, q, pc, e).Some? && KeepsCache(events, pc)
    requires Shape(cfg, pc) && Slots(pc) <= 1
    ensures KeepsCache(events + [e], Next(cfg, q, pc, e).value)
  {
    StepIsSound(cfg, q, pc, e);
    hide Shape, Slots, Owed, Good, AfterReply, AfterHangReply;
    if !pc.Must? && !HasUrl(pc) {
      hide Next;
      FetchKeepsCache(cfg, q, events, pc, e);
    } else {
      assert (events + [e])[..|events|] == events;
      hide Proxy, EnterHang;
    }
  }

  /** With caching on, the CDN is only opened with the URL last found in the cache or put there. */
  lemma {:induction false} OpenedUrlsAreCached(cfg: Settings, q: Query, events: seq<Event>)
    requires cfg.cacheUrls && After(cfg, q, events).Some?
    ensures KeepsCache(events, After(cfg, q, events).value)
    ensures events != [] && events[|events| - 1].Opened? ==> CacheHoldsUrl(events[..|events| - 1])
  {
    if events != [] {
      var init, e := events[..|events| - 1], events[|events| - 1];
      OpenedUrlsAreCached(cfg, q, init);
      RequestIsDisciplined(cfg, q, init);
      OpensOnlyWhenReady(cfg, q, After(cfg, q, init).value, e);
      hide Next, Shape, CacheHoldsUrl;
      StepKeepsCache(cfg, q, init, After(cfg, q, init).value, e);
      assert init + [e] == events;
    }
  }

  /** The answers after which the URL must not be used again. */
  predicate SpoilsUrl(last: Answer) {
    GotTransient(last) || (GotContent(last) && Disguised(last.reply.contentType))
  }

  predicate DroppedSince(events: seq<Event>) {
    events != [] &&
    (var e := events[|events| - 1]; e.UrlDropped? || (!e.Opened? && DroppedSince(events[..|events| - 1])))
  }

  predicate WillDrop(pc: Pc) {
    pc.Must? && (pc.e.UrlDropped? || WillDrop(pc.next))
  }

  lemma {:induction false} WillDropOfMust()
    ensures forall e, next :: WillDrop(Must(e, next)) <==> e.UrlDropped? || WillDrop(next)
  {
  }

  lemma {:induction false} SpoiledReplyDrops(cfg: Settings, q: Query, i: int, poll: int, reply: Reply)
    requires cfg.cacheUrls && SpoilsUrl(Got(reply))
    ensures WillDrop(AfterReply(cfg, q, i, Some(reply))) && WillDrop(AfterHangReply(cfg, q, poll, Some(reply)))
  {
    WillDropOfMust();
    hide WillDrop, Disguised, EnterHang, Correct;
  }

  lemma {:induction false} StepDrops(cfg: Settings, q: Query, events: seq<Event>, pc: Pc, e: Event)
    requires cfg.cacheUrls && Next(cfg, q, pc, e).Some?
    requires SpoilsUrl(LastAnswer(events)) ==> DroppedSince(events) || WillDrop(pc)
    requires e.Opened? ==> pc.Opening? || pc.HangOpening?
    ensures SpoilsUrl(LastAnswer(events + [e])) ==>
      DroppedSince(events + [e]) || WillDrop(Next(cfg, q, pc, e).value)
  {
    assert (events + [e])[..|events|] == events;
    if e.Opened? && SpoilsUrl(AnswerOf(e.answer)) {
      SpoiledReplyDrops(cfg, q, if pc.Opening? then pc.attempt else 0, if pc.HangOpening? then pc.poll else 0,
                        e.answer.value);
    }
    WillDropOfMust();
    hide SpoilsUrl, AfterReply, AfterHangReply, Proxy, EnterHang, StoreUrl;
  }

  /** After a transient or disguised answer the cached URL is gone before a new one is asked for. */
  lemma {:induction false} SpoiledUrlsAreDropped(cfg: Settings, q: Query, events: seq<Event>)
    requires cfg.cacheUrls && After(cfg, q, events).Some?
    ensures var pc := After(cfg, q, events).value;
      SpoilsUrl(LastAnswer(events)) ==> DroppedSince(events) || WillDrop(pc)
    ensures var last := LastAnswer(events);
      SpoilsUrl(last) && !After(cfg, q, events).value.Must? ==> DroppedSince(events)
  {
    if events != [] {
      var init, e := events[..|events| - 1], events[|events| - 1];
      SpoiledUrlsAreDropped(cfg, q, init);
      ReachableShape(cfg, q, init);
      OpensOnlyWhenReady(cfg, q, After(cfg, q, init).value, e);
      hide Next, Shape, SpoilsUrl, LastAnswer;
      StepDrops(cfg, q, init, After(cfg, q, init).value, e);
      assert init + [e] == events;
    }
  }

  lemma {:induction false} OpensOnlyWhenReady(cfg: Settings, q: Query, pc: Pc, e: Event)
    requires Shape(cfg, pc) && Next(cfg, q, pc, e).Some?
    ensures e.Opened? ==> pc.Opening? || pc.HangOpening?
  {
  }
}
