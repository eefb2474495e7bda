/**
 * What a request does about each answer, read off its events: the counterpart of `CdnEffects`, which says that it does
 * nothing without cause.
 */
module CdnReactions {
  import opened Wrappers
  import opened Numbers
  import opened Int64
  import opened Text
  import opened Decimal
  import opened ByteRanges
  import opened CdnStream
  import opened CdnPolling
  import opened CdnEffects

  /** The straight-line code ahead; it ends at `Tail`. */
  function Plan(pc: Pc): seq<Event> {
    if pc.Must? then [pc.e] + Plan(pc.next) else []
  }

  /** The request is at its end, or at a point where the outside world decides how it goes on. */
  ghost predicate Settled(cfg: Settings, q: Query, events: seq<Event>) {
    After(cfg, q, events).Some? && !After(cfg, q, events).value.Must?
  }

  lemma {:induction false} AfterPrefix(cfg: Settings, q: Query, events: seq<Event>, k: nat)
    requires After(cfg, q, events).Some? && k <= |events|
    ensures After(cfg, q, events[..k]).Some?
  {
    if k < |events| {
      AfterPrefix(cfg, q, events[..|events| - 1], k);
      assert events[..|events| - 1][..k] == events[..k];
    } else {
      assert events[..k] == events;
    }
  }

  lemma {:induction false} AfterNext(cfg: Settings, q: Query, events: seq<Event>, e: Event)
    ensures After(cfg, q, events + [e])
         == match After(cfg, q, events) case None => None case Some(pc) => Next(cfg, q, pc, e)
  {
    assert (events + [e])[..|events|] == events;
  }

  lemma {:induction false} MustNext(cfg: Settings, q: Query, pc: Pc, e: Event)
    requires Next(cfg, q, pc, e).Some?
    ensures pc.Must? ==> pc.e == e && pc.next == Next(cfg, q, pc, e).value
    ensures !pc.Returned?
  {
  }

  /** Straight-line code is gone through in order. */
  lemma {:induction false} Straight(cfg: Settings, q: Query, before: seq<Event>, more: seq<Event>)
    requires After(cfg, q, before + more).Some?
    ensures After(cfg, q, before).Some?
    ensures var start, now := After(cfg, q, before).value, After(cfg, q, before + more).value;
      if |more| <= |Plan(start)| then more + Plan(now) == Plan(start) && Tail(now) == Tail(start)
      else Plan(start) <= more && Next(cfg, q, Tail(start), more[|Plan(start)|]).Some? && !Tail(start).Returned?
  {
    assert (before + more)[..|before|] == before;
    AfterPrefix(cfg, q, before + more, |before|);
    if more == [] {
      assert before + more == before;
    } else {
      var init, e := more[..|more| - 1], more[|more| - 1];
      assert before + more == before + init + [e];
      AfterNext(cfg, q, before + init, e);
      Straight(cfg, q, before, init);
      var mid := After(cfg, q, before + init).value;
      MustNext(cfg, q, mid, e);
      hide After, Next;
      assert more == init + [e];
    }
  }

  /** Once it is settled again, the request has done all of that, and done nothing more if that was its end. */
  lemma {:induction false} Carried(cfg: Settings, q: Query, before: seq<Event>, more: seq<Event>, start: Pc)
    requires After(cfg, q, before) == Some(start) && Settled(cfg, q, before + more)
    ensures Plan(start) <= more
    ensures Tail(start).Returned? ==> more == Plan(start) && After(cfg, q, before + more) == Some(Returned)
    ensures |more| > |Plan(start)| ==> Next(cfg, q, Tail(start), more[|Plan(start)|]).Some?
  {
    Straight(cfg, q, before, more);
    hide After, Next;
    var now := After(cfg, q, before + more).value;
    assert Plan(now) == [] && Tail(now) == now;
    assert more + [] == more;
  }

  /** The opens so far. */
  function Opens(events: seq<Event>): nat {
    if events == [] then 0 else Opens(events[..|events| - 1]) + if events[|events| - 1].Opened? then 1 else 0
  }

  lemma {:induction false} OpenedWhen(cfg: Settings, q: Query, pc: Pc, e: Event)
    requires Shape(cfg, pc) && Next(cfg, q, pc, e).Some?
    ensures OpensBehind(pc).Some? ==> (e.Opened? <==> pc.Opening?)
  {
  }

  lemma {:induction false} AttemptsAreOpens(cfg: Settings, q: Query, events: seq<Event>)
    requires After(cfg, q, events).Some?
    ensures var behind := OpensBehind(After(cfg, q, events).value); behind.Some? ==> behind.value == Opens(events)
  {
    assert OpensBehind(Start) == Some(0);
    hide OpensBehind, Next;
    if events != [] {
      var init, e := events[..|events| - 1], events[|events| - 1];
      AttemptsAreOpens(cfg, q, init);
      var pc := After(cfg, q, init).value;
      OpensStep(cfg, q, pc, e);
      ReachableShape(cfg, q, init);
      OpenedWhen(cfg, q, pc, e);
      OpeningBehind(pc);
    }
  }

  /** Where an open happens: in the repair loop before the status line, in hang mode after it. */
  lemma {:induction false} OpenedFrom(cfg: Settings, q: Query, before: seq<Event>, answer: Option<Reply>)
    requires After(cfg, q, before + [Opened(answer)]).Some?
    ensures After(cfg, q, before).Some?
    ensures var pc := After(cfg, q, before).value;
      if StatusLines(before) == 0 then
        && q.Valid() && pc == Opening(Opens(before))
        && After(cfg, q, before + [Opened(answer)]) == Some(AfterReply(cfg, q, Opens(before), answer))
        && Opens(before) < cfg.MaxAttempts()
      else
        && pc.HangOpening?
        && After(cfg, q, before + [Opened(answer)]) == Some(AfterHangReply(cfg, q, pc.poll, answer))
  {
    AfterNext(cfg, q, before, Opened(answer));
    var pc := After(cfg, q, before).value;
    RequestIsDisciplined(cfg, q, before);
    EffectsAreJustified(cfg, q, before);
    AttemptsAreOpens(cfg, q, before);
    OpensOnlyWhenReady(cfg, q, pc, Opened(answer));
    OpeningBehind(pc);
    hide After, AfterReply, AfterHangReply, Query.Valid, Disciplined, OpensBehind;
  }

  // ---------------------------------------------------------------- plans

  lemma {:induction false} PlanOfMust()
    ensures forall e, next :: Plan(Must(e, next)) == [e] + Plan(next)
    ensures forall pc: Pc | !pc.Must? :: Plan(pc) == []
  {
  }

  lemma {:induction false} DropPlan(cfg: Settings, next: Pc)
    ensures Plan(DropUrl(cfg, next)) == (if cfg.cacheUrls then [UrlDropped] else []) + Plan(next)
    ensures Tail(DropUrl(cfg, next)) == Tail(next)
  {
  }

  lemma {:induction false} FailPlan(code: int)
    ensures Plan(Fail(code)) == [StatusLine(code)] && Tail(Fail(code)) == Returned
  {
  }

  lemma {:induction false} GivenBackPlan(next: Pc)
    ensures Plan(Must(Released, Must(Recorded(false), next))) == [Released, Recorded(false)] + Plan(next)
    ensures Tail(Must(Released, Must(Recorded(false), next))) == Tail(next)
  {
  }

  lemma {:induction false} CopyPlan(reply: Reply)
    ensures var pc := Must(Recorded(true), Must(Copied(reply), Must(Released, Returned)));
      Plan(pc) == [Recorded(true), Copied(reply), Released] && Tail(pc) == Returned
  {
    PlanOfMust();
    TailOfMust();
    hide Plan, Tail;
  }

  lemma {:induction false} CorrectPlan(cfg: Settings, q: Query, reply: Reply, next: Pc, n: int)
    requires ParseCdnTrueSize(reply.contentRange) == Some(n)
    ensures Plan(Correct(cfg, q, reply, next)) ==
      (if n == q.size then []
       else [SizeCorrected(n)] + (if cfg.cacheUrls then [UrlDropped] else []) + [FailureCached]) + Plan(next)
    ensures Tail(Correct(cfg, q, reply, next)) == Tail(next)
  {
    PlanOfMust();
    TailOfMust();
    DropPlan(cfg, Must(FailureCached, next));
    hide Plan, Tail, ParseCdnTrueSize;
  }

  lemma {:induction false} HangPlan(q: Query)
    requires q.Valid()
    ensures Plan(EnterHang(q)) == [StatusLine(if q.rangeHeader == "" then 200 else 206)]
    ensures Tail(EnterHang(q)) == HangFetching(15 * SECOND)
  {
    hide Query.Valid;
  }

  lemma {:induction false} TransientPlan(cfg: Settings, q: Query, i: int, reply: Reply)
    requires q.Valid()
    requires || reply.status == 429 || reply.status >= 500
             || ((reply.status == 200 || reply.status == 206) && Disguised(reply.contentType))
    ensures Plan(AfterReply(cfg, q, i, Some(reply))) == [Released, Recorded(false)]
      + (if cfg.cacheUrls then [UrlDropped] else []) + [StatusLine(if q.rangeHeader == "" then 200 else 206)]
    ensures Tail(AfterReply(cfg, q, i, Some(reply))) == HangFetching(15 * SECOND)
  {
    GivenBackPlan(DropUrl(cfg, EnterHang(q)));
    DropPlan(cfg, EnterHang(q));
    HangPlan(q);
    hide Plan, Tail, DropUrl, EnterHang, Query.Valid, Disguised;
    assert AfterReply(cfg, q, i, Some(reply)) == Must(Released, Must(Recorded(false), DropUrl(cfg, EnterHang(q))));
  }

  lemma {:induction false} SizePlan(cfg: Settings, q: Query, reply: Reply, next: Pc, n: int)
    requires reply.contentRange == "bytes */" + FormatInt(n) && 0 <= n < TWO_63
    requires next == Returned || next == Fail(416)
    ensures var pc := Must(Released, Must(Recorded(false), Correct(cfg, q, reply, next)));
      && Plan(pc) == [Released, Recorded(false)]
           + (if n == q.size then []
              else [SizeCorrected(n)] + (if cfg.cacheUrls then [UrlDropped] else []) + [FailureCached])
           + (if next.Returned? then [] else [StatusLine(416)])
      && Tail(pc) == Returned
  {
    TrueSizeRoundTrip(n);
    GivenBackPlan(Correct(cfg, q, reply, next));
    CorrectPlan(cfg, q, reply, next, n);
    FailPlan(416);
    assert Plan(Returned) == [] && Tail(Returned) == Returned;
    hide Plan, Tail, Correct, ParseCdnTrueSize, FormatInt;
  }

  lemma {:induction false} OtherPlan(cfg: Settings, q: Query, i: int, poll: int, reply: Reply)
    requires reply.status != 200 && reply.status != 206 && reply.status != 416 && reply.status != 429
    requires reply.status < 500
    ensures var pc := AfterReply(cfg, q, i, Some(reply));
      !Repairs(cfg, i, reply) ==>
        && Tail(pc) == Returned
        && Plan(pc) == [Released, Recorded(false)]
             + (if (reply.status == 403 || reply.status == 404) && i == cfg.repairRetries then [FailureCached] else [])
             + [StatusLine(502)]
    ensures var pc := AfterHangReply(cfg, q, poll, Some(reply));
      !Disguised(reply.contentType) ==> Plan(pc) == [Released, Recorded(false)] && Tail(pc) == Returned
  {
    FailPlan(502);
    PlanOfMust();
    TailOfMust();
    GivenBackPlan(Fail(502));
    GivenBackPlan(Must(FailureCached, Fail(502)));
    GivenBackPlan(Returned);
    hide Plan, Tail, Disguised, Fail, Correct, EnterHang, DropUrl, Repairs;
    assert [Released, Recorded(false)] + [] == [Released, Recorded(false)];
  }

  // ---------------------------------------------------------------- what a content type says

  /** `c` is the letter `lower`, in either case. */
  predicate IsLetter(c: char, lower: char)
    requires 'a' <= lower <= 'z'
  {
    c == lower || c as int == lower as int - 32
  }

  lemma {:induction false} LowerLetter(c: char, lower: char)
    requires 'a' <= lower <= 'z'
    ensures LowerChar(c) == lower <==> IsLetter(c, lower)
  {
  }

  /** The four letters of `m` stand at position `i`, in whatever case. */
  predicate LettersAt(t: string, m: string, i: nat)
    requires |m| == 4 && forall j | 0 <= j < 4 :: 'a' <= m[j] <= 'z'
  {
    i + 4 <= |t| && forall j | 0 <= j < 4 :: IsLetter(t[i + j], m[j])
  }

  lemma {:induction false} FourAt(t: string, m: string, i: nat)
    requires |m| == 4 && forall j | 0 <= j < 4 :: 'a' <= m[j] <= 'z'
    ensures OccursAt(Lower(t), m, i) <==> LettersAt(t, m, i)
  {
    if i + 4 <= |t| {
      assert Lower(t)[i..i + 4] == m <==> forall j | 0 <= j < 4 :: Lower(t)[i..i + 4][j] == m[j];
      forall j | 0 <= j < 4 ensures Lower(t)[i..i + 4][j] == m[j] <==> IsLetter(t[i + j], m[j]) {
        LowerLetter(t[i + j], m[j]);
      }
    }
  }

  lemma {:induction false} Mentions(t: string, m: string)
    requires |m| == 4 && forall j | 0 <= j < 4 :: 'a' <= m[j] <= 'z'
    ensures Contains(Lower(t), m) <==> exists i: nat :: LettersAt(t, m, i)
  {
    forall i: nat ensures OccursAt(Lower(t), m, i) <==> LettersAt(t, m, i) {
      FourAt(t, m, i);
    }
    if i: nat :| LettersAt(t, m, i) {
      assert OccursAt(Lower(t), m, i);
    }
    hide Lower;
  }

  lemma {:induction false} TextPrefix(t: string)
    ensures "text/" <= Lower(t) <==> |t| >= 5 && LettersAt(t, "text", 0) && t[4] == '/'
  {
    FourAt(t, "text", 0);
    if |t| >= 5 {
      assert Lower(t)[..5] == Lower(t)[0..4] + [Lower(t)[4]];
      assert "text/" == "text" + ['/'];
    }
  }

  /** A content type that is text, or mentions HTML or JSON, in whatever case, belongs to an error page. */
  lemma {:induction false} DisguisedExactly(t: string)
    ensures Disguised(t) <==>
      || (|t| >= 5 && LettersAt(t, "text", 0) && t[4] == '/')
      || (exists i: nat :: LettersAt(t, "html", i))
      || (exists i: nat :: LettersAt(t, "json", i))
  {
    TextPrefix(t);
    Mentions(t, "html");
    Mentions(t, "json");
    hide Lower, LettersAt, Contains;
  }

  // ---------------------------------------------------------------- reactions

  /**
   * A 200 or 206 with a media type reaches the client: the status line, unless hang mode has sent it, then the recorded
   * outcome, the body, and the slot back; and that is the end.
   */
  lemma {:induction false} GoodReplyIsStreamed(
      cfg: Settings, q: Query, before: seq<Event>, reply: Reply, more: seq<Event>)
    requires Settled(cfg, q, before + [Opened(Some(reply))] + more)
    requires (reply.status == 200 || reply.status == 206) && !Disguised(reply.contentType)
    ensures more == (if StatusLines(before) == 0 then [StatusLine(if q.rangeHeader == "" then 200 else 206)] else [])
                    + [Recorded(true), Copied(reply), Released]
    ensures After(cfg, q, before + [Opened(Some(reply))] + more) == Some(Returned)
  {
    var start := Reacts(cfg, q, before, Some(reply), more);
    CopyPlan(reply);
    hide After, Next, Settled, Disguised, EnterHang, Query.Valid;
  }

  lemma {:induction false} LastOpen(events: seq<Event>) returns (k: nat)
    requires !LastAnswer(events).Unopened?
    ensures k < |events| && events[k].Opened? && AnswerOf(events[k].answer) == LastAnswer(events)
    ensures forall j | k < j < |events| :: !events[j].Opened?
    ensures events == events[..k] + [events[k]] + events[k + 1..]
  {
    k := |events| - 1;
    if !events[k].Opened? {
      k := LastOpen(events[..k]);
    }
  }

  /** Hence a request that is over, and whose last answer was such a reply, has passed on its body, once, at the end. */
  lemma {:induction false} LastGoodReplyIsStreamed(cfg: Settings, q: Query, events: seq<Event>)
    requires After(cfg, q, events) == Some(Returned) && LastAnswer(events).Got?
    requires LastAnswer(events).reply.status == 200 || LastAnswer(events).reply.status == 206
    requires !Disguised(LastAnswer(events).reply.contentType)
    ensures |events| > 3
    ensures events[|events| - 3..] == [Recorded(true), Copied(LastAnswer(events).reply), Released]
    ensures forall i | 0 <= i < |events| - 3 && events[i].Copied? ::
      exists j | i < j < |events| - 3 :: events[j].Opened?
  {
    hide After, Disguised;
    var k := LastOpen(events);
    var reply := LastAnswer(events).reply;
    var before, more := events[..k], events[k + 1..];
    GoodReplyIsStreamed(cfg, q, before, reply, more);
    var n := |more| - 3;
    assert more[n..] == [Recorded(true), Copied(reply), Released] && events[|events| - 3..] == more[n..];
    assert forall i | 0 <= i < n :: more[i].StatusLine? && events[k + 1 + i] == more[i];
    assert events[k].Opened? && k < |events| - 3;
  }

  lemma {:induction false} Reacts(
      cfg: Settings, q: Query, before: seq<Event>, answer: Option<Reply>, more: seq<Event>) returns (start: Pc)
    requires Settled(cfg, q, before + [Opened(answer)] + more)
    ensures After(cfg, q, before).Some?
    ensures var pc := After(cfg, q, before).value;
      if StatusLines(before) == 0 then
        q.Valid() && Opens(before) < cfg.MaxAttempts() && start == AfterReply(cfg, q, Opens(before), answer)
      else
        pc.HangOpening? && start == AfterHangReply(cfg, q, pc.poll, answer)
    ensures Plan(start) <= more
    ensures Tail(start).Returned? ==>
      more == Plan(start) && After(cfg, q, before + [Opened(answer)] + more) == Some(Returned)
    ensures |more| > |Plan(start)| ==> Next(cfg, q, Tail(start), more[|Plan(start)|]).Some?
  {
    var events := before + [Opened(answer)];
    assert (events + more)[..|events|] == events;
    AfterPrefix(cfg, q, events + more, |events|);
    OpenedFrom(cfg, q, before, answer);
    start := After(cfg, q, events).value;
    hide After, Next, Settled, AfterReply, AfterHangReply;
    Carried(cfg, q, events, more, start);
  }

  /**
   * A 403 or 404 in the repair loop leads to a new URL, as long as repairing is on and fewer opens came before than
   * there are repairs.
   */
  lemma {:induction false} StaleIsRepaired(
      cfg: Settings, q: Query, before: seq<Event>, reply: Reply, more: seq<Event>)
    requires Settled(cfg, q, before + [Opened(Some(reply))] + more) && StatusLines(before) == 0
    requires (reply.status == 403 || reply.status == 404) && cfg.autoRepair && Opens(before) < cfg.repairRetries
    ensures [Released] <= more && (|more| > 1 ==> more[1].Fetched?)
  {
    var start := Reacts(cfg, q, before, Some(reply), more);
    assert start == Must(Released, Refetching(Opens(before)));
    assert Plan(start) == [Released] && Tail(start) == Refetching(Opens(before));
    hide After, Settled;
  }

  /**
   * A 429, a 5xx or an error page in disguise is a bad outcome, drops the URL, and is answered by success all the same:
   * hang mode begins.
   */
  lemma {:induction false} TransientEntersHang(
      cfg: Settings, q: Query, before: seq<Event>, reply: Reply, more: seq<Event>)
    requires Settled(cfg, q, before + [Opened(Some(reply))] + more) && StatusLines(before) == 0
    requires || reply.status == 429 || reply.status >= 500
             || ((reply.status == 200 || reply.status == 206) && Disguised(reply.contentType))
    ensures var line := StatusLine(if q.rangeHeader == "" then 200 else 206);
      var plan := [Released, Recorded(false)] + (if cfg.cacheUrls then [UrlDropped] else []) + [line];
      plan <= more && (|more| > |plan| ==> more[|plan|].Fetched?)
  {
    hide After, Settled, Plan, Tail, DropUrl, EnterHang, Query.Valid, AfterReply, Disguised;
    var start := Reacts(cfg, q, before, Some(reply), more);
    TransientPlan(cfg, q, Opens(before), reply);
  }

  /** In hang mode such an answer slows the polling down: the next wait is twice the last, but at most five minutes. */
  lemma {:induction false} TransientSlowsPolling(
      cfg: Settings, q: Query, before: seq<Event>, reply: Reply, more: seq<Event>, poll: int)
    requires Settled(cfg, q, before + [Opened(Some(reply))] + more) && After(cfg, q, before) == Some(HangOpening(poll))
    requires reply.status == 429 || reply.status >= 500 || Disguised(reply.contentType)
    ensures var plan := [Released, Recorded(false)] + (if cfg.cacheUrls then [UrlDropped] else []);
      && plan <= more
      && (|more| > |plan| ==> more[|plan|] == Waited(Min(300 * SECOND, 2 * poll)) || more[|plan|].Disconnected?)
  {
    var start := Reacts(cfg, q, before, Some(reply), more);
    RequestIsDisciplined(cfg, q, before);
    assert start == Must(Released, Must(Recorded(false), DropUrl(cfg, HangPausing(Slower(poll)))));
    GivenBackPlan(DropUrl(cfg, HangPausing(Slower(poll))));
    DropPlan(cfg, HangPausing(Slower(poll)));
    assert Plan(HangPausing(Slower(poll))) == [] && Tail(HangPausing(Slower(poll))) == HangPausing(Slower(poll));
    hide After, Settled, Plan, Tail, DropUrl, AfterHangReply, Disguised;
  }

  /** No answer at all: an error status in the repair loop, the same wait again in hang mode. */
  lemma {:induction false} NetworkErrorEnds(cfg: Settings, q: Query, before: seq<Event>, more: seq<Event>, poll: int)
    requires Settled(cfg, q, before + [Opened(None)] + more)
    ensures StatusLines(before) == 0 ==> more == [Released, Recorded(false), StatusLine(502)]
    ensures After(cfg, q, before) == Some(HangOpening(poll)) ==>
      && [Released, Recorded(false)] <= more
      && (|more| > 2 ==> more[2] == Waited(poll) || more[2].Disconnected?)
  {
    var start := Reacts(cfg, q, before, None, more);
    if StatusLines(before) == 0 {
      GivenBackPlan(Fail(502));
      FailPlan(502);
    } else {
      var p := After(cfg, q, before).value.poll;
      GivenBackPlan(HangPausing(p));
      assert Plan(HangPausing(p)) == [] && Tail(HangPausing(p)) == HangPausing(p);
    }
    RequestIsDisciplined(cfg, q, before);
    hide After, Settled, Plan, Tail;
  }

  /**
   * A 416 that names another size corrects the record, drops the URL and caches a failure, in both modes; one that
   * names the recorded size does not. It ends the request.
   */
  lemma {:induction false} TrueSizeIsTaken(
      cfg: Settings, q: Query, before: seq<Event>, reply: Reply, more: seq<Event>, n: int)
    requires Settled(cfg, q, before + [Opened(Some(reply))] + more)
    requires reply.status == 416 && (StatusLines(before) != 0 ==> !Disguised(reply.contentType))
    requires reply.contentRange == "bytes */" + FormatInt(n) && 0 <= n < TWO_63
    ensures more == [Released, Recorded(false)]
      + (if n == q.size then []
         else [SizeCorrected(n)] + (if cfg.cacheUrls then [UrlDropped] else []) + [FailureCached])
      + (if StatusLines(before) == 0 then [StatusLine(416)] else [])
  {
    hide After, Settled, Plan, Tail, Correct, ParseCdnTrueSize, FormatInt, Disguised, EnterHang, DropUrl, Query.Valid;
    var start := Reacts(cfg, q, before, Some(reply), more);
    SizePlan(cfg, q, reply, if StatusLines(before) == 0 then Fail(416) else Returned, n);
  }

  /** A 416 that names no size corrects nothing. */
  lemma {:induction false} NoSizeNoCorrection(
      cfg: Settings, q: Query, before: seq<Event>, reply: Reply, more: seq<Event>)
    requires Settled(cfg, q, before + [Opened(Some(reply))] + more)
    requires reply.status == 416 && (StatusLines(before) != 0 ==> !Disguised(reply.contentType))
    requires !Spells(reply.contentRange, "*/")
    ensures more == [Released, Recorded(false)] + if StatusLines(before) == 0 then [StatusLine(416)] else []
  {
    UnmarkedFind(reply.contentRange, UNSATISFIED);
    assert Correction(q, reply).None?;
    hide After, Settled, Plan, Tail, Correction, Disguised, EnterHang, DropUrl, Query.Valid;
    var start := Reacts(cfg, q, before, Some(reply), more);
    GivenBackPlan(Fail(416));
    GivenBackPlan(Returned);
    FailPlan(416);
    assert Plan(Returned) == [] && Tail(Returned) == Returned by {
      PlanOfMust();
      TailOfMust();
    }
  }

  /** Any other status, and a 403 or 404 that is not repaired, ends the request, with an error if it can be told. */
  lemma {:induction false} OtherStatusEnds(
      cfg: Settings, q: Query, before: seq<Event>, reply: Reply, more: seq<Event>)
    requires Settled(cfg, q, before + [Opened(Some(reply))] + more)
    requires reply.status != 200 && reply.status != 206 && reply.status != 416 && reply.status != 429
    requires reply.status < 500 && (StatusLines(before) != 0 ==> !Disguised(reply.contentType))
    requires StatusLines(before) == 0 && (reply.status == 403 || reply.status == 404) ==>
      !cfg.autoRepair || Opens(before) >= cfg.repairRetries
    ensures StatusLines(before) != 0 ==> more == [Released, Recorded(false)]
    ensures StatusLines(before) == 0 ==>
      more == [Released, Recorded(false)]
              + (if (reply.status == 403 || reply.status == 404) && Opens(before) == cfg.repairRetries
                 then [FailureCached] else [])
              + [StatusLine(502)]
  {
    hide After, Settled, Plan, Tail, AfterReply, AfterHangReply, Disguised;
    var start := Reacts(cfg, q, before, Some(reply), more);
    var pc := After(cfg, q, before).value;
    OtherPlan(cfg, q, Opens(before), if pc.HangOpening? then pc.poll else 0, reply);
  }
}
