/** Hang mode when the rate limit hits the primary item only. */
module HangInstances {
  import opened Wrappers
  import opened Decimal
  import opened ApiErrors
  import DownloadUrls
  import opened CdnStream

  /** What the fallback answers when no other item has the path. */
  function NoAlternatives(quoted: string): Event {
    FellBack(Err(DownloadUrls.FallbackError(Ok([]), quoted, [])))
  }

  lemma {:induction false} AfterOneMore(cfg: Settings, q: Query, events: seq<Event>, e: Event)
    ensures After(cfg, q, events + [e])
         == match After(cfg, q, events) case None => None case Some(pc) => Next(cfg, q, pc, e)
  {
    assert (events + [e])[..|events|] == events;
  }

  /**
   * Whenever a request is about to poll for a URL, and the fetch and the fallback both fail, the wait that follows
   * depends on the fallback's error alone, whatever the primary's says.
   */
  lemma {:induction false} PrimaryErrorIgnored(
      cfg: Settings, q: Query, events: seq<Event>, poll: int, primary: string, other: string)
    requires After(cfg, q, events) == Some(HangFetching(poll))
    ensures After(cfg, q, events + [Fetched(Err(primary))] + [FellBack(Err(other))])
         == Some(HangPausing(if LooksRateLimited(other) then Slower(poll) else poll))
  {
    AfterOneMore(cfg, q, events, Fetched(Err(primary)));
    AfterOneMore(cfg, q, events + [Fetched(Err(primary))], FellBack(Err(other)));
    hide After, LooksRateLimited, Slower;
  }

  /** The events of a request without a cached URL, up to hang mode, when fetch and fallback fail. */
  function IntoHang(q: Query, primary: Event, fallback: Event): seq<Event> {
    [Looked(Some(false))] + [primary] + [fallback] + [StatusLine(q.SuccessStatus())]
  }

  lemma {:induction false} IntoHangSteps(cfg: Settings, q: Query, primary: string, other: string)
    requires q.Valid()
    ensures var line, hang := StatusLine(q.SuccessStatus()), HangFetching(POLL_INTERVAL);
      && Next(cfg, q, Start, Looked(Some(false))) == Some(Fetching)
      && Next(cfg, q, Fetching, Fetched(Err(primary))) == Some(FallingBack)
      && Next(cfg, q, FallingBack, FellBack(Err(other))) == Some(Must(line, hang))
      && Next(cfg, q, Must(line, hang), line) == Some(hang)
  {
    hide Query.Valid, Query.SuccessStatus;
  }

  lemma {:induction false} EntersHang(cfg: Settings, q: Query, primary: string, other: string)
    requires q.Valid()
    ensures After(cfg, q, IntoHang(q, Fetched(Err(primary)), FellBack(Err(other)))) == Some(HangFetching(POLL_INTERVAL))
  {
    var e, f, line := Fetched(Err(primary)), FellBack(Err(other)), StatusLine(q.SuccessStatus());
    var s1 := [Looked(Some(false))];
    assert After(cfg, q, []) == Some(Start) && [] + [Looked(Some(false))] == s1;
    IntoHangSteps(cfg, q, primary, other);
    hide After, Next, Query.Valid, Query.SuccessStatus;
    AfterOneMore(cfg, q, [], Looked(Some(false)));
    AfterOneMore(cfg, q, s1, e);
    AfterOneMore(cfg, q, s1 + [e], f);
    AfterOneMore(cfg, q, s1 + [e] + [f], line);
  }

  /**
   * Two fetches of the primary are answered with 429 while no other item has the path: the next wait is still the first
   * interval. (A path that spells the marker is the exception.)
   */
  lemma {:induction false} PrimaryRateLimitUnnoticed(cfg: Settings, q: Query, quoted: string)
    requires q.Valid() && !LooksRateLimited(quoted)
    ensures LooksRateLimited(ErrorText(429, ""))
    ensures var primary, fallback := Fetched(Err(ErrorText(429, ""))), NoAlternatives(quoted);
      After(cfg, q, IntoHang(q, primary, fallback) + [primary] + [fallback]) == Some(HangPausing(POLL_INTERVAL))
  {
    HeadStatus(429, "");
    assert ErrorText(429, "") == PREFIX + MARKER + FormatInt(429) + "";
    DownloadUrls.FallbackLooksRateLimited(Ok([]), quoted, []);
    hide ErrorText, DownloadUrls.FallbackError, After, Next, IntoHang, Query.Valid, LooksRateLimited;
    var primary, other := ErrorText(429, ""), DownloadUrls.FallbackError(Ok([]), quoted, []);
    var hang := IntoHang(q, Fetched(Err(primary)), FellBack(Err(other)));
    EntersHang(cfg, q, primary, other);
    PrimaryErrorIgnored(cfg, q, hang, POLL_INTERVAL, primary, other);
  }
}
