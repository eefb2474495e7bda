/** Paging through a remote list whose requests may fail, with retries in place. */
module Pagination {
  import opened Wrappers
  import opened Numbers

  const DEFAULT_PAGE_SIZE := 1000

  /** What one request for a page meets: the page, a retryable error, or anything that aborts the whole list. */
  datatype Attempt = Reply | Transient | Fatal

  /** `attempt(k)` is what the k-th request meets; `cancelled(k)` says the caller gave up in the backoff before it. */
  datatype Upstream = Upstream(attempt: nat -> Attempt, cancelled: nat -> bool)

  datatype ListError = Cancelled | RequestFailed

  /** The page a server that honours `limit` sends. */
  function Page<T>(list: seq<T>, offset: nat, limit: nat): (page: seq<T>)
    ensures |page| == if offset >= |list| then 0 else if offset + limit > |list| then |list| - offset else limit
    ensures offset <= |list| ==> page == list[offset..offset + |page|]
  {
    if offset >= |list| then []
    else if offset + limit > |list| then list[offset..]
    else list[offset..offset + limit]
  }

  function From<T>(list: seq<T>, offset: nat): seq<T> {
    if offset >= |list| then [] else list[offset..]
  }

  /** Requests `k` to `j` are a page's attempts: all but the last fail transiently, none is cancelled, within budget. */
  predicate Cleared(up: Upstream, retries: nat, k: nat, j: nat) {
    && k <= j <= k + retries
    && up.attempt(j) == Reply
    && (forall i | k <= i < j :: up.attempt(i) == Transient)
    && (forall i | k < i <= j :: !up.cancelled(i))
  }

  /** From request `k` on, `pages` pages in a row clear within the retry budget. */
  predicate Succeeds(up: Upstream, retries: nat, k: nat, pages: nat)
    decreases pages
  {
    pages == 0 ||
    exists j | k <= j <= k + retries :: Cleared(up, retries, k, j) && Succeeds(up, retries, j + 1, pages - 1)
  }

  lemma {:induction false} SucceedsStep(up: Upstream, retries: nat, k: nat, pages: nat, j: nat)
    requires pages > 0 && Cleared(up, retries, k, j)
    ensures Succeeds(up, retries, k, pages) <==> Succeeds(up, retries, j + 1, pages - 1)
  {
    if Succeeds(up, retries, k, pages) {
      var m :| k <= m <= k + retries && Cleared(up, retries, k, m) && Succeeds(up, retries, m + 1, pages - 1);
      assert m == j;
    }
  }

  /**
   * When a page's first request that does not fail transiently is the n-th after request `k`, paging gets through if
   * and only if that one is a reply, n is within the retry budget, no backoff before it was cancelled, and the
   * remaining pages get through after it.
   */
  lemma {:induction false} SucceedsIff(up: Upstream, retries: nat, k: nat, pages: nat, n: nat)
    requires pages > 0 && up.attempt(k + n) != Transient && forall i | k <= i < k + n :: up.attempt(i) == Transient
    ensures Succeeds(up, retries, k, pages) <==>
      && up.attempt(k + n) == Reply && n <= retries && (forall i | k < i <= k + n :: !up.cancelled(i))
      && Succeeds(up, retries, k + n + 1, pages - 1)
  {
    forall j | Cleared(up, retries, k, j) ensures j == k + n {
    }
    assert Cleared(up, retries, k, k + n) <==>
      up.attempt(k + n) == Reply && n <= retries && (forall i | k < i <= k + n :: !up.cancelled(i));
    hide Cleared;
  }

  /** And if none does, paging never gets through. */
  lemma {:induction false} TransientForever(up: Upstream, retries: nat, k: nat, pages: nat)
    requires pages > 0 && forall i | k <= i <= k + retries :: up.attempt(i) == Transient
    ensures !Succeeds(up, retries, k, pages)
  {
    Fails(up, retries, k, pages, k + retries);
  }

  /** A page whose attempts ended otherwise has no successful continuation. */
  lemma {:induction false} Fails(up: Upstream, retries: nat, k: nat, pages: nat, j: nat)
    requires pages > 0 && k <= j <= k + retries
    requires forall i | k <= i < j :: up.attempt(i) == Transient
    requires || up.attempt(j) == Fatal
             || (up.attempt(j) == Transient && j == k + retries)
             || (j > k && up.cancelled(j))
    ensures !Succeeds(up, retries, k, pages)
  {
    forall m ensures !(k <= m <= k + retries && Cleared(up, retries, k, m)) {
    }
  }

  /** Full pages and the short one that ends the list. */
  function PagesFor(n: nat, pageSize: nat): nat
    requires pageSize > 0
  {
    if n < pageSize then 1 else 1 + PagesFor(n - pageSize, pageSize)
  }

  /** The number of pages in closed form. */
  lemma {:induction false} PagesForQuotient(n: nat, pageSize: nat)
    requires pageSize > 0
    ensures PagesFor(n, pageSize) == n / pageSize + 1
  {
    if n >= pageSize {
      PagesForQuotient(n - pageSize, pageSize);
      QuotientStep(n, pageSize);
    }
  }

  lemma {:induction false} QuotientStep(n: nat, d: nat)
    requires d > 0 && n >= d
    ensures n / d == (n - d) / d + 1
  {
    var a, b := n / d, (n - d) / d;
    assert d * a <= n < d * a + d;
    assert d * b <= n - d < d * b + d;
    MulMono(d, a + 1, b + 1);
    MulMono(d, b + 2, a);
  }

  lemma {:induction false} PagesForPositive(n: nat, pageSize: nat)
    requires pageSize > 0
    ensures PagesFor(n, pageSize) >= 1
  {
  }

  lemma {:induction false} NoPagesLeft(up: Upstream, retries: nat, k: nat)
    ensures Succeeds(up, retries, k, 0)
  {
  }

  /** A short page is the whole rest of the list, up to the cap; a full one leaves one page less. */
  lemma {:induction false} PageStep<T>(list: seq<T>, at: nat, size: nat, cap: nat)
    requires size > 0
    ensures var page, rest := Page(list, at, Min(size, cap)), From(list, at);
      if |page| < size then page == Collected(rest, size, cap) && (size <= cap ==> PagesFor(|rest|, size) == 1)
      else
        var next := From(list, at + |page|);
        && size <= cap
        && rest == page + next
        && PagesFor(|rest|, size) == 1 + PagesFor(|next|, size)
        && PagesFor(|next|, size) >= 1
  {
  }

  /** How many pages the walk asks for: a page above the server's cap comes back short and ends it at once. */
  function Pages(n: nat, size: nat, cap: nat): nat
    requires size > 0
  {
    if size <= cap then PagesFor(n, size) else 1
  }

  /** What the walk collects: everything, unless the server caps its pages below the page size. */
  function Collected<T>(rest: seq<T>, size: nat, cap: nat): seq<T> {
    if size <= cap then rest else rest[..Min(|rest|, cap)]
  }

  /**
   * `listGeneric` over a list that does not change meanwhile, from a server that never sends more than `cap` items at
   * once. It succeeds exactly when every page clears within the retry budget; then it returns, in order, everything
   * from the offset on if the page size is within the cap, and the first `cap` items of that otherwise.
   */
  method ListGeneric<T>(list: seq<T>, cap: nat, offset: nat, pageSize: int, retries: nat, up: Upstream)
    returns (r: Result<seq<T>, ListError>, requests: nat)
    ensures var size := if pageSize <= 0 then DEFAULT_PAGE_SIZE else pageSize;
      var rest := From(list, offset);
      var pages := Pages(|rest|, size, cap);
      && (r.Ok? <==> Succeeds(up, retries, 0, pages))
      && (r.Ok? ==> r.value == Collected(rest, size, cap))
      && 1 <= requests <= pages * (retries + 1)
  {
    hide Succeeds, Cleared, PagesFor, Page, From;
    var size: nat := if pageSize <= 0 then DEFAULT_PAGE_SIZE else pageSize;
    PagesForPositive(|From(list, offset)|, size);
    var at, all := offset, [];
    requests := 0;
    ghost var pages := Pages(|From(list, offset)|, size, cap);
    ghost var left := pages;
    while true
      invariant 1 <= left <= pages
      invariant size > cap ==> at == offset && all == []
      invariant size <= cap ==> all + From(list, at) == From(list, offset) && left == PagesFor(|From(list, at)|, size)
      invariant Succeeds(up, retries, 0, pages) <==> Succeeds(up, retries, requests, left)
      invariant requests <= (pages - left) * (retries + 1)
      decreases left
    {
      ghost var first := requests;
      var outcome;
      outcome, requests := FetchPage(retries, up, requests);
      RequestBudget(pages, left, retries, first, requests);
      match outcome {
        case Err(error) =>
          r := Err(error);
          return;
        case Ok(_) =>
          SucceedsStep(up, retries, first, left, requests - 1);
      }
      var page := Page(list, at, Min(size, cap));
      PageStep(list, at, size, cap);
      all := all + page;
      if |page| < size {
        NoPagesLeft(up, retries, requests);
        r := Ok(all);
        return;
      }
      at := at + |page|;
      left := left - 1;
    }
  }

  /** The list comes back whole exactly when the page size is within the cap or the rest of the list is. */
  lemma {:induction false} CompleteIff<T>(rest: seq<T>, size: nat, cap: nat)
    ensures Collected(rest, size, cap) == rest <==> size <= cap || |rest| <= cap
  {
    if size > cap {
      assert |Collected(rest, size, cap)| == Min(|rest|, cap);
    }
  }

  /** The inner loop: one page, retried in place. The number of the next request is returned with the outcome. */
  method FetchPage(retries: nat, up: Upstream, first: nat) returns (outcome: Result<(), ListError>, next: nat)
    ensures first < next <= first + retries + 1
    ensures outcome.Ok? ==> Cleared(up, retries, first, next - 1)
    ensures outcome.Err? ==> forall pages: nat | pages > 0 :: !Succeeds(up, retries, first, pages)
  {
    next := first;
    for attempt := 0 to retries + 1
      invariant next == first + attempt
      invariant forall i | first <= i < next :: up.attempt(i) == Transient
      invariant forall i | first < i < next :: !up.cancelled(i)
    {
      if attempt > 0 && up.cancelled(next) {
        forall pages: nat | pages > 0 ensures !Succeeds(up, retries, first, pages) {
          Fails(up, retries, first, pages, next);
        }
        return Err(Cancelled), next;
      }
      var answer := up.attempt(next);
      next := next + 1;
      if answer == Reply {
        return Ok(()), next;
      }
      if answer == Fatal {
        forall pages: nat | pages > 0 ensures !Succeeds(up, retries, first, pages) {
          Fails(up, retries, first, pages, next - 1);
        }
        return Err(RequestFailed), next;
      }
    }
    forall pages: nat | pages > 0 ensures !Succeeds(up, retries, first, pages) {
      Fails(up, retries, first, pages, next - 1);
    }
    outcome := Err(RequestFailed);
  }

  lemma {:induction false} RequestBudget(pages: nat, left: nat, retries: nat, first: nat, next: nat)
    requires 1 <= left <= pages && first <= (pages - left) * (retries + 1) && next <= first + retries + 1
    ensures next <= (pages - (left - 1)) * (retries + 1) <= pages * (retries + 1)
  {
    var d := retries + 1;
    assert (pages - (left - 1)) * d == (pages - left) * d + d;
    MulMono(d, pages - (left - 1), pages);
  }
}
