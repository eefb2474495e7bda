/** The shared rate limiter, and the statistics of one queue. `QueueRuns.dfy` runs several queues on one limiter. */
module Throttle {
  import opened Wrappers
  import opened Numbers
  import opened Windows
  import opened Tally

  /** Nanoseconds between two starts: Go's integer division of a minute. */
  function Rate(rpm: int): (rate: int)
    requires 10 <= rpm <= 1000
    ensures rate >= 60_000_000
    ensures rate * rpm <= MINUTE < rate * rpm + rpm
    ensures rate * rpm == MINUTE <==> MINUTE % rpm == 0
  {
    MINUTE / rpm
  }

  /** Whether a start slot is free at `now`; before the first reservation the last one lies unboundedly far back. */
  predicate CanStart(lastCall: Option<int>, rate: int, now: int) {
    lastCall.None? || now - lastCall.value >= rate
  }

  /** `Limiter`. */
  class Limiter {
    const rate: int
    var lastCall: Option<int>

    constructor (rpm: int)
      requires 10 <= rpm <= 1000
      ensures rate == Rate(rpm) && lastCall == None
    {
      rate := Rate(rpm);
      lastCall := None;
    }

    /**
     * The locked section of one round of `Wait`: reserve the slot, or learn how long to sleep before the next round.
     */
    method TryReserve(now: int) returns (reserved: bool, wait: int)
      modifies this
      ensures reserved == CanStart(old(lastCall), rate, now)
      ensures lastCall == if reserved then Some(now) else old(lastCall)
      ensures !reserved ==>
        wait > 0 && CanStart(lastCall, rate, now + wait) && !CanStart(lastCall, rate, now + wait - 1)
    {
      if lastCall.None? || now - lastCall.value >= rate {
        lastCall := Some(now);
        return true, 0;
      }
      return false, rate - (now - lastCall.value);
    }
  }

  // ---------------------------------------------------------------- what spacing means per minute

  /** Any two reservations are at least `rate` apart. */
  predicate Spaced(slots: seq<int>, rate: int) {
    forall i, j | 0 <= i < j < |slots| :: slots[j] - slots[i] >= rate
  }

  /** How many reservations fall into the half-open interval from `lo` to `hi`. */
  function CountIn(slots: seq<int>, lo: int, hi: int): nat {
    if slots == [] then 0
    else CountIn(slots[..|slots| - 1], lo, hi) + if lo <= slots[|slots| - 1] < hi then 1 else 0
  }

  lemma {:induction false} Times(k: int, rate: int)
    ensures (k + 1) * rate == k * rate + rate
  {
  }

  /** The last reservation in the interval lies behind all the others, one rate each. */
  lemma {:induction false} LastInInterval(slots: seq<int>, rate: int, lo: int, hi: int) returns (i: nat)
    requires Spaced(slots, rate) && CountIn(slots, lo, hi) >= 1
    ensures i < |slots| && lo <= slots[i] < hi
    ensures (CountIn(slots, lo, hi) - 1) * rate <= slots[i] - lo
  {
    var n := |slots| - 1;
    var init := slots[..n];
    var k := CountIn(init, lo, hi);
    assert Spaced(init, rate) && forall j | 0 <= j < n :: slots[n] - slots[j] >= rate;
    assert CountIn(slots, lo, hi) == k + if lo <= slots[n] < hi then 1 else 0;
    hide Spaced, CountIn;
    if lo <= slots[n] < hi {
      i := n;
      if k >= 1 {
        var j := LastInInterval(init, rate, lo, hi);
        assert slots[n] - slots[j] >= rate;
        Times(k - 1, rate);
      }
    } else {
      i := LastInInterval(init, rate, lo, hi);
    }
  }

  function MinuteCap(rpm: int): int
    requires 10 <= rpm <= 1000
  {
    if MINUTE % rpm == 0 then rpm else rpm + 1
  }

  /** Spaced reservations: any minute holds at most `rpm` of them, one more when `rpm` does not divide a minute. */
  lemma {:induction false} SpacedMinute(slots: seq<int>, rpm: int, lo: int)
    requires 10 <= rpm <= 1000 && Spaced(slots, Rate(rpm))
    ensures CountIn(slots, lo, lo + MINUTE) <= MinuteCap(rpm)
  {
    var rate, k := Rate(rpm), CountIn(slots, lo, lo + MINUTE);
    if k >= 1 {
      var i := LastInInterval(slots, rate, lo, lo + MINUTE);
      assert (k - 1) * rate < MINUTE;
      if MINUTE % rpm == 0 {
        MulMono(rate, rpm, k - 1);
      } else {
        Times(rpm, rate);
        MulMono(rate, rpm + 1, k - 1);
      }
    }
  }

  /** A burst from `lo` on that uses every slot as soon as it is free. */
  function Burst(lo: int, rate: int, n: nat): (slots: seq<int>)
    ensures |slots| == n
    ensures forall i | 0 <= i < n :: slots[i] == lo + i * rate
  {
    if n == 0 then [] else Burst(lo, rate, n - 1) + [lo + (n - 1) * rate]
  }

  lemma {:induction false} BurstCount(lo: int, rate: int, n: nat, hi: int)
    requires rate > 0 && (n > 0 ==> lo + (n - 1) * rate < hi)
    ensures CountIn(Burst(lo, rate, n), lo, hi) == n
  {
    if n > 0 {
      assert Burst(lo, rate, n)[..n - 1] == Burst(lo, rate, n - 1);
      assert (n - 1) * rate >= 0;
      if n > 1 {
        Times(n - 2, rate);
      }
      BurstCount(lo, rate, n - 1, hi);
    }
  }

  /** A burst of as many starts as the cap allows fits into a minute. */
  lemma {:induction false} BurstFillsMinute(rpm: int, lo: int)
    requires 10 <= rpm <= 1000
    ensures CountIn(Burst(lo, Rate(rpm), MinuteCap(rpm)), lo, lo + MINUTE) == MinuteCap(rpm)
  {
    var rate, n := Rate(rpm), MinuteCap(rpm);
    if n == rpm {
      Times(rpm - 1, rate);
    }
    BurstCount(lo, rate, n, lo + MINUTE);
  }

  // ---------------------------------------------------------------- the bookkeeping of a queue

  datatype Stats = Stats(totalCalls: nat, successfulCalls: nat, failedCalls: nat, http429Calls: nat,
                         callsLastMinute: nat, requestsPerMinute: int)

  /** Entries that a cutoff excludes do not matter when they are a prefix. */
  lemma {:induction false} ExpiredPrefix(log: seq<Instant>, k: nat, cutoff: int)
    requires k <= |log| && forall i | 0 <= i < k :: log[i].at <= cutoff
    ensures After(log[k..], cutoff) == After(log, cutoff)
  {
    if k == 0 {
      assert log[0..] == log;
    } else {
      ExpiredPrefix(log[1..], k - 1, cutoff);
      assert log[1..][k - 1..] == log[k..];
      AfterSkipsExpiredHead(log, cutoff);
    }
  }

  /** The counters of `Queue`, behind its mutex. */
  class Counters {
    const rate: int
    var totalCalls: nat
    var successfulCalls: nat
    var failedCalls: nat
    var http429Calls: nat
    var callWindow: seq<Instant>
    /** When every call ever made ended, and how. */
    ghost var ended: seq<Instant>
    ghost var results: seq<bool>
    /** The time of the last trimming of `callWindow`. */
    ghost var trimmedAt: int

    ghost predicate Valid()
      reads this
    {
      && |ended| == |results| == totalCalls
      && successfulCalls == Count(results, true)
      && failedCalls == Count(results, false)
      && |callWindow| <= |ended|
      && callWindow == ended[|ended| - |callWindow|..]
      && forall i | 0 <= i < |ended| - |callWindow| :: ended[i].at < trimmedAt - MINUTE
    }

    constructor (rpm: int)
      requires 10 <= rpm <= 1000
      ensures Valid() && rate == Rate(rpm) && ended == [] && results == [] && http429Calls == 0 && trimmedAt == 0
    {
      rate := Rate(rpm);
      totalCalls, successfulCalls, failedCalls, http429Calls, callWindow := 0, 0, 0, 0, [];
      ended, results, trimmedAt := [], [], 0;
    }

    /** The locked section after a call: it ended at `now`, and the window is trimmed as of the later `later`. */
    method Complete(now: int, later: int, ok: bool)
      requires Valid() && trimmedAt <= now <= later
      modifies this
      ensures Valid() && trimmedAt == later
      ensures ended == old(ended) + [Event(now, ())] && results == old(results) + [ok]
      ensures http429Calls == old(http429Calls)
      ensures callWindow != [] ==> callWindow[0].at >= later - MINUTE
    {
      hide Count;
      CountAppend(results, ok, true);
      CountAppend(results, ok, false);
      totalCalls := totalCalls + 1;
      if ok {
        successfulCalls := successfulCalls + 1;
      } else {
        failedCalls := failedCalls + 1;
      }
      callWindow := callWindow + [Event(now, ())];
      ended, results, trimmedAt := ended + [Event(now, ())], results + [ok], later;
      Trim(later - MINUTE);
    }

    /** The loop that drops calls older than `cutoff` from the front of the window. */
    method Trim(cutoff: int)
      requires |callWindow| <= |ended| && callWindow == ended[|ended| - |callWindow|..]
      requires forall i | 0 <= i < |ended| - |callWindow| :: ended[i].at < cutoff
      modifies this`callWindow
      ensures |callWindow| <= |ended| && callWindow == ended[|ended| - |callWindow|..]
      ensures forall i | 0 <= i < |ended| - |callWindow| :: ended[i].at < cutoff
      ensures callWindow != [] ==> callWindow[0].at >= cutoff
    {
      while |callWindow| > 0 && callWindow[0].at < cutoff
        invariant |callWindow| <= |ended| && callWindow == ended[|ended| - |callWindow|..]
        invariant forall i | 0 <= i < |ended| - |callWindow| :: ended[i].at < cutoff
        decreases |callWindow|
      {
        assert callWindow[0] == ended[|ended| - |callWindow|];
        callWindow := callWindow[1..];
      }
    }

    method Record429()
      requires Valid()
      modifies this`http429Calls
      ensures Valid() && http429Calls == old(http429Calls) + 1
    {
      http429Calls := http429Calls + 1;
    }

    /** `Stats`: the trimmed window still counts exactly the calls of the last minute. */
    method ReadStats(rpm: int, now: int) returns (s: Stats)
      requires Valid() && trimmedAt <= now && 10 <= rpm <= 1000 && rate == Rate(rpm)
      ensures s.totalCalls == |results| == s.successfulCalls + s.failedCalls
      ensures s.successfulCalls == multiset(results)[true] && s.failedCalls == multiset(results)[false]
      ensures s.http429Calls == http429Calls
      ensures s.callsLastMinute == |After(ended, now - MINUTE)|
      ensures s.requestsPerMinute == rpm
    {
      var cutoff := now - MINUTE;
      var recent := 0;
      for i := 0 to |callWindow|
        invariant recent == |After(callWindow[..i], cutoff)|
      {
        assert callWindow[..i + 1] == callWindow[..i] + [callWindow[i]];
        AfterAppend(callWindow[..i], callWindow[i], cutoff);
        if callWindow[i].at > cutoff {
          recent := recent + 1;
        }
      }
      assert callWindow[..|callWindow|] == callWindow;
      ExpiredPrefix(ended, |ended| - |callWindow|, cutoff);
      BothCounts(results);
      CountedIn(results, true);
      CountedIn(results, false);
      RateRoundTrip(rpm);
      s := Stats(totalCalls, successfulCalls, failedCalls, http429Calls, recent, MINUTE / rate);
    }
  }

  /** The landing page's figure is the configured one: dividing a minute by the rate undoes the rounding. */
  lemma {:induction false} RateRoundTrip(rpm: int)
    requires 10 <= rpm <= 1000
    ensures MINUTE / Rate(rpm) == rpm
  {
    QuotientUnique(MINUTE, Rate(rpm), rpm);
  }

  lemma {:induction false} QuotientUnique(x: int, d: int, q: int)
    requires d > 0 && q * d <= x < q * d + d
    ensures x / d == q
  {
    var a := x / d;
    assert a * d <= x < a * d + d;
    MulMono(d, a + 1, q);
    MulMono(d, q + 1, a);
    Times(a, d);
    Times(q, d);
  }
}
