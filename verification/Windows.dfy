/**
 * Sliding time windows over logs. The breaker, the API-health gate and the queue statistics all keep a log whose old
 * entries are thrown away as they go; this module says what such a pruned log still knows.
 *
 * Times are nanoseconds. Go's zero time is 0; every clock reading is later than that.
 */
module Windows {
  /** Something that happened at a time. */
  datatype Event<+T> = Event(at: int, what: T)

  /** A bare time of day, as the breaker and the queues log it. */
  type Instant = Event<()>

  /** The entries later than `cutoff`, in order. */
  function After<T>(log: seq<Event<T>>, cutoff: int): (r: seq<Event<T>>)
    ensures |r| <= |log|
    ensures forall i | 0 <= i < |r| :: r[i].at > cutoff
  {
    if log == [] then []
    else
      var rest := After(log[..|log| - 1], cutoff);
      if log[|log| - 1].at > cutoff then rest + [log[|log| - 1]] else rest
  }

  lemma {:induction false} AfterAppend<T>(log: seq<Event<T>>, x: Event<T>, cutoff: int)
    ensures After(log + [x], cutoff) == After(log, cutoff) + if x.at > cutoff then [x] else []
  {
    assert (log + [x])[..|log|] == log;
  }

  /** Filtering twice is filtering once, when the second cutoff is the later one. */
  lemma {:induction false} AfterAfter<T>(log: seq<Event<T>>, c1: int, c2: int)
    requires c1 <= c2
    ensures After(After(log, c1), c2) == After(log, c2)
  {
    if log != [] {
      var x := log[|log| - 1];
      AfterAfter(log[..|log| - 1], c1, c2);
      if x.at > c1 {
        AfterAppend(After(log[..|log| - 1], c1), x, c2);
      }
    }
  }

  /** A log that is re-filtered on every append is the whole history filtered once, at the last cutoff. */
  lemma {:induction false} AppendAfter<T>(history: seq<Event<T>>, x: Event<T>, c1: int, c2: int)
    requires c1 <= c2
    ensures After(After(history, c1) + [x], c2) == After(history + [x], c2)
  {
    AfterAppend(After(history, c1), x, c2);
    AfterAfter(history, c1, c2);
    AfterAppend(history, x, c2);
  }

  /** On an ordered log the window is a suffix: dropping an expired head changes nothing. */
  lemma {:induction false} AfterSkipsExpiredHead<T>(log: seq<Event<T>>, cutoff: int)
    requires log != [] && log[0].at <= cutoff
    ensures After(log[1..], cutoff) == After(log, cutoff)
  {
    if |log| > 1 {
      AfterSkipsExpiredHead(log[..|log| - 1], cutoff);
      assert log[1..][..|log| - 2] == log[..|log| - 1][1..];
    } else {
      assert log[..0] == [];
    }
  }
}
