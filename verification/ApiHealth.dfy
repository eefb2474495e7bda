/** The rolling record of API outcomes and the gate that tells a TorBox-wide outage from a broken item. */
module ApiHealth {
  import opened Wrappers
  import opened Windows

  /** An API or CDN call that ended at some time, well or not. */
  type Outcome = Event<bool>

  const MIN_SAMPLES := 5

  function Failures(log: seq<Outcome>): (n: nat)
    ensures n <= |log|
  {
    if log == [] then 0 else Failures(log[..|log| - 1]) + if log[|log| - 1].what then 0 else 1
  }

  /**
   * The verdict on the outcomes of one window. The source divides floats and compares with 0.8; with fewer than 10^15
   * samples that is 5 * failures >= 4 * samples exactly. A window without successes is covered by the same inequality.
   */
  predicate Verdict(window: seq<Outcome>) {
    |window| >= MIN_SAMPLES && 5 * Failures(window) >= 4 * |window|
  }

  /** The gate's verdict at time `now` if no outcome had ever been thrown away. */
  predicate DegradedAt(history: seq<Outcome>, now: int, window: int) {
    Verdict(After(history, now - window))
  }

  lemma {:induction false} FailuresCounted(log: seq<Outcome>)
    ensures Failures(log) == |set i | 0 <= i < |log| && !log[i].what|
  {
    if log != [] {
      var n := |log| - 1;
      FailuresCounted(log[..n]);
      var before, all := set i | 0 <= i < n && !log[..n][i].what, set i | 0 <= i < |log| && !log[i].what;
      hide Failures;
      if log[n].what {
        assert all == before;
      } else {
        assert all == before + {n};
      }
    }
  }

  lemma {:induction false} AfterSplits(older: seq<Outcome>, recent: seq<Outcome>, cutoff: int)
    requires forall o | o in older :: o.at <= cutoff
    requires forall o | o in recent :: o.at > cutoff
    ensures After(older + recent, cutoff) == recent
  {
    var log := older + recent;
    if recent != [] {
      var n := |recent| - 1;
      assert log == older + recent[..n] + [recent[n]];
      AfterAppend(older + recent[..n], recent[n], cutoff);
      AfterSplits(older, recent[..n], cutoff);
    } else if older != [] {
      var n := |older| - 1;
      assert log == older[..n] + [] + [older[n]] && older[n] in older;
      AfterAppend(older[..n] + [], older[n], cutoff);
      AfterSplits(older[..n], [], cutoff);
    }
  }

  /** The gate is degraded exactly when the window holds five outcomes or more, four fifths of them failures. */
  lemma {:induction false} DegradedExactly(older: seq<Outcome>, recent: seq<Outcome>, now: int, window: int)
    requires forall o | o in older :: o.at <= now - window
    requires forall o | o in recent :: o.at > now - window
    ensures DegradedAt(older + recent, now, window) <==>
      |recent| >= 5 && 5 * |set i | 0 <= i < |recent| && !recent[i].what| >= 4 * |recent|
  {
    AfterSplits(older, recent, now - window);
    FailuresCounted(recent);
  }

  /** A log pruned at some earlier cutoff still gives the verdict of the whole history, now and ever after. */
  lemma {:induction false} PrunedLogGivesSameVerdict(history: seq<Outcome>, prunedAt: int, now: int, window: int)
    requires prunedAt <= now
    ensures DegradedAt(After(history, prunedAt - window), now, window) == DegradedAt(history, now, window)
  {
    var pruned, full := After(After(history, prunedAt - window), now - window), After(history, now - window);
    assert pruned == full by {
      AfterAfter(history, prunedAt - window, now - window);
    }
    assert Verdict(pruned) == Verdict(full);
  }

  /**
   * What the landing page shows; the ratio and the two timestamps are the model's `successes`, `samples` and
   * options.
   */
  datatype Snapshot = Snapshot(
    samples: nat,
    successes: nat,
    failures: nat,
    lastSuccess: Option<int>,
    lastFailure: Option<int>,
    degraded: bool,
    tooFew: bool)

  function Latest(log: seq<Outcome>, ok: bool): Option<int> {
    if log == [] then None
    else
      var o, rest := log[|log| - 1], Latest(log[..|log| - 1], ok);
      if o.what == ok then Later(rest, o.at) else rest
  }

  /** The time shown for the last success or failure is the latest there is. */
  lemma {:induction false} LatestIsLast(log: seq<Outcome>, ok: bool)
    ensures Latest(log, ok).None? <==> forall o | o in log :: o.what != ok
    ensures Latest(log, ok).Some? ==>
      && Event(Latest(log, ok).value, ok) in log
      && forall o | o in log && o.what == ok :: o.at <= Latest(log, ok).value
  {
    if log != [] {
      LatestIsLast(log[..|log| - 1], ok);
      assert log == log[..|log| - 1] + [log[|log| - 1]];
    }
  }

  predicate Tallies(w: seq<Outcome>, fails: nat, succ: nat, lastSuccess: Option<int>, lastFailure: Option<int>) {
    && fails == Failures(w)
    && fails + succ == |w|
    && lastSuccess == Latest(w, true)
    && lastFailure == Latest(w, false)
  }

  lemma {:induction false} AfterNext(log: seq<Outcome>, i: nat, cutoff: int)
    requires i < |log|
    ensures After(log[..i + 1], cutoff) == After(log[..i], cutoff) + if log[i].at > cutoff then [log[i]] else []
  {
    assert log[..i + 1] == log[..i] + [log[i]];
    AfterAppend(log[..i], log[i], cutoff);
    hide After;
  }

  /** `Server.requestdlOutcomes` with the operations its mutex protects. */
  class HealthTracker {
    const window: int
    /** The backing array of the slice; `len` is the slice's length. */
    var buf: array<Outcome>
    var len: nat
    /** Every outcome ever recorded. */
    ghost var history: seq<Outcome>
    /** The time of the last compaction. */
    ghost var prunedAt: int

    ghost predicate Valid()
      reads this, buf
    {
      && window > 0
      && len <= buf.Length
      && Log() == After(history, prunedAt - window)
    }

    /** The current content of the slice. */
    ghost function Log(): seq<Outcome>
      requires len <= buf.Length
      reads this, buf
    {
      buf[..len]
    }

    constructor (window: int)
      requires window > 0
      ensures Valid() && this.window == window && history == [] && prunedAt == 0
      ensures fresh(buf)
    {
      this.window := window;
      buf := new Outcome[0];
      len := 0;
      history := [];
      prunedAt := 0;
    }

    lemma {:induction false} SameWindow(cutoff: int)
      requires Valid() && prunedAt - window <= cutoff
      ensures After(Log(), cutoff) == After(history, cutoff)
    {
      hide After;
      AfterAfter(history, prunedAt - window, cutoff);
    }

    /** Go's `append`: reuse the backing array while it has room, otherwise move to a larger one. */
    method Append(o: Outcome)
      requires len <= buf.Length
      modifies this`buf, this`len, buf
      ensures len == old(len) + 1 <= buf.Length
      ensures Log() == old(Log()) + [o]
      ensures buf == old(buf) || fresh(buf)
    {
      if len == buf.Length {
        var larger := new Outcome[2 * len + 1](_ => o);
        forall i | 0 <= i < len {
          larger[i] := buf[i];
        }
        buf := larger;
      } else {
        buf[len] := o;
      }
      len := len + 1;
    }

    /** One kept outcome moves to the front. */
    method Keep(kept: nat, i: nat)
      requires kept <= i < len <= buf.Length
      modifies buf
      ensures buf[..kept + 1] == old(buf[..kept]) + [old(buf[i])] && buf[i + 1..len] == old(buf[i + 1..len])
    {
      buf[kept] := buf[i];
    }

    /** The loop over `keep`: the kept outcomes move to the front of the very array they are read from. */
    method Compact(cutoff: int)
      requires len <= buf.Length
      modifies this`len, buf
      ensures len <= buf.Length && Log() == After(old(Log()), cutoff)
    {
      ghost var log := buf[..len];
      assert buf[0..len] == log;
      assert After(log[..0], cutoff) == [];
      hide After;
      var kept := 0;
      for i := 0 to len
        invariant kept <= i && len == old(len)
        invariant buf[..kept] == After(log[..i], cutoff)
        invariant buf[i..len] == log[i..]
      {
        assert buf[i] == buf[i..len][0] == log[i];
        assert buf[i + 1..len] == buf[i..len][1..] == log[i + 1..];
        AfterNext(log, i, cutoff);
        if buf[i].at > cutoff {
          Keep(kept, i);
          kept := kept + 1;
        }
      }
      assert log[..len] == log;
      len := kept;
    }

    /** `recordOutcome` at time `now`. */
    method RecordOutcome(now: int, ok: bool)
      requires Valid() && prunedAt <= now
      modifies this, buf
      ensures Valid() && prunedAt == now
      ensures history == old(history) + [Event(now, ok)]
      ensures buf == old(buf) || fresh(buf)
    {
      var o := Event(now, ok);
      hide After;
      AppendAfter(history, o, prunedAt - window, now - window);
      history, prunedAt := history + [o], now;
      Append(o);
      Compact(now - window);
    }

    /** The loop of `globalDegraded` over the log. */
    method CountWindow(cutoff: int) returns (fails: nat, succ: nat)
      requires len <= buf.Length
      ensures var w := After(Log(), cutoff); fails == Failures(w) && fails + succ == |w|
    {
      fails, succ := 0, 0;
      for i := 0 to len
        invariant var w := After(buf[..i], cutoff); fails == Failures(w) && fails + succ == |w|
      {
        assert buf[..i + 1] == buf[..i] + [buf[i]];
        StepWindow(buf[..i], buf[i], cutoff);
        hide After, Failures;
        if buf[i].at > cutoff {
          if buf[i].what {
            succ := succ + 1;
          } else {
            fails := fails + 1;
          }
        }
      }
    }

    /** `globalDegraded` at time `now`: the verdict on everything that ever happened, from the compacted log alone. */
    method GlobalDegraded(now: int) returns (degraded: bool)
      requires Valid() && prunedAt <= now
      ensures degraded == DegradedAt(history, now, window)
    {
      hide After, Failures;
      var cutoff := now - window;
      var fails, succ := CountWindow(cutoff);
      SameWindow(cutoff);
      if fails + succ < MIN_SAMPLES {
        return false;
      }
      if succ == 0 {
        return true;
      }
      return 5 * fails >= 4 * (fails + succ);
    }

    /** The loop of `requestdlHealth`. */
    method TallyWindow(cutoff: int)
      returns (fails: nat, succ: nat, lastSucc: Option<int>, lastFail: Option<int>)
      requires len <= buf.Length
      ensures Tallies(After(Log(), cutoff), fails, succ, lastSucc, lastFail)
    {
      fails, succ, lastSucc, lastFail := 0, 0, None, None;
      for i := 0 to len
        invariant Tallies(After(buf[..i], cutoff), fails, succ, lastSucc, lastFail)
      {
        hide After, Tallies;
        assert buf[..i + 1] == buf[..i] + [buf[i]];
        var o := buf[i];
        TallyStep(buf[..i], o, cutoff, fails, succ, lastSucc, lastFail);
        if o.at <= cutoff {
          continue;
        }
        if o.what {
          succ := succ + 1;
          if lastSucc.None? || o.at > lastSucc.value {
            lastSucc := Some(o.at);
          }
        } else {
          fails := fails + 1;
          if lastFail.None? || o.at > lastFail.value {
            lastFail := Some(o.at);
          }
        }
      }
    }

    /** `requestdlHealth`: the snapshot describes the same window and carries the same verdict as the gate. */
    method RequestdlHealth(now: int) returns (h: Snapshot)
      requires Valid() && prunedAt <= now
      ensures h.degraded == DegradedAt(history, now, window)
      ensures Tallies(After(history, now - window), h.failures, h.successes, h.lastSuccess, h.lastFailure)
      ensures h.samples == h.failures + h.successes
      ensures h.tooFew <==> h.samples < MIN_SAMPLES
    {
      hide After, Failures, Latest;
      var cutoff := now - window;
      var fails, succ, lastSucc, lastFail := TallyWindow(cutoff);
      SameWindow(cutoff);
      var samples := fails + succ;
      var tooFew := samples < MIN_SAMPLES;
      var degraded := !tooFew && (succ == 0 || 5 * fails >= 4 * samples);
      h := Snapshot(samples, succ, fails, lastSucc, lastFail, degraded, tooFew);
    }
  }

  lemma {:induction false} StepWindow(log: seq<Outcome>, o: Outcome, cutoff: int)
    ensures var w, w' := After(log, cutoff), After(log + [o], cutoff);
      if o.at > cutoff then w' == w + [o] && Failures(w') == Failures(w) + (if o.what then 0 else 1) else w' == w
  {
    AfterAppend(log, o, cutoff);
    var w := After(log, cutoff);
    assert (w + [o])[..|w|] == w;
  }

  function Later(last: Option<int>, at: int): Option<int> {
    if last.None? || at > last.value then Some(at) else last
  }

  lemma {:induction false} TallyStep(
      log: seq<Outcome>, o: Outcome, cutoff: int, fails: nat, succ: nat, lastSucc: Option<int>, lastFail: Option<int>)
    requires Tallies(After(log, cutoff), fails, succ, lastSucc, lastFail)
    ensures var w' := After(log + [o], cutoff);
      if o.at <= cutoff then Tallies(w', fails, succ, lastSucc, lastFail)
      else if o.what then Tallies(w', fails, succ + 1, Later(lastSucc, o.at), lastFail)
      else Tallies(w', fails + 1, succ, lastSucc, Later(lastFail, o.at))
  {
    var w := After(log, cutoff);
    StepWindow(log, o, cutoff);
    assert (w + [o])[..|w|] == w;
  }
}
