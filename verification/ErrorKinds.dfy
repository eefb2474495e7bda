/** What an arbitrary error text, printed by the API client or not, is taken for. */
module ErrorKinds {
  import opened Wrappers
  import opened Numbers
  import opened Text
  import opened Decimal
  import opened ApiErrors
  import opened Breaker

  /** A text without a status, such as a timeout's, is transient and has no code. */
  lemma {:induction false} UnmarkedIsTransient(text: string)
    requires !Spells(text, "unexpected status ")
    ensures Classify(text) == (Transient, "")
  {
    UnmarkedFind(text, MARKER);
  }

  /** Characters that can stand in a number or around it. */
  predicate InNumber(c: char) {
    '0' <= c <= '9' || c == '-' || c == '+' || IsSpace(c)
  }

  lemma {:induction false} LeftKept(s: string, i: nat)
    requires i < |s| && !IsSpace(s[i])
    ensures s[i] in TrimLeft(s)
  {
    if IsSpace(s[0]) {
      LeftKept(s[1..], i - 1);
    }
  }

  lemma {:induction false} RightKept(s: string, i: nat)
    requires i < |s| && !IsSpace(s[i])
    ensures s[i] in TrimRight(s)
  {
    if IsSpace(s[|s| - 1]) {
      RightKept(s[..|s| - 1], i);
    }
  }

  lemma {:induction false} TrimKeeps(s: string, c: char)
    requires c in s && !IsSpace(c)
    ensures c in TrimSpace(s)
  {
    var i :| 0 <= i < |s| && s[i] == c;
    LeftKept(s, i);
    var t := TrimLeft(s);
    var j :| 0 <= j < |t| && t[j] == c;
    RightKept(t, j);
  }

  lemma {:induction false} ForeignIsNoNumber(s: string, c: char)
    requires c in s && !InNumber(c)
    ensures ParseInt(s) == None
  {
    var i :| 0 <= i < |s| && s[i] == c;
    if Signed(s) {
      assert s[1..][i - 1] == c;
    }
  }

  /**
   * After the first marker, what precedes the first parenthesis is the status. If that holds a character that no number
   * has, the error is transient, whatever code follows.
   */
  lemma {:induction false} NoStatusIsTransient(prefix: string, head: string, tail: string, c: char)
    requires 'u' !in prefix && '(' !in head && (tail == "" || tail[0] == '(')
    requires c in head && !InNumber(c)
    ensures Classify(prefix + "unexpected status " + head + tail).0 == Transient
  {
    var rest := head + tail;
    AfterFirstMarker(prefix, rest);
    assert prefix + MARKER + head + tail == prefix + MARKER + rest;
    TrimKeeps(head, c);
    ForeignIsNoNumber(head, c);
    ForeignIsNoNumber(TrimSpace(head), c);
    if tail == "" {
      assert rest == head;
      assert IndexOf(rest, '(') == None;
    } else {
      assert rest[..|head|] == head;
      IndexOfFirst(rest, '(', |head|);
    }
  }

  lemma {:induction false} AfterFirstMarker(prefix: string, rest: string)
    requires 'u' !in prefix
    ensures Classify(prefix + MARKER + rest) == ClassifyStatus(rest)
  {
    assert MARKER[0] == 'u';
    var marker := MARKER;
    FindAfter(prefix, marker, rest);
    CutAfter(prefix, marker, rest);
  }

  // ---------------------------------------------------------------- retrying

  /** Everything that counts as worth another attempt. */
  lemma {:induction false} RetriedTexts(text: string)
    ensures IsRetryable(text) <==>
      || Spells(text, "unexpected status 429") || Spells(text, "unexpected status 5")
      || Spells(text, "context deadline exceeded") || Spells(text, "Client.Timeout")
      || Spells(text, "invalid character '<'") || Spells(text, "connection refused") || Spells(text, "no such host")
      || Spells(text, "i/o timeout") || Spells(text, "EOF")
  {
    forall m: string ensures Spells(text, m) <==> Contains(text, m) {
      SpellsContains(text, m);
    }
    hide Spells, Contains;
    MarkersSpelledOut();
    assert MentionsTransport(text) <==>
      || Contains(text, TRANSPORT[0]) || Contains(text, TRANSPORT[1]) || Contains(text, TRANSPORT[2])
      || Contains(text, TRANSPORT[3]) || Contains(text, TRANSPORT[4]) || Contains(text, TRANSPORT[5])
      || Contains(text, TRANSPORT[6]);
  }

  lemma {:induction false} MarkersSpelledOut()
    ensures RATE_LIMITED == "unexpected status 429" && SERVER_ERROR == "unexpected status 5"
  {
  }

  // ---------------------------------------------------------------- the breaker

  /**
   * In any run, a failure whose text has no status never escalates the breaker: it leaves the quarantine alone, or
   * trips it for exactly the base window.
   */
  lemma {:induction false} UnmarkedNeverEscalates(cfg: Config, steps: seq<Step>, f: Failure)
    requires cfg.Validated() && InOrder(steps + [Fail(f)])
    requires f.kind == Classify(f.text).0 && !Spells(f.text, "unexpected status ")
    ensures var before, after := Run(cfg, steps), Run(cfg, steps + [Fail(f)]);
      && after.escalations == before.escalations
      && after.staleUntil ==
           if InWindow(cfg, steps, f) >= cfg.threshold then f.now + cfg.staleMin * MINUTE else before.staleUntil
  {
    UnmarkedIsTransient(f.text);
    hide Run, InWindow, Classify, Spells, InOrder;
    EscalationsCount(cfg, steps, f);
    TripsExactly(cfg, steps, f);
  }

  lemma {:induction false} EscalationsCount(cfg: Config, steps: seq<Step>, f: Failure)
    requires cfg.Validated() && InOrder(steps + [Fail(f)])
    ensures Run(cfg, steps).escalations == ItemTrips(cfg, steps)
  {
    assert (steps + [Fail(f)])[..|steps|] == steps;
    EscalationsCountItemTrips(cfg, steps);
  }

  /** A run of nothing but such failures, however many, never escalates at all. */
  lemma {:induction false} TimeoutsNeverEscalate(cfg: Config, steps: seq<Step>)
    requires cfg.Validated() && InOrder(steps)
    requires forall s | s in steps && s.Fail? ::
      s.f.kind == Classify(s.f.text).0 && !Spells(s.f.text, "unexpected status ")
    ensures Run(cfg, steps).escalations == 0
  {
    EscalationsCountItemTrips(cfg, steps);
    NoItemTrips(cfg, steps);
  }

  lemma {:induction false} NoItemTrips(cfg: Config, steps: seq<Step>)
    requires forall s | s in steps && s.Fail? ::
      s.f.kind == Classify(s.f.text).0 && !Spells(s.f.text, "unexpected status ")
    ensures ItemTrips(cfg, steps) == 0
  {
    hide Classify, Spells, InWindow;
    if steps != [] {
      var init, s := steps[..|steps| - 1], steps[|steps| - 1];
      NoItemTrips(cfg, init);
      if s.Fail? {
        assert s in steps;
        UnmarkedIsTransient(s.f.text);
      }
    }
  }
}
