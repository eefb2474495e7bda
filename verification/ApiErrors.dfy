/** The error strings the API client builds, and what the server reads back out of them. */
module ApiErrors {
  import opened Int64
  import opened Text
  import opened Decimal

  datatype FailureKind = Auth | Transient | DatabaseError

  const PREFIX := "torbox: "
  const MARKER := "unexpected status "
  const BAD_TOKEN := "BAD_TOKEN"

  /** The error of `Client.do` for a non-200 status; `code` is the API's error field, "" when it sent none. */
  function ErrorText(status: int, code: string): string {
    PREFIX + MARKER + Detail(status, code)
  }

  function Detail(status: int, code: string): string {
    if code == "" then FormatInt(status) else FormatInt(status) + " (" + code + ")"
  }

  /** `classifyTorboxError`. */
  function Classify(text: string): (FailureKind, string) {
    match Find(text, MARKER)
    case None => (Transient, "")
    case Some(i) => ClassifyStatus(text[i + |MARKER|..])
  }

  function ClassifyStatus(rest: string): (FailureKind, string) {
    var open := IndexOf(rest, '(');
    var close := LastIndexOf(rest, ')');
    var code :=
      if open.Some? && close.Some? && 0 < open.value < close.value then rest[open.value + 1..close.value] else "";
    match ParseInt(if open.Some? then TrimSpace(rest[..open.value]) else rest)
    case None => (Transient, code)
    case Some(status) =>
      if code == "" then (Transient, "")
      else if code == BAD_TOKEN then (Auth, code)
      else if status >= 500 then (DatabaseError, code)
      else (Transient, code)
  }

  lemma {:induction false} ClassifyAfterMarker(rest: string)
    ensures Classify(PREFIX + MARKER + rest) == ClassifyStatus(rest)
  {
    var prefix, marker := PREFIX, MARKER;
    FindAfter(prefix, marker, rest);
    CutAfter(prefix, marker, rest);
  }

  lemma {:induction false} CutAfter(prefix: string, marker: string, rest: string)
    ensures (prefix + marker + rest)[|prefix| + |marker|..] == rest
  {
  }

  lemma {:induction false} TrimTrailingSpace(s: string)
    requires s != "" && TrimSpace(s) == s && !IsSpace(s[0]) && !IsSpace(s[|s| - 1])
    ensures TrimSpace(s + " ") == s
  {
    assert (s + " ")[..|s|] == s;
    assert TrimRight(s) == s;
    assert TrimRight(s + " ") == TrimRight(s);
  }

  lemma {:induction false} ClassifyCoded(status: int, code: string)
    requires IsInt64(status) && code != ""
    ensures ClassifyStatus(FormatInt(status) + " (" + code + ")")
         == (if code == BAD_TOKEN then Auth else if status >= 500 then DatabaseError else Transient, code)
  {
    var digits := FormatInt(status);
    var rest := digits + " (" + code + ")";
    assert '(' !in digits && TrimSpace(digits + " ") == digits && digits != "" by {
      FormatIntAlphabet(status);
      TrimTrailingSpace(digits);
    }
    ParseOfFormat(status);
    var open, close := |digits| + 1, |rest| - 1;
    assert rest[..open] == digits + " " && rest[open + 1..close] == code && rest[close + 1..] == "";
    IndexOfFirst(rest, '(', open);
    LastIndexOfLast(rest, ')', close);
  }

  /** Classification recovers exactly the code that was printed, whatever characters it holds. */
  lemma {:induction false} ClassifyPrinted(status: int, code: string)
    requires IsInt64(status)
    ensures Classify(ErrorText(status, code))
         == (if code == "" then Transient
             else if code == BAD_TOKEN then Auth
             else if status >= 500 then DatabaseError
             else Transient, code)
  {
    ClassifyAfterMarker(Detail(status, code));
    if code == "" {
      ClassifyBare(status);
    } else {
      ClassifyCoded(status, code);
    }
  }

  lemma {:induction false} ClassifyBare(status: int)
    requires IsInt64(status)
    ensures ClassifyStatus(FormatInt(status)) == (Transient, "")
  {
    FormatIntAlphabet(status);
    ParseOfFormat(status);
  }

  // ---------------------------------------------------------------- retry decisions

  const RATE_LIMITED := MARKER + "429"
  const SERVER_ERROR := MARKER + "5"

  const TRANSPORT: seq<string> :=
    ["context deadline exceeded", "Client.Timeout", "invalid character '<'", "connection refused", "no such host",
     "i/o timeout", "EOF"]

  /** A character of each transport marker that no printed status contains. */
  const TELLTALE: string := "lCvfh/E"

  predicate MentionsTransport(text: string) {
    exists i | 0 <= i < |TRANSPORT| :: Contains(text, TRANSPORT[i])
  }

  /** `IsRetryable`. */
  predicate IsRetryable(text: string) {
    Contains(text, RATE_LIMITED) || Contains(text, SERVER_ERROR) || MentionsTransport(text)
  }

  lemma {:induction false} ThreeDigits(status: nat)
    requires 100 <= status < 1000
    ensures FormatInt(status) == [Digit(status / 100), Digit(status / 10 % 10), Digit(status % 10)]
  {
    assert status / 10 / 10 == status / 100;
    assert Digits(status / 100) == [Digit(status / 100)];
    assert Digits(status / 10) == [Digit(status / 100)] + [Digit(status / 10 % 10)];
  }

  lemma {:induction false} Telltales(i: nat)
    requires i < |TRANSPORT|
    ensures |TELLTALE| == |TRANSPORT|
    ensures TELLTALE[i] in TRANSPORT[i] && '(' !in TRANSPORT[i] && ')' !in TRANSPORT[i]
    ensures var c := TELLTALE[i]; c !in PREFIX && c !in MARKER && !IsDigit(c) && c != ' '
  {
    TelltalePresent(i);
    NoParentheses(i);
    TelltaleForeign(i);
  }

  lemma {:induction false} TelltalePresent(i: nat)
    requires i < |TRANSPORT|
    ensures TELLTALE[i] in TRANSPORT[i]
  {
    assert TRANSPORT[0][12] == 'l' && TRANSPORT[1][0] == 'C' && TRANSPORT[2][2] == 'v' && TRANSPORT[3][13] == 'f';
    assert TRANSPORT[4][8] == 'h' && TRANSPORT[5][1] == '/' && TRANSPORT[6][0] == 'E';
  }

  lemma {:induction false} NoParentheses(i: nat)
    requires i < |TRANSPORT|
    ensures '(' !in TRANSPORT[i] && ')' !in TRANSPORT[i]
  {
  }

  lemma {:induction false} TelltaleForeign(i: nat)
    requires i < |TELLTALE|
    ensures var c := TELLTALE[i]; c !in PREFIX && c !in MARKER && !IsDigit(c) && c != ' '
  {
    var c := TELLTALE[i];
    assert c == 'l' || c == 'C' || c == 'v' || c == 'f' || c == 'h' || c == '/' || c == 'E';
  }

  /** A status marker can only occur where the status is printed. */
  lemma {:induction false} StatusMarkerAt(prefix: string, marker: string, digits: string, pad: string, x: string)
    requires |marker| >= 4 && marker[0] !in prefix && marker[0] !in marker[1..4]
    requires |digits| == 3 && |pad| <= 1 && x != ""
    ensures Contains(prefix + marker + digits + pad, marker + x) <==> x <= digits + pad
  {
    var s, m, tail := prefix + marker + digits + pad, marker + x, digits + pad;
    assert s[..|prefix|] == prefix && s[|prefix|..|prefix| + |marker|] == marker && s[|prefix| + |marker|..] == tail;
    forall i: nat ensures OccursAt(s, m, i) ==> i == |prefix| {
      if i + |m| <= |s| {
        assert s[i..i + |m|][0] == s[i] && m[0] == marker[0];
        if i > |prefix| {
          assert s[i] == marker[1..4][i - |prefix| - 1] != m[0];
        }
      }
    }
    assert Contains(s, m) <==> OccursAt(s, m, |prefix|);
    if |x| <= |tail| {
      var found := s[|prefix|..|prefix| + |m|];
      assert found == marker + tail[..|x|];
      assert found[|marker|..] == tail[..|x|] && m[|marker|..] == x;
    }
  }

  /** The head of a printed error mentions a status marker exactly for 429 and 5xx, and never a transport marker. */
  lemma {:induction false} HeadStatus(status: nat, pad: string)
    requires 100 <= status < 1000 && |pad| <= 1
    ensures var head := PREFIX + MARKER + FormatInt(status) + pad;
      && (Contains(head, RATE_LIMITED) <==> status == 429)
      && (Contains(head, SERVER_ERROR) <==> 500 <= status < 600)
  {
    var digits := FormatInt(status);
    LeadingDigits(status, pad);
    StatusMarkerAt(PREFIX, MARKER, digits, pad, "429");
    StatusMarkerAt(PREFIX, MARKER, digits, pad, "5");
  }

  lemma {:induction false} HeadTransport(status: nat, pad: string, i: nat)
    requires 100 <= status < 1000 && (pad == "" || pad == " ") && i < |TRANSPORT|
    ensures !Contains(PREFIX + MARKER + FormatInt(status) + pad, TRANSPORT[i])
  {
    LeadingDigits(status, pad);
    Telltales(i);
    LacksCharLacksMarker(PREFIX + MARKER + FormatInt(status) + pad, TELLTALE[i], TRANSPORT[i]);
  }

  lemma {:induction false} LeadingDigits(status: nat, pad: string)
    requires 100 <= status < 1000
    ensures var digits := FormatInt(status);
      |digits| == 3 && ("429" <= digits + pad <==> status == 429) && ("5" <= digits + pad <==> 500 <= status < 600)
  {
    ThreeDigits(status);
    var digits := FormatInt(status);
    var tail := digits + pad;
    assert tail[..3] == digits && tail[..1] == [digits[0]];
    assert "429" <= tail <==> digits[0] == '4' && digits[1] == '2' && digits[2] == '9';
  }

  lemma {:induction false} Regroup(prefix: string, marker: string, digits: string, code: string)
    ensures prefix + marker + (digits + " (" + code + ")") == prefix + marker + digits + " " + ['('] + (code + ")")
  {
  }

  lemma {:induction false} MarkerInPrinted(status: nat, code: string, m: string)
    requires code != "" && m != "" && '(' !in m && ')' !in m
    ensures Contains(ErrorText(status, code), m)
       <==> Contains(PREFIX + MARKER + FormatInt(status) + " ", m) || Contains(code, m)
  {
    Regroup(PREFIX, MARKER, FormatInt(status), code);
    ContainsAroundSeparator(PREFIX + MARKER + FormatInt(status) + " ", '(', code + ")", m);
    assert code + ")" == code + [')'] + "";
    ContainsAroundSeparator(code, ')', "", m);
  }

  lemma {:induction false} TransportInPrinted(status: nat, code: string, i: nat)
    requires 100 <= status < 1000 && i < |TRANSPORT|
    ensures Contains(ErrorText(status, code), TRANSPORT[i]) <==> Contains(code, TRANSPORT[i])
  {
    Telltales(i);
    if code == "" {
      HeadTransport(status, "", i);
      assert ErrorText(status, code) == PREFIX + MARKER + FormatInt(status) + "";
    } else {
      HeadTransport(status, " ", i);
      MarkerInPrinted(status, code, TRANSPORT[i]);
    }
  }

  lemma {:induction false} StatusInPrinted(status: nat, code: string, x: string, expected: bool)
    requires 100 <= status < 1000 && x != "" && '(' !in x && ')' !in x
    requires forall pad | |pad| <= 1 ::
      Contains(PREFIX + MARKER + FormatInt(status) + pad, MARKER + x) == expected
    ensures Contains(ErrorText(status, code), MARKER + x) <==> expected || Contains(code, MARKER + x)
  {
    assert '(' !in MARKER && ')' !in MARKER;
    if code == "" {
      assert ErrorText(status, code) == PREFIX + MARKER + FormatInt(status) + "";
    } else {
      MarkerInPrinted(status, code, MARKER + x);
    }
  }

  /**
   * A printed HTTP error is retried exactly when its status is 429 or 5xx, or when the API's own code text
   * mentions one of the markers.
   */
  lemma {:induction false} RetryablePrinted(status: nat, code: string)
    requires 100 <= status < 1000
    ensures IsRetryable(ErrorText(status, code)) <==> status == 429 || 500 <= status < 600 || IsRetryable(code)
  {
    forall pad: string | |pad| <= 1
      ensures Contains(PREFIX + MARKER + FormatInt(status) + pad, RATE_LIMITED) <==> status == 429
      ensures Contains(PREFIX + MARKER + FormatInt(status) + pad, SERVER_ERROR) <==> 500 <= status < 600
    {
      HeadStatus(status, pad);
    }
    StatusInPrinted(status, code, "429", status == 429);
    StatusInPrinted(status, code, "5", 500 <= status < 600);
    forall i | 0 <= i < |TRANSPORT|
      ensures Contains(ErrorText(status, code), TRANSPORT[i]) <==> Contains(code, TRANSPORT[i])
    {
      TransportInPrinted(status, code, i);
    }
  }
}
