/** Byte-range headers: what the proxy sends upstream, and what it accepts from clients and from the CDN. */
module ByteRanges {
  import opened Wrappers
  import opened Int64
  import opened Text
  import opened Decimal

  datatype HttpRange = HttpRange(start: int, end: int, length: int)

  datatype RangeError = EmptyHeader | BadPrefix | BadFormat | BadSuffix | BadStart | BadEnd | OutOfBounds

  const PREFIX := "bytes="

  /** The header of an upstream request for an inclusive byte range. */
  function RangeHeader(start: int, end: int): string {
    PREFIX + FormatInt(start) + "-" + FormatInt(end)
  }

  /** The part of a header after `bytes=`, cut at its first dash, both halves trimmed. */
  function SplitRange(header: string): (r: Result<(string, string), RangeError>) {
    if header == "" then Err(EmptyHeader)
    else if !(PREFIX <= header) then Err(BadPrefix)
    else
      var value := header[|PREFIX|..];
      match IndexOf(value, '-')
      case None => Err(BadFormat)
      case Some(i) => Ok((TrimSpace(value[..i]), TrimSpace(value[i + 1..])))
  }

  /** `parseRange`: sums and differences are int64 arithmetic and wrap around. */
  function ParseRange(header: string, fileSize: int): Result<HttpRange, RangeError> {
    match SplitRange(header)
    case Err(e) => Err(e)
    case Ok((startText, endText)) =>
      if startText == "" then ParseSuffix(endText, fileSize) else ParseExplicit(startText, endText, fileSize)
  }

  function ParseSuffix(text: string, fileSize: int): Result<HttpRange, RangeError> {
    match ParseInt(text)
    case None => Err(BadSuffix)
    case Some(suffix) => Ok(Bounds(if suffix >= fileSize then 0 else Wrap64(fileSize - suffix), Wrap64(fileSize - 1)))
  }

  function ParseExplicit(startText: string, endText: string, fileSize: int): Result<HttpRange, RangeError> {
    match ParseInt(startText)
    case None => Err(BadStart)
    case Some(start) =>
      match if endText == "" then Some(Wrap64(fileSize - 1)) else ParseInt(endText)
      case None => Err(BadEnd)
      case Some(end) =>
        if start > end || start < 0 || end >= fileSize then Err(OutOfBounds) else Ok(Bounds(start, end))
  }

  function Bounds(start: int, end: int): HttpRange {
    HttpRange(start, end, Wrap64(end - start + 1))
  }

  predicate InBounds(r: HttpRange, fileSize: int) {
    0 <= r.start <= r.end < fileSize && r.length == r.end - r.start + 1
  }

  lemma {:induction false} CutAtDash(left: string, right: string, fileSize: int)
    requires '-' !in left
    ensures ParseRange(PREFIX + left + "-" + right, fileSize)
         == if TrimSpace(left) == "" then ParseSuffix(TrimSpace(right), fileSize)
            else ParseExplicit(TrimSpace(left), TrimSpace(right), fileSize)
  {
    var value := left + "-" + right;
    var header := PREFIX + left + "-" + right;
    assert header == PREFIX + value;
    assert header[..|PREFIX|] == PREFIX && header[|PREFIX|..] == value;
    assert value[..|left|] == left && value[|left| + 1..] == right;
    IndexOfFirst(value, '-', |left|);
  }

  /** A negative start is read as an empty start with a dash inside the rest, which is no number. */
  lemma {:induction false} NegativeStart(start: int, right: string, fileSize: int)
    requires start < 0
    requires right == "" || !IsSpace(right[|right| - 1])
    ensures ParseRange(PREFIX + FormatInt(start) + "-" + right, fileSize) == Err(BadSuffix)
  {
    var digits := Digits(-start);
    var tail := digits + "-" + right;
    assert PREFIX + FormatInt(start) + "-" + right == PREFIX + "" + "-" + tail;
    CutAtDash("", tail, fileSize);
    DashInsideIsNoNumber(digits, right);
  }

  /** What follows the dash that a negative start puts first is no number, whatever `tail` adds. */
  lemma {:induction false} DashInsideIsNoNumber(digits: string, tail: string)
    requires digits != "" && AllDigits(digits)
    requires tail == "" || !IsSpace(tail[|tail| - 1])
    ensures ParseInt(TrimSpace(digits + "-" + tail)) == None
  {
    var s := digits + "-" + tail;
    assert IsDigit(s[0]) && !IsSpace(s[|s| - 1]);
    assert TrimSpace(s) == s;
    assert !IsDigit(s[|digits|]);
  }

  lemma {:induction false} PrintedNumber(n: int)
    requires IsInt64(n)
    ensures var text := FormatInt(n);
      && text != "" && TrimSpace(text) == text && !IsSpace(text[|text| - 1]) && ParseInt(text) == Some(n)
      && (n >= 0 ==> '-' !in text)
  {
    FormatIntAlphabet(n);
    ParseOfFormat(n);
    LastIsNoSpace(FormatInt(n));
  }

  /** An explicit range is accepted exactly when it lies inside the file, and then it comes back unchanged. */
  lemma {:induction false} ExplicitRange(start: int, end: int, fileSize: int)
    requires IsInt64(start) && IsInt64(end) && IsInt64(fileSize)
    ensures ParseRange(RangeHeader(start, end), fileSize).Ok? <==> 0 <= start <= end < fileSize
    ensures 0 <= start <= end < fileSize
        ==> ParseRange(RangeHeader(start, end), fileSize) == Ok(HttpRange(start, end, end - start + 1))
  {
    PrintedNumber(start);
    PrintedNumber(end);
    if start >= 0 {
      CutAtDash(FormatInt(start), FormatInt(end), fileSize);
      ExplicitBounds(FormatInt(start), FormatInt(end), start, end, fileSize);
    } else {
      NegativeStart(start, FormatInt(end), fileSize);
    }
  }

  lemma {:induction false} ExplicitBounds(startText: string, endText: string, start: int, end: int, fileSize: int)
    requires IsInt64(start) && IsInt64(end) && IsInt64(fileSize) && endText != ""
    requires ParseInt(startText) == Some(start) && ParseInt(endText) == Some(end)
    ensures var r := ParseExplicit(startText, endText, fileSize);
      && (r.Ok? <==> 0 <= start <= end < fileSize)
      && (r.Ok? ==> r.value == HttpRange(start, end, end - start + 1))
  {
  }

  lemma {:induction false} LastIsNoSpace(s: string)
    requires s != "" && TrimSpace(s) == s
    ensures !IsSpace(s[|s| - 1])
  {
  }

  /** "bytes=S-" asks for everything from S on. */
  lemma {:induction false} OpenRange(start: int, fileSize: int)
    requires IsInt64(start) && 0 <= fileSize < TWO_63
    ensures ParseRange(PREFIX + FormatInt(start) + "-", fileSize).Ok? <==> 0 <= start < fileSize
    ensures 0 <= start < fileSize ==>
      ParseRange(PREFIX + FormatInt(start) + "-", fileSize) == Ok(HttpRange(start, fileSize - 1, fileSize - start))
  {
    var text := FormatInt(start);
    assert PREFIX + text + "-" == PREFIX + text + "-" + "";
    if start >= 0 {
      PrintedNumber(start);
      CutAtDash(text, "", fileSize);
    } else {
      NegativeStart(start, "", fileSize);
    }
  }

  lemma {:induction false} SuffixBounds(text: string, n: int, fileSize: int)
    requires IsInt64(n) && 0 <= fileSize < TWO_63 && ParseInt(text) == Some(n)
    ensures var r := ParseSuffix(text, fileSize);
      && r.Ok?
      && (InBounds(r.value, fileSize) <==> n >= 1 && fileSize >= 1)
      && (n >= 1 ==> var len := if n < fileSize then n else fileSize;
                     r.value == HttpRange(fileSize - len, fileSize - 1, len))
  {
  }

  /**
   * "bytes=-N" is accepted for every N. From N = 1 on it is the last min(N, fileSize) bytes; the range lies inside
   * the file if and only if N is positive and the file is not empty.
   */
  lemma {:induction false} SuffixRange(n: int, fileSize: int)
    requires IsInt64(n) && 0 <= fileSize < TWO_63
    ensures var r := ParseRange(PREFIX + "-" + FormatInt(n), fileSize);
      && r.Ok?
      && (InBounds(r.value, fileSize) <==> n >= 1 && fileSize >= 1)
      && (n >= 1 ==> var len := if n < fileSize then n else fileSize;
                     r.value == HttpRange(fileSize - len, fileSize - 1, len))
  {
    var text := FormatInt(n);
    assert PREFIX + "-" + text == PREFIX + "" + "-" + text;
    CutAtDash("", text, fileSize);
    PrintedNumber(n);
    SuffixBounds(text, n, fileSize);
  }

  /** Whatever the header looks like, only the suffix form can yield a range outside the file. */
  lemma {:induction false} AcceptedRangesAreInBounds(header: string, fileSize: int)
    requires 0 <= fileSize < TWO_63
    requires ParseRange(header, fileSize).Ok?
    requires SplitRange(header).value.0 != ""
    ensures InBounds(ParseRange(header, fileSize).value, fileSize)
  {
    var r := ParseRange(header, fileSize).value;
    assert Wrap64(r.end - r.start + 1) == r.end - r.start + 1;
  }

  lemma {:induction false} HeaderParts(header: string) returns (left: string, right: string)
    requires SplitRange(header).Ok?
    ensures header == "bytes=" + left + "-" + right && '-' !in left
    ensures SplitRange(header) == Ok((TrimSpace(left), TrimSpace(right)))
  {
    hide TrimSpace;
    var value := header[|PREFIX|..];
    var i := IndexOf(value, '-').value;
    left, right := value[..i], value[i + 1..];
    var prefix := PREFIX;
    assert header == prefix + value;
    Regrouped(prefix, left, right, value);
  }

  lemma {:induction false} Regrouped(prefix: string, left: string, right: string, value: string)
    requires |left| < |value| && left == value[..|left|] && value[|left|] == '-' && right == value[|left| + 1..]
    ensures prefix + value == prefix + left + "-" + right
  {
  }

  /** Nothing is accepted that is not of the form "bytes=A-B", with a number on at least one side of the dash. */
  lemma {:induction false} AcceptedHeaders(header: string, fileSize: int) returns (left: string, right: string)
    requires ParseRange(header, fileSize).Ok?
    ensures header == "bytes=" + left + "-" + right && '-' !in left
    ensures if TrimSpace(left) == "" then ParseInt(TrimSpace(right)).Some?
            else ParseInt(TrimSpace(left)).Some? && (TrimSpace(right) == "" || ParseInt(TrimSpace(right)).Some?)
  {
    hide TrimSpace, ParseInt, SplitRange;
    left, right := HeaderParts(header);
  }

  // ---------------------------------------------------------------- Content-Range of a 416 reply

  const UNSATISFIED := "*/"

  /** `parseCDNTrueSize`. */
  function ParseCdnTrueSize(contentRange: string): (r: Option<int>)
    ensures r.Some? ==> 0 <= r.value < TWO_63
  {
    match Find(contentRange, UNSATISFIED)
    case None => None
    case Some(i) =>
      match ParseInt(TrimSpace(contentRange[i + 2..]))
      case None => None
      case Some(n) => if n < 0 then None else Some(n)
  }

  /** The unsatisfied form carries back every size that is a non-negative int64, and nothing else. */
  lemma {:induction false} TrueSizeRoundTrip(n: int)
    ensures ParseCdnTrueSize("bytes */" + FormatInt(n)) == if 0 <= n < TWO_63 then Some(n) else None
  {
    var text := FormatInt(n);
    FindAfter("bytes ", UNSATISFIED, text);
    UnsatisfiedForm(text);
    FormatIntAlphabet(n);
    ParseOfFormat(n);
  }

  lemma {:induction false} UnsatisfiedForm(text: string)
    ensures "bytes */" + text == "bytes " + UNSATISFIED + text
    ensures ("bytes */" + text)[8..] == text
  {
  }
}
