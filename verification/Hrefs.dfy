/** Percent-encoding of WebDAV hrefs. Strings hold bytes: characters below 256. */
module Hrefs {
  import opened Wrappers
  import opened Text

  predicate Bytes(s: string) {
    forall i | 0 <= i < |s| :: s[i] as int < 256
  }

  /** Unreserved characters: section 2.3 of RFC 3986. */
  predicate Unreserved(c: char) {
    'a' <= c <= 'z' || 'A' <= c <= 'Z' || '0' <= c <= '9' || c == '-' || c == '_' || c == '.' || c == '~'
  }

  /** What `url.PathEscape` copies: the unreserved characters and six of the reserved ones. */
  predicate Plain(c: char) {
    Unreserved(c) || c == '$' || c == '&' || c == '+' || c == ':' || c == '=' || c == '@'
  }

  function HexDigit(d: nat): (c: char)
    requires d < 16
  {
    if d < 10 then ('0' as int + d) as char else ('A' as int + d - 10) as char
  }

  predicate IsHex(c: char) {
    '0' <= c <= '9' || 'A' <= c <= 'F' || 'a' <= c <= 'f'
  }

  function HexValue(c: char): (d: nat)
    requires IsHex(c)
    ensures d < 16
  {
    if c <= '9' then c as int - '0' as int
    else if c <= 'F' then c as int - 'A' as int + 10
    else c as int - 'a' as int + 10
  }

  function EscapeByte(c: char): string
    requires c as int < 256
  {
    if Plain(c) then [c] else ['%', HexDigit(c as int / 16), HexDigit(c as int % 16)]
  }

  /** `url.PathEscape`. */
  function PathEscape(seg: string): string
    requires Bytes(seg)
  {
    if seg == "" then "" else EscapeByte(seg[0]) + PathEscape(seg[1..])
  }

  lemma {:induction false} EscapeAppend(a: string, c: char)
    requires Bytes(a) && c as int < 256
    ensures Bytes(a + [c]) && PathEscape(a + [c]) == PathEscape(a) + EscapeByte(c)
  {
    hide EscapeByte;
    if a == "" {
      assert (a + [c])[1..] == "";
    } else {
      EscapeAppend(a[1..], c);
      assert (a + [c])[1..] == a[1..] + [c];
    }
  }

  /**
   * Escaping goes character by character: letters, digits and "-_.~$&+:=@" stay, every other byte becomes a '%' and its
   * two hexadecimal digits in upper case.
   */
  lemma {:induction false} EscapesExactly(a: string, c: char)
    requires Bytes(a) && c as int < 256
    ensures Bytes(a + [c]) && PathEscape("") == ""
    ensures var stays := || 'a' <= c <= 'z' || 'A' <= c <= 'Z' || '0' <= c <= '9'
                         || c in ['-', '_', '.', '~', '$', '&', '+', ':', '=', '@'];
      PathEscape(a + [c]) == PathEscape(a) +
        if stays then [c]
        else ['%', "0123456789ABCDEF"[c as int / 16], "0123456789ABCDEF"[c as int % 16]]
  {
    EscapeAppend(a, c);
    HexDigits(c as int / 16);
    HexDigits(c as int % 16);
    hide HexDigit;
  }

  lemma {:induction false} HexDigits(d: nat)
    requires d < 16
    ensures HexDigit(d) == "0123456789ABCDEF"[d]
  {
  }

  /** Percent-decoding of one segment; `None` when a '%' does not start an escape. */
  function PathUnescape(s: string): Option<string> {
    if s == "" then Some("")
    else if s[0] != '%' then
      match PathUnescape(s[1..])
      case None => None
      case Some(rest) => Some([s[0]] + rest)
    else if |s| < 3 || !IsHex(s[1]) || !IsHex(s[2]) then None
    else
      match PathUnescape(s[3..])
      case None => None
      case Some(rest) => Some([(16 * HexValue(s[1]) + HexValue(s[2])) as char] + rest)
  }

  /** A `pchar` other than an escape, or the separator: section 3.3 of RFC 3986. */
  predicate PathChar(c: char) {
    Plain(c) || c == '/' || c == '!' || '\'' <= c <= '*' || c == ',' || c == ';'
  }

  predicate ValidAt(s: string, i: nat)
    requires i < |s|
  {
    if s[i] == '%' then i + 2 < |s| && IsHex(s[i + 1]) && IsHex(s[i + 2]) else PathChar(s[i])
  }

  /** Every '%' starts a two-digit escape (section 2.1 of RFC 3986) and every other character may stand in a path. */
  predicate ValidPath(s: string) {
    forall i | 0 <= i < |s| :: ValidAt(s, i)
  }

  lemma {:induction false} EscapeByteShape(c: char)
    requires c as int < 256
    ensures '/' !in EscapeByte(c) && ValidPath(EscapeByte(c))
  {
  }

  lemma {:induction false} EscapeByteDecodes(c: char, rest: string)
    requires c as int < 256
    ensures PathUnescape(EscapeByte(c) + rest)
         == match PathUnescape(rest) case None => None case Some(tail) => Some([c] + tail)
  {
    var s := EscapeByte(c) + rest;
    if Plain(c) {
      assert s[0] == c && s[1..] == rest;
    } else {
      var hi, lo := c as int / 16, c as int % 16;
      assert s[0] == '%' && s[1] == HexDigit(hi) && s[2] == HexDigit(lo) && s[3..] == rest;
      assert HexValue(HexDigit(hi)) == hi && HexValue(HexDigit(lo)) == lo;
      assert (16 * hi + lo) as char == c;
    }
  }

  lemma {:induction false} ValidPathConcat(a: string, b: string)
    requires ValidPath(a) && ValidPath(b)
    ensures ValidPath(a + b)
  {
    var s := a + b;
    forall i | 0 <= i < |s| ensures ValidAt(s, i) {
      if i < |a| {
        assert ValidAt(a, i) && s[i] == a[i];
      } else {
        assert ValidAt(b, i - |a|) && s[i] == b[i - |a|];
      }
    }
  }

  lemma {:induction false} EscapedSegment(seg: string)
    requires Bytes(seg)
    ensures PathUnescape(PathEscape(seg)) == Some(seg)
    ensures '/' !in PathEscape(seg) && ValidPath(PathEscape(seg))
    ensures PathEscape(seg) == "" <==> seg == ""
  {
    if seg != "" {
      EscapedSegment(seg[1..]);
      EscapeByteShape(seg[0]);
      EscapeByteDecodes(seg[0], PathEscape(seg[1..]));
      assert [seg[0]] + seg[1..] == seg;
      ValidPathConcat(EscapeByte(seg[0]), PathEscape(seg[1..]));
    }
  }

  lemma {:induction false} JoinedBytes(parts: seq<string>, sep: char)
    requires Bytes(Join(parts, sep))
    ensures forall i | 0 <= i < |parts| :: Bytes(parts[i])
  {
    if |parts| > 1 {
      var p, rest := parts[0], Join(parts[1..], sep);
      var s := p + [sep] + rest;
      assert forall i | 0 <= i < |p| :: p[i] == s[i];
      assert forall i | 0 <= i < |rest| :: rest[i] == s[|p| + 1 + i];
      JoinedBytes(parts[1..], sep);
      assert forall i | 1 <= i < |parts| :: parts[i] == parts[1..][i - 1];
    }
  }

  lemma {:induction false} JoinedValid(parts: seq<string>)
    requires forall i | 0 <= i < |parts| :: ValidPath(parts[i])
    ensures ValidPath(Join(parts, '/'))
  {
    if |parts| > 1 {
      JoinedValid(parts[1..]);
      ValidPathConcat(parts[0], "/");
      ValidPathConcat(parts[0] + "/", Join(parts[1..], '/'));
    }
  }

  /** A joined path ends in a slash exactly when it has several parts and the last is empty. */
  lemma {:induction false} TrailingSlash(parts: seq<string>)
    requires |parts| >= 1 && forall i | 0 <= i < |parts| :: '/' !in parts[i]
    ensures var s := Join(parts, '/'); (s != "" && s[|s| - 1] == '/') <==> |parts| > 1 && parts[|parts| - 1] == ""
  {
    if |parts| > 1 {
      TrailingSlash(parts[1..]);
      assert parts[1..][|parts| - 2] == parts[|parts| - 1];
      if |parts| == 2 {
        assert parts[1..] == [parts[1]];
      } else {
        assert Join(parts[1..], '/') == parts[1] + "/" + Join(parts[1..][1..], '/');
      }
    }
  }

  predicate EndsInSlash(s: string) {
    s != "" && s[|s| - 1] == '/'
  }

  predicate PlainPath(s: string) {
    forall i | 0 <= i < |s| :: Plain(s[i]) || s[i] == '/'
  }

  lemma {:induction false} PlainSegment(seg: string)
    requires Bytes(seg) && PlainPath(seg) && '/' !in seg
    ensures PathEscape(seg) == seg
  {
    if seg != "" {
      PlainSegment(seg[1..]);
    }
  }

  lemma {:induction false} PlainParts(parts: seq<string>, i: nat)
    requires PlainPath(Join(parts, '/')) && i < |parts|
    ensures PlainPath(parts[i])
  {
    if |parts| > 1 {
      var p, rest := parts[0], Join(parts[1..], '/');
      var s := p + ['/'] + rest;
      assert forall k | 0 <= k < |p| :: p[k] == s[k];
      assert forall k | 0 <= k < |rest| :: rest[k] == s[|p| + 1 + k];
      if i > 0 {
        PlainParts(parts[1..], i - 1);
      }
    }
  }

  /** Percent-decoding `href` segment by segment yields the segments of `p`. */
  predicate DecodesTo(href: string, p: string) {
    var encoded, segments := Split(href, '/'), Split(p, '/');
    && |encoded| == |segments|
    && forall i | 0 <= i < |segments| :: PathUnescape(encoded[i]) == Some(segments[i])
  }

  /** What joining the escaped segments of a path yields. */
  lemma {:induction false} EscapedParts(p: string, parts: seq<string>)
    requires Bytes(p) && |parts| == |Split(p, '/')|
    requires forall i | 0 <= i < |parts| :: Bytes(Split(p, '/')[i]) && parts[i] == PathEscape(Split(p, '/')[i])
    ensures var href := Join(parts, '/');
      ValidPath(href) && DecodesTo(href, p) && (EndsInSlash(href) <==> EndsInSlash(p)) && (PlainPath(p) ==> href == p)
  {
    var segments := Split(p, '/');
    forall i | 0 <= i < |segments|
      ensures PathUnescape(parts[i]) == Some(segments[i]) && '/' !in parts[i] && ValidPath(parts[i])
      ensures parts[i] == "" <==> segments[i] == ""
    {
      EscapedSegment(segments[i]);
    }
    SplitOfJoin(parts, '/');
    JoinedValid(parts);
    TrailingSlash(parts);
    TrailingSlash(segments);
    if PlainPath(p) {
      PlainUnchanged(segments, parts);
    }
  }

  lemma {:induction false} PlainUnchanged(segments: seq<string>, parts: seq<string>)
    requires |parts| == |segments| && PlainPath(Join(segments, '/'))
    requires forall i | 0 <= i < |segments| ::
      '/' !in segments[i] && Bytes(segments[i]) && parts[i] == PathEscape(segments[i])
    ensures parts == segments
  {
    forall i | 0 <= i < |segments| ensures parts[i] == segments[i] {
      PlainParts(segments, i);
      PlainSegment(segments[i]);
    }
  }

  /**
   * `encodeDAVHref`. Decoding the result segment by segment gives back the segments of `p`, so no two paths share
   * an href and the slashes stay where they were; the result is a well-formed path.
   */
  method EncodeDavHref(p: string) returns (out: string)
    requires Bytes(p)
    ensures ValidPath(out)
    ensures DecodesTo(out, p)
    ensures EndsInSlash(out) <==> EndsInSlash(p)
    ensures PlainPath(p) ==> out == p
  {
    if p == "" {
      EmptyHref();
      return p;
    }
    var trailing := EndsInSlash(p);
    var segments := Split(p, '/');
    JoinedBytes(segments, '/');
    var parts := segments;
    for i := 0 to |parts|
      invariant |parts| == |segments|
      invariant forall k | 0 <= k < i :: parts[k] == PathEscape(segments[k])
      invariant forall k | i <= k < |parts| :: parts[k] == segments[k]
    {
      parts := parts[i := PathEscape(parts[i])];
    }
    out := Join(parts, '/');
    EscapedParts(p, parts);
    if trailing && !EndsInSlash(out) {
      out := out + "/";
    }
  }

  lemma {:induction false} EmptyHref()
    ensures DecodesTo("", "")
  {
    assert PathUnescape("") == Some("");
  }

  /** Two paths with the same href are the same path. */
  lemma {:induction false} HrefInjective(p: string, q: string, href: string)
    requires DecodesTo(href, p) && DecodesTo(href, q)
    ensures p == q
  {
    var ps, qs := Split(p, '/'), Split(q, '/');
    forall i | 0 <= i < |ps| ensures ps[i] == qs[i] {
      assert Some(ps[i]) == PathUnescape(Split(href, '/')[i]) == Some(qs[i]);
    }
    assert ps == qs;
    assert p == Join(ps, '/') == Join(qs, '/') == q;
  }
}
