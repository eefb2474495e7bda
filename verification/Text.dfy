/** The few functions of Go's `strings` package that the codecs rely on. */
module Text {
  import opened Wrappers

  /** `strings.IndexByte`: the first position of `c`. */
  function IndexOf(s: string, c: char): (r: Option<nat>)
    ensures r.Some? ==> r.value < |s| && s[r.value] == c && c !in s[..r.value]
    ensures r.None? <==> c !in s
  {
    if s == "" then None
    else if s[0] == c then Some(0)
    else match IndexOf(s[1..], c)
      case None => None
      case Some(i) => assert s[..i + 1] == [s[0]] + s[1..][..i]; Some(i + 1)
  }

  /** `strings.LastIndexByte`: the last position of `c`. */
  function LastIndexOf(s: string, c: char): (r: Option<nat>)
    ensures r.Some? ==> r.value < |s| && s[r.value] == c && c !in s[r.value + 1..]
    ensures r.None? <==> c !in s
  {
    if s == "" then None
    else if s[|s| - 1] == c then Some(|s| - 1)
    else
      assert s == s[..|s| - 1] + [s[|s| - 1]];
      match LastIndexOf(s[..|s| - 1], c)
      case None => None
      case Some(i) => assert s[i + 1..] == s[..|s| - 1][i + 1..] + [s[|s| - 1]]; Some(i)
  }

  predicate OccursAt(s: string, m: string, i: nat) {
    i + |m| <= |s| && s[i..i + |m|] == m
  }

  /** `strings.Contains`. */
  predicate Contains(s: string, m: string) {
    exists i | 0 <= i <= |s| :: OccursAt(s, m, i)
  }

  /** `strings.Index` from position `from` on: the first occurrence of `m`. */
  function FindFrom(s: string, m: string, from: nat): (r: Option<nat>)
    requires from <= |s|
    ensures r.Some? ==> from <= r.value && OccursAt(s, m, r.value)
    ensures forall j | from <= j < (if r.Some? then r.value else |s| + 1) :: !OccursAt(s, m, j)
    decreases |s| - from
  {
    if OccursAt(s, m, from) then Some(from)
    else if from == |s| then None
    else FindFrom(s, m, from + 1)
  }

  function Find(s: string, m: string): (r: Option<nat>)
    ensures r.Some? ==> OccursAt(s, m, r.value)
    ensures forall j: nat | j < (if r.Some? then r.value else |s| + 1) :: !OccursAt(s, m, j)
  {
    FindFrom(s, m, 0)
  }

  /** `m` stands somewhere in `text`. */
  ghost predicate Spells(text: string, m: string) {
    exists a, b :: text == a + m + b
  }

  lemma {:induction false} SpellsContains(text: string, m: string)
    ensures Spells(text, m) <==> Contains(text, m)
  {
    if Contains(text, m) {
      var i :| 0 <= i <= |text| && OccursAt(text, m, i);
      assert text == text[..i] + m + text[i + |m|..];
    }
    if Spells(text, m) {
      var a, b :| text == a + m + b;
      assert text[|a|..|a| + |m|] == m;
      assert OccursAt(text, m, |a|);
    }
  }

  lemma {:induction false} UnmarkedFind(text: string, m: string)
    requires !Spells(text, m)
    ensures Find(text, m) == None
  {
    SpellsContains(text, m);
    assert Find(text, m).Some? ==> Contains(text, m);
  }

  /** A marker whose first character does not occur in what precedes it is found right there. */
  lemma {:induction false} FindAfter(prefix: string, m: string, rest: string)
    requires m != "" && m[0] !in prefix
    ensures Find(prefix + m + rest, m) == Some(|prefix|)
  {
    var s := prefix + m + rest;
    assert s[|prefix|..|prefix| + |m|] == m;
    assert OccursAt(s, m, |prefix|);
    var i := Find(s, m).value;
    assert s[i] == s[i..i + |m|][0] == m[0];
    assert s[..|prefix|] == prefix;
  }

  lemma {:induction false} SeparatorInside(a: string, c: char, b: string, m: string, i: nat)
    requires c !in m
    ensures i <= |a| < i + |m| ==> !OccursAt(a + [c] + b, m, i)
  {
    var s := a + [c] + b;
    if i <= |a| < i + |m| <= |s| {
      assert s[i..i + |m|][|a| - i] == c != m[|a| - i];
    }
  }

  /** An occurrence of `m` never straddles a character that `m` does not have. */
  lemma {:induction false} ContainsAroundSeparator(a: string, c: char, b: string, m: string)
    requires c !in m && m != ""
    ensures Contains(a + [c] + b, m) <==> Contains(a, m) || Contains(b, m)
  {
    var s := a + [c] + b;
    forall i: nat | OccursAt(s, m, i)
      ensures (i + |m| <= |a| && OccursAt(a, m, i)) || (i > |a| && OccursAt(b, m, i - |a| - 1))
    {
      SeparatorInside(a, c, b, m, i);
      if i + |m| <= |a| {
        assert a[i..i + |m|] == s[i..i + |m|];
      } else {
        var j := i - |a| - 1;
        assert b[j..j + |m|] == s[i..i + |m|];
      }
    }
    if Contains(a, m) {
      var i :| 0 <= i <= |a| && OccursAt(a, m, i);
      assert s[i..i + |m|] == a[i..i + |m|];
      assert OccursAt(s, m, i);
    }
    if Contains(b, m) {
      var i :| 0 <= i <= |b| && OccursAt(b, m, i);
      var j := |a| + 1 + i;
      assert s[|a| + 1..] == b;
      assert s[j..j + |m|] == s[|a| + 1..][i..i + |m|];
      assert OccursAt(s, m, j);
    }
  }

  /** A prefix in which no two characters begin like the marker adds no occurrence of it. */
  lemma {:induction false} ContainsAfterPrefix(prefix: string, s: string, m: string)
    requires |m| >= 2
    requires forall i | 0 <= i < |prefix| && prefix[i] == m[0] :: i + 1 < |prefix| && prefix[i + 1] != m[1]
    ensures Contains(prefix + s, m) <==> Contains(s, m)
  {
    var whole := prefix + s;
    assert forall j | 0 <= j < |prefix| :: whole[j] == prefix[j];
    forall i: nat | OccursAt(whole, m, i) ensures i >= |prefix| && OccursAt(s, m, i - |prefix|) {
      assert whole[i] == whole[i..i + |m|][0] && whole[i + 1] == whole[i..i + |m|][1];
      assert whole[|prefix|..] == s;
      assert i >= |prefix|;
      assert s[i - |prefix|..i - |prefix| + |m|] == whole[i..i + |m|];
    }
    if Contains(s, m) {
      var i :| 0 <= i <= |s| && OccursAt(s, m, i);
      assert whole[|prefix| + i..|prefix| + i + |m|] == s[i..i + |m|];
      assert OccursAt(whole, m, |prefix| + i);
    }
  }

  lemma {:induction false} LacksCharLacksMarker(s: string, c: char, m: string)
    requires c in m && c !in s
    ensures !Contains(s, m)
  {
    var k :| 0 <= k < |m| && m[k] == c;
    forall i: nat ensures !OccursAt(s, m, i) {
      if i + |m| <= |s| {
        assert s[i..i + |m|][k] == s[i + k] != m[k];
      }
    }
  }

  /** `strings.Split` on a one-character separator. */
  function Split(s: string, sep: char): (parts: seq<string>)
    ensures |parts| >= 1
    ensures forall i | 0 <= i < |parts| :: sep !in parts[i]
    ensures Join(parts, sep) == s
    decreases |s|
  {
    match IndexOf(s, sep)
    case None => [s]
    case Some(i) =>
      var rest := Split(s[i + 1..], sep);
      assert s == s[..i] + [sep] + s[i + 1..];
      assert ([s[..i]] + rest)[1..] == rest;
      [s[..i]] + rest
  }

  /** `strings.Join` with a one-character separator. */
  function Join(parts: seq<string>, sep: char): string {
    if parts == [] then ""
    else if |parts| == 1 then parts[0]
    else parts[0] + [sep] + Join(parts[1..], sep)
  }

  lemma {:induction false} JoinOne(part: string, sep: char)
    ensures Join([part], sep) == part
  {
  }

  lemma {:induction false} IndexOfFirst(s: string, c: char, i: nat)
    requires i < |s| && s[i] == c && c !in s[..i]
    ensures IndexOf(s, c) == Some(i)
  {
    if i > 0 {
      assert s[0] == s[..i][0];
      assert s[..i][1..] == s[1..][..i - 1];
      IndexOfFirst(s[1..], c, i - 1);
    }
  }

  lemma {:induction false} LastIndexOfLast(s: string, c: char, i: nat)
    requires i < |s| && s[i] == c && c !in s[i + 1..]
    ensures LastIndexOf(s, c) == Some(i)
  {
    if i < |s| - 1 {
      assert s[|s| - 1] == s[i + 1..][|s| - 2 - i];
      assert s[i + 1..][..|s| - 2 - i] == s[..|s| - 1][i + 1..];
      LastIndexOfLast(s[..|s| - 1], c, i);
    }
  }

  lemma {:induction false} SplitFirst(p: string, sep: char, rest: string)
    requires sep !in p
    ensures Split(p + [sep] + rest, sep) == [p] + Split(rest, sep)
  {
    var s := p + [sep] + rest;
    assert s[..|p|] == p && s[|p| + 1..] == rest;
    IndexOfFirst(s, sep, |p|);
  }

  lemma {:induction false} SplitWhole(p: string, sep: char)
    requires sep !in p
    ensures Split(p, sep) == [p]
  {
  }

  /** Splitting undoes joining when no part contains the separator. */
  lemma {:induction false} SplitOfJoin(parts: seq<string>, sep: char)
    requires |parts| >= 1
    requires forall i | 0 <= i < |parts| :: sep !in parts[i]
    ensures Split(Join(parts, sep), sep) == parts
  {
    if |parts| == 1 {
      SplitWhole(parts[0], sep);
    } else {
      SplitFirst(parts[0], sep, Join(parts[1..], sep));
      SplitOfJoin(parts[1..], sep);
    }
  }

  /** `unicode.IsSpace`. */
  predicate IsSpace(c: char) {
    '\t' <= c <= '\r' || c == ' ' || c == '\U{85}' || c == '\U{A0}' || c == '\U{1680}'
    || '\U{2000}' <= c <= '\U{200A}' || c == '\U{2028}' || c == '\U{2029}' || c == '\U{202F}'
    || c == '\U{205F}' || c == '\U{3000}'
  }

  function TrimLeft(s: string): (r: string)
    ensures |r| <= |s| && (|r| == |s| ==> r == s)
  {
    if s != "" && IsSpace(s[0]) then TrimLeft(s[1..]) else s
  }

  function TrimRight(s: string): (r: string)
    ensures |r| <= |s| && (s != "" && IsSpace(s[|s| - 1]) ==> |r| < |s|)
  {
    if s != "" && IsSpace(s[|s| - 1]) then TrimRight(s[..|s| - 1]) else s
  }

  /** `strings.TrimSpace`. */
  function TrimSpace(s: string): string {
    TrimRight(TrimLeft(s))
  }
}
