/** Decimal printing (`%d`, `strconv.FormatInt`) and parsing (`strconv.ParseInt(s, 10, 64)`, `strconv.Atoi`). */
module Decimal {
  import opened Wrappers
  import opened Text
  import opened Int64

  predicate IsDigit(c: char) {
    '0' <= c <= '9'
  }

  predicate AllDigits(s: string) {
    forall i | 0 <= i < |s| :: IsDigit(s[i])
  }

  function Digit(d: nat): (c: char)
    requires d < 10
    ensures IsDigit(c) && c as int - '0' as int == d
  {
    ('0' as int + d) as char
  }

  function Digits(n: nat): (s: string)
    ensures s != "" && AllDigits(s)
  {
    if n < 10 then [Digit(n)] else Digits(n / 10) + [Digit(n % 10)]
  }

  /** `%d`. */
  function FormatInt(n: int): string {
    if n < 0 then "-" + Digits(-n) else Digits(n)
  }

  function ValueOf(s: string): nat
    requires AllDigits(s)
  {
    if s == "" then 0 else 10 * ValueOf(s[..|s| - 1]) + (s[|s| - 1] as int - '0' as int)
  }

  /** The magnitude that `strconv.ParseUint` reads: one or more digits and nothing else. */
  function ParseDigits(s: string): Option<nat> {
    if s != "" && AllDigits(s) then Some(ValueOf(s)) else None
  }

  predicate Signed(s: string) {
    s != "" && (s[0] == '-' || s[0] == '+')
  }

  /** `strconv.ParseInt(s, 10, 64)`: an optional sign, digits, and a value that fits 64 bits. */
  function ParseInt(s: string): (r: Option<int>)
    ensures r.Some? ==> IsInt64(r.value)
  {
    match ParseDigits(if Signed(s) then s[1..] else s)
    case None => None
    case Some(m) =>
      var v := if Signed(s) && s[0] == '-' then 0 - (m as int) else m as int;
      if IsInt64(v) then Some(v) else None
  }

  lemma {:induction false} ValueOfDigits(n: nat)
    ensures ValueOf(Digits(n)) == n
  {
    if n >= 10 {
      ValueOfDigits(n / 10);
      assert Digits(n)[..|Digits(n)| - 1] == Digits(n / 10);
    } else {
      assert [Digit(n)][..0] == "";
    }
  }

  lemma {:induction false} ParseOfDigits(n: nat)
    ensures ParseDigits(Digits(n)) == Some(n)
    ensures IsDigit(Digits(n)[0])
  {
    ValueOfDigits(n);
  }

  /** Parsing undoes printing on exactly the numbers that fit 64 bits. */
  lemma {:induction false} ParseOfFormat(n: int)
    ensures ParseInt(FormatInt(n)) == if IsInt64(n) then Some(n) else None
  {
    var s := FormatInt(n);
    if n < 0 {
      ParseOfDigits(-n);
      assert Signed(s) && s[1..] == Digits(-n);
    } else {
      ParseOfDigits(n);
      assert !Signed(s);
    }
  }

  /** A printed number holds digits and possibly a leading minus sign, nothing else. */
  lemma {:induction false} FormatIntAlphabet(n: int)
    ensures FormatInt(n) != ""
    ensures forall i | 0 <= i < |FormatInt(n)| ::
      IsDigit(FormatInt(n)[i]) || (i == 0 && n < 0 && FormatInt(n)[i] == '-')
    ensures ':' !in FormatInt(n) && '(' !in FormatInt(n) && ')' !in FormatInt(n)
    ensures n >= 0 ==> '-' !in FormatInt(n)
    ensures TrimSpace(FormatInt(n)) == FormatInt(n)
  {
    var s := FormatInt(n);
    assert !IsSpace(s[0]) && !IsSpace(s[|s| - 1]);
  }

  lemma {:induction false} FormatIntInjective(m: int, n: int)
    requires IsInt64(m) && IsInt64(n)
    requires FormatInt(m) == FormatInt(n)
    ensures m == n
  {
    ParseOfFormat(m);
    ParseOfFormat(n);
  }
}
