/** Base-10 text of integers, as `strconv.FormatInt(v, 10)` produces it, and a
    parser for that text, so that the integer literals built by the
    converters can be shown to denote exactly the number they came from. */
module Decimal {
  import opened Wrappers

  predicate IsDigit(c: char) {
    '0' <= c <= '9'
  }

  function DigitChar(d: nat): (c: char)
    requires d < 10
    ensures IsDigit(c) && c as int - '0' as int == d
  {
    ('0' as int + d) as char
  }

  /** Canonical digit string: non-empty, digits only, no leading zero. */
  predicate IsCanonicalNat(s: string) {
    |s| >= 1 && (forall i | 0 <= i < |s| :: IsDigit(s[i])) && (|s| > 1 ==> s[0] != '0')
  }

  /** Canonical signed text: a canonical digit string, or a minus sign in
      front of one that is not "0". */
  predicate IsCanonicalInt(s: string) {
    IsCanonicalNat(s) || (|s| >= 2 && s[0] == '-' && IsCanonicalNat(s[1..]) && s[1..] != "0")
  }

  function FormatNat(n: nat): string {
    if n < 10 then [DigitChar(n)] else FormatNat(n / 10) + [DigitChar(n % 10)]
  }

  /** `strconv.FormatInt(n, 10)`: a minus sign for negative numbers, then the
      digits of the magnitude. */
  function FormatInt(n: int): string {
    if n < 0 then "-" + FormatNat(-n) else FormatNat(n)
  }

  /** The value of a non-empty string of digits; None for anything else. */
  function ParseNat(s: string): (r: Option<nat>)
  {
    if |s| == 0 || !IsDigit(s[|s| - 1]) then None
    else
      var d := s[|s| - 1] as int - '0' as int;
      if |s| == 1 then Some(d)
      else match ParseNat(s[..|s| - 1])
        case None => None
        case Some(m) => Some(m * 10 + d)
  }

  /** The value of an optionally minus-signed digit string. */
  function ParseInt(s: string): (r: Option<int>)
  {
    if |s| > 0 && s[0] == '-' then
      match ParseNat(s[1..])
      case None => None
      case Some(m) => var k: int := m; Some(-k)
    else
      match ParseNat(s)
      case None => None
      case Some(m) => Some(m)
  }

  /** The digits of a natural number are canonical, and "0" only for 0. */
  lemma {:induction false} FormatNatCanonical(n: nat)
    ensures IsCanonicalNat(FormatNat(n))
    ensures FormatNat(n) == "0" <==> n == 0
  {
    if n >= 10 {
      FormatNatCanonical(n / 10);
      var s := FormatNat(n);
      assert s[..|s| - 1] == FormatNat(n / 10);
    }
  }

  /** The text of any integer is canonical. */
  lemma FormatIntCanonical(n: int)
    ensures IsCanonicalInt(FormatInt(n))
  {
    if n < 0 {
      FormatNatCanonical(-n);
      assert FormatInt(n)[1..] == FormatNat(-n);
    } else {
      FormatNatCanonical(n);
    }
  }

  lemma {:induction false} ParseFormatNat(n: nat)
    ensures ParseNat(FormatNat(n)) == Some(n)
  {
    if n >= 10 {
      var s := FormatNat(n);
      assert s[..|s| - 1] == FormatNat(n / 10);
      ParseFormatNat(n / 10);
    }
  }

  /** Reading back the text of any integer gives the integer. */
  lemma ParseFormatInt(n: int)
    ensures ParseInt(FormatInt(n)) == Some(n)
  {
    if n < 0 {
      var digits := FormatNat(-n);
      var s := "-" + digits;
      assert s[0] == '-' && s[1..] == digits;
      ParseFormatNat(-n);
      assert ParseInt(s) == Some(n);
    } else {
      FormatNatCanonical(n);
      ParseFormatNat(n);
    }
  }

  /** Distinct integers have distinct texts. */
  lemma FormatIntInjective(m: int, n: int)
    requires FormatInt(m) == FormatInt(n)
    ensures m == n
  {
    ParseFormatInt(m);
    ParseFormatInt(n);
  }
}
