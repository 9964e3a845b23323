/**
 * The credits coercion `parseInt(value, 10) || 0` of the browser copy.
 * `parseInt` follows section 19.2.5 of ECMA-262: skip leading white space,
 * take one optional `+` or `-`, then the longest run of decimal digits; no
 * digits gives NaN. `|| 0` then turns NaN (and a zero of either sign) into 0.
 */
module JsParseInt {
  import opened Wrappers
  import opened Decimal

  /** StrWhiteSpaceChar of ECMA-262: a WhiteSpace or a LineTerminator code point. */
  predicate IsStrWhiteSpaceChar(ch: char) {
    ch == '\t' || ch == '\U{000B}' || ch == '\U{000C}' || ch == ' ' || ch == '\U{00A0}'
    || ch == '\U{FEFF}' || ch == '\U{1680}' || ('\U{2000}' <= ch <= '\U{200A}')
    || ch == '\U{202F}' || ch == '\U{205F}' || ch == '\U{3000}'
    || ch == '\n' || ch == '\r' || ch == '\U{2028}' || ch == '\U{2029}'
  }

  predicate AllWhiteSpace(s: string) {
    forall k :: 0 <= k < |s| ==> IsStrWhiteSpaceChar(s[k])
  }

  /** What is left of `s` once its leading white space is dropped. */
  function TrimLeadingWhiteSpace(s: string): (t: string)
    ensures t == [] || !IsStrWhiteSpaceChar(t[0])
  {
    if s != [] && IsStrWhiteSpaceChar(s[0]) then TrimLeadingWhiteSpace(s[1..]) else s
  }

  /** The longest prefix of `s` made of decimal digits. */
  function LeadingDigits(s: string): (d: string)
    ensures |d| <= |s| && d == s[..|d|]
    ensures AllDigits(d)
    ensures |d| == |s| || !IsDigit(s[|d|])
  {
    if s != [] && IsDigit(s[0]) then [s[0]] + LeadingDigits(s[1..]) else []
  }

  /** `t` without its one optional leading `+` or `-`. */
  function AfterSign(t: string): (u: string)
    ensures u == t || (t != [] && (t[0] == '+' || t[0] == '-') && u == t[1..])
  {
    if t != [] && (t[0] == '+' || t[0] == '-') then t[1..] else t
  }

  /**
   * `parseInt(s, 10)`, with None standing for NaN: NaN exactly when no digit
   * follows the white space and the sign, and a negative value only after `-`.
   */
  function ParseInt10(s: string): (r: Option<int>)
    ensures r.None? <==> LeadingDigits(AfterSign(TrimLeadingWhiteSpace(s))) == []
    ensures r.Some? && r.value < 0 ==> TrimLeadingWhiteSpace(s)[0] == '-'
  {
    ParseSignedDigits(TrimLeadingWhiteSpace(s))
  }

  /** The steps of `parseInt` after the white space: one optional sign, then the digits. */
  function ParseSignedDigits(t: string): Option<int> {
    if t != [] && t[0] == '-' then Negate(ParseDigits(t[1..]))
    else if t != [] && t[0] == '+' then ParseDigits(t[1..])
    else ParseDigits(t)
  }

  /** The value of the leading run of digits, or NaN when there is none. */
  function ParseDigits(u: string): Option<int> {
    var digits := LeadingDigits(u);
    if digits == [] then None else Some(DigitsValue(digits))
  }

  function Negate(r: Option<int>): Option<int> {
    match r
    case None => None
    case Some(v) => Some(-v)
  }

  /** `parseInt(value, 10) || 0`: the integer stored as a course's credits. */
  function CreditsFromText(value: string): (n: int)
    ensures ParseInt10(value).None? ==> n == 0
    ensures ParseInt10(value).Some? ==> n == ParseInt10(value).value
  {
    ParseInt10(value).GetOr(0)
  }

  lemma {:induction false} TrimSkipsWhiteSpacePrefix(ws: string, t: string)
    requires AllWhiteSpace(ws)
    requires t == [] || !IsStrWhiteSpaceChar(t[0])
    ensures TrimLeadingWhiteSpace(ws + t) == t
  {
    if ws != [] {
      assert (ws + t)[1..] == ws[1..] + t;
      TrimSkipsWhiteSpacePrefix(ws[1..], t);
    }
  }

  lemma {:induction false} LeadingDigitsStopAtNonDigit(d: string, rest: string)
    requires AllDigits(d)
    requires rest == [] || !IsDigit(rest[0])
    ensures LeadingDigits(d + rest) == d
  {
    if d != [] {
      assert (d + rest)[1..] == d[1..] + rest;
      LeadingDigitsStopAtNonDigit(d[1..], rest);
    }
  }

  /** Leading white space never changes what `parseInt` reads. */
  lemma ParseIntSkipsWhiteSpace(ws: string, t: string)
    requires AllWhiteSpace(ws)
    requires t == [] || !IsStrWhiteSpaceChar(t[0])
    ensures ParseInt10(ws + t) == ParseInt10(t)
  {
    TrimSkipsWhiteSpacePrefix(ws, t);
  }

  lemma TrimStopsAtNonWhiteSpace(t: string)
    requires t != [] && !IsStrWhiteSpaceChar(t[0])
    ensures TrimLeadingWhiteSpace(t) == t
  {
  }

  lemma ParseDigitsReadsDigits(digits: string, rest: string)
    requires digits != [] && AllDigits(digits)
    requires rest == [] || !IsDigit(rest[0])
    ensures ParseDigits(digits + rest) == Some(DigitsValue(digits))
  {
    LeadingDigitsStopAtNonDigit(digits, rest);
  }

  lemma ParseIntReadsUnsignedDigits(digits: string, rest: string)
    requires digits != [] && AllDigits(digits)
    requires rest == [] || !IsDigit(rest[0])
    ensures ParseInt10(digits + rest) == Some(DigitsValue(digits))
  {
    assert (digits + rest)[0] == digits[0];
    TrimStopsAtNonWhiteSpace(digits + rest);
    ParseDigitsReadsDigits(digits, rest);
  }

  lemma ParseIntReadsNegativeDigits(digits: string, rest: string)
    requires digits != [] && AllDigits(digits)
    requires rest == [] || !IsDigit(rest[0])
    ensures ParseInt10("-" + (digits + rest)) == Some(-DigitsValue(digits))
  {
    var t := "-" + (digits + rest);
    TrimStopsAtNonWhiteSpace(t);
    assert t[1..] == digits + rest;
    ParseDigitsReadsDigits(digits, rest);
  }

  lemma ParseIntReadsNegatedNat(m: nat, rest: string)
    requires rest == [] || !IsDigit(rest[0])
    ensures ParseInt10("-" + (NatToString(m) + rest)) == Some(0 - m)
  {
    var d := NatToString(m);
    NatToStringRoundTrip(m);
    assert DigitsValue(d) == m;
    ParseIntReadsNegativeDigits(d, rest);
  }

  lemma ParseIntReadsWrittenInteger(n: int, rest: string)
    requires rest == [] || !IsDigit(rest[0])
    ensures ParseInt10(IntToString(n) + rest) == Some(n)
  {
    if n < 0 {
      var m: nat := -n;
      var d := NatToString(m);
      assert IntToString(n) + rest == "-" + (d + rest);
      ParseIntReadsNegatedNat(m, rest);
    } else {
      var d := NatToString(n);
      NatToStringRoundTrip(n);
      assert DigitsValue(d) == n;
      ParseIntReadsUnsignedDigits(d, rest);
    }
  }

  lemma WrittenIntegerStartsWithoutWhiteSpace(n: int, rest: string)
    ensures !IsStrWhiteSpaceChar((IntToString(n) + rest)[0])
  {
    if n >= 0 {
      assert (IntToString(n) + rest)[0] == NatToString(n)[0];
    }
  }

  /**
   * Text that starts, after any white space, with an integer written in
   * decimal parses to that integer, whatever non-digit text follows it.
   */
  lemma ParseIntReadsLeadingInteger(ws: string, n: int, rest: string)
    requires AllWhiteSpace(ws)
    requires rest == [] || !IsDigit(rest[0])
    ensures ParseInt10(ws + IntToString(n) + rest) == Some(n)
    ensures CreditsFromText(ws + IntToString(n) + rest) == n
  {
    var t := IntToString(n) + rest;
    ParseIntReadsWrittenInteger(n, rest);
    WrittenIntegerStartsWithoutWhiteSpace(n, rest);
    ParseIntSkipsWhiteSpace(ws, t);
    assert ws + IntToString(n) + rest == ws + t;
  }

  /**
   * Text with no decimal digit right after its white space and one optional
   * sign parses to NaN, so the stored credits are 0.
   */
  lemma TextWithoutLeadingDigitsGivesZeroCredits(ws: string, sign: string, rest: string)
    requires AllWhiteSpace(ws)
    requires sign == "" || sign == "+" || sign == "-"
    requires rest == [] || !IsDigit(rest[0])
    requires sign == "" && rest != [] ==>
      !IsStrWhiteSpaceChar(rest[0]) && rest[0] != '+' && rest[0] != '-'
    ensures ParseInt10(ws + sign + rest) == None
    ensures CreditsFromText(ws + sign + rest) == 0
  {
    var t := sign + rest;
    assert ws + sign + rest == ws + t;
    TrimSkipsWhiteSpacePrefix(ws, t);
    if sign != "" {
      assert t[1..] == rest;
    }
  }

  /** An empty field, or one holding only white space, stores 0 credits. */
  lemma BlankTextGivesZeroCredits(ws: string)
    requires AllWhiteSpace(ws)
    ensures CreditsFromText(ws) == 0
  {
    TextWithoutLeadingDigitsGivesZeroCredits(ws, "", "");
    assert ws + "" + "" == ws;
  }
}
