/**
 * The JavaScript numeric conversions the forms and the import rely on:
 * `Math.ceil`, `parseFloat`, `parseInt` and the `x || 0` fallback.
 * Numbers are exact: `real` for JavaScript numbers, `int` for integer results.
 */
module Numbers {
  import opened Wrappers
  import opened Text

  /** `Math.ceil`: the least integer not below `x`. */
  function Ceil(x: real): (r: int)
    ensures x <= r as real < x + 1.0
  {
    var f := x.Floor;
    if f as real == x then f else f + 1
  }

  /** Truncation toward zero, what `parseInt(String(x))` yields for a number `x` of ordinary size. */
  function Trunc(x: real): (r: int)
    ensures 0.0 <= x ==> r as real <= x < r as real + 1.0
    ensures x < 0.0 ==> r as real - 1.0 < x <= r as real
  {
    if x >= 0.0 then x.Floor else -((-x).Floor)
  }

  /** Optional sign of a numeric literal: whether it is negative, and where the digits start. */
  function SignOf(t: string): (r: (bool, nat))
    ensures r.1 <= |t| && r.1 <= 1
  {
    if |t| > 0 && t[0] == '-' then (true, 1)
    else if |t| > 0 && t[0] == '+' then (false, 1)
    else (false, 0)
  }

  /**
   * `parseFloat(s)`: skips leading whitespace, reads an optional sign, an integer part
   * and an optional `.` fraction, and ignores whatever follows. `None` stands for `NaN`,
   * the outcome when neither part has a digit.
   */
  function ParseFloat(s: string): (r: Option<real>)
    ensures r.None? <==>
      var t := s[LeadingSpaces(s)..];
      var u := t[SignOf(t).1..];
      LeadingDigits(u) == 0 && !(|u| > 1 && u[0] == '.' && IsDigit(u[1]))
  {
    var t := s[LeadingSpaces(s)..];
    var (negative, start) := SignOf(t);
    ParseDecimal(negative, t[start..])
  }

  /** The digits of a `.` fraction at the head of `rest`; empty when there is none. */
  function FractionDigits(rest: string): (frac: string)
    ensures AllDigits(frac)
    ensures |frac| > 0 <==> |rest| > 1 && rest[0] == '.' && IsDigit(rest[1])
  {
    if |rest| > 0 && rest[0] == '.' then rest[1..][..LeadingDigits(rest[1..])] else ""
  }

  /** `parseFloat` past the whitespace and the sign: whole digits, then an optional fraction. */
  function ParseDecimal(negative: bool, u: string): (r: Option<real>)
    ensures r.None? <==> LeadingDigits(u) == 0 && !(|u| > 1 && u[0] == '.' && IsDigit(u[1]))
  {
    var i := LeadingDigits(u);
    var frac := FractionDigits(u[i..]);
    if i == 0 && |frac| == 0 then None
    else
      var magnitude := DecimalValue(u[..i], frac);
      Some(if negative then -magnitude else magnitude)
  }

  /** The value of a decimal literal's whole digits and fraction digits. */
  function DecimalValue(whole: string, frac: string): real
    requires AllDigits(whole) && AllDigits(frac)
  {
    DigitsValue(whole) as real + DigitsValue(frac) as real / Pow10(|frac|) as real
  }

  /**
   * `parseInt(s)` with no radix: skips leading whitespace, reads an optional sign and
   * a run of decimal digits. `None` stands for `NaN`.
   */
  function ParseInt(s: string): (r: Option<int>)
    ensures r.None? <==>
      var t := s[LeadingSpaces(s)..];
      LeadingDigits(t[SignOf(t).1..]) == 0
  {
    var t := s[LeadingSpaces(s)..];
    var (negative, start) := SignOf(t);
    var u := t[start..];
    var i := LeadingDigits(u);
    if i == 0 then None
    else
      var magnitude: int := DigitsValue(u[..i]);
      Some(if negative then -magnitude else magnitude)
  }

  /** `x || 0` on a parsed number: `NaN` (and 0 itself) become 0. */
  function OrZero(x: Option<real>): (r: real)
    ensures x.Some? ==> r == x.value
    ensures x.None? ==> r == 0.0
  {
    x.GetOr(0.0)
  }

  function OrZeroInt(x: Option<int>): (r: int)
    ensures x.Some? ==> r == x.value
    ensures x.None? ==> r == 0
  {
    x.GetOr(0)
  }

  lemma NoSpaceBeforeDigits(s: string)
    requires |s| > 0 && IsDigit(s[0])
    ensures LeadingSpaces(s) == 0 && SignOf(s) == (false, 0)
  {
  }

  /** A rendered whole number parses back to itself with `parseInt`. */
  lemma ParseIntOfRendered(n: nat)
    ensures ParseInt(NatToString(n)) == Some(n)
  {
    var s := NatToString(n);
    NoSpaceBeforeDigits(s);
    AllDigitsRun(s);
    assert s[..|s|] == s;
    NatToStringRoundTrip(n);
  }

  /** A rendered whole number parses back to itself with `parseFloat`. */
  lemma ParseFloatOfRendered(n: nat)
    ensures ParseFloat(NatToString(n)) == Some(n as real)
  {
    var s := NatToString(n);
    NoSpaceBeforeDigits(s);
    AllDigitsRun(s);
    assert s[..|s|] == s;
    NatToStringRoundTrip(n);
    assert DigitsValue("") == 0;
  }

  lemma {:induction false} AllDigitsRun(s: string)
    requires AllDigits(s)
    ensures LeadingDigits(s) == |s|
  {
    if |s| > 0 { AllDigitsRun(s[1..]); }
  }

  // ---------------------------------------------------------------------------
  // What the parsers read from a general literal

  /** The signs `parseInt` and `parseFloat` accept in front of the digits. */
  predicate IsSign(sign: string) {
    sign == "" || sign == "-" || sign == "+"
  }

  predicate AllSpaces(ws: string) {
    forall i :: 0 <= i < |ws| ==> IsSpace(ws[i])
  }

  function Signed(sign: string, magnitude: real): real {
    if sign == "-" then -magnitude else magnitude
  }

  lemma {:induction false} SpacesThen(ws: string, t: string)
    requires AllSpaces(ws)
    requires t == [] || !IsSpace(t[0])
    ensures LeadingSpaces(ws + t) == |ws|
  {
    if |ws| > 0 {
      assert (ws + t)[1..] == ws[1..] + t;
      SpacesThen(ws[1..], t);
    } else {
      assert ws + t == t;
    }
  }

  lemma {:induction false} DigitsThen(ds: string, t: string)
    requires AllDigits(ds)
    requires t == [] || !IsDigit(t[0])
    ensures LeadingDigits(ds + t) == |ds|
  {
    if |ds| > 0 {
      assert (ds + t)[1..] == ds[1..] + t;
      DigitsThen(ds[1..], t);
    } else {
      assert ds + t == t;
    }
  }

  /** Past the whitespace and the sign, the parsers look at `u`. */
  lemma {:induction false} SignThen(ws: string, sign: string, u: string)
    requires AllSpaces(ws) && IsSign(sign)
    requires |u| > 0 && (IsDigit(u[0]) || u[0] == '.')
    ensures var s := ws + sign + u;
      var t := s[LeadingSpaces(s)..];
      t == sign + u && SignOf(t) == (sign == "-", |sign|) && t[SignOf(t).1..] == u
  {
    var s := ws + sign + u;
    assert s == ws + (sign + u);
    SpacesThen(ws, sign + u);
    assert s[|ws|..] == sign + u;
  }

  /**
   * `parseInt` reads leading whitespace, a sign and every following digit, leading zeros
   * included, and ignores whatever comes after the digits: "  -012abc" reads -12.
   */
  lemma {:induction false} ParseIntReads(ws: string, sign: string, digits: string, rest: string)
    requires AllSpaces(ws) && IsSign(sign)
    requires |digits| > 0 && AllDigits(digits)
    requires rest == [] || !IsDigit(rest[0])
    ensures ParseInt(ws + sign + digits + rest) == Some(SignedInt(sign, DigitsValue(digits)))
  {
    var u := digits + rest;
    Associate(ws, sign, digits, rest);
    SignThen(ws, sign, u);
    DigitsThen(digits, rest);
    assert u[..|digits|] == digits;
    ParseIntOf(ws + sign + u, sign, u, DigitsValue(digits));
  }

  function SignedInt(sign: string, magnitude: int): int {
    if sign == "-" then -magnitude else magnitude
  }

  lemma Associate(a: string, b: string, c: string, d: string)
    ensures a + b + c + d == a + b + (c + d)
  {
  }

  /** `ParseInt` once the whitespace, the sign and the digits' value are found. */
  lemma ParseIntOf(s: string, sign: string, u: string, v: int)
    requires var t := s[LeadingSpaces(s)..]; SignOf(t).0 == (sign == "-") && t[SignOf(t).1..] == u
    requires LeadingDigits(u) > 0 && DigitsValue(u[..LeadingDigits(u)]) == v
    ensures ParseInt(s) == Some(SignedInt(sign, v))
  {
  }

  /** `parseFloat` skips the whitespace and reads the sign, then reads a decimal. */
  lemma {:induction false} ParseFloatAfterSign(ws: string, sign: string, u: string)
    requires AllSpaces(ws) && IsSign(sign)
    requires |u| > 0 && (IsDigit(u[0]) || u[0] == '.')
    ensures ParseFloat(ws + sign + u) == ParseDecimal(sign == "-", u)
  {
    SignThen(ws, sign, u);
  }

  /**
   * `parseFloat` of a literal without a fraction: the digits are the value, a sign applies,
   * and the text after them is ignored, a lone `.` included: "+12.x" reads 12.
   */
  lemma {:induction false} ParseFloatWhole(ws: string, sign: string, digits: string, rest: string)
    requires AllSpaces(ws) && IsSign(sign)
    requires |digits| > 0 && AllDigits(digits)
    requires rest == [] || (!IsDigit(rest[0]) && !(rest[0] == '.' && |rest| > 1 && IsDigit(rest[1])))
    ensures ParseFloat(ws + sign + digits + rest) == Some(Signed(sign, DigitsValue(digits) as real))
  {
    var u := digits + rest;
    Associate(ws, sign, digits, rest);
    ParseFloatAfterSign(ws, sign, u);
    DigitsThen(digits, rest);
    assert u[..|digits|] == digits && u[|digits|..] == rest;
    assert FractionDigits(rest) == "";
    ParseDecimalOf(sign, u, digits, "");
    WholeDecimal(digits);
  }

  lemma WholeDecimal(digits: string)
    requires AllDigits(digits)
    ensures DecimalValue(digits, "") == DigitsValue(digits) as real
  {
    assert DigitsValue("") == 0;
  }

  /**
   * `parseFloat` of a literal with a fraction: whole part plus the fraction digits over
   * their power of ten, with or without whole digits: "-3.75kg" reads -3.75 and ".5" reads 0.5.
   */
  lemma {:induction false} ParseFloatFraction(ws: string, sign: string, digits: string, frac: string, rest: string)
    requires AllSpaces(ws) && IsSign(sign)
    requires AllDigits(digits)
    requires |frac| > 0 && AllDigits(frac)
    requires rest == [] || !IsDigit(rest[0])
    ensures ParseFloat(ws + sign + digits + "." + frac + rest) == Some(Signed(sign, DecimalValue(digits, frac)))
  {
    var tail := "." + frac + rest;
    var u := digits + tail;
    FractionAssociate(ws, sign, digits, frac, rest);
    ParseFloatAfterSign(ws, sign, u);
    DigitsThen(digits, tail);
    assert u[..|digits|] == digits && u[|digits|..] == tail;
    FractionOf(frac, rest);
    ParseDecimalOf(sign, u, digits, frac);
  }

  /** `ParseDecimal` once the whole digits and the fraction digits are found. */
  lemma ParseDecimalOf(sign: string, u: string, whole: string, frac: string)
    requires AllDigits(whole) && AllDigits(frac) && |whole| + |frac| > 0
    requires LeadingDigits(u) == |whole| && u[..|whole|] == whole && FractionDigits(u[|whole|..]) == frac
    ensures ParseDecimal(sign == "-", u) == Some(Signed(sign, DecimalValue(whole, frac)))
  {
  }

  lemma FractionAssociate(ws: string, sign: string, digits: string, frac: string, rest: string)
    ensures ws + sign + digits + "." + frac + rest == ws + sign + (digits + ("." + frac + rest))
  {
  }

  lemma FractionOf(frac: string, rest: string)
    requires AllDigits(frac)
    requires rest == [] || !IsDigit(rest[0])
    ensures FractionDigits("." + frac + rest) == frac
  {
    assert ("." + frac + rest)[1..] == frac + rest;
    DigitsThen(frac, rest);
    assert (frac + rest)[..|frac|] == frac;
  }

  // ---------------------------------------------------------------------------
  // Money

  /** Price times quantity. */
  function Amount(price: real, quantity: real): real {
    price * quantity
  }

  /** A total less a percentage discount of it. */
  function DiscountedTotal(total: real, discount: real): real {
    total - total * discount / 100.0
  }
}
