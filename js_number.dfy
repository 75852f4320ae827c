/**
  The JavaScript numbers that the ingredient parser produces, and the three numeric
  operations it uses: the global parseFloat (ECMA-262 section 19.2.4), the global parseInt
  with radix 10 (section 19.2.5) and the division operator (Number::divide, section 6.1.6.1.5).
  A finite number is kept as the exact mathematical value of its decimal text.
 */
module JsNumber {
  import opened JsString

  datatype Number = Finite(value: real) | NaN | PosInfinity | NegInfinity

  predicate IsDigit(c: char) {
    '0' <= c <= '9'
  }

  predicate AllDigits(d: string) {
    forall i :: 0 <= i < |d| ==> IsDigit(d[i])
  }

  predicate StartsWith(s: string, prefix: string) {
    |prefix| <= |s| && s[..|prefix|] == prefix
  }

  /** The longest prefix of `s` made of decimal digits. */
  function LeadingDigits(s: string): (d: string)
    ensures |d| <= |s| && d == s[..|d|]
    ensures AllDigits(d)
    ensures |d| == |s| || !IsDigit(s[|d|])
  {
    if s != [] && IsDigit(s[0]) then
      var d := [s[0]] + LeadingDigits(s[1..]);
      assert s == [s[0]] + s[1..];
      d
    else ""
  }

  /** The value of a string of decimal digits, most significant first. */
  function DigitsValue(d: string): nat
    requires AllDigits(d)
  {
    if d == [] then 0 else DigitsValue(d[..|d| - 1]) * 10 + (d[|d| - 1] as int - '0' as int)
  }

  function Pow10(n: nat): (p: nat)
    ensures p >= 1
  {
    if n == 0 then 1 else 10 * Pow10(n - 1)
  }

  /** Whether the text starts with a minus sign. */
  predicate IsNegative(s: string) {
    s != [] && s[0] == '-'
  }

  /** The text without one leading `+` or `-`. */
  function Unsigned(s: string): string {
    if s != [] && (s[0] == '+' || s[0] == '-') then s[1..] else s
  }

  /** The value of an ExponentPart (`e` or `E`, an optional sign, digits) at the start of
      `s`, or 0 when `s` does not start with a complete one (nothing is then consumed). */
  function ExponentValue(s: string): int {
    if s != [] && (s[0] == 'e' || s[0] == 'E') then
      var digits := LeadingDigits(Unsigned(s[1..]));
      if digits == [] then 0
      else if IsNegative(s[1..]) then -(DigitsValue(digits) as int)
      else DigitsValue(digits)
    else 0
  }

  /** m times ten to the power e. */
  function Scale(m: real, e: int): (r: real)
    ensures m >= 0.0 ==> r >= 0.0
  {
    var p := Pow10(if e >= 0 then e else -e) as real;
    assert p >= 1.0;
    if e >= 0 then m * p else m / p
  }

  /** After leading white space and an optional sign, the text starts with `Infinity`,
      with a digit, or with a point followed by a digit: the three ways a
      StrDecimalLiteral can begin. */
  predicate BeginsWithStrDecimalLiteral(s: string) {
    var body := Unsigned(TrimStart(s));
    || StartsWith(body, "Infinity")
    || (body != [] && IsDigit(body[0]))
    || (|body| >= 2 && body[0] == '.' && IsDigit(body[1]))
  }

  /** parseFloat: the value of the longest prefix of the trimmed text that is a
      StrDecimalLiteral, or NaN when there is none. */
  function ParseFloat(s: string): (n: Number)
    ensures n.NaN? <==> !BeginsWithStrDecimalLiteral(s)
    ensures n.Finite? && !IsNegative(TrimStart(s)) ==> n.value >= 0.0
    ensures n.NegInfinity? ==> IsNegative(TrimStart(s))
  {
    var t := TrimStart(s);
    var body := Unsigned(t);
    if StartsWith(body, "Infinity") then
      if IsNegative(t) then NegInfinity else PosInfinity
    else
      var intDigits := LeadingDigits(body);
      var rest := body[|intDigits|..];
      var hasPoint := rest != [] && rest[0] == '.';
      var fracDigits := if hasPoint then LeadingDigits(rest[1..]) else "";
      if intDigits == [] && fracDigits == [] then
        NaN
      else
        var after := if hasPoint then rest[1 + |fracDigits|..] else rest;
        var scale := Pow10(|fracDigits|) as real;
        var fraction := DigitsValue(fracDigits) as real / scale;
        assert fraction >= 0.0;
        var mantissa := DigitsValue(intDigits) as real + fraction;
        var magnitude := Scale(mantissa, ExponentValue(after));
        Finite(if IsNegative(t) then -magnitude else magnitude)
  }

  /** parseInt with radix 10: the integer value of the leading digits after white space
      and an optional sign, or NaN when there are none. */
  function ParseInt(s: string): (n: Number)
    ensures n.NaN? <==> LeadingDigits(Unsigned(TrimStart(s))) == []
    ensures n.Finite? && !IsNegative(TrimStart(s)) ==> n.value >= 0.0
    ensures !n.PosInfinity? && !n.NegInfinity?
  {
    var t := TrimStart(s);
    var digits := LeadingDigits(Unsigned(t));
    if digits == [] then NaN
    else if IsNegative(t) then Finite(-(DigitsValue(digits) as real))
    else Finite(DigitsValue(digits) as real)
  }

  /** Division of JavaScript numbers; a zero divisor counts as +0. */
  function Divide(a: Number, b: Number): (q: Number)
    ensures q.NaN? <==> || a.NaN? || b.NaN?
                        || (!a.Finite? && !b.Finite?)
                        || (a == Finite(0.0) && b == Finite(0.0))
    ensures q.Finite? && a.Finite? && b.Finite? ==> q.value * b.value == a.value
    ensures a.Finite? && !b.NaN? && !b.Finite? ==> q == Finite(0.0)
    ensures a.Finite? && a.value > 0.0 && b == Finite(0.0) ==> q.PosInfinity?
  {
    match (a, b)
    case (NaN, _) => NaN
    case (_, NaN) => NaN
    case (Finite(x), Finite(y)) =>
      if y != 0.0 then Finite(x / y)
      else if x == 0.0 then NaN
      else if x > 0.0 then PosInfinity
      else NegInfinity
    case (Finite(_), _) => Finite(0.0)
    case (_, Finite(y)) => if a.PosInfinity? == (y >= 0.0) then PosInfinity else NegInfinity
    case (_, _) => NaN
  }
}
