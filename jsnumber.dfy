// `Number.parseFloat` as the importer uses it: the longest prefix of the text
// that reads as a decimal literal, or NaN when there is none. Values are exact
// rationals; IEEE-754 rounding, overflow to Infinity and underflow to zero
// are not modelled.
module JsNumber {
  import opened JsText
  import opened JsPlatform

  /** The end of the run of decimal digits that starts at index `i`. */
  function RunEnd(s: string, i: nat): (j: nat)
    requires i <= |s|
    ensures i <= j <= |s|
    decreases |s| - i
  {
    if i < |s| && IsDigit(s[i]) then RunEnd(s, i + 1) else i
  }

  /** Every character of the run is a digit, and the one after it is not. */
  lemma {:induction false} RunEndDigits(s: string, i: nat)
    requires i <= |s|
    ensures forall k :: i <= k < RunEnd(s, i) ==> IsDigit(s[k])
    ensures RunEnd(s, i) < |s| ==> !IsDigit(s[RunEnd(s, i)])
    decreases |s| - i
  {
    if i < |s| && IsDigit(s[i]) {
      RunEndDigits(s, i + 1);
    }
  }

  /** `m × 10^e`, one factor of ten at a time. */
  function Scaled(m: nat, e: int): real
    decreases if e < 0 then -e else e
  {
    if e == 0 then m as real
    else if e > 0 then 10.0 * Scaled(m, e - 1)
    else Scaled(m, e + 1) / 10.0
  }

  /** `10^n` as a natural number. */
  function Pow10Nat(n: nat): (r: nat)
    ensures r > 0
  {
    if n == 0 then 1 else 10 * Pow10Nat(n - 1)
  }

  /** The exponent part at index `i` of `u`: `e` or `E`, an optional sign
      and digits. 0 when there is none (then the letter is not part of the
      literal). */
  function ExponentAt(u: string, i: nat): int
    requires i <= |u|
  {
    if i + 2 <= |u| && (u[i] == 'e' || u[i] == 'E') then
      var start := if u[i + 1] == '-' || u[i + 1] == '+' then i + 2 else i + 1;
      var stop := RunEnd(u, start);
      RunEndDigits(u, start);
      if stop == start then 0
      else if u[i + 1] == '-' then -(DigitsValue(u[start..stop]) as int)
      else DigitsValue(u[start..stop])
    else 0
  }

  /** The parts of an unsigned decimal literal: the value of the digits
      before the point, the value of the digits after it and how many there
      are, and the exponent. */
  datatype Literal = Literal(whole: nat, fraction: nat, fractionDigits: nat, exponent: int)

  /** The value a literal denotes: the whole part plus the fraction digits
      scaled down by their count, times ten to the exponent. */
  function LiteralValue(l: Literal): real
  {
    Scaled(l.whole, l.exponent) + Scaled(l.fraction, l.exponent - l.fractionDigits)
  }

  /** The unsigned literal at the start of `u`: digits, an optional `.` and
      digits (at least one digit in all), an optional exponent. The text
      `Infinity` also reads as a number, but not a finite one, so it falls
      under None like NaN. */
  function ScanUnsigned(u: string): Option<Literal>
  {
    var a := RunEnd(u, 0);
    var point := a < |u| && u[a] == '.';
    var stop := if point then RunEnd(u, a + 1) else a;
    var f := if point then stop - (a + 1) else 0;
    if a + f == 0 then None
    else
      RunEndDigits(u, 0);
      var fraction := if point then RunEndDigits(u, a + 1); u[a + 1..stop] else "";
      Some(Literal(DigitsValue(u[..a]), DigitsValue(fraction), f, ExponentAt(u, stop)))
  }

  /** The value of the unsigned literal at the start of `u`. */
  function ParseUnsigned(u: string): Option<real>
  {
    match ScanUnsigned(u)
    case None => None
    case Some(l) => Some(LiteralValue(l))
  }

  /** `Number.parseFloat(s)`, with None for a NaN or infinite result
      (`Number.isFinite` fails). */
  function ParseFloat(s: string): Option<real>
  {
    var t := TrimStart(s);
    var signed := t != [] && (t[0] == '-' || t[0] == '+');
    var u := if signed then t[1..] else t;
    match ParseUnsigned(u)
    case None => None
    case Some(v) => if signed && t[0] == '-' then Some(-v) else Some(v)
  }

  /** A run of digits from `i` to `j` that nothing continues ends at `j`. */
  lemma {:induction false} RunEndOfDigits(s: string, i: nat, j: nat)
    requires i <= j <= |s|
    requires forall k :: i <= k < j ==> IsDigit(s[k])
    requires j < |s| ==> !IsDigit(s[j])
    ensures RunEnd(s, i) == j
    decreases j - i
  {
    if i < j {
      RunEndOfDigits(s, i + 1, j);
    }
  }

  /** Text that starts with neither white space nor a sign is read unsigned. */
  lemma ParseFloatUnsigned(u: string)
    requires u != [] && !IsSpace(u[0]) && u[0] != '-' && u[0] != '+'
    ensures ParseFloat(u) == ParseUnsigned(u)
  {
    assert TrimStart(u) == u;
  }

  /** A run of digits followed by text that cannot continue a literal reads
      as the value of the digits. */
  lemma ParseUnsignedDigits(d: string, tail: string)
    requires d != [] && AllDigits(d)
    requires tail != [] ==> !IsDigit(tail[0]) && tail[0] != '.' && tail[0] != 'e' && tail[0] != 'E'
    ensures ParseUnsigned(d + tail) == Some(DigitsValue(d) as real)
  {
    var u := d + tail;
    assert forall k :: 0 <= k < |d| ==> u[k] == d[k];
    if |d| < |u| {
      assert u[|d|] == tail[0];
    }
    RunEndOfDigits(u, 0, |d|);
    assert u[..|d|] == d;
    assert ExponentAt(u, |d|) == 0;
    assert ScanUnsigned(u) == Some(Literal(DigitsValue(d), 0, 0, 0));
  }

  /** Only the longest literal prefix is read: whatever follows a run of
      digits that cannot continue a literal is ignored (`"12abc"` is 12). */
  lemma ParseFloatIgnoresTail(n: nat, tail: string)
    requires tail != [] ==> !IsDigit(tail[0]) && tail[0] != '.' && tail[0] != 'e' && tail[0] != 'E'
    ensures ParseFloat(NatToString(n) + tail) == Some(n as real)
  {
    var d := NatToString(n);
    var s := d + tail;
    assert s[0] == d[0];
    ParseFloatUnsigned(s);
    ParseUnsignedDigits(d, tail);
    NatToStringRoundTrip(n);
  }

  /** The decimal text of a natural number reads back as that number. */
  lemma ParseFloatOfNat(n: nat)
    ensures ParseFloat(NatToString(n)) == Some(n as real)
  {
    ParseFloatIgnoresTail(n, "");
    assert NatToString(n) + "" == NatToString(n);
  }

  /** Text that starts with a minus sign reads as the negated unsigned
      literal after it. */
  lemma ParseFloatMinus(m: string, u: string)
    requires m != [] && m[0] == '-' && m[1..] == u
    ensures ParseFloat(m) == (match ParseUnsigned(u) case None => None case Some(v) => Some(-v))
  {
    assert TrimStart(m) == m;
  }

  /** Unsigned text reads as the value of the literal it scans as. */
  lemma ParseFloatOfScan(u: string, l: Literal)
    requires u != [] && !IsSpace(u[0]) && u[0] != '-' && u[0] != '+'
    requires ScanUnsigned(u) == Some(l)
    ensures ParseFloat(u) == Some(LiteralValue(l))
  {
    ParseFloatUnsigned(u);
  }

  lemma MinusSign(s: string)
    ensures ("-" + s)[0] == '-' && ("-" + s)[1..] == s
  {
  }

  /** A leading minus sign negates the value. */
  lemma ParseFloatNegative(s: string)
    requires s != [] && !IsSpace(s[0]) && s[0] != '-' && s[0] != '+'
    ensures ParseFloat("-" + s) == (match ParseFloat(s) case None => None case Some(v) => Some(-v))
  {
    MinusSign(s);
    ParseFloatMinus("-" + s, s);
    ParseFloatUnsigned(s);
  }

  /** Scaling down by `n` digits divides by `10^n`. */
  lemma {:induction false} ScaledNegative(m: nat, n: nat)
    ensures Scaled(m, -(n as int)) == m as real / Pow10Nat(n) as real
  {
    if n > 0 {
      ScaledNegative(m, n - 1);
      assert Scaled(m, -(n as int)) == Scaled(m, -((n - 1) as int)) / 10.0;
      TenthOfQuotient(m as real, Pow10Nat(n - 1) as real);
    }
  }

  lemma TenthOfQuotient(x: real, p: real)
    requires p > 0.0
    ensures x / p / 10.0 == x / (10.0 * p)
  {
  }

  /** `u` holds `n` digits, a point, `f > 0` digits and no exponent. */
  predicate PointLayout(u: string, n: nat, f: nat)
  {
    n < |u| && u[n] == '.' && n + 1 + f <= |u| && 0 < f &&
    RunEnd(u, 0) == n && RunEnd(u, n + 1) == n + 1 + f && ExponentAt(u, n + 1 + f) == 0
  }

  /** A literal with digits, a point, digits and no exponent. */
  lemma ScanPoint(u: string, n: nat, f: nat, x: string, y: string)
    requires PointLayout(u, n, f)
    requires x == u[..n] && y == u[n + 1..n + 1 + f]
    ensures AllDigits(x) && AllDigits(y)
    ensures ScanUnsigned(u) == Some(Literal(DigitsValue(x), DigitsValue(y), f, 0))
  {
    RunEndDigits(u, 0);
    RunEndDigits(u, n + 1);
    assert AllDigits(x) && AllDigits(y);
    var l := Literal(DigitsValue(x), DigitsValue(y), f, 0);
    assert ScanUnsigned(u) == Some(l);
  }

  /** A literal without exponent is its whole part plus its fraction digits
      divided by ten to their count. */
  lemma LiteralValueFraction(whole: nat, fraction: nat, n: nat)
    ensures LiteralValue(Literal(whole, fraction, n, 0)) == whole as real + fraction as real / Pow10Nat(n) as real
  {
    ScaledNegative(fraction, n);
  }

  /** What `ScanUnsigned` looks at in `a.b<tail>`. */
  lemma DecimalFacts(a: string, b: string, tail: string, u: string)
    requires AllDigits(a) && AllDigits(b) && b != []
    requires tail != [] ==> !IsDigit(tail[0]) && tail[0] != 'e' && tail[0] != 'E'
    requires u == a + "." + b + tail
    ensures PointLayout(u, |a|, |b|)
    ensures a == u[..|a|] && b == u[|a| + 1..|a| + 1 + |b|]
    ensures u[0] == if a == [] then '.' else a[0]
  {
    var n := |a| + 1 + |b|;
    assert forall k :: 0 <= k < |a| ==> u[k] == a[k];
    assert forall k :: 0 <= k < |b| ==> u[|a| + 1 + k] == b[k];
    assert forall k :: |a| + 1 <= k < n ==> IsDigit(u[k]) by {
      forall k | |a| + 1 <= k < n
        ensures IsDigit(u[k])
      {
        assert u[k] == b[k - |a| - 1];
      }
    }
    if n < |u| {
      assert u[n] == tail[0];
    }
    RunEndOfDigits(u, 0, |a|);
    RunEndOfDigits(u, |a| + 1, n);
    assert u[..|a|] == a;
    assert u[|a| + 1..n] == b;
  }

  /** `a.b<tail>` scans as whole part `a` and fraction `b`. */
  lemma ScanDecimal(a: string, b: string, tail: string, u: string)
    requires AllDigits(a) && AllDigits(b) && b != []
    requires tail != [] ==> !IsDigit(tail[0]) && tail[0] != 'e' && tail[0] != 'E'
    requires u == a + "." + b + tail
    ensures ScanUnsigned(u) == Some(Literal(DigitsValue(a), DigitsValue(b), |b|, 0))
    ensures u[0] == if a == [] then '.' else a[0]
  {
    DecimalFacts(a, b, tail, u);
    ScanPoint(u, |a|, |b|, a, b);
  }

  /** A decimal fraction `a.b`, followed by text that cannot continue it,
      reads as the literal with whole part `a`, fraction digits `b` and no
      exponent; by `LiteralValueFraction` its value is `a + b / 10^|b|`, so
      `"1234.56"` is 1234 + 56/100. */
  lemma ParseFloatDecimal(a: string, b: string, tail: string)
    requires AllDigits(a) && AllDigits(b) && b != []
    requires tail != [] ==> !IsDigit(tail[0]) && tail[0] != 'e' && tail[0] != 'E'
    ensures ParseFloat(a + "." + b + tail) == Some(LiteralValue(Literal(DigitsValue(a), DigitsValue(b), |b|, 0)))
  {
    var u := a + "." + b + tail;
    ScanDecimal(a, b, tail, u);
    ParseFloatOfScan(u, Literal(DigitsValue(a), DigitsValue(b), |b|, 0));
  }
}
