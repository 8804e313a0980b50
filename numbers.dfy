/**
 * Numeric conventions of the pipeline. Python floats are modelled as exact
 * reals: `round(x, 2)` is rounding of the exact value to the nearest
 * hundredth with ties going to the even neighbour, and numeric text is read
 * in its plain decimal form.
 */
module Numbers {
  import opened Wrappers

  /**
   * The number of hundredths nearest to `x`, a tie going to the even one:
   * the two clauses below determine `k` uniquely.
   */
  function Hundredths(x: real): (k: int)
    ensures -0.5 <= k as real - x * 100.0 <= 0.5
    ensures (k as real - x * 100.0 == 0.5 || k as real - x * 100.0 == -0.5) ==> k % 2 == 0
  {
    var y := x * 100.0;
    var f := y.Floor;
    var frac := y - f as real;
    if frac < 0.5 then f
    else if frac > 0.5 then f + 1
    else if f % 2 == 0 then f
    else f + 1
  }

  /** A real that is a whole number of hundredths. */
  predicate IsCents(x: real) {
    (x * 100.0).Floor as real == x * 100.0
  }

  /**
   * Python's `round(x, 2)`: the nearest whole number of hundredths, at most
   * half a hundredth away; on a tie the even number of hundredths wins.
   */
  function Round2(x: real): (r: real)
    ensures IsCents(r)
    ensures -0.005 <= r - x <= 0.005
    ensures (r - x == 0.005 || x - r == 0.005) ==> (r * 100.0).Floor % 2 == 0
  {
    var k := Hundredths(x);
    var r := k as real / 100.0;
    assert r * 100.0 == k as real;
    assert (k as real).Floor == k;
    r
  }

  /** Rounding a value that already has two decimals changes nothing; in particular rounding is idempotent. */
  lemma RoundCents(x: real)
    requires IsCents(x)
    ensures Round2(x) == x
  {
    var k := (x * 100.0).Floor;
    assert Hundredths(x) == k;
  }

  /** A whole number of units is a whole number of hundredths, so rounding keeps it. */
  lemma RoundWhole(n: int)
    ensures Round2(n as real) == n as real
  {
    assert (n as real) * 100.0 == (n * 100) as real;
    assert ((n * 100) as real).Floor == n * 100;
    RoundCents(n as real);
  }

  lemma Round2Idempotent(x: real)
    ensures Round2(Round2(x)) == Round2(x)
  {
    RoundCents(Round2(x));
  }

  /** Rounding keeps the order of its inputs (never reverses it). */
  lemma {:induction false} Round2Monotone(x: real, y: real)
    requires x <= y
    ensures Round2(x) <= Round2(y)
  {
    var kx, ky := Hundredths(x), Hundredths(y);
    if kx > ky {
      // Both would sit exactly half a hundredth from the inputs, hence both even, yet one apart.
      assert false;
    }
  }

  /** Rounding a non-negative value never makes it negative. */
  lemma Round2NonNegative(x: real)
    requires x >= 0.0
    ensures Round2(x) >= 0.0
  {
  }

  predicate IsDigit(c: char) {
    '0' <= c <= '9'
  }

  predicate AllDigits(s: string) {
    forall k :: 0 <= k < |s| ==> IsDigit(s[k])
  }

  /** The value of a string of decimal digits read left to right. */
  function DigitsValue(s: string): (n: nat)
    requires AllDigits(s)
  {
    if s == [] then 0
    else 10 * DigitsValue(s[..|s| - 1]) + (s[|s| - 1] as int - '0' as int)
  }

  function Pow10(n: nat): (p: nat)
    ensures p >= 1
  {
    if n == 0 then 1 else 10 * Pow10(n - 1)
  }

  /** Index of the first '.' in `s`, or `|s|` when there is none. */
  function DotIndex(s: string): (i: nat)
    ensures i <= |s|
    ensures i < |s| ==> s[i] == '.'
    ensures forall k :: 0 <= k < i ==> s[k] != '.'
  {
    if s == [] then 0
    else if s[0] == '.' then 0
    else 1 + DotIndex(s[1..])
  }

  /** The value of whole digits `w` followed by fraction digits `f`. */
  function FractionValue(w: string, f: string): real
    requires AllDigits(w) && AllDigits(f)
  {
    DigitsValue(w) as real + DigitsValue(f) as real / Pow10(|f|) as real
  }

  /** Digits with at most one decimal point and at least one digit: `12`, `12.`, `12.5`, `.5`. */
  function ParseUnsigned(s: string): (r: Option<real>)
    ensures r.Some? ==> r.value >= 0.0
    ensures r.Some? ==> |s| > 0 && forall k :: 0 <= k < |s| ==> IsDigit(s[k]) || s[k] == '.'
  {
    var dot := DotIndex(s);
    var whole := s[..dot];
    var fraction := if dot < |s| then s[dot + 1..] else [];
    if AllDigits(whole) && AllDigits(fraction) && |whole| + |fraction| > 0 then
      assert forall k :: dot < k < |s| ==> s[k] == fraction[k - dot - 1];
      Some(FractionValue(whole, fraction))
    else None
  }

  /**
   * Numeric text as a number: an optional sign followed by an unsigned
   * decimal. Text holding any other character is not numeric.
   */
  function ParseDecimal(s: string): (r: Option<real>)
    ensures r.Some? ==> |s| > 0 && forall k :: 0 <= k < |s| ==> IsDigit(s[k]) || s[k] in ".+-"
    ensures r.Some? && (s[0] == '+' || IsDigit(s[0]) || s[0] == '.') ==> r.value >= 0.0
  {
    if s != [] && (s[0] == '-' || s[0] == '+') then
      match ParseUnsigned(s[1..])
      case None => None
      case Some(v) =>
        assert forall k :: 1 <= k < |s| ==> s[k] == s[1..][k - 1];
        Some(if s[0] == '-' then -v else v)
    else ParseUnsigned(s)
  }

  lemma UnsignedDigits(s: string)
    requires s != [] && AllDigits(s)
    ensures ParseUnsigned(s) == Some(DigitsValue(s) as real)
  {
    assert DotIndex(s) == |s|;
    assert s[..|s|] == s;
    assert DigitsValue([]) == 0;
  }

  /** Plain digit strings parse to the integer they spell... */
  lemma ParseWholeNumber(s: string)
    requires s != [] && AllDigits(s)
    ensures ParseDecimal(s) == Some(DigitsValue(s) as real)
  {
    UnsignedDigits(s);
    assert IsDigit(s[0]);
  }

  /** ...and with a leading minus, to its negation. */
  lemma ParseNegativeNumber(t: string)
    requires |t| > 1 && t[0] == '-' && AllDigits(t[1..])
    ensures ParseDecimal(t) == Some(-(DigitsValue(t[1..]) as real))
  {
    UnsignedDigits(t[1..]);
  }

  /** Only digits and points, at most one point, at least one digit. */
  predicate IsUnsignedText(u: string) {
    && (forall k :: 0 <= k < |u| ==> IsDigit(u[k]) || u[k] == '.')
    && (forall i, j :: 0 <= i < j < |u| && u[i] == '.' ==> u[j] != '.')
    && (exists k :: 0 <= k < |u| && IsDigit(u[k]))
  }

  /** Unsigned decimal text behind an optional leading sign. */
  predicate IsDecimalText(s: string) {
    if s != [] && (s[0] == '+' || s[0] == '-') then IsUnsignedText(s[1..]) else IsUnsignedText(s)
  }

  lemma UnsignedAcceptsExactly(u: string)
    ensures ParseUnsigned(u).Some? <==> IsUnsignedText(u)
  {
    var dot := DotIndex(u);
    var whole := u[..dot];
    var fraction := if dot < |u| then u[dot + 1..] else [];
    assert forall k :: 0 <= k < dot ==> u[k] == whole[k];
    assert forall k :: dot < k < |u| ==> u[k] == fraction[k - dot - 1];
    if ParseUnsigned(u).Some? {
      if |whole| > 0 {
        assert IsDigit(u[0]);
      } else {
        assert IsDigit(u[dot + 1]);
      }
    } else {
      if (forall k :: 0 <= k < |u| ==> IsDigit(u[k]) || u[k] == '.')
        && (forall i, j :: 0 <= i < j < |u| && u[i] == '.' ==> u[j] != '.')
      {
        assert AllDigits(whole);
        assert AllDigits(fraction);
        forall k | 0 <= k < |u| ensures !IsDigit(u[k]) {
          assert k == dot;
        }
      }
    }
  }

  /** Numeric text is exactly the well-formed decimal text, signed or not. */
  lemma ParseAcceptsExactly(s: string)
    ensures ParseDecimal(s).Some? <==> IsDecimalText(s)
  {
    if s != [] && (s[0] == '+' || s[0] == '-') {
      UnsignedAcceptsExactly(s[1..]);
    } else {
      assert ParseDecimal(s) == ParseUnsigned(s);
      UnsignedAcceptsExactly(s);
    }
  }

  /** Whole digits, a point and fraction digits: `12.5`, `12.`, `.5`. */
  lemma ParseUnsignedFraction(u: string, w: string, f: string)
    requires AllDigits(w) && AllDigits(f) && |w| + |f| > 0
    requires |u| == |w| + 1 + |f| && u[..|w|] == w && u[|w|] == '.' && u[|w| + 1..] == f
    ensures ParseUnsigned(u) == Some(FractionValue(w, f))
  {
    assert forall k :: 0 <= k < |w| ==> u[k] == w[k];
    DotBefore(u, |w|);
  }

  /** `DotIndex` finds a point preceded by none. */
  lemma {:induction false} DotBefore(u: string, i: nat)
    requires i < |u| && u[i] == '.'
    requires forall k :: 0 <= k < i ==> u[k] != '.'
    ensures DotIndex(u) == i
  {
    if i > 0 {
      assert forall k :: 0 <= k < i - 1 ==> u[1..][k] == u[k + 1];
      DotBefore(u[1..], i - 1);
    }
  }

  /** Decimal text with a fractional part parses to its whole part plus its fraction... */
  lemma ParseFraction(w: string, f: string)
    requires AllDigits(w) && AllDigits(f) && |w| + |f| > 0
    ensures ParseDecimal(w + "." + f) == Some(FractionValue(w, f))
  {
    var u := w + "." + f;
    assert u[..|w|] == w && u[|w| + 1..] == f;
    ParseUnsignedFraction(u, w, f);
    assert u[0] == if |w| > 0 then w[0] else '.';
  }

  /** A sign in front of unsigned text negates its value for '-' and keeps it for '+'. */
  lemma SignedValue(t: string, v: real)
    requires |t| > 0 && (t[0] == '+' || t[0] == '-') && ParseUnsigned(t[1..]) == Some(v)
    ensures ParseDecimal(t) == Some(if t[0] == '-' then -v else v)
  {
  }

  /** ...behind a '-', to that value negated... */
  lemma ParseMinusFraction(t: string, w: string, f: string)
    requires AllDigits(w) && AllDigits(f) && |w| + |f| > 0
    requires |t| == |w| + 2 + |f| && t[0] == '-'
    requires t[1..|w| + 1] == w && t[|w| + 1] == '.' && t[|w| + 2..] == f
    ensures ParseDecimal(t) == Some(-FractionValue(w, f))
  {
    var u := t[1..];
    assert u[..|w|] == w && u[|w| + 1..] == f;
    ParseUnsignedFraction(u, w, f);
    SignedValue(t, FractionValue(w, f));
  }

  /** ...and behind a '+', to that value itself. */
  lemma ParsePlusFraction(t: string, w: string, f: string)
    requires AllDigits(w) && AllDigits(f) && |w| + |f| > 0
    requires |t| == |w| + 2 + |f| && t[0] == '+'
    requires t[1..|w| + 1] == w && t[|w| + 1] == '.' && t[|w| + 2..] == f
    ensures ParseDecimal(t) == Some(FractionValue(w, f))
  {
    var u := t[1..];
    assert u[..|w|] == w && u[|w| + 1..] == f;
    ParseUnsignedFraction(u, w, f);
    SignedValue(t, FractionValue(w, f));
  }
}
