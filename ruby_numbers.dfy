/** Ruby's `to_f` and `round` as exact arithmetic on Dafny reals. Floating-point
    representation error is not modelled: every decimal is its exact value. */
module RubyNumbers {
  import opened Wrappers

  predicate IsDigit(c: char) { '0' <= c <= '9' }

  predicate AllDigits(s: string) {
    forall i :: 0 <= i < |s| ==> IsDigit(s[i])
  }

  /** The number of leading decimal digits. */
  function DigitRun(s: string): (n: nat)
    ensures n <= |s| && AllDigits(s[..n])
    ensures n < |s| ==> !IsDigit(s[n])
  {
    if s == [] || !IsDigit(s[0]) then 0
    else
      var n := 1 + DigitRun(s[1..]);
      assert forall i :: 1 <= i < n ==> s[..n][i] == s[1..][..n - 1][i - 1];
      n
  }

  function Pow10(n: nat): (r: nat)
    ensures r >= 1
  {
    if n == 0 then 1 else 10 * Pow10(n - 1)
  }

  /** The value of a string of decimal digits, most significant first. */
  function DigitsValue(d: string): (v: nat)
    requires AllDigits(d)
    ensures v < Pow10(|d|)
  {
    if d == [] then 0
    else DigitsValue(d[..|d| - 1]) * 10 + (d[|d| - 1] as int - '0' as int)
  }

  /** Digits after a decimal point: `d` read as a fraction in [0, 1). */
  function Fraction(d: string): (f: real)
    requires AllDigits(d)
    ensures 0.0 <= f < 1.0
  {
    var num, den := DigitsValue(d) as real, Pow10(|d|) as real;
    QuotientBelowOne(num, den);
    num / den
  }

  lemma QuotientBelowOne(a: real, b: real)
    requires 0.0 <= a < b
    ensures 0.0 <= a / b < 1.0
  {
    var q := a / b;
    assert q * b == a;
  }

  /** An optionally signed decimal with an optional fractional part, read from the start of
      `s`; the fraction counts only when a digit follows the point. */
  function UnsignedPrefixValue(s: string): (v: real)
    ensures v >= 0.0
  {
    var n := DigitRun(s);
    var whole := DigitsValue(s[..n]) as real;
    var rest := s[n..];
    if |rest| >= 2 && rest[0] == '.' && IsDigit(rest[1]) then
      whole + Fraction(rest[1..][..DigitRun(rest[1..])])
    else whole
  }

  /** `s.to_f`: the numeric prefix of `s`, or 0.0 when there is none. */
  function ToF(s: string): (v: real)
    ensures (s == [] || (s[0] != '-' && s[0] != '+')) ==> v == UnsignedPrefixValue(s)
    ensures (s != [] && s[0] == '-') ==> v == -UnsignedPrefixValue(s[1..])
  {
    if s != [] && s[0] == '-' then -UnsignedPrefixValue(s[1..])
    else if s != [] && s[0] == '+' then UnsignedPrefixValue(s[1..])
    else UnsignedPrefixValue(s)
  }

  /** `x.to_f` where `x` may be nil: `nil.to_f` is 0.0. */
  function OptionalToF(s: Option<string>): real {
    if s.Some? then ToF(s.value) else 0.0
  }

  /** A string of digits reads as its integer value. */
  lemma DigitsToF(d: string)
    requires AllDigits(d)
    ensures ToF(d) == DigitsValue(d) as real
  {
    assert d[..|d|] == d;
    if d != [] {
      assert IsDigit(d[0]);
    }
  }

  /** A run of digits followed by anything: the run is at least as long as `w`. */
  lemma {:induction false} DigitRunAfterDigits(w: string, rest: string)
    requires AllDigits(w)
    ensures DigitRun(w + rest) == |w| + DigitRun(rest)
  {
    if w != [] {
      assert (w + rest)[0] == w[0];
      assert (w + rest)[1..] == w[1..] + rest;
      DigitRunAfterDigits(w[1..], rest);
    } else {
      assert w + rest == rest;
    }
  }

  /** `w.f`, with `w` and `f` strings of digits and `f` non-empty, reads as `w + 0.f`. */
  lemma DecimalToF(w: string, f: string)
    requires AllDigits(w) && AllDigits(f) && |f| > 0
    ensures ToF(w + "." + f) == DigitsValue(w) as real + Fraction(f)
  {
    var s := w + "." + f;
    assert s == w + ("." + f);
    DigitRunAfterDigits(w, "." + f);
    assert DigitRun("." + f) == 0;
    assert s[..|w|] == w;
    assert s[|w|..] == "." + f;
    assert ("." + f)[1..] == f;
    DigitRunAfterDigits(f, []);
    assert f + [] == f;
    assert f[..|f|] == f;
    if w != [] {
      assert s[0] == w[0];
    } else {
      assert s[0] == '.';
    }
    assert UnsignedPrefixValue(s) == DigitsValue(w) as real + Fraction(f);
  }

  /** Rounding half away from zero to an integer, as Ruby's `Float#round` does. */
  function RoundHalfAway(x: real): (n: int)
    ensures x >= 0.0 ==> n as real - 0.5 <= x < n as real + 0.5
    ensures x < 0.0 ==> n as real - 0.5 < x <= n as real + 0.5
  {
    if x >= 0.0 then (x + 0.5).Floor else -((-x + 0.5).Floor)
  }

  /** `x.round(1)`: the nearest tenth, halves away from zero. */
  function RoundTenth(x: real): (r: real)
    ensures (r * 10.0).Floor as real == r * 10.0
    ensures x >= 0.0 ==> r - 0.05 <= x < r + 0.05
    ensures x < 0.0 ==> r - 0.05 < x <= r + 0.05
  {
    RoundHalfAway(x * 10.0) as real / 10.0
  }

  /** `x.round(-1)`: the nearest multiple of ten, halves away from zero (an Integer). */
  function RoundTens(x: real): (r: int)
    ensures r % 10 == 0
    ensures x >= 0.0 ==> r as real - 5.0 <= x < r as real + 5.0
    ensures x < 0.0 ==> r as real - 5.0 < x <= r as real + 5.0
  {
    RoundHalfAway(x / 10.0) * 10
  }
}
