/**
  Exact decimal stand-ins for the floating-point text handling the formatter relies on:
  JavaScript's `Number.prototype.toFixed`, Rust's `str::parse::<f64>` and Rust's `Display`
  for `f64`. Values are exact decimals rather than binary floating-point numbers; every
  finite `f64` (negative zero included) is such a decimal.
*/
module Decimals {
  import opened Wrappers

  /** The number (-1)^negative * units / 10^places. */
  datatype Decimal = Decimal(negative: bool, units: nat, places: nat)

  function Pow(b: nat, k: nat): (r: nat)
    ensures b >= 1 ==> r >= 1
  {
    if k == 0 then 1 else b * Pow(b, k - 1)
  }

  /** The absolute value of a decimal. */
  function Magnitude(d: Decimal): (r: real)
    ensures r >= 0.0
  {
    d.units as real / Pow(10, d.places) as real
  }

  /** A decimal is zero exactly when its digits are. */
  lemma MagnitudeZero(d: Decimal)
    ensures Magnitude(d) == 0.0 <==> d.units == 0
  {
    var p := Pow(10, d.places) as real;
    assert p >= 1.0;
    if d.units != 0 {
      assert d.units as real / p > 0.0;
    }
  }

  function ToReal(d: Decimal): real {
    if d.negative then -Magnitude(d) else Magnitude(d)
  }

  /** Flips the sign bit, as `-x` does on a float (so zero becomes negative zero). */
  function Negate(d: Decimal): (r: Decimal)
    ensures ToReal(r) == -ToReal(d) && Magnitude(r) == Magnitude(d)
    ensures r.negative != d.negative
  {
    d.(negative := !d.negative)
  }

  // ---------------------------------------------------------------- digit strings

  predicate IsDigit(c: char) {
    '0' <= c <= '9'
  }

  predicate AllDigits(s: string) {
    forall i | 0 <= i < |s| :: IsDigit(s[i])
  }

  function DigitValue(c: char): nat
    requires IsDigit(c)
  {
    c as int - '0' as int
  }

  function DigitChar(n: nat): (c: char)
    requires n < 10
    ensures IsDigit(c) && DigitValue(c) == n
  {
    ('0' as int + n) as char
  }

  /** The decimal digits of `n`, without leading zeros ("0" for zero). */
  function Digits(n: nat): (s: string)
    ensures 1 <= |s| && AllDigits(s)
    decreases n
  {
    if n < 10 then [DigitChar(n)] else Digits(n / 10) + [DigitChar(n % 10)]
  }

  /** The number a string of digits denotes. */
  function NumberOf(s: string): nat
    requires AllDigits(s)
  {
    if s == [] then 0 else 10 * NumberOf(s[..|s| - 1]) + DigitValue(s[|s| - 1])
  }

  function Zeros(k: nat): (s: string)
    ensures |s| == k && AllDigits(s)
  {
    if k == 0 then [] else "0" + Zeros(k - 1)
  }

  /** `s` left-padded with zeros to at least `w` characters. */
  function Pad(s: string, w: nat): (r: string)
    ensures |r| == if |s| >= w then |s| else w
  {
    if |s| >= w then s else Zeros(w - |s|) + s
  }

  lemma {:induction false} NumberOfDigits(n: nat)
    ensures NumberOf(Digits(n)) == n
    decreases n
  {
    var s := Digits(n);
    if n >= 10 {
      NumberOfDigits(n / 10);
      assert s[..|s| - 1] == Digits(n / 10);
    }
  }

  lemma {:induction false} DigitsLength(n: nat, k: nat)
    requires 1 <= k && n < Pow(10, k)
    ensures |Digits(n)| <= k
    decreases n
  {
    if n >= 10 {
      assert k >= 2;
      assert n / 10 < Pow(10, k - 1);
      DigitsLength(n / 10, k - 1);
    }
  }

  lemma {:induction false} NumberOfAppend(s: string, t: string)
    requires AllDigits(s) && AllDigits(t)
    ensures AllDigits(s + t)
    ensures NumberOf(s + t) == NumberOf(s) * Pow(10, |t|) + NumberOf(t)
    decreases |t|
  {
    if t == [] {
      assert s + t == s;
    } else {
      var t', c := t[..|t| - 1], t[|t| - 1];
      assert (s + t)[..|s + t| - 1] == s + t' && (s + t)[|s + t| - 1] == c;
      NumberOfAppend(s, t');
      assert NumberOf(s + t) == 10 * NumberOf(s + t') + DigitValue(c);
      Shift(NumberOf(s), Pow(10, |t'|), NumberOf(t'), DigitValue(c));
    }
  }

  lemma Shift(a: nat, q: nat, t: nat, d: nat)
    ensures 10 * (a * q + t) + d == a * (10 * q) + (10 * t + d)
  {
  }

  lemma {:induction false} NumberOfZeros(k: nat)
    ensures NumberOf(Zeros(k)) == 0
  {
    if k > 0 {
      NumberOfAppend("0", Zeros(k - 1));
      NumberOfZeros(k - 1);
    }
  }

  lemma PadDigits(s: string, w: nat)
    requires AllDigits(s)
    ensures AllDigits(Pad(s, w)) && NumberOf(Pad(s, w)) == NumberOf(s)
  {
    if |s| < w {
      NumberOfAppend(Zeros(w - |s|), s);
      NumberOfZeros(w - |s|);
    }
  }

  // ---------------------------------------------------------------- Number.prototype.toFixed

  /**
    The integer `n` for which n / 10^f - x is as close to zero as possible, the larger
    one when there are two: the digits `toFixed(f)` writes for a non-negative `x`.
  */
  function RoundHalfUp(x: real, f: nat): (n: nat)
    requires x >= 0.0
    ensures x * Pow(10, f) as real - 0.5 < n as real <= x * Pow(10, f) as real + 0.5
  {
    var p := Pow(10, f) as real;
    assert x * p >= 0.0 by { NonNegativeProduct(x, p); }
    (x * p + 0.5).Floor
  }

  lemma NonNegativeProduct(x: real, y: real)
    requires x >= 0.0 && y >= 0.0
    ensures x * y >= 0.0
  {
  }

  /** Positional text of n / 10^f with exactly `f` digits after the point. */
  function Fixed(n: nat, f: nat): string {
    if f == 0 then Digits(n)
    else Digits(n / Pow(10, f)) + "." + Pad(Digits(n % Pow(10, f)), f)
  }

  /** `x.toFixed(f)` for a non-negative `x`. */
  function ToFixed(x: real, f: nat): (s: string)
    requires x >= 0.0
    ensures f == 0 ==> |s| >= 1 && AllDigits(s)
    ensures f > 0 ==> |s| >= f + 2 && s[|s| - f - 1] == '.' && AllDigits(s[|s| - f..])
  {
    var n := RoundHalfUp(x, f);
    if f > 0 then
      var p := Pow(10, f);
      DigitsLength(n % p, f);
      PadDigits(Digits(n % p), f);
      Fixed(n, f)
    else Fixed(n, f)
  }

  /** `v` is within half a unit in the f-th fraction place of `x`: the error, counted in units of 10^-f, lies in (-1/2, 1/2]. */
  predicate WithinHalfUnit(v: real, x: real, f: nat) {
    -0.5 < (v - x) * Pow(10, f) as real <= 0.5
  }

  /** 10^f as a real number. */
  function PlaceScale(f: nat): (p: real)
    ensures p >= 1.0
  {
    Pow(10, f) as real
  }

  /** `v` has at most `f` fraction digits: v * 10^f is a whole number. */
  predicate OnGrid(v: real, f: nat) {
    (v * PlaceScale(f)).Floor as real == v * PlaceScale(f)
  }

  /** A decimal with `places` digits after the point lies on that grid. */
  lemma DecimalOnGrid(d: Decimal)
    ensures OnGrid(Magnitude(d), d.places)
  {
    assert Magnitude(d) * PlaceScale(d.places) == d.units as real;
  }

  /**
    The value `toFixed(f)` denotes has f fraction digits and is within half a unit in its
    last place of `x`; by `RoundingUnique` no other such value exists.
  */
  lemma RoundingError(x: real, f: nat)
    requires x >= 0.0
    ensures OnGrid(Magnitude(Decimal(false, RoundHalfUp(x, f), f)), f)
    ensures WithinHalfUnit(Magnitude(Decimal(false, RoundHalfUp(x, f), f)), x, f)
  {
    var k := RoundHalfUp(x, f);
    DecimalOnGrid(Decimal(false, k, f));
    RoundingBound(x, f);
  }

  lemma RoundingBound(x: real, f: nat)
    requires x >= 0.0
    ensures WithinHalfUnit(Magnitude(Decimal(false, RoundHalfUp(x, f), f)), x, f)
  {
    ScaleBack(RoundHalfUp(x, f) as real, x, Pow(10, f) as real);
  }

  /** Two values with f fraction digits that are both within half a unit of `x` are equal. */
  lemma RoundingUnique(v: real, w: real, x: real, f: nat)
    requires OnGrid(v, f) && OnGrid(w, f)
    requires WithinHalfUnit(v, x, f) && WithinHalfUnit(w, x, f)
    ensures v == w
  {
    UniqueInWindow(v, w, x, PlaceScale(f));
  }

  lemma UniqueInWindow(v: real, w: real, x: real, p: real)
    requires p > 0.0
    requires (v * p).Floor as real == v * p && (w * p).Floor as real == w * p
    requires -0.5 < (v - x) * p <= 0.5 && -0.5 < (w - x) * p <= 0.5
    ensures v == w
  {
    UnitWindow(v, x, p);
    UnitWindow(w, x, p);
    WholeInWindow((v * p).Floor, (w * p).Floor, x * p);
    CancelFactor(v, w, p);
  }

  lemma UnitWindow(v: real, x: real, p: real)
    requires -0.5 < (v - x) * p <= 0.5
    ensures x * p - 0.5 < v * p <= x * p + 0.5
  {
    assert (v - x) * p == v * p - x * p;
  }

  lemma WholeInWindow(a: int, b: int, y: real)
    requires y - 0.5 < a as real <= y + 0.5 && y - 0.5 < b as real <= y + 0.5
    ensures a == b
  {
  }

  lemma CancelFactor(v: real, w: real, p: real)
    requires p > 0.0 && v * p == w * p
    ensures v == w
  {
    assert v == (v * p) / p && w == (w * p) / p;
  }

  lemma ScaleBack(n: real, x: real, p: real)
    requires p > 0.0 && x * p - 0.5 < n <= x * p + 0.5
    ensures -0.5 < (n / p - x) * p <= 0.5
  {
    calc {
      (n / p - x) * p;
      (n / p) * p - x * p;
      { assert (n / p) * p == n; }
      n - x * p;
    }
  }

  // ---------------------------------------------------------------- str::parse::<f64>

  /** The index of the first '.' in `s`, or |s| when there is none. */
  function DotIndex(s: string): (i: nat)
    ensures i <= |s|
    ensures forall j | 0 <= j < i :: s[j] != '.'
    ensures i < |s| ==> s[i] == '.'
  {
    if s == [] || s[0] == '.' then 0 else 1 + DotIndex(s[1..])
  }

  /** Reads an unsigned decimal literal: digits, or digits '.' digits with a digit on at least one side. */
  function ParseUnsigned(negative: bool, s: string): (r: Option<Decimal>)
    ensures r.Some? ==> |s| >= 1 && r.value.negative == negative
  {
    var i := DotIndex(s);
    if i == |s| then
      if s != [] && AllDigits(s) then Some(Decimal(negative, NumberOf(s), 0)) else None
    else
      var whole, fraction := s[..i], s[i + 1..];
      if AllDigits(whole) && AllDigits(fraction) && |whole| + |fraction| > 0 then
        NumberOfAppend(whole, fraction);
        Some(Decimal(negative, NumberOf(whole + fraction), |fraction|))
      else None
  }

  /** Reads an optionally signed decimal literal; None is the parse error. */
  function Parse(s: string): (r: Option<Decimal>)
    ensures r.Some? ==> |s| >= 1 && (r.value.negative <==> s[0] == '-')
  {
    if |s| > 0 && (s[0] == '-' || s[0] == '+') then ParseUnsigned(s[0] == '-', s[1..])
    else ParseUnsigned(false, s)
  }

  lemma DotIndexAfterDigits(a: string, b: string)
    requires AllDigits(a)
    ensures var s := a + "." + b;
      DotIndex(s) == |a| && s[..|a|] == a && s[|a| + 1..] == b
  {
    var s := a + "." + b;
    assert s[|a|] == '.';
    assert forall j | 0 <= j < |a| :: s[j] == a[j];
  }

  /** The digits of the whole part followed by the `f` fraction digits spell `n`. */
  lemma FixedDigits(n: nat, f: nat)
    requires f > 0
    ensures var p := Pow(10, f);
      var a, b := Digits(n / p), Pad(Digits(n % p), f);
      |b| == f && AllDigits(a + b) && NumberOf(a + b) == n
  {
    var p := Pow(10, f);
    var a, b := Digits(n / p), Pad(Digits(n % p), f);
    DigitsLength(n % p, f);
    PadDigits(Digits(n % p), f);
    NumberOfDigits(n / p);
    NumberOfDigits(n % p);
    NumberOfAppend(a, b);
    assert |b| == f;
    assert NumberOf(a + b) == (n / p) * p + n % p;
    DivMod(n, p);
  }

  lemma DivMod(n: nat, p: nat)
    requires p > 0
    ensures (n / p) * p + n % p == n
  {
  }

  lemma ParseUnsignedFixed(negative: bool, n: nat, f: nat)
    ensures ParseUnsigned(negative, Fixed(n, f)) == Some(Decimal(negative, n, f))
  {
    if f == 0 {
      NumberOfDigits(n);
    } else {
      var p := Pow(10, f);
      var a, b := Digits(n / p), Pad(Digits(n % p), f);
      DotIndexAfterDigits(a, b);
      FixedDigits(n, f);
    }
  }

  /** The text `toFixed` produces always parses back, to the rounded value. */
  lemma ParseToFixed(x: real, f: nat)
    requires x >= 0.0
    ensures Parse(ToFixed(x, f)) == Some(Decimal(false, RoundHalfUp(x, f), f))
  {
    var s := ToFixed(x, f);
    ParseUnsignedFixed(false, RoundHalfUp(x, f), f);
    assert IsDigit(s[0]);
  }

  // ---------------------------------------------------------------- Display for f64

  /** Drops trailing zero digits after the point. */
  function Normalize(d: Decimal): (r: Decimal)
    ensures r.negative == d.negative
    ensures r.places <= d.places
    ensures r.places == 0 || r.units % 10 != 0
    decreases d.places
  {
    if d.places > 0 && d.units % 10 == 0 then Normalize(Decimal(d.negative, d.units / 10, d.places - 1))
    else d
  }

  /** The shortest positional text of a decimal, as Rust prints a float: no exponent, no
      trailing zeros after the point, no point for whole numbers, "-" for any negative sign. */
  function Show(d: Decimal): (s: string)
    ensures |s| >= 1 && (s[0] == '-' <==> d.negative)
  {
    var n := Normalize(d);
    FixedStartsWithDigit(n.units, n.places);
    (if n.negative then "-" else "") + Fixed(n.units, n.places)
  }

  lemma {:induction false} NormalizeValue(d: Decimal)
    ensures Magnitude(Normalize(d)) == Magnitude(d)
    ensures ToReal(Normalize(d)) == ToReal(d)
    decreases d.places
  {
    if d.places > 0 && d.units % 10 == 0 {
      var d' := Decimal(d.negative, d.units / 10, d.places - 1);
      NormalizeValue(d');
      var q := Pow(10, d.places - 1) as real;
      assert d.units as real == 10.0 * (d.units / 10) as real;
      assert Pow(10, d.places) as real == 10.0 * q;
      assert Magnitude(d) == (10.0 * (d.units / 10) as real) / (10.0 * q);
      CancelTen((d.units / 10) as real, q);
    }
  }

  lemma CancelTen(a: real, q: real)
    requires q > 0.0
    ensures (10.0 * a) / (10.0 * q) == a / q
  {
  }

  lemma {:induction false} NormalizePower(negative: bool, k: nat)
    ensures Normalize(Decimal(negative, Pow(10, k), k)) == Decimal(negative, 1, 0)
  {
    if k > 0 {
      assert Pow(10, k) % 10 == 0 && Pow(10, k) / 10 == Pow(10, k - 1);
      NormalizePower(negative, k - 1);
    }
  }

  /** Rust's float text reads back as the same number (trailing zeros gone). */
  lemma ParseShow(d: Decimal)
    ensures Parse(Show(d)) == Some(Normalize(d))
  {
    var n := Normalize(d);
    var f := Fixed(n.units, n.places);
    ParseUnsignedFixed(n.negative, n.units, n.places);
    FixedStartsWithDigit(n.units, n.places);
    var s := Show(d);
    if n.negative {
      assert s == "-" + f;
      assert s[0] == '-' && s[1..] == f;
      assert Parse(s) == ParseUnsigned(true, f);
    } else {
      assert s == f;
      assert Parse(s) == ParseUnsigned(false, f);
    }
  }

  lemma FixedStartsWithDigit(n: nat, f: nat)
    ensures |Fixed(n, f)| >= 1 && IsDigit(Fixed(n, f)[0])
  {
    var w := Digits(if f == 0 then n else n / Pow(10, f));
    assert IsDigit(w[0]);
    assert Fixed(n, f)[0] == w[0];
  }

  /** Dropping trailing zeros does not touch the sign, so it commutes with negation. */
  lemma {:induction false} NormalizeNegate(d: Decimal)
    ensures Normalize(Negate(d)) == Negate(Normalize(d))
    decreases d.places
  {
    if d.places > 0 && d.units % 10 == 0 {
      NormalizeNegate(Decimal(d.negative, d.units / 10, d.places - 1));
    }
  }

  /** The text of a negated non-negative float is its text behind a minus sign. */
  lemma ShowNegate(d: Decimal)
    requires !d.negative
    ensures Show(Negate(d)) == "-" + Show(d)
  {
    NormalizeNegate(d);
  }

  /** The text of a float is exactly "1" when, and only when, the float is positive one. */
  lemma ShowIsOne(d: Decimal)
    ensures Show(d) == "1" <==> !d.negative && ToReal(d) == 1.0
  {
    if Show(d) == "1" {
      OneShowsOne(d);
    }
    if !d.negative && ToReal(d) == 1.0 {
      ShowOfOne(d);
    }
  }

  lemma OneShowsOne(d: Decimal)
    requires Show(d) == "1"
    ensures !d.negative && ToReal(d) == 1.0
  {
    var n := Normalize(d);
    NormalizeValue(d);
    FixedLength(n.units, n.places);
    assert n.places == 0 && Digits(n.units) == "1";
    NumberOfDigits(n.units);
    assert n.units == NumberOf("1") == 1;
  }

  lemma FixedLength(n: nat, f: nat)
    ensures |Fixed(n, f)| >= if f == 0 then 1 else f + 2
  {
    if f > 0 {
      assert |Pad(Digits(n % Pow(10, f)), f)| >= f;
    }
  }

  lemma ShowOfOne(d: Decimal)
    requires !d.negative && ToReal(d) == 1.0
    ensures Show(d) == "1"
  {
    var p := Pow(10, d.places);
    assert d.units as real == p as real;
    NormalizePower(false, d.places);
    assert Digits(1) == "1";
  }

  /** `str::replace(".", sep)`: every point replaced by `sep`. */
  function ReplaceDot(s: string, sep: string): (r: string)
    ensures sep != "" ==> |r| >= |s|
    ensures (forall i | 0 <= i < |sep| :: sep[i] != '.') ==> forall i | 0 <= i < |r| :: r[i] != '.'
  {
    if s == [] then [] else (if s[0] == '.' then sep else [s[0]]) + ReplaceDot(s[1..], sep)
  }

  lemma {:induction false} ReplaceDotNoDot(s: string, sep: string)
    requires forall i | 0 <= i < |s| :: s[i] != '.'
    ensures ReplaceDot(s, sep) == s
  {
    if s != [] {
      ReplaceDotNoDot(s[1..], sep);
    }
  }

  /** A text with one point: the separator takes the point's place, and the digits on either side stay where they are. */
  lemma {:induction false} ReplaceDotAtPoint(a: string, b: string, sep: string)
    requires forall i | 0 <= i < |a| :: a[i] != '.'
    requires forall i | 0 <= i < |b| :: b[i] != '.'
    ensures ReplaceDot(a + "." + b, sep) == a + sep + b
  {
    var s := a + "." + b;
    if a == [] {
      assert s[0] == '.' && s[1..] == b;
      ReplaceDotNoDot(b, sep);
      assert ReplaceDot(s, sep) == sep + ReplaceDot(b, sep);
    } else {
      var t := a[1..] + "." + b;
      assert s[0] == a[0] && s[1..] == t;
      ReplaceDotAtPoint(a[1..], b, sep);
      assert ReplaceDot(s, sep) == [a[0]] + ReplaceDot(t, sep);
      assert a == [a[0]] + a[1..];
    }
  }

  /** With any non-empty separator the text is "1" exactly when Rust's text is. */
  lemma ReplaceDotIsOne(d: Decimal, sep: string)
    requires sep != ""
    ensures ReplaceDot(Show(d), sep) == "1" <==> Show(d) == "1"
  {
    var n := Normalize(d);
    var s := Show(d);
    if n.places == 0 {
      var f := Fixed(n.units, n.places);
      assert forall i | 0 <= i < |f| :: IsDigit(f[i]);
      ReplaceDotNoDot(s, sep);
    } else {
      assert |s| >= 3;
    }
  }
}
