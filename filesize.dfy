/**
  The `filesize` routine: turns a byte count into a size string, a [value, symbol] pair, a
  {value, symbol} object or the bare magnitude tier, as the resolved options ask.

  `Format` is the specification, one function per stage: tier, scaling and bit carry-over,
  rounding, suffix, unix collapse, sign, symbol override, rendering, full names, shape.
  `Filesize` is the routine itself, a sequence of updates to local variables, and is proved
  to compute `Format`. Values are exact: the tier is the exact floor(log_ceil n) and the
  scaling is exact division (see the Decimals module for the text conversions).
*/
module Filesize {
  import opened Wrappers
  import opened Decimals
  import opened Units
  import opened Options

  /** The value argument: a number (a finite float, written exactly as a decimal) or a string. */
  datatype Arg = Num(d: Decimal) | Str(s: string)

  /**
    Why a call fails: a string argument that is not a number, a precision `toFixed` refuses,
    or a locale tag the host refuses to render with (a RangeError thrown by `toLocaleString`).
  */
  datatype Error = InvalidNumber | PrecisionOutOfRange | LocaleRejected

  /** The four result shapes. */
  datatype Outcome =
    | ExponentOut(tier: nat)
    | ArrayOut(value: real, symbol: string)
    | ObjectOut(value: real, symbol: string)
    | StringOut(text: string)

  /**
    The host's locale-aware rendering of a number (`toLocaleString` with a locale tag).
    `accepts` says which tags the host takes; rendering with any other tag throws, whatever
    the number. `render` is only ever given a normalised decimal (no trailing fraction
    zeros), since the host sees the float's value and not how many digits it was rounded to.
  */
  datatype LocaleFormatter = LocaleFormatter(accepts: string -> bool, render: (Decimal, string) -> string)

  /** The locale used when `locale` is `true`. */
  const DefaultLocale: string := "en-US"

  /** The most fraction digits `toFixed` accepts; more is a RangeError. */
  const MaxFixedDigits: nat := 100

  const Zero: Decimal := Decimal(false, 0, 0)

  /** A number is taken as it is; a string is parsed, and a parse failure is InvalidNumber. */
  function ReadArg(arg: Arg): (r: Option<Decimal>)
    ensures arg.Num? ==> r.Some?
    ensures arg.Str? && r.Some? ==> |arg.s| >= 1 && (r.value.negative <==> arg.s[0] == '-')
  {
    match arg
    case Num(d) => Some(d)
    case Str(s) => Parse(s)
  }

  // ---------------------------------------------------------------- tier

  /** The tier ceiling: 1000 when base is above 2, 1024 otherwise (bases 1 and 2). */
  function Ceil(o: Options): (c: nat)
    ensures c >= 2
  {
    if o.base > 2 then 1000 else 1024
  }

  /** The divisor of tier `e`: 2^(10e), that is 1024^e, when base is 2, and 1000^e for every other base. */
  function Divider(o: Options, e: nat): (d: nat)
    ensures d >= 1
  {
    if o.base == 2 then Pow(1024, e) else Pow(1000, e)
  }

  lemma MulMonotone(c: nat, a: nat, b: nat)
    requires a <= b
    ensures c * a <= c * b
  {
  }

  lemma ScaleUp(n: nat, c: nat, a: nat)
    requires c >= 1 && a <= n / c
    ensures c * a <= n
  {
    MulMonotone(c, a, n / c);
    assert c * (n / c) + n % c == n;
  }

  lemma ScaleUpStrict(n: nat, c: nat, b: nat)
    requires c >= 1 && n / c < b
    ensures n < c * b
  {
    var q := n / c;
    assert c * q + n % c == n;
    MulMonotone(c, q + 1, b);
    assert c * (q + 1) == c * q + c;
  }

  /** floor(log n / log c): the exponent of the largest power of `c` not above `n`, 0 below one. */
  function LogFloor(n: nat, c: nat): (k: nat)
    requires c >= 2
    ensures n >= 1 ==> Pow(c, k) <= n < Pow(c, k + 1)
    ensures n < c ==> k == 0
    decreases n
  {
    if n < c then 0
    else
      DivideDown(n, c);
      var k := LogFloor(n / c, c);
      LogFloorStep(n, c, k);
      k + 1
  }

  lemma DivideDown(n: nat, c: nat)
    requires c >= 2 && n >= c
    ensures 1 <= n / c < n
  {
    ScaleUp(n, c, 1);
    ScaleUpStrict(n, c, n);
  }

  lemma LogFloorStep(n: nat, c: nat, k: nat)
    requires c >= 2 && n >= c && Pow(c, k) <= n / c < Pow(c, k + 1)
    ensures Pow(c, k + 1) <= n < Pow(c, k + 2)
  {
    ScaleUp(n, c, Pow(c, k));
    ScaleUpStrict(n, c, Pow(c, k + 1));
    assert Pow(c, k + 1) == c * Pow(c, k) && Pow(c, k + 2) == c * Pow(c, k + 1);
  }

  /**
    The magnitude tier of `num`: the explicit exponent, or floor(log num / log ceil) with a
    negative result taken as 0; either way at most 8.
  */
  function Tier(o: Options, num: real): (e: nat)
    requires num >= 0.0
    ensures e <= MaxTier
    ensures o.exponent.Some? ==> e == if o.exponent.value > MaxTier then MaxTier else o.exponent.value
    ensures o.exponent.None? ==> e == 0 || Pow(Ceil(o), e) as real <= num
    ensures o.exponent.None? && e < MaxTier ==> num < Pow(Ceil(o), e + 1) as real
  {
    var raw := if o.exponent.Some? then o.exponent.value else LogFloor(num.Floor, Ceil(o));
    if raw > MaxTier then
      PowMonotone(Ceil(o), MaxTier, raw);
      MaxTier
    else raw
  }

  lemma {:induction false} PowMonotone(c: nat, i: nat, j: nat)
    requires c >= 1 && i <= j
    ensures Pow(c, i) <= Pow(c, j)
    decreases j
  {
    if i < j {
      PowMonotone(c, i, j - 1);
      assert Pow(c, j) == c * Pow(c, j - 1);
      MulMonotone(Pow(c, j - 1), 1, c);
    }
  }

  /** A computed tier is the largest k <= 8 whose power of the ceiling does not exceed the value. */
  lemma TierIsLargest(o: Options, num: real, k: nat)
    requires num >= 0.0 && o.exponent.None?
    requires k <= MaxTier && Pow(Ceil(o), k) as real <= num
    ensures k <= Tier(o, num)
  {
    var e := Tier(o, num);
    if k > e {
      PowMonotone(Ceil(o), e + 1, k);
    }
  }

  // ---------------------------------------------------------------- scaling and rounding

  /**
    The value scaled to tier `e`, and for bit units times eight with the carry-over: when
    that reaches the ceiling below tier 8 it is divided by the ceiling and the tier moves up
    one step, never more. Returns the scaled value and the tier after the carry.
  */
  function Scale(o: Options, num: real, e: nat): (r: (real, nat))
    requires num >= 0.0 && e <= MaxTier
    ensures r.0 >= 0.0 && r.1 <= MaxTier
    ensures r.1 == e || r.1 == e + 1
    ensures r.1 == e + 1 <==> o.bits && num / Divider(o, e) as real * 8.0 >= Ceil(o) as real && e < MaxTier
    ensures !o.bits ==> r.0 * Divider(o, e) as real == num
    ensures o.bits && r.1 == e ==> r.0 == num / Divider(o, e) as real * 8.0
    ensures o.bits && r.1 == e + 1 ==> r.0 * Ceil(o) as real == num / Divider(o, e) as real * 8.0
  {
    var val := num / Divider(o, e) as real;
    if !o.bits then (val, e)
    else if val * 8.0 >= Ceil(o) as real && e < MaxTier then (val * 8.0 / Ceil(o) as real, e + 1)
    else (val * 8.0, e)
  }

  /** Fraction digits of the displayed value: `round` above tier 0 and none at tier 0, cut to a byte. */
  function Places(o: Options, e: nat): (p: nat)
    ensures p < 256
    ensures e == 0 ==> p == 0
    ensures e > 0 && o.round < 256 ==> p == o.round
    ensures e > 0 ==> p == o.round % 256
  {
    (if e > 0 then o.round else 0) % 256
  }

  // ---------------------------------------------------------------- suffix

  /** The suffix of a non-zero value: "kb"/"kB" for base 10 at tier 1, else the table's symbol. */
  function SuffixFor(o: Options, e: nat): (s: string)
    requires e <= MaxTier
    ensures |s| >= 1 && s[|s| - 1] == if o.bits then 'b' else 'B'
    ensures o.base == 10 && e == 1 ==> s == if o.bits then "kb" else "kB"
    ensures o.base != 10 || e != 1 ==> s == Symbol(o.standard, o.bits, e)
  {
    if o.base == 10 && e == 1 then (if o.bits then "kb" else "kB") else Symbol(o.standard, o.bits, e)
  }

  /**
    The unix suffix: JEDEC keeps the first character; otherwise a trailing 'B' is dropped
    above tier 0; a bare "b" or "B" left over becomes empty.
  */
  function UnixCollapse(standard: Standard, e: nat, suffix: string): (r: string)
    requires suffix != []
    ensures r != "b" && r != "B"
    ensures r <= suffix
    ensures standard == Jedec ==> |r| <= 1
    ensures standard == Jedec && suffix[0] != 'b' && suffix[0] != 'B' ==> r == suffix[..1]
    ensures standard == Iec && e > 0 && suffix[|suffix| - 1] == 'B' && |suffix| > 2 ==> r == suffix[..|suffix| - 1]
    ensures standard == Iec && suffix[|suffix| - 1] != 'B' && |suffix| > 1 ==> r == suffix
    ensures suffix == "b" || suffix == "B" ==> r == ""
  {
    var s :=
      if standard == Jedec then suffix[..1]
      else if e > 0 && suffix[|suffix| - 1] == 'B' then suffix[..|suffix| - 1]
      else suffix;
    if s == "b" || s == "B" then "" else s
  }

  // ---------------------------------------------------------------- rendering and shape

  /** The locale tag rendering uses: "en-US" for `true`, the caller's name, none when locale rendering is off. */
  function LocaleTag(o: Options): (t: Option<string>)
    ensures t.None? <==> o.locale == Defined(false)
  {
    match o.locale
    case Defined(on) => if on then Some(DefaultLocale) else None
    case Value(name) => Some(name)
  }

  /** The host refuses the locale tag, so rendering throws. */
  predicate RejectsLocale(o: Options, fmt: LocaleFormatter) {
    LocaleTag(o).Some? && !fmt.accepts(LocaleTag(o).value)
  }

  /** The text of the displayed value: host locale rendering, or Rust's float text with the point replaced by a non-empty separator. */
  function Render(o: Options, res: Decimal, fmt: LocaleFormatter): string {
    match LocaleTag(o)
    case Some(tag) => fmt.render(Normalize(res), tag)
    case None => if o.separator != "" then ReplaceDot(Show(res), o.separator) else Show(res)
  }

  /** With locale rendering off, the text is "1" exactly when the displayed value is 1. */
  lemma RenderIsOne(o: Options, res: Decimal, fmt: LocaleFormatter)
    requires o.locale == Defined(false)
    ensures Render(o, res, fmt) == "1" <==> ToReal(res) == 1.0
  {
    ShowIsOne(res);
    if o.separator != "" {
      ReplaceDotIsOne(res, o.separator);
    }
  }

  /** The spelled-out unit: the caller's entry for the tier, else prefix, unit and a plural "s" unless the text is "1". */
  function FullName(o: Options, e: nat, text: string): (r: string)
    requires e <= MaxTier
    ensures e < |o.fullforms| ==> r == o.fullforms[e]
    ensures e >= |o.fullforms| ==> Prefix(o.standard, e) <= r
    ensures e >= |o.fullforms| ==> |r| > 0 && (r[|r| - 1] == 's' <==> text != "1")
    ensures e >= |o.fullforms| && e == 0 ==> r == (if o.bits then "bit" else "byte") + (if text == "1" then "" else "s")
  {
    if e < |o.fullforms| then o.fullforms[e]
    else Prefix(o.standard, e) + (if o.bits then "bit" else "byte") + (if text == "1" then "" else "s")
  }

  function Override(symbols: map<string, string>, s: string): string {
    if s in symbols then symbols[s] else s
  }

  /** The value with the argument's sign put back (on a non-negative value, the sign is `negative`). */
  function Signed(negative: bool, d: Decimal): (r: Decimal)
    ensures r.negative <==> negative != d.negative
    ensures Magnitude(r) == Magnitude(d)
  {
    if negative then Negate(d) else d
  }

  /**
    The final stages once value and suffix are known (the sign already applied): the symbol
    override, rendering, then the array shape, full names, the object shape and the string.
  */
  function Shape(o: Options, e: nat, res: Decimal, suffix: string, fmt: LocaleFormatter): (r: Outcome)
    requires e <= MaxTier
    ensures !r.ExponentOut?
    ensures r.ArrayOut? <==> o.output == "array"
    ensures r.ObjectOut? <==> o.output == "object"
    ensures r.ArrayOut? || r.ObjectOut? ==> r.value == ToReal(res)
  {
    var symbol := Override(o.symbols, suffix);
    var text := Render(o, res, fmt);
    if o.output == "array" then ArrayOut(ToReal(res), symbol)
    else
      var name := if o.fullform then FullName(o, e, text) else symbol;
      if o.output == "object" then ObjectOut(ToReal(res), name)
      else StringOut(text + o.spacer + name)
  }

  /** The tier the suffix and full name use: the tier after the bit carry-over for non-zero values. */
  function FinalTier(o: Options, num: real): (e: nat)
    requires num >= 0.0
    ensures e <= MaxTier
  {
    if num == 0.0 then Tier(o, num) else Scale(o, num, Tier(o, num)).1
  }

  /** What the numeric stages produce before the sign is put back: the unsigned displayed value, its suffix and the final tier. */
  datatype Measured = Measured(value: Decimal, suffix: string, tier: nat)

  /**
    The numeric stages on the magnitude: tier, then either the zero shortcut or scaling,
    carry-over, rounding, suffix and the unix collapse. Fails only on a precision above 100.
  */
  function Measure(o: Options, num: real): (r: Result<Measured, Error>)
    requires num >= 0.0
    ensures r.Err? <==> num != 0.0 && Places(o, FinalTier(o, num)) > MaxFixedDigits
    ensures r.Err? ==> r.error == PrecisionOutOfRange
    ensures r.Ok? ==> r.value.tier == FinalTier(o, num) && !r.value.value.negative
    ensures r.Ok? && num != 0.0 ==> r.value.value.places == Places(o, r.value.tier)
    ensures r.Ok? && num == 0.0 ==>
      r.value.value == Zero && r.value.suffix == if o.unix then "" else Symbol(o.standard, o.bits, r.value.tier)
    ensures r.Ok? && num != 0.0 ==>
      var s := SuffixFor(o, r.value.tier);
      r.value.suffix == if o.unix then UnixCollapse(o.standard, r.value.tier, s) else s
  {
    var e := Tier(o, num);
    if num == 0.0 then Ok(Measured(Zero, if o.unix then "" else Symbol(o.standard, o.bits, e), e))
    else
      var scaled := Scale(o, num, e);
      var places := Places(o, scaled.1);
      if places > MaxFixedDigits then Err(PrecisionOutOfRange)
      else
        var suffix := SuffixFor(o, scaled.1);
        Ok(Measured(Decimal(false, RoundHalfUp(scaled.0, places), places),
                    if o.unix then UnixCollapse(o.standard, scaled.1, suffix) else suffix,
                    scaled.1))
  }

  /** The whole conversion: read the argument, resolve the options, then the tier alone or the measured value in its shape. */
  function Format(arg: Arg, c: Config, fmt: LocaleFormatter): (r: Result<Outcome, Error>)
    ensures r.Ok? ==> ReadArg(arg).Some?
    ensures r.Ok? ==> (r.value.ExponentOut? <==> ResolveOptions(c).output == "exponent")
    ensures r.Ok? ==> (r.value.ArrayOut? <==> ResolveOptions(c).output == "array")
    ensures r.Ok? ==> (r.value.ObjectOut? <==> ResolveOptions(c).output == "object")
  {
    match ReadArg(arg)
    case None => Err(InvalidNumber)
    case Some(d) =>
      var o := ResolveOptions(c);
      if o.output == "exponent" then Ok(ExponentOut(Tier(o, Magnitude(d))))
      else
        match Measure(o, Magnitude(d))
        case Err(err) => Err(err)
        case Ok(m) =>
          if RejectsLocale(o, fmt) then Err(LocaleRejected)
          else Ok(Shape(o, m.tier, Signed(d.negative, m.value), m.suffix, fmt))
  }

  // ---------------------------------------------------------------- the routine

  /** The tier stage: the explicit exponent or the computed one, then the clamp to 8. */
  method ComputeTier(o: Options, num: real) returns (e: nat)
    requires num >= 0.0
    ensures e == Tier(o, num)
  {
    var ceil := Ceil(o);
    if o.exponent.Some? {
      e := o.exponent.value;
    } else {
      e := LogFloor(num.Floor, ceil);
    }
    if e > MaxTier {
      e := MaxTier;
    }
  }

  /** The scaling stage: divide by the tier's divisor, then for bits times eight and the carry-over. */
  method ScaleValue(o: Options, num: real, tier: nat) returns (val: real, e: nat)
    requires num >= 0.0 && tier <= MaxTier
    ensures (val, e) == Scale(o, num, tier)
  {
    e := tier;
    var ceil := Ceil(o);
    var divider := Divider(o, e);
    val := num / divider as real;
    if o.bits {
      val := val * 8.0;
      if val >= ceil as real && e < MaxTier {
        val := val / ceil as real;
        e := e + 1;
      }
    }
  }

  /** The unix stage on the suffix; the floored value the source computes alongside is discarded. */
  method CollapseSuffix(o: Options, e: nat, suffix: string) returns (s: string)
    requires suffix != []
    ensures s == UnixCollapse(o.standard, e, suffix)
  {
    s := suffix;
    if o.standard == Jedec {
      s := s[..1];
    } else if e > 0 && s[|s| - 1] == 'B' {
      s := s[..|s| - 1];
    }
    if s == "b" || s == "B" {
      s := "";
    }
  }

  /** The closing stages: sign, symbol override, rendering (which throws on a locale tag the host refuses), then the result shapes. */
  method Present(o: Options, e: nat, neg: bool, value: Decimal, suffix: string, fmt: LocaleFormatter)
    returns (out: Result<Outcome, Error>)
    requires e <= MaxTier
    ensures out == if RejectsLocale(o, fmt) then Err(LocaleRejected) else Ok(Shape(o, e, Signed(neg, value), suffix, fmt))
  {
    var res := value;
    var resSuffix := suffix;
    if neg {
      res := Negate(res);
    }
    if resSuffix in o.symbols {
      resSuffix := o.symbols[resSuffix];
    }
    var shown: string;
    if o.locale == Defined(true) {
      if !fmt.accepts(DefaultLocale) {
        return Err(LocaleRejected);
      }
      shown := fmt.render(Normalize(res), DefaultLocale);
    } else if o.locale.Value? {
      if !fmt.accepts(o.locale.name) {
        return Err(LocaleRejected);
      }
      shown := fmt.render(Normalize(res), o.locale.name);
    } else if o.separator != "" {
      shown := ReplaceDot(Show(res), o.separator);
    } else {
      shown := Show(res);
    }
    if o.output == "array" {
      return Ok(ArrayOut(ToReal(res), resSuffix));
    }
    if o.fullform {
      if e < |o.fullforms| {
        resSuffix := o.fullforms[e];
      } else {
        resSuffix := Prefix(o.standard, e) + (if o.bits then "bit" else "byte") + (if shown == "1" then "" else "s");
      }
    }
    if o.output == "object" {
      return Ok(ObjectOut(ToReal(res), resSuffix));
    }
    return Ok(StringOut(shown + o.spacer + resSuffix));
  }

  /** `filesize`: the stages in the source's order over mutable locals. */
  method Filesize(arg: Arg, descriptor: Config, fmt: LocaleFormatter) returns (r: Result<Outcome, Error>)
    ensures r == Format(arg, descriptor, fmt)
  {
    var d: Decimal;
    match arg {
      case Num(x) =>
        d := x;
      case Str(s) =>
        var parsed := Parse(s);
        if parsed.None? {
          return Err(InvalidNumber);
        }
        d := parsed.value;
    }
    var num, neg := Magnitude(d), d.negative;
    var o := ResolveOptions(descriptor);
    var e := ComputeTier(o, num);
    if o.output == "exponent" {
      return Ok(ExponentOut(e));
    }
    var res: Decimal;
    var resSuffix: string;
    if num == 0.0 {
      res := Zero;
      resSuffix := if o.unix then "" else Symbol(o.standard, o.bits, e);
    } else {
      var val;
      val, e := ScaleValue(o, num, e);
      var fixed := if e > 0 then o.round else 0;
      var places := fixed % 256;
      if places > MaxFixedDigits {
        return Err(PrecisionOutOfRange);
      }
      var text := ToFixed(val, places);
      resSuffix := if o.base == 10 && e == 1 then (if o.bits then "kb" else "kB")
                   else Symbol(o.standard, o.bits, e);
      ParseToFixed(val, places);
      res := Parse(text).value;
      if o.unix {
        resSuffix := CollapseSuffix(o, e, resSuffix);
      }
    }
    assert Measure(o, num) == Ok(Measured(res, resSuffix, e));
    r := Present(o, e, neg, res, resSuffix, fmt);
  }
}
