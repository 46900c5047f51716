/**
  Properties of the whole conversion `Format`: how the options interact, which stages a
  result shape skips, what happens to zero and to the sign, and how close the displayed
  value is to the exact scaled value.
*/
module FilesizeProperties {
  import opened Wrappers
  import opened Decimals
  import opened Units
  import opened Options
  import opened Filesize

  /**
    Base 1 picks the tier against 1024 (the ceiling test is `base > 2`) but divides by
    1000^e (the divisor test is `base == 2`), so 1000 stays at tier 0 and 1024 becomes
    1.024 units of tier 1.
  */
  lemma BaseOneMixesCeilings(c: Config, e: nat)
    requires c.base == Some(1.0)
    ensures ResolveOptions(c).base == 1
    ensures Ceil(ResolveOptions(c)) == 1024 && Divider(ResolveOptions(c), e) == Pow(1000, e)
    ensures ResolveOptions(c).standard == Jedec
  {
    assert ToU32(1.0) == 1;
  }

  /**
    With output "exponent" the result is the clamped tier and nothing else: it fails only
    on an unreadable argument, and it depends on neither the sign, the locale formatter nor
    any option other than base and exponent.
  */
  lemma ExponentShortCircuit(arg: Arg, c: Config, c': Config, fmt: LocaleFormatter, fmt': LocaleFormatter)
    requires c.output == Some("exponent") && c'.output == Some("exponent")
    requires c'.base == c.base && c'.exponent == c.exponent
    ensures Format(arg, c, fmt).Err? <==> ReadArg(arg).None?
    ensures Format(arg, c, fmt).Ok? ==>
      Format(arg, c, fmt).value == ExponentOut(Tier(ResolveOptions(c), Magnitude(ReadArg(arg).value)))
    ensures Format(arg, c, fmt) == Format(arg, c', fmt')
    ensures arg.Num? ==> Format(Num(Negate(arg.d)), c, fmt) == Format(arg, c, fmt)
  {
    var o, o' := ResolveOptions(c), ResolveOptions(c');
    assert o.exponent == o'.exponent && Ceil(o) == Ceil(o');
  }

  /**
    A zero value skips scaling, rounding, the "kb" rule and the unix collapse: the value is
    0 whatever `round` is, and the suffix is empty under unix and otherwise the table's
    symbol at the tier, which is 0 unless an exponent is given. The value is still rendered,
    so a locale tag the host refuses still fails.
  */
  lemma ZeroInput(d: Decimal, c: Config, fmt: LocaleFormatter)
    requires d.units == 0 && c.output == Some("array") && c.symbols.None?
    ensures var o := ResolveOptions(c);
      Format(Num(d), c, fmt) ==
        if RejectsLocale(o, fmt) then Err(LocaleRejected)
        else Ok(ArrayOut(0.0, if o.unix then "" else Symbol(o.standard, o.bits, Tier(o, 0.0))))
    ensures c.exponent.None? ==> Tier(ResolveOptions(c), 0.0) == 0
  {
    var o := ResolveOptions(c);
    assert Magnitude(d) == 0.0;
    ResolveOtherFields(c);
    assert o.symbols == map[];
    var e := Tier(o, 0.0);
    var symbol := if o.unix then "" else Symbol(o.standard, o.bits, e);
    assert Measure(o, 0.0) == Ok(Measured(Zero, symbol, e));
    assert ToReal(Signed(d.negative, Zero)) == 0.0;
    assert Shape(o, e, Signed(d.negative, Zero), symbol, fmt) == ArrayOut(0.0, symbol);
  }

  /** The numeric stages read only base, bits, exponent, round, standard and unix. */
  lemma MeasureReads(o: Options, o': Options, num: real)
    requires num >= 0.0
    requires o'.base == o.base && o'.bits == o.bits && o'.exponent == o.exponent
    requires o'.round == o.round && o'.standard == o.standard && o'.unix == o.unix
    ensures Measure(o', num) == Measure(o, num)
  {
    ScalingReads(o, o', num);
  }

  /** Tier and scaling read only base, bits and exponent. */
  lemma ScalingReads(o: Options, o': Options, num: real)
    requires num >= 0.0
    requires o'.base == o.base && o'.bits == o.bits && o'.exponent == o.exponent
    ensures Tier(o', num) == Tier(o, num)
    ensures Scale(o', num, Tier(o, num)) == Scale(o, num, Tier(o, num))
  {
    assert Ceil(o') == Ceil(o);
    assert forall e: nat :: Divider(o', e) == Divider(o, e);
  }

  /**
    The array shape is returned before full names, the spacer and the rendered text are
    used, so those options do not change it. The text is still rendered first, so the
    locale matters in one way only: whether the host refuses its tag.
  */
  lemma ArrayIgnoresNaming(arg: Arg, c: Config, fmt: LocaleFormatter,
                           fullform: Option<bool>, fullforms: Option<seq<string>>,
                           spacer: Option<string>, locale: Option<LocaleArg>, separator: Option<string>)
    requires c.output == Some("array")
    ensures var c' := c.(fullform := fullform, fullforms := fullforms, spacer := spacer,
                         locale := locale, separator := separator);
      RejectsLocale(ResolveOptions(c'), fmt) == RejectsLocale(ResolveOptions(c), fmt) ==>
        Format(arg, c', fmt) == Format(arg, c, fmt)
  {
    var c' := c.(fullform := fullform, fullforms := fullforms, spacer := spacer,
                 locale := locale, separator := separator);
    var o, o' := ResolveOptions(c), ResolveOptions(c');
    ResolveOtherFields(c);
    ResolveOtherFields(c');
    if ReadArg(arg).Some? {
      MeasureReads(o, o', Magnitude(ReadArg(arg).value));
    }
  }

  /**
    Full names, in the object and the string shape and under any locale: the caller's name
    for the final tier when there is one, otherwise prefix, unit and a plural "s" unless the
    rendered text is exactly "1". The text is the one the string shape shows, so a host that
    renders 1.0004 as "1" gets the singular.
  */
  lemma FullformPlural(d: Decimal, c: Config, fmt: LocaleFormatter)
    requires c.fullform == Some(true)
    requires c.output.None? || c.output.value !in {"exponent", "array"}
    ensures var o := ResolveOptions(c);
      var m := Measure(o, Magnitude(d));
      var r := Format(Num(d), c, fmt);
      r.Ok? ==>
        && m.Ok? && (r.value.ObjectOut? || r.value.StringOut?)
        && var e := m.value.tier;
           var text := Render(o, Signed(d.negative, m.value.value), fmt);
           var name := if e < |o.fullforms| then o.fullforms[e]
                       else Prefix(o.standard, e) + (if o.bits then "bit" else "byte") + (if text == "1" then "" else "s");
           && (r.value.ObjectOut? ==> r.value.symbol == name)
           && (r.value.StringOut? ==> r.value.text == text + o.spacer + name)
  {
    ResolveOtherFields(c);
  }

  /**
    With locale rendering off, the plural in the object shape follows the value itself:
    the singular exactly for the value 1 (so -1 is "bytes").
  */
  lemma FullformPluralValue(d: Decimal, c: Config, fmt: LocaleFormatter)
    requires c.output == Some("object") && c.fullform == Some(true)
    requires c.locale.None? || c.locale == Some(Flag(false))
    ensures var o := ResolveOptions(c);
      var r := Format(Num(d), c, fmt);
      var e := FinalTier(o, Magnitude(d));
      r.Ok? ==> && r.value.ObjectOut?
                && r.value.symbol ==
                     if e < |o.fullforms| then o.fullforms[e]
                     else Prefix(o.standard, e) + (if o.bits then "bit" else "byte") + (if r.value.value == 1.0 then "" else "s")
  {
    var o := ResolveOptions(c);
    ResolveOtherFields(c);
    var m := Measure(o, Magnitude(d));
    FullformPlural(d, c, fmt);
    if m.Ok? {
      RenderIsOne(o, Signed(d.negative, m.value.value), fmt);
    }
  }

  /**
    The conversion fails only on an unreadable argument, on a precision above 100 digits
    for a non-zero value, or, after that, on a locale tag the host refuses.
  */
  lemma FormatErrors(arg: Arg, c: Config, fmt: LocaleFormatter)
    ensures Format(arg, c, fmt) == Err(InvalidNumber) <==> ReadArg(arg).None?
    ensures var o := ResolveOptions(c);
      Format(arg, c, fmt) == Err(PrecisionOutOfRange) <==>
        && ReadArg(arg).Some?
        && o.output != "exponent"
        && Magnitude(ReadArg(arg).value) != 0.0
        && Places(o, FinalTier(o, Magnitude(ReadArg(arg).value))) > MaxFixedDigits
    ensures var o := ResolveOptions(c);
      Format(arg, c, fmt) == Err(LocaleRejected) <==>
        && ReadArg(arg).Some?
        && o.output != "exponent"
        && !(Magnitude(ReadArg(arg).value) != 0.0
             && Places(o, FinalTier(o, Magnitude(ReadArg(arg).value))) > MaxFixedDigits)
        && RejectsLocale(o, fmt)
    ensures c.round.None? ==> ResolveOptions(c).round <= MaxFixedDigits
  {
  }

  /** Negating the argument negates the value of an array result and keeps its symbol; errors are the same. */
  lemma SignSymmetry(d: Decimal, c: Config, fmt: LocaleFormatter)
    requires c.output == Some("array")
    ensures var r, r' := Format(Num(d), c, fmt), Format(Num(Negate(d)), c, fmt);
      && (r.Err? ==> r' == r)
      && (r.Ok? ==> r.value.ArrayOut? && r' == Ok(ArrayOut(-r.value.value, r.value.symbol)))
  {
    var o := ResolveOptions(c);
    var m := Measure(o, Magnitude(d));
    assert Magnitude(Negate(d)) == Magnitude(d);
    if m.Ok? {
      assert ToReal(Signed(!d.negative, m.value.value)) == -ToReal(Signed(d.negative, m.value.value));
    }
  }

  /**
    In the string shape (any output other than "exponent", "array" and "object") with
    locale rendering off and no full names, a negative argument prints as the positive one
    behind a minus sign.
  */
  lemma StringSign(d: Decimal, c: Config, fmt: LocaleFormatter)
    requires !d.negative
    requires c.output.None? || c.output.value !in {"exponent", "array", "object"}
    requires c.fullform != Some(true)
    requires c.locale.None? || c.locale == Some(Flag(false))
    ensures var r, r' := Format(Num(d), c, fmt), Format(Num(Negate(d)), c, fmt);
      && (r.Err? ==> r' == r)
      && (r.Ok? ==> r.value.StringOut? && r' == Ok(StringOut("-" + r.value.text)))
  {
    var o := ResolveOptions(c);
    ResolveOtherFields(c);
    var m := Measure(o, Magnitude(d));
    assert Magnitude(Negate(d)) == Magnitude(d);
    if m.Ok? {
      var v := m.value;
      assert Format(Num(d), c, fmt) == Ok(Shape(o, v.tier, v.value, v.suffix, fmt));
      assert Format(Num(Negate(d)), c, fmt) == Ok(Shape(o, v.tier, Negate(v.value), v.suffix, fmt));
      ShapeSign(o, v.tier, v.value, v.suffix, fmt);
    }
  }

  lemma ShapeSign(o: Options, e: nat, res: Decimal, suffix: string, fmt: LocaleFormatter)
    requires e <= MaxTier && !res.negative
    requires o.output != "array" && o.output != "object" && !o.fullform && o.locale == Defined(false)
    ensures Shape(o, e, res, suffix, fmt).StringOut?
    ensures Shape(o, e, Negate(res), suffix, fmt) == StringOut("-" + Shape(o, e, res, suffix, fmt).text)
  {
    var text, text' := Render(o, res, fmt), Render(o, Negate(res), fmt);
    var name := Override(o.symbols, suffix);
    ShapeString(o, e, res, suffix, fmt);
    ShapeString(o, e, Negate(res), suffix, fmt);
    SignedText(o, res, fmt);
    PrefixConcat("-", text, o.spacer, name);
  }

  lemma PrefixConcat<T>(p: seq<T>, a: seq<T>, b: seq<T>, c: seq<T>)
    ensures (p + a) + b + c == p + (a + b + c)
  {
  }

  /** Without full names the string shape is the text, the spacer and the (overridden) symbol. */
  lemma ShapeString(o: Options, e: nat, res: Decimal, suffix: string, fmt: LocaleFormatter)
    requires e <= MaxTier && o.output != "array" && o.output != "object" && !o.fullform
    ensures Shape(o, e, res, suffix, fmt) == StringOut(Render(o, res, fmt) + o.spacer + Override(o.symbols, suffix))
  {
  }

  lemma SignedText(o: Options, res: Decimal, fmt: LocaleFormatter)
    requires o.locale == Defined(false) && !res.negative
    ensures Render(o, Negate(res), fmt) == "-" + Render(o, res, fmt)
  {
    ShowNegate(res);
    var s := Show(res);
    assert ReplaceDot("-" + s, o.separator) == "-" + ReplaceDot(s, o.separator) by {
      assert ("-" + s)[1..] == s;
    }
  }

  /**
    The unix flag changes only the suffix (and defaults): with `round` given, the array
    value is the same with unix on or off, since the floored value is discarded.
  */
  lemma UnixKeepsValue(arg: Arg, c: Config, fmt: LocaleFormatter)
    requires c.output == Some("array") && c.round.Some?
    ensures var r, r' := Format(arg, c.(unix := Some(true)), fmt), Format(arg, c.(unix := Some(false)), fmt);
      && (r.Ok? <==> r'.Ok?)
      && (r.Ok? ==> r.value.ArrayOut? && r'.value.ArrayOut? && r.value.value == r'.value.value)
  {
    var o, o' := ResolveOptions(c.(unix := Some(true))), ResolveOptions(c.(unix := Some(false)));
    ArrayFormat(arg, c.(unix := Some(true)), fmt);
    ArrayFormat(arg, c.(unix := Some(false)), fmt);
    assert RejectsLocale(o, fmt) == RejectsLocale(o', fmt);
    if ReadArg(arg).Some? {
      var num := Magnitude(ReadArg(arg).value);
      MeasureReads(o.(unix := false), o', num);
      if Measure(o, num).Ok? {
        UnixKeepsMeasuredValue(o, num);
      }
    }
  }

  /** The array result spelled out stage by stage. */
  lemma ArrayFormat(arg: Arg, c: Config, fmt: LocaleFormatter)
    requires c.output == Some("array")
    ensures var o := ResolveOptions(c);
      Format(arg, c, fmt) ==
        if ReadArg(arg).None? then Err(InvalidNumber)
        else
          var d := ReadArg(arg).value;
          var m := Measure(o, Magnitude(d));
          if m.Err? then Err(m.error)
          else if RejectsLocale(o, fmt) then Err(LocaleRejected)
          else Ok(ArrayOut(ToReal(Signed(d.negative, m.value.value)), Override(o.symbols, m.value.suffix)))
  {
  }

  /**
    Whenever the unix collapse clears the suffix, the value already has no fraction digits:
    only tier-0 symbols collapse to a bare marker, and tier 0 is shown with none. So the
    floor the source computes there and discards could not have changed the value.
  */
  lemma UnixClearedIsWhole(o: Options, num: real)
    requires num >= 0.0 && o.unix && Measure(o, num).Ok? && Measure(o, num).value.suffix == ""
    ensures Measure(o, num).value.value.places == 0
    ensures Measure(o, num).value.tier == 0 || num == 0.0
  {
    if num != 0.0 {
      CollapseClearsTierZero(o, FinalTier(o, num));
    }
  }

  /** Above tier 0 the unix collapse always leaves a letter. */
  lemma CollapseClearsTierZero(o: Options, e: nat)
    requires e <= MaxTier
    ensures UnixCollapse(o.standard, e, SuffixFor(o, e)) == "" ==> e == 0
  {
    var s := SuffixFor(o, e);
    if e > 0 {
      if o.standard == Jedec {
        assert s[0] != 'b' && s[0] != 'B';
      } else if o.base == 10 && e == 1 {
        assert s[..1] == "k";
      } else {
        assert |s| == 3 && s[1] == 'i';
      }
    }
  }

  lemma UnixKeepsMeasuredValue(o: Options, num: real)
    requires num >= 0.0 && Measure(o, num).Ok?
    ensures Measure(o.(unix := !o.unix), num).Ok?
    ensures Measure(o.(unix := !o.unix), num).value.value == Measure(o, num).value.value
  {
    ScalingReads(o, o.(unix := !o.unix), num);
  }

  /**
    The array value of a non-zero, non-negative argument is the exact scaled value (see
    `Scale`) rounded to `Places` fraction digits: it has that many digits and is within half
    a unit of the last one, which by `RoundingUnique` leaves exactly one candidate.
  */
  lemma ArrayValueRounding(d: Decimal, c: Config, fmt: LocaleFormatter)
    requires c.output == Some("array") && !d.negative && d.units != 0
    ensures var o := ResolveOptions(c);
      var num := Magnitude(d);
      var scaled := Scale(o, num, Tier(o, num));
      var r := Format(Num(d), c, fmt);
      r.Ok? ==>
        && r.value.ArrayOut?
        && OnGrid(r.value.value, Places(o, scaled.1))
        && WithinHalfUnit(r.value.value, scaled.0, Places(o, scaled.1))
  {
    var o := ResolveOptions(c);
    var num := Magnitude(d);
    MagnitudeZero(d);
    var m := Measure(o, num);
    if m.Ok? && !RejectsLocale(o, fmt) {
      MeasureRounding(o, num);
      assert Format(Num(d), c, fmt) == Ok(ArrayOut(Magnitude(m.value.value), Override(o.symbols, m.value.suffix)));
    }
  }

  /** The measured value of a non-zero magnitude has `Places` fraction digits and is within half a unit of the last one of the exact scaled value. */
  lemma MeasureRounding(o: Options, num: real)
    requires num > 0.0 && Measure(o, num).Ok?
    ensures OnGrid(Magnitude(Measure(o, num).value.value), Places(o, Measure(o, num).value.tier))
    ensures WithinHalfUnit(Magnitude(Measure(o, num).value.value), Scale(o, num, Tier(o, num)).0,
                           Places(o, Measure(o, num).value.tier))
  {
    var scaled := Scale(o, num, Tier(o, num));
    var places := Places(o, scaled.1);
    var m := Measure(o, num).value;
    assert m.value == Decimal(false, RoundHalfUp(scaled.0, places), places) && m.tier == scaled.1;
    RoundingError(scaled.0, places);
  }

  /**
    A custom symbol replaces the suffix only when the suffix, as the numeric stages left
    it (after the unix collapse), is a key of `symbols`; otherwise the suffix stays.
  */
  lemma SymbolOverride(d: Decimal, c: Config, fmt: LocaleFormatter)
    requires c.output == Some("array")
    ensures var o := ResolveOptions(c);
      var m := Measure(o, Magnitude(d));
      var r := Format(Num(d), c, fmt);
      r.Ok? ==>
        && m.Ok? && r.value.ArrayOut?
        && r.value.symbol == if m.value.suffix in o.symbols then o.symbols[m.value.suffix] else m.value.suffix
  {
  }

  /** A string argument behaves exactly as the number it spells: Rust's text of a float reads back to the same value and sign. */
  lemma StringArgument(d: Decimal, c: Config, fmt: LocaleFormatter)
    ensures Format(Str(Show(d)), c, fmt) == Format(Num(d), c, fmt)
  {
    ParseShow(d);
    NormalizeValue(d);
    var n := Normalize(d);
    assert ReadArg(Str(Show(d))) == Some(n);
    assert Magnitude(n) == Magnitude(d) && n.negative == d.negative;
  }

  /**
    With locale rendering off, the text reads back as the displayed value when there is no
    separator, and holds no point at all when the separator has none.
  */
  lemma RenderReadsBack(o: Options, res: Decimal, fmt: LocaleFormatter)
    requires o.locale == Defined(false)
    ensures o.separator == "" ==> Parse(Render(o, res, fmt)) == Some(Normalize(res))
    ensures o.separator != "" && (forall i | 0 <= i < |o.separator| :: o.separator[i] != '.') ==>
      forall i | 0 <= i < |Render(o, res, fmt)| :: Render(o, res, fmt)[i] != '.'
  {
    ParseShow(res);
  }
}
