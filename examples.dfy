/**
  Worked conversions: concrete arguments and configurations and the exact result the model
  gives for each. Locale rendering is off in all of them but `LocaleSingular`, so the
  formatter is otherwise never used.
*/
module FilesizeExamples {
  import opened Wrappers
  import opened Decimals
  import opened Units
  import opened Options
  import opened Filesize
  import opened FilesizeProperties

  /** With locale rendering off and no full names, the string shape is the float text, the spacer and the (overridden) suffix. */
  lemma StringShape(arg: Arg, c: Config, fmt: LocaleFormatter, d: Decimal, m: Measured)
    requires ReadArg(arg) == Some(d)
    requires var o := ResolveOptions(c);
      && o.output == "string" && !o.fullform && o.locale == Defined(false) && o.separator == ""
      && m.tier <= MaxTier && Measure(o, Magnitude(d)) == Ok(m)
    ensures var o := ResolveOptions(c);
      Format(arg, c, fmt) == Ok(StringOut(Show(Signed(d.negative, m.value)) + o.spacer + Override(o.symbols, m.suffix)))
  {
  }

  /** The numeric stages of a non-zero magnitude, given the result of each. */
  lemma MeasureSteps(o: Options, num: real, tier: nat, val: real, e: nat, n: nat)
    requires num > 0.0 && Tier(o, num) == tier && Scale(o, num, tier) == (val, e)
    requires Places(o, e) <= MaxFixedDigits && RoundHalfUp(val, Places(o, e)) == n
    ensures e <= MaxTier
    ensures Measure(o, num) ==
      Ok(Measured(Decimal(false, n, Places(o, e)),
                  if o.unix then UnixCollapse(o.standard, e, SuffixFor(o, e)) else SuffixFor(o, e), e))
  {
  }

  /** The options `NoConfig` resolves to, with `unix`, `bits`, `base` and `standard` as given and the `round`/`spacer` defaults that follow from `unix`. */
  function Resolved(base: nat, bits: bool, exponent: Option<nat>, standard: Standard, unix: bool, spacer: string): Options {
    Options(base, bits, exponent, false, [], Defined(false), "string", if unix then 1 else 2, "",
            spacer, standard, map[], unix)
  }

  lemma Text391()
    ensures Show(Decimal(false, 391, 2)) == "3.91"
  {
    assert Normalize(Decimal(false, 391, 2)) == Decimal(false, 391, 2);
    assert Pow(10, 2) == 100;
    assert Digits(91) == "91" && Digits(3) == "3";
    assert Fixed(391, 2) == "3" + "." + Pad("91", 2);
  }

  lemma Text47684()
    ensures Show(Decimal(false, 47684, 2)) == "476.84"
  {
    assert Normalize(Decimal(false, 47684, 2)) == Decimal(false, 47684, 2);
    assert Pow(10, 2) == 100;
    assert Digits(84) == "84" by {
      assert Digits(8) == "8";
    }
    assert Digits(476) == "476" by {
      assert Digits(47) == "47" by {
        assert Digits(4) == "4";
      }
    }
    assert Fixed(47684, 2) == "476" + "." + Pad("84", 2);
  }

  lemma Text488()
    ensures Show(Decimal(false, 488, 2)) == "4.88"
  {
    assert Normalize(Decimal(false, 488, 2)) == Decimal(false, 488, 2);
    assert Pow(10, 2) == 100;
    assert Digits(88) == "88" && Digits(4) == "4";
    assert Fixed(488, 2) == "4" + "." + Pad("88", 2);
  }

  lemma Text49()
    ensures Show(Decimal(false, 49, 1)) == "4.9"
  {
    assert Normalize(Decimal(false, 49, 1)) == Decimal(false, 49, 1);
    assert Pow(10, 1) == 10;
    assert Digits(9) == "9" && Digits(4) == "4";
    assert Fixed(49, 1) == "4" + "." + Pad("9", 1);
  }

  /** 500 with no configuration: tier 0, no fraction digits, "B". */
  lemma NoOptions(fmt: LocaleFormatter)
    ensures Format(Num(Decimal(false, 500, 0)), NoConfig, fmt) == Ok(StringOut("500 B"))
  {
    var d := Decimal(false, 500, 0);
    DefaultOptions();
    var o := Resolved(2, false, None, Jedec, false, " ");
    assert ResolveOptions(NoConfig) == o;
    FiveHundred(o);
    StringShape(Num(d), NoConfig, fmt, d, Measured(d, "B", 0));
    assert Format(Num(d), NoConfig, fmt) == Ok(StringOut(Show(d) + " " + "B"));
    assert Show(d) + " " + "B" == "500 B";
  }

  /** The spacer goes between the text and the symbol as given. */
  lemma WideSpacer(fmt: LocaleFormatter)
    ensures Format(Num(Decimal(false, 500, 0)), NoConfig.(spacer := Some("   ")), fmt) == Ok(StringOut("500   B"))
  {
    assert "500" + "   " + "B" == "500   B";
    var d := Decimal(false, 500, 0);
    var c := NoConfig.(spacer := Some("   "));
    var o := Resolved(2, false, None, Jedec, false, "   ");
    assert ResolveOptions(c) == o by {
      ResolveOtherFields(c);
    }
    FiveHundred(o);
    StringShape(Num(d), c, fmt, d, Measured(d, "B", 0));
  }

  /** 500 bytes under binary JEDEC options: tier 0, shown as "500", suffix "B" (cleared under unix). */
  lemma FiveHundred(o: Options)
    requires o.base == 2 && !o.bits && o.exponent.None? && o.standard == Jedec
    ensures Magnitude(Decimal(false, 500, 0)) == 500.0
    ensures Measure(o, 500.0) == Ok(Measured(Decimal(false, 500, 0), if o.unix then "" else "B", 0))
    ensures Show(Decimal(false, 500, 0)) == "500"
  {
    assert Tier(o, 500.0) == 0;
    assert Scale(o, 500.0, 0) == (500.0, 0);
    assert RoundHalfUp(500.0, 0) == 500;
    MeasureSteps(o, 500.0, 0, 500.0, 0, 500);
    assert Digits(500) == "500" by {
      assert Digits(5) == "5" && Digits(50) == "50";
    }
  }

  /** 500 bytes are 4000 bits, which carry over to tier 1: 3.90625 rounded to "3.91", "Kb". */
  lemma Bits(fmt: LocaleFormatter)
    ensures Format(Num(Decimal(false, 500, 0)), NoConfig.(bits := Some(true)), fmt) == Ok(StringOut("3.91 Kb"))
  {
    assert "3.91" + " " + "Kb" == "3.91 Kb";
    var d := Decimal(false, 500, 0);
    var c := NoConfig.(bits := Some(true));
    var o := Resolved(2, true, None, Jedec, false, " ");
    assert ResolveOptions(c) == o by {
      ResolveOtherFields(c);
    }
    var res := Decimal(false, 391, 2);
    assert Magnitude(d) == 500.0;
    BitsMeasure(o);
    Text391();
    StringShape(Num(d), c, fmt, d, Measured(res, "Kb", 1));
  }

  lemma BitsMeasure(o: Options)
    requires o == Resolved(2, true, None, Jedec, false, " ")
    ensures Measure(o, 500.0) == Ok(Measured(Decimal(false, 391, 2), "Kb", 1))
  {
    assert Tier(o, 500.0) == 0;
    assert Divider(o, 0) == 1;
    assert Scale(o, 500.0, 0) == (3.90625, 1);
    assert Places(o, 1) == 2;
    assert RoundHalfUp(3.90625, 2) == 391 by {
      assert Pow(10, 2) == 100;
    }
    MeasureSteps(o, 500.0, 0, 3.90625, 1, 391);
  }

  /** An explicit exponent 2 scales 500000000 by 2^20: 476.837158203125 rounded to "476.84", "MB". */
  lemma Exponent(fmt: LocaleFormatter)
    ensures Format(Num(Decimal(false, 500000000, 0)), NoConfig.(exponent := Some(2)), fmt) == Ok(StringOut("476.84 MB"))
  {
    assert "476.84" + " " + "MB" == "476.84 MB";
    var d := Decimal(false, 500000000, 0);
    var c := NoConfig.(exponent := Some(2));
    var o := Resolved(2, false, Some(2), Jedec, false, " ");
    assert ResolveOptions(c) == o by {
      ResolveOtherFields(c);
    }
    var res := Decimal(false, 47684, 2);
    assert Magnitude(d) == 500000000.0;
    ExponentMeasure(o);
    Text47684();
    StringShape(Num(d), c, fmt, d, Measured(res, "MB", 2));
  }

  lemma ExponentMeasure(o: Options)
    requires o == Resolved(2, false, Some(2), Jedec, false, " ")
    ensures Measure(o, 500000000.0) == Ok(Measured(Decimal(false, 47684, 2), "MB", 2))
  {
    assert Tier(o, 500000000.0) == 2;
    assert Divider(o, 2) == 1048576;
    assert Scale(o, 500000000.0, 2) == (476.837158203125, 2);
    assert RoundHalfUp(476.837158203125, 2) == 47684 by {
      assert Pow(10, 2) == 100;
    }
    MeasureSteps(o, 500000000.0, 2, 476.837158203125, 2, 47684);
  }

  /** Base 10 at tier 1 uses the irregular "kB", and 5.00 prints as "5". */
  lemma DecimalKilo(fmt: LocaleFormatter)
    ensures Format(Num(Decimal(false, 5000, 0)), NoConfig.(base := Some(10.0)), fmt) == Ok(StringOut("5 kB"))
  {
    assert "5" + " " + "kB" == "5 kB";
    var d := Decimal(false, 5000, 0);
    var c := NoConfig.(base := Some(10.0));
    var o := Resolved(10, false, None, Jedec, false, " ");
    assert ResolveOptions(c) == o by {
      assert ToU32(10.0) == 10;
      ResolveOtherFields(c);
    }
    var res := Decimal(false, 500, 2);
    assert Magnitude(d) == 5000.0;
    DecimalKiloMeasure(o);
    assert Show(res) == "5" by {
      assert Normalize(res) == Decimal(false, 5, 0);
    }
    StringShape(Num(d), c, fmt, d, Measured(res, "kB", 1));
  }

  lemma DecimalKiloMeasure(o: Options)
    requires o == Resolved(10, false, None, Jedec, false, " ")
    ensures Measure(o, 5000.0) == Ok(Measured(Decimal(false, 500, 2), "kB", 1))
  {
    assert Tier(o, 5000.0) == 1 by {
      assert LogFloor(5000, 1000) == LogFloor(5, 1000) + 1;
    }
    assert Scale(o, 5000.0, 1) == (5.0, 1);
    assert RoundHalfUp(5.0, 2) == 500 by {
      assert Pow(10, 2) == 100;
    }
    MeasureSteps(o, 5000.0, 1, 5.0, 1, 500);
  }

  /** 5000 bytes under binary options: 4.8828125 at tier 1. */
  lemma KiloScale(o: Options)
    requires o.base == 2 && !o.bits && o.exponent.None?
    ensures Tier(o, 5000.0) == 1
    ensures Scale(o, 5000.0, 1) == (4.8828125, 1)
  {
    assert LogFloor(5000, 1024) == LogFloor(4, 1024) + 1;
    assert Divider(o, 1) == 1024;
  }

  /** IEC symbols under base 2: 5000 bytes are "4.88 KiB". */
  lemma IecKibi(fmt: LocaleFormatter)
    ensures Format(Num(Decimal(false, 5000, 0)), NoConfig.(standard := Some(Iec)), fmt) == Ok(StringOut("4.88 KiB"))
  {
    assert "4.88" + " " + "KiB" == "4.88 KiB";
    var d := Decimal(false, 5000, 0);
    var c := NoConfig.(standard := Some(Iec));
    var o := Resolved(2, false, None, Iec, false, " ");
    assert ResolveOptions(c) == o by {
      ResolveOtherFields(c);
    }
    assert Magnitude(d) == 5000.0;
    KiloMeasure(o);
    Text488();
    StringShape(Num(d), c, fmt, d, Measured(Decimal(false, 488, 2), "KiB", 1));
  }

  /** A separator takes the place of the point: 5000 bytes with "," are "4,88 KiB". */
  lemma SeparatorKibi(fmt: LocaleFormatter)
    ensures Format(Num(Decimal(false, 5000, 0)), NoConfig.(standard := Some(Iec), separator := Some(",")), fmt)
      == Ok(StringOut("4,88 KiB"))
  {
    assert "4" + "," + "88" + " " + "KiB" == "4,88 KiB";
    var d := Decimal(false, 5000, 0);
    var c := NoConfig.(standard := Some(Iec), separator := Some(","));
    var o := Resolved(2, false, None, Iec, false, " ");
    var o' := o.(separator := ",");
    assert ResolveOptions(c) == o' by {
      ResolveOtherFields(c);
    }
    assert Magnitude(d) == 5000.0;
    KiloMeasure(o);
    var v := Decimal(false, 488, 2);
    assert Measure(o', 5000.0) == Ok(Measured(v, "KiB", 1)) by {
      MeasureReads(o, o', 5000.0);
    }
    assert Format(Num(d), c, fmt) == Ok(Shape(o', 1, v, "KiB", fmt));
    ShapeString(o', 1, v, "KiB", fmt);
    Text488();
    assert "4.88" == "4" + "." + "88";
    ReplaceDotAtPoint("4", "88", ",");
  }

  /**
    A host that renders en-US text with at most three fraction digits shows 1.0004 as "1",
    and the full name follows that text: 1.0004 kilobytes (round 4, exponent 1) read
    "1 kilobyte", singular.
  */
  lemma LocaleSingular()
    ensures var fmt := LocaleFormatter(t => t == DefaultLocale, (d, t) => if d == Decimal(false, 10004, 4) then "1" else Show(d));
      Format(Num(Decimal(false, 10244096, 4)),
             NoConfig.(exponent := Some(1), round := Some(4.0), fullform := Some(true), locale := Some(Flag(true))), fmt)
      == Ok(StringOut("1 kilobyte"))
  {
    var fmt := LocaleFormatter(t => t == DefaultLocale, (d, t) => if d == Decimal(false, 10004, 4) then "1" else Show(d));
    assert "1" + " " + "kilobyte" == "1 kilobyte";
    var d := Decimal(false, 10244096, 4);
    var c := NoConfig.(exponent := Some(1), round := Some(4.0), fullform := Some(true), locale := Some(Flag(true)));
    var o := Resolved(2, false, Some(1), Jedec, false, " ").(round := 4, fullform := true, locale := Defined(true));
    assert ResolveOptions(c) == o by {
      assert ToU32(4.0) == 4;
      ResolveOtherFields(c);
    }
    assert Magnitude(d) == 1024.4096 by {
      assert Pow(10, 4) == 10000;
    }
    var v := Decimal(false, 10004, 4);
    assert Measure(o, 1024.4096) == Ok(Measured(v, "KB", 1)) by {
      assert Tier(o, 1024.4096) == 1;
      assert Divider(o, 1) == 1024;
      assert Scale(o, 1024.4096, 1) == (1.0004, 1);
      assert RoundHalfUp(1.0004, 4) == 10004 by {
        assert Pow(10, 4) == 10000;
      }
      MeasureSteps(o, 1024.4096, 1, 1.0004, 1, 10004);
    }
    assert !RejectsLocale(o, fmt);
    assert Format(Num(d), c, fmt) == Ok(Shape(o, 1, v, "KB", fmt));
    assert Normalize(v) == v;
    assert Render(o, v, fmt) == "1";
    assert FullName(o, 1, "1") == "kilobyte";
  }

  /** Unix output: one fraction digit, no spacer, JEDEC suffix cut to its letter: "4.9K". */
  lemma UnixKilo(fmt: LocaleFormatter)
    ensures Format(Num(Decimal(false, 5000, 0)), NoConfig.(unix := Some(true)), fmt) == Ok(StringOut("4.9K"))
  {
    assert "4.9" + "" + "K" == "4.9K";
    var d := Decimal(false, 5000, 0);
    var c := NoConfig.(unix := Some(true));
    var o := Resolved(2, false, None, Jedec, true, "");
    assert ResolveOptions(c) == o by {
      ResolveOtherFields(c);
    }
    assert Magnitude(d) == 5000.0;
    KiloMeasure(o);
    Text49();
    StringShape(Num(d), c, fmt, d, Measured(Decimal(false, 49, 1), "K", 1));
  }

  /**
    Custom symbols are looked up by the suffix after the unix collapse: under unix 5000
    bytes have the suffix "K", so a "K" key applies ("4.9KiB") and a "KB" key does not.
  */
  lemma UnixOverride(fmt: LocaleFormatter)
    ensures Format(Num(Decimal(false, 5000, 0)), NoConfig.(unix := Some(true), symbols := Some(map["K" := "KiB"])), fmt)
      == Ok(StringOut("4.9KiB"))
    ensures Format(Num(Decimal(false, 5000, 0)), NoConfig.(unix := Some(true), symbols := Some(map["KB" := "KiB"])), fmt)
      == Ok(StringOut("4.9K"))
  {
    assert "4.9" + "" + "KiB" == "4.9KiB";
    assert "4.9" + "" + "K" == "4.9K";
    var d := Decimal(false, 5000, 0);
    var o := Resolved(2, false, None, Jedec, true, "");
    assert Magnitude(d) == 5000.0;
    KiloMeasure(o);
    Text49();
    var m := Measured(Decimal(false, 49, 1), "K", 1);
    var c := NoConfig.(unix := Some(true), symbols := Some(map["K" := "KiB"]));
    assert ResolveOptions(c) == o.(symbols := map["K" := "KiB"]) by {
      ResolveOtherFields(c);
    }
    assert Measure(o.(symbols := map["K" := "KiB"]), 5000.0) == Ok(m) by {
      MeasureReads(o, o.(symbols := map["K" := "KiB"]), 5000.0);
    }
    StringShape(Num(d), c, fmt, d, m);
    var c' := NoConfig.(unix := Some(true), symbols := Some(map["KB" := "KiB"]));
    assert ResolveOptions(c') == o.(symbols := map["KB" := "KiB"]) by {
      ResolveOtherFields(c');
    }
    assert Measure(o.(symbols := map["KB" := "KiB"]), 5000.0) == Ok(m) by {
      MeasureReads(o, o.(symbols := map["KB" := "KiB"]), 5000.0);
    }
    StringShape(Num(d), c', fmt, d, m);
  }

  /** 5000 bytes under binary options with default rounding: 4.88 ("KiB"), or 4.9 ("K") under unix. */
  lemma KiloMeasure(o: Options)
    requires o == Resolved(2, false, None, Iec, false, " ") || o == Resolved(2, false, None, Jedec, true, "")
    ensures o.unix ==> Measure(o, 5000.0) == Ok(Measured(Decimal(false, 49, 1), "K", 1))
    ensures !o.unix ==> Measure(o, 5000.0) == Ok(Measured(Decimal(false, 488, 2), "KiB", 1))
  {
    KiloScale(o);
    if o.unix {
      assert RoundHalfUp(4.8828125, 1) == 49 by {
        assert Pow(10, 1) == 10;
      }
      MeasureSteps(o, 5000.0, 1, 4.8828125, 1, 49);
      assert UnixCollapse(Jedec, 1, "KB") == "K";
    } else {
      assert RoundHalfUp(4.8828125, 2) == 488 by {
        assert Pow(10, 2) == 100;
      }
      MeasureSteps(o, 5000.0, 1, 4.8828125, 1, 488);
    }
  }

  /** Unix output of a tier-0 value: the bare "B" is cleared, leaving the number alone. */
  lemma UnixBytes(fmt: LocaleFormatter)
    ensures Format(Num(Decimal(false, 500, 0)), NoConfig.(unix := Some(true)), fmt) == Ok(StringOut("500"))
  {
    assert "500" + "" + "" == "500";
    var d := Decimal(false, 500, 0);
    var c := NoConfig.(unix := Some(true));
    var o := Resolved(2, false, None, Jedec, true, "");
    assert ResolveOptions(c) == o by {
      ResolveOtherFields(c);
    }
    FiveHundred(o);
    StringShape(Num(d), c, fmt, d, Measured(d, "", 0));
  }

  /** The exponent shape of 5000 bytes is tier 1. */
  lemma ExponentOutput(fmt: LocaleFormatter)
    ensures Format(Num(Decimal(false, 5000, 0)), NoConfig.(output := Some("exponent")), fmt) == Ok(ExponentOut(1))
  {
    var o := ResolveOptions(NoConfig.(output := Some("exponent")));
    assert Magnitude(Decimal(false, 5000, 0)) == 5000.0;
    KiloScale(o);
  }

  /** A string argument is parsed first: "-500" gives "-500 B". */
  lemma NegativeString(fmt: LocaleFormatter)
    ensures Format(Str("-500"), NoConfig, fmt) == Ok(StringOut("-500 B"))
  {
    assert "-500" + " " + "B" == "-500 B";
    var d := Decimal(false, 500, 0);
    ParseMinus500();
    DefaultOptions();
    var o := Resolved(2, false, None, Jedec, false, " ");
    assert ResolveOptions(NoConfig) == o;
    FiveHundred(o);
    assert Show(Negate(d)) == "-500" by {
      ShowNegate(d);
      assert "-" + "500" == "-500";
    }
    StringShape(Str("-500"), NoConfig, fmt, Negate(d), Measured(d, "B", 0));
  }

  lemma ParseMinus500()
    ensures Parse("-500") == Some(Decimal(true, 500, 0))
  {
    assert "-500"[1..] == "500";
    assert DotIndex("500") == 3;
    assert AllDigits("500");
    assert NumberOf("500") == 500 by {
      assert "500"[..2] == "50" && "50"[..1] == "5";
    }
  }
}
