/**
  The caller's configuration object and its resolution into the options record the
  formatter reads. Every field is looked up on its own, and a field that is missing or of
  the wrong type falls back to its default, so resolution never fails. Two defaults are
  coupled to `unix` (`round`, `spacer`) and the standard is only read when `base` is 2.
*/
module Options {
  import opened Wrappers
  import opened Units

  /** What the caller put under `locale`: a boolean or a locale name. */
  datatype LocaleArg = Flag(on: bool) | Named(name: string)

  /** The resolved locale setting: on or off, or a named locale. */
  datatype Locale = Defined(on: bool) | Value(name: string)

  /**
    A configuration object as the caller supplies it. `None` stands for a field that is
    missing or whose value has the wrong type (a string where a number is expected, say);
    numbers are the caller's numeric values before any conversion.
  */
  datatype Config = Config(
    base: Option<real>,
    bits: Option<bool>,
    exponent: Option<int>,
    fullform: Option<bool>,
    fullforms: Option<seq<string>>,
    locale: Option<LocaleArg>,
    output: Option<string>,
    round: Option<real>,
    separator: Option<string>,
    spacer: Option<string>,
    standard: Option<Standard>,
    symbols: Option<map<string, string>>,
    unix: Option<bool>)

  /** The configuration with no field set, which is what an undefined descriptor reads as. */
  const NoConfig: Config :=
    Config(None, None, None, None, None, None, None, None, None, None, None, None, None)

  /** The resolved options. `base` and `round` are unsigned 32-bit values. */
  datatype Options = Options(
    base: nat,
    bits: bool,
    exponent: Option<nat>,
    fullform: bool,
    fullforms: seq<string>,
    locale: Locale,
    output: string,
    round: nat,
    separator: string,
    spacer: string,
    standard: Standard,
    symbols: map<string, string>,
    unix: bool)

  const U32Max: nat := 0xFFFF_FFFF

  /** A float converted with `as u32`: truncated toward zero and saturated at both ends. */
  function ToU32(x: real): (r: nat)
    ensures r <= U32Max
    ensures x < 1.0 ==> r == 0
    ensures x >= U32Max as real ==> r == U32Max
    ensures 0.0 <= x < U32Max as real ==> r as real <= x < r as real + 1.0
  {
    if x <= 0.0 then 0 else if x >= U32Max as real then U32Max else x.Floor
  }

  function FlagOf(b: Option<bool>): bool {
    b.Some? && b.value
  }

  /** Resolves a configuration into options, field by field. */
  function ResolveOptions(c: Config): (o: Options)
    // base: a number converted to u32, 2 when missing; 0 is replaced by 2
    ensures 1 <= o.base <= U32Max
    ensures c.base.None? ==> o.base == 2
    ensures c.base.Some? ==> o.base == if ToU32(c.base.value) == 0 then 2 else ToU32(c.base.value)
    // round and spacer: their defaults depend on unix
    ensures c.round.None? ==> o.round == if o.unix then 1 else 2
    ensures c.round.Some? ==> o.round == ToU32(c.round.value)
    ensures c.spacer.None? ==> o.spacer == if o.unix then "" else " "
    ensures c.spacer.Some? ==> o.spacer == c.spacer.value
    // standard: "jedec" unless base is 2, then the caller's when given
    ensures o.base != 2 ==> o.standard == Jedec
    ensures o.base == 2 && c.standard.Some? ==> o.standard == c.standard.value
    ensures c.standard.None? ==> o.standard == Jedec
    // output: "string" when missing
    ensures o.output == if c.output.Some? then c.output.value else "string"
    // exponent: honoured only when non-negative
    ensures o.exponent.Some? <==> c.exponent.Some? && c.exponent.value >= 0
    ensures o.exponent.Some? ==> o.exponent.value == c.exponent.value
    // the flags are false unless set to true
    ensures o.bits <==> c.bits.Some? && c.bits.value
    ensures o.unix <==> c.unix.Some? && c.unix.value
    ensures o.fullform <==> c.fullform.Some? && c.fullform.value
  {
    var unix := FlagOf(c.unix);
    var base := ResolveBase(c.base);
    Options(
      base, FlagOf(c.bits), ResolveExponent(c.exponent), FlagOf(c.fullform),
      OrElse(c.fullforms, []), ResolveLocale(c.locale), OrElse(c.output, "string"),
      ResolveRound(c.round, unix), OrElse(c.separator, ""), OrElse(c.spacer, if unix then "" else " "),
      if base == 2 then OrElse(c.standard, Jedec) else Jedec,
      OrElse(c.symbols, map[]), unix)
  }

  /** The caller's value when given, the default otherwise. */
  function OrElse<T>(x: Option<T>, default: T): T {
    if x.Some? then x.value else default
  }

  /** `round`: the caller's number converted to u32, otherwise 1 digit under unix and 2 without. */
  function ResolveRound(x: Option<real>, unix: bool): (r: nat)
    ensures r <= U32Max
    ensures x.None? ==> 1 <= r <= 2 && (r == 1 <==> unix)
    ensures x.Some? && 0.0 <= x.value < U32Max as real ==> r as real <= x.value < r as real + 1.0
  {
    if x.Some? then ToU32(x.value) else if unix then 1 else 2
  }

  /** `exponent`: kept only when it is a non-negative number. */
  function ResolveExponent(x: Option<int>): (r: Option<nat>)
    ensures r.Some? <==> x.Some? && x.value >= 0
    ensures r.Some? ==> r.value == x.value
  {
    if x.Some? && x.value >= 0 then Some(x.value as nat) else None
  }

  /** `base`: a number converted to u32, 2 when missing, and 0 replaced by 2. */
  function ResolveBase(x: Option<real>): (b: nat)
    ensures 1 <= b <= U32Max
  {
    var b := if x.Some? then ToU32(x.value) else 2;
    if b == 0 then 2 else b
  }

  /** `locale`: a boolean switches the default locale on or off, a string names one, anything else is off. */
  function ResolveLocale(x: Option<LocaleArg>): (l: Locale)
    ensures l == Defined(false) <==> x.None? || x == Some(Flag(false))
    ensures l.Value? <==> x.Some? && x.value.Named?
    ensures l.Value? ==> l.name == x.value.name
  {
    match x
    case Some(Flag(b)) => Defined(b)
    case Some(Named(name)) => Value(name)
    case None => Defined(false)
  }

  /** Locale is off unless a boolean or a name was given; the remaining strings and collections default to empty. */
  lemma ResolveOtherFields(c: Config)
    ensures var o := ResolveOptions(c);
      && (c.locale.None? ==> o.locale == Defined(false))
      && (c.locale.Some? && c.locale.value.Flag? ==> o.locale == Defined(c.locale.value.on))
      && (c.locale.Some? && c.locale.value.Named? ==> o.locale == Value(c.locale.value.name))
      && o.separator == (if c.separator.Some? then c.separator.value else "")
      && o.symbols == (if c.symbols.Some? then c.symbols.value else map[])
      && o.fullforms == (if c.fullforms.Some? then c.fullforms.value else [])
  {
  }

  /** With nothing configured: binary base, bytes, JEDEC symbols, two decimals, one space. */
  lemma DefaultOptions()
    ensures ResolveOptions(NoConfig) ==
      Options(2, false, None, false, [], Defined(false), "string", 2, "", " ", Jedec, map[], false)
  {
  }
}
