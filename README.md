# dessert-filesize-core in Dafny

A model of the core of `dessert-filesize-core`, a WebAssembly library that turns a byte
count into readable text such as `"4.88 KiB"` or `"3.91 Kb"`. It is a port of the
JavaScript `filesize` package. The core is the single exported call
`filesize(arg, descriptor)` together with its option resolver `get_options`.

The library works in stages, and the model keeps them:

1. **Reading the argument.** A number is taken as it is. A string is parsed, and a
   string that is not a number is the `InvalidNumber` failure (`Filesize.ReadArg`).
   The sign is remembered and the magnitude carried on.
2. **Resolving options** (`Options.ResolveOptions`). Each field of the configuration
   object is read on its own and falls back to a default when missing or mistyped:
   - `base` 2, `round` 2 (1 under `unix`), spacer `" "` (empty under `unix`);
   - standard `jedec`, which is only read when `base` is 2;
   - output `"string"`;
   - an exponent only when it is non-negative.
   `base` and `round` go through Rust's saturating `as u32`.
3. **The tier** (`Filesize.Tier`, method `Filesize.ComputeTier`). This is the explicit
   exponent, or floor(log num / log ceil) with ceil 1000 above base 2 and 1024
   otherwise. It is clamped to 0..8. Output `"exponent"` returns the tier itself.
4. **Scaling and rounding** (`Filesize.Measure`; methods `Filesize.ScaleValue` and
   `Filesize.CollapseSuffix`). This stage:
   - divides by 1024^e (base 2) or 1000^e;
   - for bits, multiplies by 8 and carries one tier up past the ceiling;
   - rounds half-up to `round` fraction digits (none at tier 0), as `toFixed` does,
     and parses that text back;
   - picks the symbol (`kB`/`kb` for base 10 at tier 1);
   - under `unix`, shortens the symbol to one letter (JEDEC) or drops the final `B`
     (IEC), and clears a bare `b`/`B`.
   A zero value skips all of this and keeps the tier's plain symbol.
5. **Presentation** (`Filesize.Shape`, method `Filesize.Present`). This stage:
   - restores the sign and applies a custom symbol from `symbols`, looked up by the suffix
     as the unix step left it;
   - renders the value text: host locale, or Rust's float text with `.` replaced by a
     non-empty `separator`. The host throws on a locale tag it does not support, and
     that is the `LocaleRejected` failure. The text is rendered before any shape is
     chosen, so the failure reaches the array shape too;
   - returns `[value, symbol]` for output `"array"`;
   - otherwise replaces the symbol by a full name when `fullform` is set;
   - then returns `{value, symbol}` for output `"object"`, or the text
     `value + spacer + symbol`.

The method `Filesize.Filesize` performs these steps one after another. It is proved
equal to the functional specification `Filesize.Format`, and the properties are proved
about `Format`.

Numbers are exact decimals (`Decimals.Decimal`: sign, integer digits, decimal places). A
decimal literal, `toFixed` text and Rust's float `Display` are therefore all exact; see
"Left out" for what this does not cover.

## Model

| member | source | states |
|---|---|---|
| Units.SymbolRow | src/lib.rs:63-81 | each standard has a row of nine symbols for bits and for bytes, one per tier |
| Units.Symbol | src/lib.rs:69-77 | a tier's symbol ends in `b` (bits) or `B` (bytes) and is that letter alone exactly at tier 0; JEDEC symbols start with the tier letter `KMGTPEZY`; IEC symbols above tier 0 are letter, `i`, unit |
| Units.Prefix | src/lib.rs:82-97 | the full-name prefix is empty exactly at tier 0 |
| Options.ToU32 | src/lib.rs:113 | `as u32` truncates toward zero and saturates: below 1 gives 0, at or above 2^32-1 gives 2^32-1, otherwise the integer part |
| Options.ResolveBase | src/lib.rs:112-118 | the resolved base lies in 1..2^32-1 (0 is replaced by 2) |
| Options.ResolveRound | src/lib.rs:120-130 | round is a u32: the integer part of the caller's number, or 1 under unix and 2 otherwise when none is given |
| Options.ResolveExponent | src/lib.rs:203-218 | an exponent is kept exactly when it is given and non-negative, and then unchanged |
| Options.ResolveLocale | src/lib.rs:132-141 | locale rendering is off exactly when `locale` is missing, mistyped or `false`; a string names the locale |
| Options.ResolveOptions | src/lib.rs:100-235 | each field's default and conversion: base (missing gives 2, 0 gives 2), round and spacer defaults tied to unix, standard read only when base is 2, output defaults to "string", exponent kept iff non-negative, flags true only when set to true |
| Options.ResolveOtherFields | src/lib.rs:132-201 | locale is a flag or a name and off when missing; separator, symbols and fullforms default to empty |
| Options.DefaultOptions | src/lib.rs:100-235 | an empty configuration resolves to base 2, bytes, JEDEC, round 2, spacer " ", output "string", no exponent |
| Decimals.Magnitude | src/lib.rs:258 | the absolute value of the argument is never negative |
| Decimals.MagnitudeZero | src/lib.rs:278 | the magnitude is zero exactly when the digits are all zero, so the zero test is a test on the digits |
| Decimals.Negate | src/lib.rs:341-343 | negation flips the sign and keeps the digits, so the real value is negated |
| Decimals.RoundHalfUp | src/lib.rs:307-309 | `toFixed` with f places picks the nearest multiple of 10^-f, halves rounded up |
| Decimals.RoundingError | src/lib.rs:307-309 | the rounded value has at most f fraction digits (it lies on the 10^-f grid) and is within half a unit in the last place of the exact value |
| Decimals.RoundingUnique | src/lib.rs:307-309 | only one value on the 10^-f grid lies within half a unit of x, so the two properties above pin the rounded value |
| Decimals.ToFixed | src/lib.rs:309 | `toFixed(f)` writes digits only for f = 0, and otherwise a point followed by exactly f digits |
| Decimals.ParseToFixed | src/lib.rs:309-326 | parsing the `toFixed` text gives back exactly the rounded decimal (round trip of `to_fixed` and `parse`) |
| Decimals.Parse | src/lib.rs:241-245 | a string that parses is non-empty and gives a negative value exactly when it starts with "-" |
| Decimals.ParseUnsigned | src/lib.rs:326 | an unsigned literal that parses is non-empty and takes the sign it is given |
| Decimals.Normalize | src/lib.rs:360 | dropping trailing fraction zeros keeps the sign, never adds places and leaves no trailing zero after the point |
| Decimals.NormalizeValue | src/lib.rs:360 | dropping trailing fraction zeros keeps the real value |
| Decimals.Show | src/lib.rs:360 | Rust's float text is non-empty and starts with "-" exactly for a negative value (negative zero included) |
| Decimals.ParseShow | src/lib.rs:360 | parsing Rust's float text of a value gives a decimal of the same real value (round trip of `to_string` and `parse`) |
| Decimals.ShowNegate | src/lib.rs:341-360 | the text of a negated non-negative value is "-" followed by the text of the value |
| Decimals.ShowIsOne | src/lib.rs:379 | the float text is "1" exactly when the value is 1 (so -1 and 1.5 are not) |
| Decimals.ReplaceDotNoDot | src/lib.rs:358 | replacing `.` changes nothing in a text without `.` |
| Decimals.ReplaceDot | src/lib.rs:358 | with a non-empty separator the text never gets shorter, and with a separator free of points no point is left |
| Decimals.ReplaceDotAtPoint | src/lib.rs:358 | in a text with one point, the separator takes the point's place: "a.b" becomes a + separator + b |
| Decimals.ReplaceDotIsOne | src/lib.rs:357-358 | with a non-empty separator the text is "1" exactly when the value is 1 |
| Filesize.Ceil | src/lib.rs:253 | the ceiling is at least 2 |
| Filesize.Divider | src/lib.rs:292-296 | the divisor is at least 1 |
| Filesize.LogFloor | src/lib.rs:263-266 | floor(log_c n): c^k <= n < c^(k+1) for n >= 1, and 0 below c |
| Filesize.Tier | src/lib.rs:260-272 | the tier is at most 8; an explicit exponent is used, clamped to 8; otherwise ceil^e <= num (or e is 0) and num < ceil^(e+1) unless clamped |
| Filesize.TierIsLargest | src/lib.rs:260-272 | the computed tier is the largest k <= 8 with ceil^k <= num |
| Filesize.Scale | src/lib.rs:292-305 | the scaled value is num / divider for bytes and 8 · num / divider for bits, divided once more by the ceiling on a carry; the tier moves up by one exactly when bits are on, 8 · num / divider reaches the ceiling and the tier is below 8 |
| Filesize.Places | src/lib.rs:308-309 | no fraction digits at tier 0; above it `round` wrapped by `as u8` (round mod 256, so 300 gives 44) |
| Filesize.SuffixFor | src/lib.rs:310-324 | the suffix ends in the unit letter; it is "kb"/"kB" for base 10 at tier 1 and the table's symbol otherwise |
| Filesize.UnixCollapse | src/lib.rs:327-338 | the unix suffix is a prefix of the original and never a bare "b"/"B"; JEDEC keeps at most the first letter; IEC drops a final `B` above tier 0; a bare unit is cleared |
| Filesize.RenderIsOne | src/lib.rs:352-361 | with locale off, the rendered text is "1" exactly when the value is 1 |
| Filesize.FinalTier | src/lib.rs:299-305 | the tier after the bit carry is still at most 8 |
| Filesize.Measure | src/lib.rs:278-339 | the numeric stages fail exactly when the value is non-zero and the fraction digits exceed 100, and then with a precision error; on success the tier is the final tier and the value is unsigned, and a non-zero value has exactly `Places` fraction digits for that tier (so none at tier 0); zero gives value 0 with the plain symbol (empty under unix); otherwise the suffix is the symbol at the carried tier ("kb"/"kB" rule included), unix-collapsed under unix |
| Filesize.ComputeTier | src/lib.rs:260-272 | the method computes the specified tier |
| Filesize.ScaleValue | src/lib.rs:292-305 | the method computes the specified scaled value and carried tier |
| Filesize.CollapseSuffix | src/lib.rs:327-338 | the method computes the specified unix suffix |
| Filesize.Present | src/lib.rs:341-392 | the method fails exactly when the host refuses the locale tag, and otherwise builds the specified output shape from tier, sign, value and suffix |
| Filesize.ReadArg | src/lib.rs:241-249 | a number argument is always readable; a string that parses gives a value that is negative exactly when the string starts with "-" |
| Filesize.LocaleTag | src/lib.rs:353-356 | rendering uses a host locale tag exactly when `locale` is not `false` |
| Filesize.Signed | src/lib.rs:341-343 | putting the sign back keeps the magnitude; a non-negative value ends up negative exactly when the argument was |
| Filesize.FullName | src/lib.rs:370-382 | the caller's entry for the tier is used as given; without one the name starts with the tier's prefix and ends in "s" exactly when the text is not "1"; at tier 0 it is "bit"/"byte" with that plural |
| Filesize.Shape | src/lib.rs:363-392 | the shape is the array exactly for output "array" and the object exactly for "object", never the exponent; both carry the signed value itself |
| Filesize.Format | src/lib.rs:238-393 | a success needs a readable argument, and its shape is the exponent, array or object exactly for output "exponent", "array" or "object" |
| Filesize.Filesize | src/lib.rs:238-393 | the whole call returns the specified result for every argument, configuration and locale renderer |
| FilesizeProperties.BaseOneMixesCeilings | src/lib.rs:253-296 | with base 1 the tier is chosen against 1024 but the value is divided by 1000^e, and the standard is JEDEC |
| FilesizeProperties.ExponentShortCircuit | src/lib.rs:274-276 | output "exponent" returns only the tier: it fails only on an unreadable argument and ignores sign, naming options and the locale renderer |
| FilesizeProperties.ZeroInput | src/lib.rs:278-290 | for array output without `symbols`, zero gives value 0 with the tier's plain symbol (empty under unix), and tier 0 unless an exponent is given; only a refused locale tag makes it fail |
| FilesizeProperties.ScalingReads | src/lib.rs:253-305 | tier and scaling depend only on base, bits and exponent |
| FilesizeProperties.MeasureReads | src/lib.rs:278-339 | the numeric stages depend only on base, bits, exponent, round, standard and unix |
| FilesizeProperties.ArrayIgnoresNaming | src/lib.rs:352-368 | array output is unaffected by fullform, fullforms, spacer and separator, and by the locale except for whether the host refuses its tag (the text is rendered before the array return) |
| FilesizeProperties.FullformPlural | src/lib.rs:370-392 | with `fullform`, for object and string output and any locale, the name is the caller's entry for the tier, else prefix + "bit"/"byte" + "s", with no "s" exactly when the rendered text is "1"; the string is that text, spacer and name |
| FilesizeProperties.FullformPluralValue | src/lib.rs:352-382 | for object output with locale off, the plural follows the value: no "s" exactly when the value is 1 |
| FilesizeProperties.FormatErrors | src/lib.rs:241-356 | the call fails with InvalidNumber exactly on an unreadable string; with PrecisionOutOfRange exactly when a non-zero value needs more than 100 fraction digits; with LocaleRejected exactly when neither happened, the output is not "exponent" and the host refuses the locale tag; with default round the precision error never happens |
| FilesizeProperties.SignSymmetry | src/lib.rs:341-343 | for array output, negating the input negates the value and keeps the symbol and the errors |
| FilesizeProperties.ShapeSign | src/lib.rs:341-392 | for the string shape (any output other than "array" and "object") with locale off and no full names, the text of a negative value is "-" before the text of its magnitude |
| FilesizeProperties.ShapeString | src/lib.rs:392 | for any output other than "array" and "object", without full names, the result is value text, spacer, suffix |
| FilesizeProperties.SignedText | src/lib.rs:352-361 | with locale off, rendering a negated value prefixes "-" |
| FilesizeProperties.StringSign | src/lib.rs:341-392 | for any output other than "exponent", "array" and "object", with locale off and no full names, negating the input prefixes "-" to the text and keeps the errors |
| FilesizeProperties.UnixKeepsMeasuredValue | src/lib.rs:327-338 | the unix step changes only the suffix, not the value or tier |
| FilesizeProperties.UnixKeepsValue | src/lib.rs:327-338 | with round given, unix on or off gives the same array value (only the symbol differs) |
| FilesizeProperties.UnixClearedIsWhole | src/lib.rs:334-336 | a suffix cleared under unix only happens at tier 0 or for zero, where the value has no fraction digits |
| FilesizeProperties.CollapseClearsTierZero | src/lib.rs:327-337 | above tier 0 the unix collapse always leaves a letter |
| FilesizeProperties.MeasureRounding | src/lib.rs:307-326 | the measured value has `Places` fraction digits and is within half a unit in the last place of the scaled value, which makes it the rounded value |
| FilesizeProperties.ArrayValueRounding | src/lib.rs:307-368 | the array value has `Places` fraction digits and is within half a unit in the last place of the scaled value, which makes it the rounded value |
| FilesizeProperties.SymbolOverride | src/lib.rs:346-348 | the array symbol is the custom symbol when the suffix, after the unix collapse, is a key of `symbols`, and the suffix itself otherwise |
| FilesizeProperties.StringArgument | src/lib.rs:241-247 | a string argument gives exactly the result of the number it spells |
| FilesizeProperties.RenderReadsBack | src/lib.rs:352-361 | with locale off and no separator the text parses back to the displayed value; with a separator free of points no point is left |
| FilesizeExamples.NoOptions | tests/web.rs:14-20 | 500 with no descriptor is "500 B" |
| FilesizeExamples.WideSpacer | tests/web.rs:32-38 | 500 with spacer "   " is "500   B" |
| FilesizeExamples.Bits | tests/web.rs:40-46 | 500 with bits is "3.91 Kb" |
| FilesizeExamples.Exponent | tests/web.rs:48-54 | 500000000 with exponent 2 is "476.84 MB" |
| FilesizeExamples.DecimalKilo | src/lib.rs:310-315 | 5000 with base 10 is "5 kB" |
| FilesizeExamples.IecKibi | src/lib.rs:69-70 | 5000 with the IEC standard is "4.88 KiB" |
| FilesizeExamples.SeparatorKibi | src/lib.rs:357-358 | 5000 with the IEC standard and separator "," is "4,88 KiB" |
| FilesizeExamples.LocaleSingular | src/lib.rs:353-379 | a host that renders 1.0004 as "1" makes 1.0004 kilobytes (round 4, exponent 1, fullform) read "1 kilobyte" |
| FilesizeExamples.UnixKilo | src/lib.rs:327-329 | 5000 with unix is "4.9K" |
| FilesizeExamples.UnixOverride | src/lib.rs:327-348 | with unix, 5000 and `symbols` {"K": "KiB"} give "4.9KiB", while a key "KB" has no effect ("4.9K") |
| FilesizeExamples.UnixBytes | src/lib.rs:334-336 | 500 with unix is "500" |
| FilesizeExamples.ExponentOutput | src/lib.rs:274-276 | 5000 with output "exponent" is tier 1 |
| FilesizeExamples.NegativeString | src/lib.rs:241-249 | the string "-500" gives "-500 B" |

## Left out

- NaN and infinities are not modelled. A non-number argument, which the source turns into NaN, is therefore not modelled either.
- Filesize.Tier: uses the exact floor of log_c(num), not the floating-point `Math.log` quotient. Near exact powers of the ceiling the two can differ.
- Decimals.RoundHalfUp: rounds the exact decimal. It does not model binary floating-point rounding in `toFixed`, in the division by the divider, or in `parse`.
- Decimals.Show: writes plain digits. Rust's float display of values beyond f64 precision is not modelled.
- `toFixed` switches to exponent notation for values of 1e21 and above; that is not modelled.
- Decimals.Parse: accepts plain decimal literals only. Exponent notation, `inf` and `nan` strings are not modelled.
- Options.Config: the exponent is an integer, so a fractional explicit exponent is not modelled. The source keeps such an exponent unrounded in the divisor (`pow(2, 10e)`, `pow(1000, e)`), in the tests `e > 0` and `e == 1`, and in the value returned for output "exponent". It truncates the exponent only when indexing the tables.
- Options.Config: the standard is `iec` or `jedec`. With base 2, any other string makes the source panic once it indexes a symbol or name table (src/lib.rs:283, 317 and 376); that panic is not modelled. With another base the caller's standard is never read. Output "exponent" returns before any lookup. A zero value under unix without full names never indexes a table.
- The JavaScript interop is left out: reading fields with `get!`, serde decoding of `symbols` and `fullforms`, and building the returned `JsValue`. A field that is missing or of the wrong type is a `None`.
- The panic hook, the allocator and the console bindings are left out.
- Locale rendering (`toLocaleString`) is host code. The model takes it as a parameter: the rendering function, and the set of locale tags the host supports. The function is given the value without trailing fraction zeros, since the host sees only the float. Which tags a real host supports is not modelled.
- The array and object values are real numbers, so both lose the sign of a negative zero.
- Filesize.Ceil: its contract states only the bound the tier computation needs. Its value (1000 above base 2, 1024 otherwise) is fixed by its definition and by the examples.
- Filesize.Divider: its contract states only that the divisor is positive. Its value is fixed by its definition and by the examples.
- The unix branch calls `res.floor()` and discards the result, so the value is not floored. The model follows the code. FilesizeProperties.UnixClearedIsWhole shows that the floor would not change the value anyway.
