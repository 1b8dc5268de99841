# Validated attributes and numeric intervals

A model of the attribute-validation layer of the probability simulator. It covers:

- The `Field` descriptor and its assignment pipeline: preprocess, type check, validators, store.
- `RealNumber` and its string-to-float coercion.
- The `Interval` type: its bracket/comma notation, the bound check made at construction, membership, and its rendering back to text.
- The two composed fields, `RealNumberWithinInterval` and `CallableField`.
- The helpers `is_callable` and `in_inclusive_range`.

Modules, in dependency order:

- `Wrappers` (`wrappers.dfy`): `Option` and `Result`.
- `ExtReals` (`ext_reals.dfy`): Python floats without NaN, as exact reals plus ±∞, with Python's `<` and `<=`.
- `Text` (`text.dfy`): `str.isspace`, `strip`, ASCII `lower`, `replace(" ", "")` and a first-occurrence search.
- `PyFloats` (`py_float.dfy`): the part of the built-in `float(str)` the core relies on. That is an optional sign, the words `inf`/`infinity` in any case, or a decimal numeral with an optional fraction, with the whitespace `float()` skips ignored around it. That whitespace is `str.isspace()` without the information separators U+001C to U+001F: CPython's `float()` turns non-ASCII whitespace into a blank and then skips only the blank, tab, line feed, vertical tab, form feed and carriage return. It returns `None` where Python raises ValueError.
- `Values` (`values.dfy`): the Python values the pipeline sees, the closed set of types a field may expect, `isinstance` and the three error kinds.
- `Fields` (`fields.dfy`): the field pipeline.
  - A field's settings are an immutable `FieldConfig`; Python never changes them after `__init__`.
  - The owning object's `__dict__` is the `map` field of class `Instance`.
  - Class `Field` has `Preprocess`, a loop proved against the left fold `ApplyPreprocessors`. Its `Set` and `Delete` update that map, and its `Get` reads it.
  - The pure function `Assign` gives the outcome of one assignment: the value that is stored, or the error that is raised.
  - `RealNumber` is the configuration its constructor builds.
- `Intervals` (`interval.dfy`): `IntervalBracket`; the regular expression of `extract_pattern_components` as a function with exact characterisations; `parse_number`; `Interval(definition)` as the partial function `Parse`; membership; `__repr__`.
- `Numbers` (`numbers.dfy`): `RealNumberWithinInterval`.
- `Functions` (`functions.dfy`): `CallableField`.
- `Utility` (`utility.dfy`): `is_callable` and `in_inclusive_range`.

An `Interval` is a value. Python assigns its attributes once in `__init__` and never changes them. Storing the two bounds through the `lower`/`upper` RealNumber descriptors is covered by a lemma: such a store always succeeds and keeps the value.

Where the code and its tests disagree, the model follows the code and records the difference under "## Findings". Each as-written behaviour has a member of its own, and a corrected member is used by the rest of the model. Both cases:

- Membership in an interval. As written it always raises. The corrected membership is what `RealNumberWithinInterval` uses.
- The tokens the interval pattern captures. As written they keep trailing blanks. The corrected tokens are stripped, which is what `Interval` parses.

## Model

| member | source | states |
|---|---|---|
| `Values.AsReal` | src/probability_simulator/validation/interval.py:104-120 | a value has a number to compare exactly when it is an instance of `numbers.Real` (bool, int or float) |
| `Values.IsInstance` | src/probability_simulator/validation/fields.py:92 | `isinstance` against the closed set of types, with `bool` a subclass of `int` and both registered as `numbers.Real`; tied to the field's type check by `Fields.ValidateType` and to comparison by `Values.AsReal` |
| `Values.Callable` | src/probability_simulator/utility.py:8 | the built-in `callable()`; `Functions.ValidateCallable` accepts exactly these values |
| `ExtReals.NotLtIsLe` | src/probability_simulator/validation/interval.py:79 | the float order is total: `a < b` fails exactly when `b <= a`, so rejecting `lower > upper` leaves `lower <= upper` |
| `ExtReals.LtIrreflexive` | src/probability_simulator/validation/interval.py:106-120 | no value is strictly below itself, so a closed end admits its bound |
| `Text.LStripSplit` | src/probability_simulator/validation/interval.py:88 | `lstrip` removes exactly a leading run of whitespace and leaves text that does not start with whitespace |
| `Text.RStripSplit` | src/probability_simulator/validation/interval.py:88 | `rstrip` removes exactly a trailing run of whitespace and leaves text that does not end with whitespace |
| `Text.StripSplit` | src/probability_simulator/validation/interval.py:88 | `strip` removes exactly the surrounding whitespace: the text is whitespace, the stripped text, whitespace |
| `Text.Strip` | src/probability_simulator/validation/interval.py:88 | `str.strip()`; `Text.StripSplit` states that it removes exactly the surrounding whitespace, and `Text.StripIdempotent` that a second strip changes nothing |
| `Text.LStripEmptyOnlyForSpace` | src/probability_simulator/validation/interval.py:88 | `lstrip` leaves nothing exactly when the text is all whitespace |
| `Text.LStripSkipsSpace` | src/probability_simulator/validation/interval.py:88 | whitespace put in front of a text does not change its `lstrip` |
| `Text.RStripSkipsSpace` | src/probability_simulator/validation/interval.py:88 | whitespace put after a text does not change its `rstrip` |
| `Text.StripFramed` | src/probability_simulator/validation/interval.py:88 | `strip` of a text framed by whitespace, with no whitespace at its own ends, is that text |
| `Text.StripIdempotent` | src/probability_simulator/validation/interval.py:88 | stripping twice is stripping once |
| `Text.StripOfLStrip` | src/probability_simulator/validation/interval.py:88 | `strip` after `lstrip` is `strip` |
| `Text.StripAllSpace` | src/probability_simulator/validation/interval.py:88 | all-whitespace text strips to the empty text |
| `Text.LowerStrip` | src/probability_simulator/validation/interval.py:88 | `strip` and `lower` commute |
| `Text.LowerIdempotent` | src/probability_simulator/validation/interval.py:88 | lowering twice is lowering once |
| `Text.Lower` | src/probability_simulator/validation/interval.py:88 | `str.lower()` on ASCII letters; `Text.LowerStrip` and `Text.LowerIdempotent` state that it commutes with `strip` and is idempotent, and `PyFloats.PyFloatIgnoresCase` that `float()` does not see it |
| `Text.RemoveBlanks` | src/probability_simulator/validation/fields.py:131 | `replace(" ", "")` leaves no blank, never lengthens the text, and changes nothing in text without blanks |
| `Text.RemoveBlanksAppend` | src/probability_simulator/validation/fields.py:131 | blanks are removed piece by piece: the result on a concatenation is the concatenation of the results |
| `Text.RemoveBlanksOfBlanks` | src/probability_simulator/validation/fields.py:131 | a run of blanks disappears entirely |
| `Text.IndexOf` | src/probability_simulator/validation/interval.py:56 | the position of the first occurrence of a character, or the length when it is absent |
| `PyFloats.Decimal` | src/probability_simulator/validation/interval.py:95-96 | an unsigned numeral that reads has at least one character and a non-negative value |
| `PyFloats.PyFloat` | src/probability_simulator/validation/interval.py:95-96 | `float()` succeeds only on text that is not all the whitespace it skips |
| `PyFloats.FloatStrip` | src/probability_simulator/validation/interval.py:95-96 | the text `float()` reads after skipping its own whitespace; `PyFloats.PyFloatIgnoresSurroundingSpace` states that this whitespace never matters, and `PyFloats.PyFloatRejectsSeparator` that an information separator is not skipped |
| `PyFloats.SignedFloat` | src/probability_simulator/validation/interval.py:95-96 | an optional sign before an unsigned numeral, `-` negating it; `PyFloats.SignedFloatIgnoresCase` states that case does not matter, and `PyFloats.InfinityWordsAgree` that signed infinity words read as the signed infinities |
| `PyFloats.UnsignedFloat` | src/probability_simulator/validation/interval.py:95-96 | the infinity words in any case, or a decimal numeral; `PyFloats.UnsignedFloatIgnoresCase` states that case does not matter, and `PyFloats.PyFloatOfDigits`/`PyFloats.PyFloatOfDecimal` give the value of a numeral |
| `PyFloats.PyFloatIgnoresSurroundingSpace` | src/probability_simulator/validation/interval.py:96 | `float()` gives the same result for any text with or without the whitespace it skips before and after it |
| `PyFloats.PyFloatRejectsSeparator` | src/probability_simulator/validation/fields.py:129-133 | text whose first character after the skipped whitespace is an information separator U+001C to U+001F is not a number, although `str.strip()` would remove that character |
| `PyFloats.PyFloatIgnoresCase` | src/probability_simulator/validation/interval.py:88-96 | `float()` gives the same result in any letter case, which makes `parse_number`'s `lower()` harmless |
| `PyFloats.DecimalIgnoresCase` | src/probability_simulator/validation/interval.py:88-96 | a decimal numeral reads the same in any letter case |
| `PyFloats.PyFloatOfDigits` | src/probability_simulator/validation/interval.py:95-96 | a run of digits reads as the integer it denotes |
| `PyFloats.PyFloatOfDecimal` | src/probability_simulator/validation/fields.py:131 | `ddd.fff` reads as its whole part plus its fraction |
| `PyFloats.PyFloatRejectsWord` | src/probability_simulator/validation/fields.py:130-133 | text without surrounding whitespace that starts with a letter other than `i` (the infinity words) and `n` (`nan`) is not a number |
| `Fields.ValidateType` | src/probability_simulator/validation/fields.py:73-96 | no expected type accepts everything; `None` is accepted exactly when allowed; any other value exactly when it is an instance of one of the expected types; the only error is TypeError |
| `Fields.ApplyPreprocessors` | src/probability_simulator/validation/fields.py:98-104 | the preprocessors folded from left to right; `Fields.ApplyPreprocessorsSnoc` and `Fields.ApplyPreprocessorsAppend` state the list order and the identity of the empty list, and `Fields.Field.Preprocess` is proved equal to it |
| `Fields.ApplyPreprocessorsSnoc` | src/probability_simulator/validation/fields.py:98-104 | the preprocessors run in list order: one more at the end is applied to the output of the others |
| `Fields.ApplyPreprocessorsAppend` | src/probability_simulator/validation/fields.py:98-104 | no preprocessors leave the value unchanged; a concatenated list runs the first part, then the second on its output |
| `Fields.Field.Preprocess` | src/probability_simulator/validation/fields.py:98-104 | the loop computes the left fold of the preprocessors over the value |
| `Fields.FirstFailure` | src/probability_simulator/validation/fields.py:118-119 | no error exactly when every validator accepts; otherwise the error is that of a validator all of whose predecessors accepted |
| `Fields.Validate` | src/probability_simulator/validation/fields.py:106-119 | the type check is skipped exactly when overridden; a type error is raised before any validator runs; otherwise the first failing validator decides |
| `Fields.Assign` | src/probability_simulator/validation/fields.py:60-64 | an assignment succeeds exactly when the preprocessed value passes validation; what is stored is the preprocessed value, which passes every check; a failure raises the error validation names |
| `Fields.Field.Set` | src/probability_simulator/validation/fields.py:60-64 | on success the field's name maps to the preprocessed value and every other key is unchanged; on failure the dictionary is unchanged |
| `Fields.Field.Get` | src/probability_simulator/validation/fields.py:55-58 | reading returns the stored value, or AttributeError when the name is not set |
| `Fields.Field.Delete` | src/probability_simulator/validation/fields.py:66-71 | deleting removes exactly the field's name, does nothing when it is absent and does nothing without an instance |
| `Fields.Field.constructor` | src/probability_simulator/validation/fields.py:26-39 | a field keeps the name and the settings it is built with |
| `Fields.PreprocessStrToReal` | src/probability_simulator/validation/fields.py:123-134 | only strings change; a string becomes a float exactly when `float()` accepts it with its blanks removed, and is otherwise returned as it was |
| `Fields.PreprocessStrToRealIdempotent` | src/probability_simulator/validation/fields.py:123-134 | coercing twice is coercing once |
| `Fields.PreprocessStrToRealKeepsWords` | src/probability_simulator/validation/fields.py:129-133 | a word between blanks that does not start like an infinity word or `nan` is kept unchanged |
| `Fields.PreprocessStrToRealDropsInnerBlanks` | src/probability_simulator/validation/fields.py:131 | blanks inside a numeral are dropped before it is read |
| `Fields.PreprocessStrToRealExamples` | tests/test_validator_field.py:85-112 | `" jjjj "` stays text and `"2. 00"` becomes 2.0 |
| `Fields.PreprocessStrToRealInfinities` | src/probability_simulator/validation/fields.py:129-131 | text that is a signed or unsigned infinity word in any case once its blanks are removed becomes -∞ when it starts with `-` and +∞ otherwise |
| `Fields.PreprocessStrToRealDropsBlanks` | src/probability_simulator/validation/fields.py:131 | blanks before, between and after two pieces of text do not change the coercion of the text they make |
| `Fields.PreprocessStrToRealPaddedPlusInf` | tests/test_validator_field.py:94 | `" +inf "` becomes +∞ |
| `Fields.PreprocessStrToRealPaddedMinusInf` | tests/test_validator_field.py:99 | `" - inf"` becomes -∞ |
| `Fields.PreprocessStrToRealInfinityWords` | tests/test_validator_field.py:95-96 | `"-INFINITY"` and `"-infinity"` become -∞ |
| `Fields.PreprocessStrToRealKeepsSeparated` | src/probability_simulator/validation/fields.py:129-133 | text that starts with an information separator is kept as it was, even when a numeral follows, because `float()` raises on it |
| `Fields.RealNumber` | src/probability_simulator/validation/fields.py:136-154 | the configuration a `RealNumber` is built with; `Fields.RealNumberCoercesFirst` and `Fields.RealNumberAssign` state what assigning through it does |
| `Fields.RealNumberCoercesFirst` | src/probability_simulator/validation/fields.py:144-147 | with `auto_convert`, an assignment is the one without it applied to the coerced value: the coercion runs before the caller's preprocessors |
| `Fields.RealNumberAssign` | src/probability_simulator/validation/fields.py:136-154 | after the optional coercion, `None` fails unless allowed, a non-real fails with TypeError, and a real is stored unless a validator fails |
| `Fields.RealNumberWithoutCoercionRejectsText` | src/probability_simulator/validation/fields.py:144-154 | with `auto_convert` off every string is rejected with TypeError |
| `Fields.RealNumberCoercesText` | src/probability_simulator/validation/fields.py:144-154 | with `auto_convert` on, numeric text is stored as its float and other text raises TypeError |
| `Fields.RealNumberStoresFloats` | src/probability_simulator/validation/fields.py:149-154 | every float, infinities included, is stored unchanged |
| `Intervals.BracketKinds` | src/probability_simulator/validation/interval.py:7-27 | each bracket is exactly one of left/right and one of open/closed, and the four characters are distinct |
| `Intervals.IntervalBracket.Char` | src/probability_simulator/validation/interval.py:7-11 | the character of each bracket kind; `Intervals.BracketKinds` states that the four are distinct |
| `Intervals.IntervalBracket.IsLeft` | src/probability_simulator/validation/interval.py:13-15 | the two left brackets; `Intervals.BracketKinds` states that each bracket is exactly one of left and right |
| `Intervals.IntervalBracket.IsRight` | src/probability_simulator/validation/interval.py:17-19 | the two right brackets; `Intervals.BracketKinds` states that each bracket is exactly one of left and right |
| `Intervals.IntervalBracket.IsClosed` | src/probability_simulator/validation/interval.py:21-23 | the two square brackets; `Intervals.BracketKinds` states that each bracket is exactly one of open and closed |
| `Intervals.IntervalBracket.IsOpen` | src/probability_simulator/validation/interval.py:25-27 | the two round brackets; `Intervals.BracketKinds` states that each bracket is exactly one of open and closed |
| `Intervals.ParsedFlagsFollowBrackets` | src/probability_simulator/validation/interval.py:67-71 | a built interval's definition starts with a left bracket kind and ends with a right bracket kind, and each end is closed exactly when that kind is closed |
| `Intervals.ParseFlags` | src/probability_simulator/validation/interval.py:70-71 | `left_closed` holds exactly when the left bracket is `[`, and `right_closed` exactly when the right bracket is `]` |
| `Intervals.GreedyToken` | src/probability_simulator/validation/interval.py:56 | a bound group captures a non-empty text that strips to the same text as the bound text |
| `Intervals.ExtractPatternComponents` | src/probability_simulator/validation/interval.py:49-65 | TypeError for a non-string, ValueError for text that does not match, and a match has a left bracket first and a right bracket last |
| `Intervals.MatchBracketed` | src/probability_simulator/validation/interval.py:55-62 | a failed match is ValueError; a match starts with `(`/`[` and ends with `)`/`]` |
| `Intervals.SplitAtComma` | src/probability_simulator/validation/interval.py:55-62 | the match keeps the two brackets it was given, and fails only with ValueError |
| `Intervals.SplitAtCommaOf` | src/probability_simulator/validation/interval.py:56 | text with one comma and legal bound texts splits at that comma |
| `Intervals.ExtractAcceptsShape` | src/probability_simulator/validation/interval.py:55-64 | every text of the pattern's shape matches, with the brackets and the captured bound texts as groups |
| `Intervals.ExtractOnlyShape` | src/probability_simulator/validation/interval.py:55-64 | only texts of the pattern's shape match |
| `Intervals.ExtractNeedsComma` | src/probability_simulator/validation/interval.py:55-62 | text without a comma raises ValueError |
| `Intervals.ExtractNeedsBrackets` | src/probability_simulator/validation/interval.py:55-62 | text not framed by the two kinds of bracket raises ValueError |
| `Intervals.ExtractNeedsLowerText` | src/probability_simulator/validation/interval.py:55-62 | a comma right after the left bracket raises ValueError |
| `Intervals.MissingBracketExamples` | tests/test_validate_interval.py:72-93 | `""`, `"1,2"`, `"[1,2"` and `"1,2]"` raise ValueError |
| `Intervals.MissingPartExamples` | tests/test_validate_interval.py:72-93 | `"[1 2]"` and `"[,]"` raise ValueError |
| `Intervals.TokensKeepTrailingBlanks` | src/probability_simulator/validation/interval.py:55-57 | as written, each captured bound keeps the whitespace after it |
| `Intervals.TokensOfPaddedDefinition` | tests/test_validate_interval.py:59 | as written, `"  [  -5 ,  10  )  "` captures `"-5 "` and `"10  "`, while the stripped tokens are `"-5"` and `"10"` |
| `Intervals.BoundTokens` | src/probability_simulator/validation/interval.py:64 | the corrected tokens: the same errors as the match, and bound texts with no surrounding whitespace |
| `Intervals.BoundTokensStripCaptured` | src/probability_simulator/validation/interval.py:64 | the corrected tokens are the captured tokens, stripped |
| `Intervals.RawTokensParseAlike` | src/probability_simulator/validation/interval.py:73-74 | the captured and the stripped tokens parse to the same bounds, so the trailing blanks never reach an Interval |
| `Intervals.ParseNumber` | src/probability_simulator/validation/interval.py:83-98 | the only error is ValueError |
| `Intervals.ParseNumberIsFloat` | src/probability_simulator/validation/interval.py:88-98 | `parse_number` returns what `float()` returns for the text `str.strip()` leaves, and raises exactly where `float()` does on that text; the infinity words are a shortcut only |
| `Intervals.ParseNumberStripsSeparators` | src/probability_simulator/validation/interval.py:88-96 | after an information separator, a run of digits parses as its value, because `str.strip()` removes the separator, while `float()` of the same text raises |
| `PyFloats.InfinityWordsAgree` | src/probability_simulator/validation/interval.py:90-93 | the words mapped to -∞ and +∞ are read by `float()` as the same infinities |
| `Intervals.ParseNumberIgnoresSpaceAndCase` | src/probability_simulator/validation/interval.py:88 | surrounding whitespace and letter case do not change the parsed bound |
| `Intervals.ParseNumberInfinities` | src/probability_simulator/validation/interval.py:88-93 | the five infinity words, in any case and with any surrounding whitespace, parse to -∞ when they start with `-` and to +∞ otherwise |
| `Intervals.ParseNumberOfDigit` | src/probability_simulator/validation/interval.py:95-96 | a single digit parses as its value |
| `Intervals.ParseNumberRejectsLetter` | src/probability_simulator/validation/interval.py:95-98 | a single lower-case letter raises ValueError |
| `Intervals.Parse` | src/probability_simulator/validation/interval.py:67-81 | TypeError for a non-string, ValueError otherwise, and every constructed interval has `lower <= upper` |
| `Intervals.Interval.Valid` | src/probability_simulator/validation/interval.py:76-81 | `lower <= upper`, which `Intervals.Parse` ensures of every interval it builds |
| `Intervals.ParseOfShape` | src/probability_simulator/validation/interval.py:67-81 | text of the pattern's shape gives ValueError when a bound is not a number or the bounds are reversed, and otherwise the interval of the parsed bounds with `[` and `]` closing their ends |
| `Intervals.ParseOnlyShape` | src/probability_simulator/validation/interval.py:67-81 | every constructed interval comes from text of the pattern's shape whose bound texts parse to its bounds and whose brackets give its flags |
| `Intervals.ParseUnitInterval` | tests/test_validate_interval.py:113-148 | `"[0,1]"`, `"(0,1)"`, `"[0,1)"` and `"(0,1]"` build the unit interval with the matching flags |
| `Intervals.ReversedDigitsRejected` | tests/test_validator_numbers.py:85-102 | reversed single-digit bounds such as `"[1,0]"` and `"(5,2)"` raise ValueError |
| `Intervals.LetterBoundsRejected` | tests/test_validator_numbers.py:85-102 | letter bounds such as `"[a,b]"` raise ValueError |
| `Intervals.BoundFieldsStoreParsedBounds` | src/probability_simulator/validation/interval.py:46-47 | storing the parsed bounds in the `lower`/`upper` RealNumber fields succeeds and keeps them |
| `Intervals.BoundField` | src/probability_simulator/validation/interval.py:46-47 | the `lower`/`upper` descriptors: a `RealNumber` with default settings; `Intervals.BoundFieldsStoreParsedBounds` states that parsed bounds are stored unchanged |
| `Intervals.Interval.Render` | src/probability_simulator/validation/interval.py:124-127 | the text starts with `[` exactly when the left end is closed and ends with `]` exactly when the right end is closed |
| `Intervals.RenderRoundTrip` | src/probability_simulator/validation/interval.py:124-127 | rendering with a printer whose bound texts read back as the bounds gives text that parses to the same interval |
| `Intervals.BlankBeforeBound` | src/probability_simulator/validation/interval.py:127 | the blank written after the comma does not change the bound read back |
| `Intervals.ContainsIff` | src/probability_simulator/validation/interval.py:104-122 | a closed end compares non-strictly and an open end strictly |
| `Intervals.Interval.Contains` | src/probability_simulator/validation/interval.py:104-122 | the early-return comparisons of `__contains__`; `Intervals.ContainsIff` gives their normal form, and `Intervals.Endpoints` and `Intervals.ClosingKeepsMembers` their consequences |
| `Intervals.ContainsBetweenBounds` | src/probability_simulator/validation/interval.py:104-122 | a member lies between the bounds |
| `Intervals.Endpoints` | src/probability_simulator/validation/interval.py:104-122 | an open end excludes its bound; a closed end includes it exactly when the other end admits it |
| `Intervals.ClosingKeepsMembers` | src/probability_simulator/validation/interval.py:104-122 | closing either end, or both, never loses a member |
| `Intervals.InfiniteBoundsAdmitFinite` | src/probability_simulator/validation/interval.py:104-122 | an infinite bound lets every finite number past that end |
| `Intervals.DegenerateOpenIsEmpty` | src/probability_simulator/validation/interval.py:76-122 | equal bounds with an open end admit nothing, though construction accepts them |
| `Intervals.ContainsValueIff` | src/probability_simulator/validation/interval.py:100-102 | the corrected guard: only real numbers can be members, each compared as its number |
| `Intervals.Interval.ContainsValue` | src/probability_simulator/validation/interval.py:100-122 | the corrected `__contains__`, with `isinstance(value, numbers.Real)` as guard; `Intervals.ContainsValueIff` states that the members are exactly the reals that pass the comparisons |
| `Intervals.UnitIntervalMembership` | tests/test_validate_interval.py:113-130 | 0 and 1 are members exactly when their end is closed; 0.5 is a member; -0.1 and 1.1 are not |
| `Intervals.ContainsAsWritten` | src/probability_simulator/validation/interval.py:100-122 | as written, every membership test raises TypeError |
| `Intervals.ContainsAsWrittenRaises` | src/probability_simulator/validation/interval.py:101 | as written, a value that is a member by the comparisons still raises TypeError |
| `Intervals.ZeroInUnitInterval` | tests/test_validate_interval.py:117 | `0 in Interval("[0,1]")` is true by the comparisons and raises TypeError as written |
| `Numbers.ResolveInterval` | src/probability_simulator/validation/numbers.py:14-20 | a string is parsed, an interval object is taken as it is, and any other value raises TypeError |
| `Numbers.RealNumberWithinInterval` | src/probability_simulator/validation/numbers.py:7-33 | the field expects a real number, disallows `None`, keeps the type check and has exactly one validator |
| `Numbers.InIntervalValidator` | src/probability_simulator/validation/numbers.py:22-27 | `validate_num_in_interval` over the corrected membership; `Numbers.WithinIntervalAssign` states that a real outside the interval raises ValueError |
| `Numbers.WithinIntervalConfig` | src/probability_simulator/validation/numbers.py:29-33 | the `RealNumber` configuration the constructor builds, with `None` disallowed and the one validator; `Numbers.WithinIntervalAssign`, `Numbers.RejectsNone` and `Numbers.CoercesTextBeforeRangeCheck` state what assigning through it does |
| `Numbers.ConstructionOutcome` | src/probability_simulator/validation/numbers.py:14-20 | the field exists exactly when its definition string builds an interval; a malformed or reversed definition raises ValueError at construction; a non-string that is not an interval raises TypeError |
| `Numbers.WithinIntervalAssign` | src/probability_simulator/validation/numbers.py:22-33 | after the optional coercion, a non-real raises TypeError, a real outside the interval raises ValueError, and a real inside is stored as it is |
| `Numbers.RejectsNone` | src/probability_simulator/validation/numbers.py:29-33 | `None` always raises TypeError, before the interval check |
| `Numbers.EndpointAssignments` | src/probability_simulator/validation/numbers.py:22-27 | a value at an open end raises ValueError; one at a closed end is stored whenever the other end admits it |
| `Numbers.CoercesTextBeforeRangeCheck` | src/probability_simulator/validation/numbers.py:29-33 | by default numeric text is coerced first, then stored when in the interval and rejected with ValueError when not; other text raises TypeError |
| `Numbers.AssignWithinUnitInterval` | src/probability_simulator/validation/numbers.py:22-33 | through a field on `[0,1]`, a value inside is stored under the field's name, and one outside raises ValueError and leaves the attributes unchanged |
| `Numbers.AsWrittenRejectsEveryAssignment` | src/probability_simulator/validation/numbers.py:23 | as written, every assignment to the field raises TypeError |
| `Numbers.InIntervalValidatorAsWritten` | src/probability_simulator/validation/numbers.py:22-27 | the validator over the as-written `__contains__`; `Numbers.AsWrittenRejectsEveryAssignment` states that every assignment through it raises TypeError |
| `Functions.ValidateCallable` | src/probability_simulator/validation/functions.py:17-22 | accepts exactly the callables; anything else raises TypeError |
| `Functions.CallableField` | src/probability_simulator/validation/functions.py:8-15 | the configuration `CallableField` builds; `Functions.CallableFieldAssign` states that it stores exactly the callables, unchanged |
| `Functions.CallableFieldAssign` | src/probability_simulator/validation/functions.py:8-15 | the field stores exactly the callables, unchanged, whatever `allow_none` says, and raises TypeError for everything else |
| `Functions.NoneRejectedEvenWhenAllowed` | src/probability_simulator/validation/functions.py:8-15 | `None` raises TypeError even with `allow_none=True` |
| `Functions.AnyArityAccepted` | src/probability_simulator/validation/functions.py:17-22 | acceptance does not depend on the number of parameters |
| `Utility.IsCallable` | src/probability_simulator/utility.py:6-8 | true exactly for the values the callable check accepts |
| `Utility.IsCallableExamples` | src/probability_simulator/tests/test_validate_fn.py:7-12 | functions of any arity are callable; numbers and strings are not |
| `Utility.InInclusiveRangeIff` | src/probability_simulator/utility.py:11-27 | the check holds exactly when each bound that is present is respected |
| `Utility.InInclusiveRange` | src/probability_simulator/utility.py:11-27 | the if/elif chain of `in_inclusive_range`; `Utility.InInclusiveRangeIff` gives its normal form, and `Utility.WideningKeepsPass` its monotonicity |
| `Utility.ReversedBoundsAdmitNothing` | src/probability_simulator/utility.py:27 | a minimum above the maximum admits no count |
| `Utility.WideningKeepsPass` | src/probability_simulator/utility.py:18-27 | lowering the minimum, raising the maximum or dropping a bound never turns a pass into a failure |

## Left out

- Python's `float()` is modelled only for an optional sign, `inf`/`infinity` and decimal numerals with an optional fraction. Exponents, digit-group underscores and `nan` are not modelled, so `parse_number("nan")` and `"1e3"` read as errors here. Non-ASCII decimal digits, such as Arabic-Indic digits, which `float()` also accepts, read as errors here too.
- Floats are exact reals: IEEE rounding, NaN and signed zero are not modelled, and neither are the tests' `rel_tol` comparisons.
- `Text.Lower` lowers ASCII letters only. Python's `str.lower()` also folds other scripts; only ASCII letters matter to the numerals and infinity words read here.
- `Intervals.Interval.Render` takes the printer of a bound as a parameter: Python's float `repr` text is not modelled.
- `Intervals.Interval.ContainsValue` states the membership the tests expect, with `isinstance(value, numbers.Real)` as the guard. The code as written raises there (see Findings).
- `Intervals.Parse` drops the `is not None` tests at src/probability_simulator/validation/interval.py:77-78. They are always true: `parse_number` never returns `None`, and the bound fields reject it. The same holds for the `is not None` tests at lines 105 and 114 in `Interval.Contains`.
- Interval objects are values. The one-time assignments in `__init__` are shown to succeed by `Intervals.BoundFieldsStoreParsedBounds`, not replayed as updates of an object.
- `Numbers.ResolveInterval` accepts an interval object as it is, as the code does. An interval built outside `Parse` is not re-checked for `lower <= upper`.
- `__set_name__` and the class-level `__get__` that returns the descriptor itself (src/probability_simulator/validation/fields.py:41-43, 52-53) are Python's descriptor protocol. The field's name is passed to its constructor instead.
- `isinstance` on arbitrary classes and `typing.Callable`: the expected types are a closed set of tags, and being callable is one of the value shapes. Python's `bool`/`int`/`float` subclassing of `numbers.Real` is modelled.
- The text of the error messages: only the kind of error (TypeError, ValueError, AttributeError) is modelled.
- `Fields.DeleteScenario` replays the delete test as a method with assertions and states nothing of its own.
- `coin_flips.py` draws from numpy's random generator and is not part of this model. `validation/__init__.py` only re-exports names. The `__main__` block of `utility.py` is a script that inspects a signature.

## Findings

| source | as written | input that shows it | evidently intended | confidence | as-written member | corrected member |
|---|---|---|---|---|---|---|
| src/probability_simulator/validation/interval.py:101 | `isinstance(value)` is called with one argument, which raises TypeError, so every membership test raises and every assignment to a `RealNumberWithinInterval` field fails | `0 in Interval("[0,1]")`; assigning `0.5` to a field on `"[0,1]"` | `isinstance(value, numbers.Real)`: reals are compared with the bounds and other values are not members | not executed | `Intervals.ContainsAsWritten`, `Intervals.ZeroInUnitInterval`, `Numbers.AsWrittenRejectsEveryAssignment` | `Intervals.Interval.ContainsValue`, `Intervals.ContainsIff`, `Numbers.WithinIntervalAssign` |
| src/probability_simulator/validation/interval.py:55-57 | the greedy `[^,]+` and `[^,\]]+` groups keep the whitespace that follows a bound, so `extract_pattern_components` returns padded tokens | `"  [  -5 ,  10  )  "` gives `"-5 "` and `"10  "`; the tests expect `"-5"` and `"10"` | the bound tokens without surrounding whitespace; parsing is unaffected because `parse_number` strips | not executed | `Intervals.TokensKeepTrailingBlanks`, `Intervals.TokensOfPaddedDefinition` | `Intervals.BoundTokens`, `Intervals.RawTokensParseAlike` |
