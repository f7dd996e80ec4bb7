# Deterministic chart colours

This project models the colour-mapping core of a chart rendering service.

A chart series label is mapped to a hex colour by an ordered cascade:

1. A blank label gets the first palette colour.
2. `null`, `undefined` and `unknown` get gray.
3. HTTP status codes and `2xx`..`5xx` class tokens use the status tables.
4. Percentile and aggregate names use the percentile table.
5. Labels containing a log-level word use the log-level table.
6. Anything else is hashed into a 20-colour palette.

The batch operation `applySeriesColors` colours the series of a chart's options in place. It uses the dataset's header row: it either builds one bar series per header column after the first, the timestamp column, or fills in the colour of every existing series that has none. The widget and aggregation enums of the request and the prefix shown for a summary value are modelled too.

Modules:

- **`Wrappers`** (`wrappers.dfy`): `Option`.
- **`JsNumber`** (`js_number.dfy`): ECMAScript ToInt32, `<< 5` and `Math.abs` over unbounded integers.
- **`JsString`** (`js_string.dfy`): the string operations the core uses, namely:
  - `toLowerCase` and `trim`;
  - `includes`;
  - `parseInt(_, 10)`, with `None` standing for `NaN`;
  - `${n}` for naturals;
  - the UTF-16 code units `charCodeAt` reads.
- **`ColorMapping`** (`color_mapping.dfy`):
  - the four tables;
  - hashString, getStatusCodeColor, getPercentileColor, getLogLevelColor and getSeriesColor as specification functions;
  - the source's loops as methods proved equal to them.
- **`ColorProperties`** (`color_properties.dfy`): what the cascade guarantees, with concrete labels.
- **`SeriesColors`** (`series_colors.dfy`):
  - applySeriesColors, as a class whose method updates the `series` field in place;
  - the specification function the method is proved against;
  - the lemmas about that function.
- **`Types`** (`types.dfy`): WidgetType, SummarizeBy, their defaults and summarizeByPrefix.

Design decisions:

- **Labels.** A label is a Dafny `string`, a sequence of Unicode scalar values. The hash folds over the UTF-16 code units of the label, as `charCodeAt` does, so a character above U+FFFF contributes its two surrogates.
- **The hash.** The source's step `((h << 5) - h) + c` followed by `h & h` is modelled twice:
  - literally, inside `HashString`;
  - as `ToInt32(31 * h + c)`, inside `HashFold`.

  `ShiftStepIsTimes31` proves the two agree. `Math.abs` of the int32 minimum is 2^31, which is written out: `Hash` is bounded by 2^31, and `HashReachesTwoTo31` shows the bound is reached.
- **The dataset source.** A missing `dataset.source` and a non-array one take the same early return. Both are modelled as `None`.
- **Regular expressions.** The regexes of getSeriesColor are explicit predicates. Only the `p`/`q` alternative of the percentile regex is anchored, so `median`, `max` and `min` match anywhere in the label, `admin` and `maximum error` included.
- **Hashing after normalization.** Where a table miss falls back to the hash, the code hashes the label as written, not its lowercased and trimmed key. So `p42` and `P42` share a key but get different colours. So the colour of a label is not a function of its normalized key (`PercentileMissHashesOriginal`). getPercentileColor and getLogLevelColor give the same colour to labels with the same key when the key is in the table, or a log key occurs in it (`PercentileSameKey`, `LogLevelSameKey`). getSeriesColor does not, because its earlier tests run on the untrimmed label: ` p99` is hashed to `#c71585`, while `p99` gets `#dc2626` (`PaddedPercentileIsHashed`).

## Model

| member | source | states |
|---|---|---|
| JsNumber.ToInt32 | colorMapping.ts:37 | ECMAScript ToInt32, which `hash & hash` computes and `<<` applies to its operand: the result is an int32 congruent to the argument modulo 2^32, and an int32 is left as it is |
| JsNumber.ShiftLeft5 | colorMapping.ts:36 | `hash << 5`: the operand converted by ToInt32, times 32, converted again |
| JsNumber.Abs | colorMapping.ts:39 | `Math.abs`: a non-negative result equal to the argument or its negation |
| JsNumber.ShiftStepIsTimes31 | colorMapping.ts:36-37 | `((h << 5) - h) + c` followed by `& h` equals ToInt32(31·h + c) for every int32 `h` |
| JsString.CodeUnits | colorMapping.ts:35-36 | the UTF-16 code units `length` and `charCodeAt` see: one unit per character below U+10000, a surrogate pair above |
| JsString.CodeUnitsBmp | colorMapping.ts:35-36 | a string of characters below U+10000 has exactly one code unit per character, each its code point |
| JsString.ToLower | colorMapping.ts:60 | the model's ASCII `toLowerCase` keeps the length and folds each character on its own |
| JsString.Trim | colorMapping.ts:60 | `trim` removes the leading and trailing ECMAScript whitespace |
| JsString.TrimEmptyIff | colorMapping.ts:75 | `value.trim() === ''` holds exactly when every character is whitespace |
| JsString.Contains | colorMapping.ts:69 | `includes`: the needle occurs at some position |
| JsString.ContainsIff | colorMapping.ts:69 | `includes` holds exactly when the needle is the slice at some index |
| JsString.ParseInt | colorMapping.ts:50 | `parseInt(code, 10)`: NaN (`None`) exactly when no digit follows the leading whitespace and the optional sign |
| JsString.ParseThreeDigits | colorMapping.ts:50 | three ASCII digits parse to their decimal value |
| JsString.NatToDecimal | colorMapping.ts:110 | `${i + 1}`: a non-empty run of decimal digits with no leading zero whose value is the number |
| JsString.ParseNatToDecimal | colorMapping.ts:110 | the decimal text of a natural number parses back to that number |
| ColorMapping.ThemeColors | colorMapping.ts:8-12 | the 20-colour palette, in order |
| ColorMapping.StatusCodeColors | colorMapping.ts:14-19 | the 21 exact status-code colours |
| ColorMapping.PercentileColors | colorMapping.ts:21-25 | the 11 percentile and aggregate colours |
| ColorMapping.LogLevelColors | colorMapping.ts:27-31 | the 12 log-level keys with their colours, in declaration order |
| ColorMapping.HashStep | colorMapping.ts:36-37 | one step of the rolling hash, stated multiplicatively; `ShiftStepIsTimes31` proves it equal to the source's shift form |
| ColorMapping.HashFold | colorMapping.ts:34-38 | the accumulator of the rolling hash is always an int32 |
| ColorMapping.Hash | colorMapping.ts:39 | the absolute value of the accumulator lies in [0, 2^31] |
| ColorMapping.HashString | colorMapping.ts:33-40 | the loop with shift, subtraction and `& h` computes `Hash` of the label's UTF-16 code units, bounded by 2^31 |
| ColorMapping.HashReachesTwoTo31 | colorMapping.ts:39 | the bound is reached: one five-unit label hashes to exactly 2^31, `Math.abs` of the int32 minimum |
| ColorMapping.ThemeColor | colorMapping.ts:61 | `hash % THEME_COLORS.length` always picks a palette entry |
| ColorMapping.ThemeColorsAreHex | colorMapping.ts:8-12 | every palette entry is `#` and six hex digits, and none is the status fallback `#9d96f5` |
| ColorMapping.StatusCodeColorsInRange | colorMapping.ts:14-19 | every exact status code lies in 200..599, and no entry is `#9d96f5` |
| ColorMapping.StatusCodeColorsAreHex | colorMapping.ts:14-19 | every exact status colour is a hex colour |
| ColorMapping.PercentileColorsAreHex | colorMapping.ts:21-25 | every percentile colour is a hex colour other than `#9d96f5` |
| ColorMapping.LogLevelColorsAreHex | colorMapping.ts:27-31 | every log-level colour is a hex colour other than `#9d96f5` |
| ColorMapping.LogLevelKeysHaveNoWhiteSpace | colorMapping.ts:27-31 | no log-level key contains whitespace, so trimming cannot hide one |
| ColorMapping.StatusClassColor | colorMapping.ts:44-48 | the colour of the class tokens `2xx`..`5xx`, compared after lowercasing, and none for any other string |
| ColorMapping.StatusNumber | colorMapping.ts:50 | the number looked up: a number argument as it is, a string through parseInt, with NaN as none |
| ColorMapping.StatusFallbackIff | colorMapping.ts:42-57 | getStatusCodeColor answers `#9d96f5` exactly when the input is no class token and its number is missing (NaN) or outside 200..599 |
| ColorMapping.StatusCodeColorIsHex | colorMapping.ts:42-57 | getStatusCodeColor always answers a hex colour |
| ColorMapping.StatusTextMatchesNumber | colorMapping.ts:50 | a three-digit string gets the colour of the number parseInt reads from it |
| ColorMapping.StatusCodeColor | colorMapping.ts:42-57 | getStatusCodeColor; its answers are characterised by `StatusFallbackIff`, `StatusCodeColorIsHex` and `StatusTextMatchesNumber` |
| ColorMapping.NormalizedKey | colorMapping.ts:60 | `toLowerCase().trim()`, the key both tables are looked up with (also line 65) |
| ColorMapping.PercentileColor | colorMapping.ts:59-62 | getPercentileColor; `PercentileEntry`, `PercentileMiss` and `PercentileSameKey` state its two cases and what normalization keeps |
| ColorMapping.LookupLogLevel | colorMapping.ts:66 | the direct lookup finds a colour exactly when some key equals the label, and the colour is that key's |
| ColorMapping.FirstLogLevel | colorMapping.ts:68-70 | the scan answers the first key in declaration order that occurs in the label, and none when no key occurs |
| ColorMapping.LogLevelColor | colorMapping.ts:64-72 | getLogLevelColor; `LogLevelFirstMatch`, `LogLevelHashFallback` and `LogLevelSameKey` state its cases |
| ColorMapping.IsNullLike | colorMapping.ts:77 | the three null-like words, compared with the untrimmed lowercase label |
| ColorMapping.IsStatusCodeText | colorMapping.ts:78 | `/^[2-5]\d{2}$/` |
| ColorMapping.IsStatusClassText | colorMapping.ts:78 | `/^[2-5]xx$/i` |
| ColorMapping.IsPercentileText | colorMapping.ts:79 | the percentile regex ignoring case: `p` or `q` and a digit at the start, or `median`, `max` or `min` anywhere |
| ColorMapping.HasLogLevel | colorMapping.ts:80-82 | some log-level key occurs in the lowercase label |
| ColorMapping.RuleFor | colorMapping.ts:74-84 | the first test of the cascade, in source order, that the label passes |
| ColorMapping.SeriesColor | colorMapping.ts:74-84 | getSeriesColor; the lemmas of `ColorProperties` state its guarantees |
| ColorMapping.GetLogLevelColor | colorMapping.ts:64-72 | the direct lookup, the early-return scan and the hash fallback compute `LogLevelColor` |
| ColorMapping.GetSeriesColor | colorMapping.ts:74-84 | the cascade with its early-return scan computes `SeriesColor` |
| ColorProperties.BlankLabelColor | colorMapping.ts:75 | an empty or all-whitespace label gets `THEME_COLORS[0]` = `#1A74A8` |
| ColorProperties.NullLikeColor | colorMapping.ts:76-77 | a label whose lowercase form is `null`, `undefined` or `unknown` gets `#9ca3af` |
| ColorProperties.PaddedNullIsHashed | colorMapping.ts:76-77 | the null-like test does not trim: ` null ` is hashed like any other label |
| ColorProperties.StatusCodeLabelColor | colorMapping.ts:74-78 | three digits from 200 to 599 are coloured as that status code, never `#9d96f5` |
| ColorProperties.StatusClassLabelColor | colorMapping.ts:74-78 | `2xx`..`5xx` in any case get `#1A74A8`, `#73c0de`, `#fac858`, `#ee6666` |
| ColorProperties.Status404 | colorMapping.ts:51 | a code in the exact table uses it: 404 gives `#fc8452` |
| ColorProperties.Status499 | colorMapping.ts:54 | a code missing from the table uses its hundred's colour: 499 gives `#fb7293` |
| ColorProperties.StatusClassExamples | colorMapping.ts:45-48 | `2xx` gives `#1A74A8` and `5XX` gives `#ee6666` |
| ColorProperties.NullLikeNotPercentile | colorMapping.ts:77-79 | no null-like word passes the percentile test |
| ColorProperties.StatusNotPercentile | colorMapping.ts:78-79 | no status code or class token passes the percentile test |
| ColorProperties.PercentileBeforeLogLevel | colorMapping.ts:79-82 | a label passing the percentile test is resolved by getPercentileColor, whatever log-level word it also contains |
| ColorProperties.PercentileEntry | colorMapping.ts:60-61 | a label whose lowercased, trimmed key is in the table gets the table's colour |
| ColorProperties.PercentileMiss | colorMapping.ts:61 | a key that is not an own key of the table hashes the label as written |
| ColorProperties.PercentileSameKey | colorMapping.ts:60-61 | two labels with the same normalized key get the same colour when that key is in the table |
| ColorProperties.PDigitsLabel | colorMapping.ts:59-79 | a `p` or `P` and two digits take the percentile rule, with the lowercase label as its key |
| ColorProperties.PercentileP99 | colorMapping.ts:59-62 | `p99` and `P99` both give `#dc2626` |
| ColorProperties.PercentileMaxPadded | colorMapping.ts:59-62 | trimming applies to the key: `Max ` gives `#991b1b` |
| ColorProperties.PaddedPercentileIsHashed | colorMapping.ts:59-83 | ` p99` and `p99` share the key `p99`, but the anchored test at line 79 runs on the untrimmed label, so ` p99` is hashed to `#c71585` while `p99` gets `#dc2626` |
| ColorProperties.AdminIsPercentile | colorMapping.ts:79 | the unanchored `min` alternative sends `admin` to the percentile rule |
| ColorProperties.MaximumErrorIsPercentile | colorMapping.ts:79-82 | `maximum error` takes the percentile rule, not the log-level rule, and is hashed |
| ColorProperties.PercentileMissHashesOriginal | colorMapping.ts:60-61 | `p42` and `P42` share a key but get `#ff6347` and `#fac858` |
| ColorProperties.LogLevelRuleColor | colorMapping.ts:64-82 | on the log-level rule a key occurs in the trimmed key, so getLogLevelColor's hash fallback is never reached; the colour is the direct entry, else the first occurring key's |
| ColorProperties.LogLevelFirstMatch | colorMapping.ts:68-70 | after a failed direct lookup, the colour is that of the first key in declaration order that occurs |
| ColorProperties.LogLevelHashFallback | colorMapping.ts:71 | with no own key equal to or occurring in the normalized label, getLogLevelColor hashes the label as written |
| ColorProperties.LogLevelSameKey | colorMapping.ts:65-70 | two labels with the same normalized key get the same colour when a key equals it or occurs in it |
| ColorProperties.PrototypeKeyNotPercentile | colorMapping.ts:79 | a label passing the percentile test never normalizes to `constructor` or `__proto__` |
| ColorProperties.PrototypeKeyHasNoLogLevel | colorMapping.ts:27-31 | neither `constructor` nor `__proto__` contains a log-level key |
| ColorProperties.PrototypeKeysUnreachable | colorMapping.ts:79-82 | a label the cascade hands to getPercentileColor or getLogLevelColor never normalizes to a name inherited from Object.prototype, so both table lookups act as own-key lookups |
| ColorProperties.WarningDiskFull | colorMapping.ts:74-84 | `Warning: disk full` gives `#fac858` |
| ColorProperties.WarnJobFailed | colorMapping.ts:64-72 | declaration order decides: `fail` precedes `warn`, so `warn: job failed` gives `#ee6666` |
| ColorProperties.SeriesColorNeverOutOfRange | colorMapping.ts:74-84 | no label is ever coloured `#9d96f5` |
| ColorProperties.SeriesColorIsHex | colorMapping.ts:74-84 | every label gets `#` and six hex digits |
| ColorProperties.HashedSingleLetters | colorMapping.ts:83 | the hash fallback is case-sensitive: `a` gives `#4b0082` and `A` gives `#3ba272` |
| ColorProperties.HashedBoundaryLabel | colorMapping.ts:74-84 | the label hashing to 2^31 gets palette entry 8, `#c71585` |
| SeriesColors.ChartOptions | colorMapping.ts:87-119 | the options object: its `dataset.source` and its `series`, the field applySeriesColors updates |
| SeriesColors.SeriesNames | colorMapping.ts:88-97 | the header cells after the timestamp column, or `None` on each early return |
| SeriesColors.HasColor | colorMapping.ts:111 | `s.itemStyle?.color` is truthy: a style is present and its colour is a non-empty string |
| SeriesColors.SeriesName | colorMapping.ts:110 | the series' own name if truthy, else its header cell if truthy, else `Series i+1` |
| SeriesColors.FreshSeries | colorMapping.ts:101-106 | the bar series built for one header column |
| SeriesColors.Filled | colorMapping.ts:110-114 | one existing series after the update, coloured when it had no colour |
| SeriesColors.ColoredSeries | colorMapping.ts:87-119 | the value of `series` after applySeriesColors, which the lemmas below characterise |
| SeriesColors.ChartOptions.ApplySeriesColors | colorMapping.ts:87-119 | the options object is returned itself, only `series` changes, and it becomes `ColoredSeries` of the source and the old series |
| SeriesColors.BuildSeries | colorMapping.ts:101-106 | the map over the header names builds the fresh series list |
| SeriesColors.FillSeries | colorMapping.ts:109-115 | the map over existing series colours each one that lacks a colour |
| SeriesColors.NoHeaderUnchanged | colorMapping.ts:88-95 | an absent or empty source, or a header row that is no array or has fewer than 2 cells, leaves `series` unchanged |
| SeriesColors.FreshSeriesShape | colorMapping.ts:100-106 | absent or empty series become one `bar` series per header column after the first, named after it, with encode `{x: 0, y: i+1}` and the colour of its name |
| SeriesColors.SeriesCountPreserved | colorMapping.ts:107-116 | existing series keep their number |
| SeriesColors.ColoredSeriesKept | colorMapping.ts:111-114 | a series with a truthy colour is kept as it is, name included |
| SeriesColors.UncoloredSeriesFilled | colorMapping.ts:110-112 | a series without a colour gets its fallback name and that name's colour, keeping its other fields and style fields |
| SeriesColors.SeriesNameChoice | colorMapping.ts:110 | the name is the series' own, else its header cell, else `Series i+1`, whose number parses back to i+1 |
| SeriesColors.AllSeriesColored | colorMapping.ts:100-116 | after colouring with a header present, every series has a colour |
| SeriesColors.ColoredSeriesIdempotent | colorMapping.ts:87-119 | colouring twice is the same as colouring once |
| Types.WidgetTypeWire | types.ts:1-16 | the wire string of each of the 14 widget types |
| Types.WidgetTypeOf | types.ts:1-16 | a string read as a widget type has that type's wire string |
| Types.WidgetTypeRoundTrip | types.ts:1-16 | reading back a widget type's wire string gives the type |
| Types.WidgetTypeWireInjective | types.ts:1-16 | the 14 wire strings are pairwise distinct |
| Types.DefaultWidgetType | types.ts:18-19 | defaultWidgetType, Timeseries |
| Types.DefaultWidgetTypeWire | types.ts:18-19 | the default widget type is `timeseries` |
| Types.SummarizeByWire | types.ts:21-26 | the wire string of each of the four aggregations |
| Types.SummarizeByRoundTrip | types.ts:21-26 | reading back an aggregation's wire string gives the aggregation |
| Types.SummarizeByWireInjective | types.ts:21-26 | the four wire strings are pairwise distinct |
| Types.DefaultSummarizeBy | types.ts:28-29 | defaultSummarizeBy, Sum |
| Types.SummarizeByPrefix | types.ts:31-40 | the prefix is `<` exactly for Max, `>` exactly for Min, empty exactly for Sum and Count, and at most one character long |
| Types.SummarizeByPrefixValues | types.ts:31-40 | the prefix is one of `<`, `>` and the empty string, and is non-empty exactly for Max and Min |
| Types.DefaultSummarizeByPrefix | types.ts:28-38 | the default aggregation is Sum, shown without a prefix |

## Left out

- The HTTP servers and rendering in `index.ts` and `index.js` are not modelled. They are request handling, canvas and chart-library calls, and image encoding. The options compiler, the number formatter and the render cache are not part of this model.
- The data-shape interfaces of `types.ts` after summarizeByPrefix (Widget, WidgetDataset and the rest) are not modelled. The colouring needs none of them.
- `toLowerCase` is ASCII case folding. Full Unicode case mapping (for example U+212A KELVIN SIGN lowering to `k`) is not modelled. `trim` uses the ECMAScript whitespace and line-terminator set.
- Labels are sequences of Unicode scalar values. A JavaScript string holding a lone surrogate is not representable.
- getSeriesColor: a missing label (`undefined` or `null`, the `!value` test) is not modelled. Only string labels are. The empty string, the other falsy case, is covered.
- getStatusCodeColor: only integer numbers are modelled for the number argument. Fractions, `NaN` and infinities are not.
- parseInt: parsing is exact over unbounded integers. The loss of precision above 2^53 does not matter for codes of three digits.
- applySeriesColors:
  - a `null` or `undefined` options object is not modelled;
  - a `series` field that is truthy but not an array is not modelled;
  - a `null` or non-object entry of a non-empty `series` array is not modelled: the `Series` datatype cannot represent one, and in JavaScript `s.name` throws on it.
- applySeriesColors: names and colours are strings. A gradient or other object given as `itemStyle.color`, and a non-string header cell, are not modelled. A falsy cell (`null`, `undefined`, `0`, `false`) does not throw. In the build branch it takes the `!value` test of getSeriesColor and gets `THEME_COLORS[0]`. In the fill branch `||` skips it. A truthy non-string cell (a non-zero number, `true`, an object) reaches `.trim` and throws.
- summarizeByPrefix: a value outside the enum cannot reach it in the model. In JavaScript such a value takes the `default` branch and gets the empty prefix.
- GetLogLevelColor, GetSeriesColor: JavaScript's iteration over object keys is not modelled as such. The scans use the declaration order of the log-level keys, which is the order `Object.keys` and `Object.entries` give, because none of the keys is an integer index.
- PercentileColor, LogLevelColor, PercentileMiss, LogLevelHashFallback: the tables are own-key lookups. In JavaScript the keys `constructor` and `__proto__` find Object.prototype's members, so getPercentileColor and getLogLevelColor called directly on such a label return an object and not a colour. No label that getSeriesColor hands to either function normalizes to those keys (`PrototypeKeysUnreachable`).
