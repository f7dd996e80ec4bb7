/**
 * The deterministic series-colour resolver: a label is mapped to a hex colour
 * through an ordered cascade of rules (blank, null-like words, HTTP status,
 * percentile, log level, hashed palette entry).
 */
module ColorMapping {
  import opened Wrappers
  import opened JsNumber
  import opened JsString

  // ---------------------------------------------------------------------------
  // The fixed tables

  /** THEME_COLORS: the palette the hash indexes; its first entry is the blank-label colour. */
  const ThemeColors: seq<string> := [
    "#1A74A8", "#91cc75", "#fac858", "#ee6666", "#73c0de", "#3ba272", "#fc8452", "#9a60b4",
    "#c71585", "#37a2da", "#32c5e9", "#20b2aa", "#228b22", "#ff8c00", "#ff6347", "#dc143c",
    "#8b008b", "#4b0082", "#6a5acd", "#4169e1"
  ]

  /** The colour of `null`, `undefined` and `unknown`. */
  const NeutralGray: string := "#9ca3af"

  /** STATUS_CODE_COLORS: the exact table for common HTTP status codes. */
  const StatusCodeColors: map<int, string> := map[
    200 := "#1A74A8", 201 := "#37a2da", 202 := "#32c5e9", 204 := "#73c0de", 206 := "#67e0e3",
    301 := "#73c0de", 302 := "#67e0e3", 304 := "#9fe6b8", 307 := "#3ba272", 308 := "#91cc75",
    400 := "#fac858", 401 := "#ffdb5c", 403 := "#ff9f7f", 404 := "#fc8452", 405 := "#fb7293",
    429 := "#e062ae",
    500 := "#ee6666", 502 := "#fb7293", 503 := "#e062ae", 504 := "#e690d1", 507 := "#e7bcf3"
  ]

  /** The last resort of the status resolver: a code outside 200..599 or no number at all. */
  const OutOfRangeStatusColor: string := "#9d96f5"

  /** PERCENTILE_COLORS, keyed by the lowercased, trimmed label. */
  const PercentileColors: map<string, string> := map[
    "p50" := "#91cc75", "median" := "#91cc75", "p75" := "#3ba272", "q1" := "#3ba272",
    "p90" := "#fac858", "p95" := "#fc8452", "q3" := "#fc8452",
    "p99" := "#dc2626", "p100" := "#991b1b", "max" := "#991b1b", "min" := "#91cc75"
  ]

  /** LOG_LEVEL_COLORS in declaration order: the order of the substring scan. */
  const LogLevelColors: seq<(string, string)> := [
    ("error", "#ee6666"), ("fail", "#ee6666"), ("failed", "#ee6666"), ("exception", "#e062ae"),
    ("critical", "#e062ae"), ("warning", "#fac858"), ("warn", "#fac858"), ("success", "#91cc75"),
    ("ok", "#91cc75"), ("info", "#73c0de"), ("debug", "#9a60b4"), ("trace", "#e7bcf3")
  ]

  predicate IsHexDigit(c: char)
  {
    '0' <= c <= '9' || 'a' <= c <= 'f' || 'A' <= c <= 'F'
  }

  /** A colour token: `#` followed by six hex digits. */
  predicate IsHexColor(c: string)
  {
    |c| == 7 && c[0] == '#' &&
    IsHexDigit(c[1]) && IsHexDigit(c[2]) && IsHexDigit(c[3]) &&
    IsHexDigit(c[4]) && IsHexDigit(c[5]) && IsHexDigit(c[6])
  }

  // Facts about the literal tables, one table at a time.

  lemma ThemeColorsAreHex()
    ensures forall i :: 0 <= i < |ThemeColors| ==> IsHexColor(ThemeColors[i])
    ensures OutOfRangeStatusColor !in ThemeColors
  {
  }

  lemma StatusCodeColorsAreHex()
    ensures forall c :: c in StatusCodeColors.Values ==> IsHexColor(c)
  {
  }

  lemma StatusCodeColorsInRange()
    ensures OutOfRangeStatusColor !in StatusCodeColors.Values
    ensures forall k :: k in StatusCodeColors ==> 200 <= k < 600
  {
  }

  lemma PercentileColorsAreHex()
    ensures forall c :: c in PercentileColors.Values ==> IsHexColor(c)
    ensures OutOfRangeStatusColor !in PercentileColors.Values
  {
  }

  lemma LogLevelColorsAreHex()
    ensures forall i :: 0 <= i < |LogLevelColors| ==> IsHexColor(LogLevelColors[i].1)
    ensures forall i :: 0 <= i < |LogLevelColors| ==> LogLevelColors[i].1 != OutOfRangeStatusColor
  {
  }

  /** No log-level key contains whitespace, so trimming never hides one. */
  lemma LogLevelKeysHaveNoWhiteSpace()
    ensures forall i, j :: 0 <= i < |LogLevelColors| && 0 <= j < |LogLevelColors[i].0| ==>
      !IsWhiteSpace(LogLevelColors[i].0[j])
  {
  }

  // ---------------------------------------------------------------------------
  // hashString

  /** `h = ((h << 5) - h) + c; h = h & h`, which is ToInt32(31 * h + c). */
  function HashStep(h: int, c: CodeUnit): int
  {
    ToInt32(31 * h + c)
  }

  /** The accumulator after folding the code units from left to right, starting at 0. */
  function HashFold(units: seq<CodeUnit>): (h: int)
    ensures IsInt32(h)
  {
    if |units| == 0 then 0 else HashStep(HashFold(units[..|units| - 1]), units[|units| - 1])
  }

  /**
   * hashString: the absolute value of the 32-bit rolling hash of the code units.
   * The absolute value of the int32 minimum is 2^31, so the bound is 2^31.
   */
  function Hash(s: string): (r: nat)
    ensures r <= TwoTo31
  {
    Abs(HashFold(CodeUnits(s)))
  }

  /** `THEME_COLORS[hash % THEME_COLORS.length]`: every hash picks a palette entry. */
  function ThemeColor(hash: nat): (c: string)
    ensures c in ThemeColors
  {
    ThemeColors[hash % |ThemeColors|]
  }

  /** The source's loop, bit operations and all; it computes Hash. */
  method HashString(s: string) returns (hash: nat)
    ensures hash == Hash(s)
    ensures hash <= TwoTo31
  {
    var units := CodeUnits(s);
    var h := 0;
    for i := 0 to |units|
      invariant h == HashFold(units[..i])
    {
      ShiftStepIsTimes31(h, units[i]);
      h := ShiftLeft5(h) - h + units[i];
      h := ToInt32(h);  // h & h
      assert units[..i + 1][..i] == units[..i];
    }
    assert units[..|units|] == units;
    hash := Abs(h);
  }

  /**
   * The bound 2^31 is reached: the code units 0x0914, 39, 60, 40, 95 drive
   * the accumulator to exactly -2^31.
   */
  lemma HashReachesTwoTo31()
    ensures Hash("\U{0914}'<(_") == TwoTo31
  {
    var s := "\U{0914}'<(_";
    CodeUnitsBmp(s);
    var u := CodeUnits(s);
    assert u == [0x0914, 39, 60, 40, 95];
    assert u[..4][..3] == u[..3] && u[..3][..2] == u[..2] && u[..2][..1] == u[..1];
    assert u[..1][..0] == [];
    assert HashFold(u[..1]) == 2324;
    assert HashFold(u[..2]) == 72083;
    assert HashFold(u[..3]) == 2234633;
    assert HashFold(u[..4]) == 69273663;
    assert 31 * 69273663 + 95 == TwoTo31;
    assert HashFold(u) == -TwoTo31;
  }

  // ---------------------------------------------------------------------------
  // getStatusCodeColor

  /** The argument of getStatusCodeColor, which accepts a number or a string. */
  datatype StatusCode = Number(n: int) | Text(s: string)

  /** The class tokens `2xx`..`5xx`, compared after lowercasing. */
  function StatusClassColor(lc: string): Option<string>
  {
    if lc == "2xx" then Some("#1A74A8")
    else if lc == "3xx" then Some("#73c0de")
    else if lc == "4xx" then Some("#fac858")
    else if lc == "5xx" then Some("#ee6666")
    else None
  }

  /** The number the source looks up: the number itself, or parseInt of the text (None is NaN). */
  function StatusNumber(code: StatusCode): Option<int>
  {
    match code
    case Number(n) => Some(n)
    case Text(s) => ParseInt(s)
  }

  /** A number in 200..599: the range covered by the per-hundred fallbacks. */
  predicate InStatusRange(num: Option<int>)
  {
    num.Some? && 200 <= num.value < 600
  }

  function StatusCodeColor(code: StatusCode): string
  {
    var token := if code.Text? then StatusClassColor(ToLower(code.s)) else None;
    if token.Some? then token.value
    else
      var num := StatusNumber(code);
      if num.Some? && num.value in StatusCodeColors then StatusCodeColors[num.value]
      else if num.Some? && 200 <= num.value < 300 then "#67e0e3"
      else if num.Some? && 300 <= num.value < 400 then "#3ba272"
      else if num.Some? && 400 <= num.value < 500 then "#fb7293"
      else if num.Some? && 500 <= num.value < 600 then "#e7bcf3"
      else OutOfRangeStatusColor
  }

  /**
   * The last fallback is taken exactly when the input is no class token and
   * its number is missing or outside 200..599: every code in the exact table
   * lies in that range.
   */
  lemma StatusFallbackIff(code: StatusCode)
    ensures StatusCodeColor(code) == OutOfRangeStatusColor <==>
      (code.Number? || StatusClassColor(ToLower(code.s)).None?) && !InStatusRange(StatusNumber(code))
  {
    StatusCodeColorsInRange();
  }

  lemma StatusClassColorsAreHex(lc: string)
    ensures StatusClassColor(lc).Some? ==> IsHexColor(StatusClassColor(lc).value)
  {
  }

  lemma StatusFallbackColorsAreHex()
    ensures IsHexColor("#67e0e3") && IsHexColor("#3ba272")
    ensures IsHexColor("#fb7293") && IsHexColor("#e7bcf3")
    ensures IsHexColor(OutOfRangeStatusColor)
  {
  }

  lemma StatusCodeColorIsHex(code: StatusCode)
    ensures IsHexColor(StatusCodeColor(code))
  {
    if code.Text? {
      StatusClassColorsAreHex(ToLower(code.s));
    }
    StatusCodeColorsAreHex();
    StatusFallbackColorsAreHex();
  }

  /** The text of a three-digit code and the code as a number get the same colour. */
  lemma StatusTextMatchesNumber(s: string)
    requires |s| == 3 && IsDigit(s[0]) && IsDigit(s[1]) && IsDigit(s[2])
    ensures StatusCodeColor(Text(s)) ==
      StatusCodeColor(Number(100 * DigitValue(s[0]) + 10 * DigitValue(s[1]) + DigitValue(s[2])))
  {
    ParseThreeDigits(s);
    assert ToLower(s) == s;
    assert StatusClassColor(s).None? by {
      assert s[1] != 'x';
    }
  }

  // ---------------------------------------------------------------------------
  // getPercentileColor and getLogLevelColor

  /** The key both tables are looked up with: `text.toLowerCase().trim()`. */
  function NormalizedKey(text: string): string
  {
    Trim(ToLower(text))
  }

  /** getPercentileColor: the table entry for the key, else the hash of the original label. */
  function PercentileColor(percentile: string): string
  {
    var key := NormalizedKey(percentile);
    if key in PercentileColors then PercentileColors[key] else ThemeColor(Hash(percentile))
  }

  /** `LOG_LEVEL_COLORS[key]`: the entry whose key is exactly `key`. */
  function LookupLogLevel(key: string, from: nat): (r: Option<string>)
    requires from <= |LogLevelColors|
    ensures r.Some? <==> exists i :: from <= i < |LogLevelColors| && LogLevelColors[i].0 == key
    ensures r.Some? ==> exists i :: from <= i < |LogLevelColors| && LogLevelColors[i] == (key, r.value)
    decreases |LogLevelColors| - from
  {
    if from == |LogLevelColors| then None
    else if LogLevelColors[from].0 == key then Some(LogLevelColors[from].1)
    else LookupLogLevel(key, from + 1)
  }

  /**
   * The index of the first log-level key, in declaration order from `from`,
   * that occurs in `s`.
   */
  function FirstLogLevel(s: string, from: nat): (r: Option<nat>)
    requires from <= |LogLevelColors|
    ensures r.Some? ==> from <= r.value < |LogLevelColors| && Contains(s, LogLevelColors[r.value].0)
    ensures r.Some? ==> forall i :: from <= i < r.value ==> !Contains(s, LogLevelColors[i].0)
    ensures r.None? ==> forall i :: from <= i < |LogLevelColors| ==> !Contains(s, LogLevelColors[i].0)
    decreases |LogLevelColors| - from
  {
    if from == |LogLevelColors| then None
    else if Contains(s, LogLevelColors[from].0) then Some(from)
    else FirstLogLevel(s, from + 1)
  }

  /** getLogLevelColor: direct lookup, then the first key that is a substring, then the hash. */
  function LogLevelColor(text: string): string
  {
    var normalized := NormalizedKey(text);
    match LookupLogLevel(normalized, 0)
    case Some(direct) => direct
    case None =>
      match FirstLogLevel(normalized, 0)
      case Some(j) => LogLevelColors[j].1
      case None => ThemeColor(Hash(text))
  }

  /** The imperative version of getLogLevelColor, with the early-return scan. */
  method GetLogLevelColor(text: string) returns (color: string)
    ensures color == LogLevelColor(text)
  {
    var normalized := NormalizedKey(text);
    var direct := LookupLogLevel(normalized, 0);
    if direct.Some? {
      return direct.value;
    }
    for j := 0 to |LogLevelColors|
      invariant forall i :: 0 <= i < j ==> !Contains(normalized, LogLevelColors[i].0)
    {
      var (pattern, c) := LogLevelColors[j];
      if Contains(normalized, pattern) {
        return c;
      }
    }
    var hash := HashString(text);
    color := ThemeColors[hash % |ThemeColors|];
  }

  // ---------------------------------------------------------------------------
  // getSeriesColor

  /** `lv === 'null' || lv === 'undefined' || lv === 'unknown'`, on the untrimmed lowercase label. */
  predicate IsNullLike(lv: string)
  {
    lv == "null" || lv == "undefined" || lv == "unknown"
  }

  /** `/^[2-5]\d{2}$/`: exactly three ASCII digits, the first one 2 to 5. */
  predicate IsStatusCodeText(v: string)
  {
    |v| == 3 && '2' <= v[0] <= '5' && IsDigit(v[1]) && IsDigit(v[2])
  }

  /** `/^[2-5]xx$/i`: a status class token in any case. */
  predicate IsStatusClassText(v: string)
  {
    |v| == 3 && '2' <= v[0] <= '5' && LowerChar(v[1]) == 'x' && LowerChar(v[2]) == 'x'
  }

  /**
   * `/^(p|q)\d+|median|max|min/i`: only the first alternative is anchored, so
   * `median`, `max` and `min` may occur anywhere in the label.
   */
  predicate IsPercentileText(v: string)
  {
    (|v| >= 2 && (LowerChar(v[0]) == 'p' || LowerChar(v[0]) == 'q') && IsDigit(v[1])) ||
    Contains(ToLower(v), "median") || Contains(ToLower(v), "max") || Contains(ToLower(v), "min")
  }

  /** Some log-level key is a substring of the lowercased label. */
  predicate HasLogLevel(lv: string)
  {
    exists j :: 0 <= j < |LogLevelColors| && Contains(lv, LogLevelColors[j].0)
  }

  /** The rule of the cascade that decides a label's colour. */
  datatype Rule = BlankLabel | NullLike | HttpStatus | Percentile | LogLevel | Hashed

  /** The first rule, in the source's order, whose test the label passes. */
  function RuleFor(value: string): Rule
  {
    if Trim(value) == "" then BlankLabel
    else if IsNullLike(ToLower(value)) then NullLike
    else if IsStatusCodeText(value) || IsStatusClassText(value) then HttpStatus
    else if IsPercentileText(value) then Percentile
    else if HasLogLevel(ToLower(value)) then LogLevel
    else Hashed
  }

  /** getSeriesColor: a total map from labels to colour tokens. */
  function SeriesColor(value: string): string
  {
    match RuleFor(value)
    case BlankLabel => ThemeColors[0]
    case NullLike => NeutralGray
    case HttpStatus => StatusCodeColor(Text(value))
    case Percentile => PercentileColor(value)
    case LogLevel => LogLevelColor(value)
    case Hashed => ThemeColor(Hash(value))
  }

  /** The imperative version of getSeriesColor, with the early-return scan over the log-level keys. */
  method GetSeriesColor(value: string) returns (color: string)
    ensures color == SeriesColor(value)
  {
    if Trim(value) == "" {
      assert RuleFor(value) == BlankLabel;
      return ThemeColors[0];
    }
    var lv := ToLower(value);
    if lv == "null" || lv == "undefined" || lv == "unknown" {
      assert RuleFor(value) == NullLike;
      return NeutralGray;
    }
    if IsStatusCodeText(value) || IsStatusClassText(value) {
      assert RuleFor(value) == HttpStatus;
      return StatusCodeColor(Text(value));
    }
    if IsPercentileText(value) {
      assert RuleFor(value) == Percentile;
      return PercentileColor(value);
    }
    for j := 0 to |LogLevelColors|
      invariant forall i :: 0 <= i < j ==> !Contains(lv, LogLevelColors[i].0)
    {
      if Contains(lv, LogLevelColors[j].0) {
        assert HasLogLevel(lv);
        assert RuleFor(value) == LogLevel;
        color := GetLogLevelColor(value);
        return;
      }
    }
    assert RuleFor(value) == Hashed;
    var hash := HashString(value);
    color := ThemeColors[hash % |ThemeColors|];
  }
}
