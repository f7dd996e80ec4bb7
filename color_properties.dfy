/**
 * What the series-colour cascade guarantees: the fixed colours of the first
 * rules, the order of the rules, first-match resolution of log levels, the
 * reachable and unreachable fallbacks, and concrete labels.
 */
module ColorProperties {
  import opened Wrappers
  import opened JsNumber
  import opened JsString
  import opened ColorMapping

  // ---------------------------------------------------------------------------
  // Blank and null-like labels

  /** An empty or all-whitespace label gets the first palette colour. */
  lemma BlankLabelColor(value: string)
    requires forall i :: 0 <= i < |value| ==> IsWhiteSpace(value[i])
    ensures SeriesColor(value) == ThemeColors[0] == "#1A74A8"
  {
    TrimEmptyIff(value);
  }

  /** A label that is not blank has a non-whitespace character. */
  lemma NotBlank(value: string, k: int)
    requires 0 <= k < |value| && !IsWhiteSpace(value[k])
    ensures Trim(value) != ""
  {
    TrimEmptyIff(value);
  }

  /** `null`, `undefined` and `unknown`, in any case but untrimmed, are gray. */
  lemma NullLikeColor(value: string)
    requires IsNullLike(ToLower(value))
    ensures SeriesColor(value) == NeutralGray == "#9ca3af"
  {
    assert LowerChar(value[0]) == 'n' || LowerChar(value[0]) == 'u';
    NotBlank(value, 0);
  }

  /** The null-like test does not trim: a padded `null` is hashed like any other label. */
  lemma PaddedNullIsHashed()
    ensures RuleFor(" null ") == Hashed
    ensures SeriesColor(" null ") == ThemeColor(Hash(" null "))
  {
    NotBlank(" null ", 1);
    assert ToLower(" null ") == " null ";
    assert !HasLogLevel(" null ") by {
      forall j | 0 <= j < |LogLevelColors|
        ensures !Contains(" null ", LogLevelColors[j].0)
      {
        assert !Contains(" null ", "ok");
      }
    }
  }

  // ---------------------------------------------------------------------------
  // HTTP status labels

  /** A label no whitespace starts with and that is not null-like. */
  lemma NotBlankNorNullLike(value: string)
    requires |value| == 3 && !IsWhiteSpace(value[0])
    ensures Trim(value) != "" && !IsNullLike(ToLower(value))
  {
    NotBlank(value, 0);
  }

  /**
   * Three digits from 200 to 599 are coloured as that status code, which is
   * never the out-of-range colour.
   */
  lemma StatusCodeLabelColor(value: string)
    requires IsStatusCodeText(value)
    ensures SeriesColor(value) ==
      StatusCodeColor(Number(100 * DigitValue(value[0]) + 10 * DigitValue(value[1]) + DigitValue(value[2])))
    ensures SeriesColor(value) != OutOfRangeStatusColor
  {
    NotBlankNorNullLike(value);
    var n := 100 * DigitValue(value[0]) + 10 * DigitValue(value[1]) + DigitValue(value[2]);
    StatusTextMatchesNumber(value);
    StatusFallbackIff(Number(n));
  }

  /** `2xx`..`5xx`, in any case, get the fixed colour of their class. */
  lemma StatusClassLabelColor(value: string)
    requires IsStatusClassText(value)
    ensures SeriesColor(value) ==
      if value[0] == '2' then "#1A74A8"
      else if value[0] == '3' then "#73c0de"
      else if value[0] == '4' then "#fac858"
      else "#ee6666"
  {
    NotBlankNorNullLike(value);
    assert ToLower(value) == [value[0], 'x', 'x'];
  }

  /** A code in the exact table uses it. */
  lemma Status404()
    ensures StatusCodeColor(Number(404)) == "#fc8452"
  {
  }

  /** A code missing from the exact table uses the colour of its hundred. */
  lemma Status499()
    ensures StatusCodeColor(Number(499)) == "#fb7293"
  {
    assert 499 !in StatusCodeColors;
  }

  lemma StatusClassExamples()
    ensures SeriesColor("2xx") == "#1A74A8"
    ensures SeriesColor("5XX") == "#ee6666"
  {
    StatusClassLabelColor("2xx");
    StatusClassLabelColor("5XX");
  }

  // ---------------------------------------------------------------------------
  // Percentile labels

  /** The lowercased label contains `t` at `k`, so the label itself has `t[0]` in any case there. */
  lemma LowerOccurrence(value: string, t: string)
    requires |t| > 0 && Contains(ToLower(value), t)
    ensures exists k :: 0 <= k < |value| && LowerChar(value[k]) == t[0]
  {
    ContainsIff(ToLower(value), t);
    var k :| OccursAt(ToLower(value), t, k);
    assert ToLower(value)[k..k + |t|][0] == t[0];
  }

  /** A percentile-shaped label has a letter p, q or m, so it is not blank. */
  lemma PercentileTextNotBlank(value: string)
    requires IsPercentileText(value)
    ensures Trim(value) != ""
  {
    var lv := ToLower(value);
    if |value| >= 2 && (LowerChar(value[0]) == 'p' || LowerChar(value[0]) == 'q') && IsDigit(value[1]) {
      NotBlank(value, 0);
    } else {
      var t := if Contains(lv, "median") then "median" else if Contains(lv, "max") then "max" else "min";
      LowerOccurrence(value, t);
      var k :| 0 <= k < |value| && LowerChar(value[k]) == t[0];
      NotBlank(value, k);
    }
  }

  /** A label without the letter m, in either case, contains none of `median`, `max`, `min`. */
  lemma NoLetterM(value: string)
    requires forall k :: 0 <= k < |value| ==> LowerChar(value[k]) != 'm'
    ensures !Contains(ToLower(value), "median")
    ensures !Contains(ToLower(value), "max")
    ensures !Contains(ToLower(value), "min")
  {
    var lv := ToLower(value);
    ContainsNeedsFirst(lv, "median");
    ContainsNeedsFirst(lv, "max");
    ContainsNeedsFirst(lv, "min");
  }

  /** None of `null`, `undefined`, `unknown` is percentile-shaped. */
  lemma NullLikeNotPercentile(value: string)
    ensures IsNullLike(ToLower(value)) ==> !IsPercentileText(value)
  {
    var lv := ToLower(value);
    if IsNullLike(lv) {
      assert forall k :: 0 <= k < |lv| ==> lv[k] != 'm';
      NoLetterM(value);
      assert LowerChar(value[0]) == lv[0];
    }
  }

  /** A status code or class label is not percentile-shaped. */
  lemma StatusNotPercentile(value: string)
    ensures IsStatusCodeText(value) || IsStatusClassText(value) ==> !IsPercentileText(value)
  {
    if IsStatusCodeText(value) || IsStatusClassText(value) {
      NoLetterM(value);
    }
  }

  /**
   * A label that passes the percentile test is resolved by the percentile
   * table (or its hash fallback), whatever log-level word it also contains:
   * the percentile rule comes first.
   */
  lemma PercentileBeforeLogLevel(value: string)
    requires IsPercentileText(value)
    ensures RuleFor(value) == Percentile
    ensures SeriesColor(value) == PercentileColor(value)
  {
    PercentileTextNotBlank(value);
    NullLikeNotPercentile(value);
    StatusNotPercentile(value);
  }

  /** The key of a label that neither starts nor ends with whitespace is the label lowercased. */
  lemma PlainKey(text: string)
    requires |text| > 0 ==> !IsWhiteSpace(text[0]) && !IsWhiteSpace(text[|text| - 1])
    ensures NormalizedKey(text) == ToLower(text)
  {
    var lv := ToLower(text);
    TrimUnpadded(lv);
  }

  /** A label whose key is in the table gets the table's colour. */
  lemma PercentileEntry(text: string, key: string, color: string)
    requires NormalizedKey(text) == key && key in PercentileColors && PercentileColors[key] == color
    ensures PercentileColor(text) == color
  {
  }

  /** A label whose key is not in the table is hashed as written. */
  lemma PercentileMiss(text: string, key: string)
    requires NormalizedKey(text) == key && key !in PercentileColors
    ensures PercentileColor(text) == ThemeColor(Hash(text))
  {
  }

  /**
   * The part of normalization the code keeps: labels with the same
   * normalized key get the same colour when that key is in the table.
   */
  lemma PercentileSameKey(a: string, b: string)
    requires NormalizedKey(a) == NormalizedKey(b)
    ensures NormalizedKey(a) in PercentileColors ==> PercentileColor(a) == PercentileColor(b)
  {
  }

  /**
   * Likewise for log levels: labels with the same normalized key get the
   * same colour when a key equals it or occurs in it.
   */
  lemma LogLevelSameKey(a: string, b: string)
    requires NormalizedKey(a) == NormalizedKey(b)
    ensures LookupLogLevel(NormalizedKey(a), 0).Some? || FirstLogLevel(NormalizedKey(a), 0).Some? ==>
      LogLevelColor(a) == LogLevelColor(b)
  {
  }

  /** A `p` or `P` and two digits take the percentile rule, keyed by the lowercase label. */
  lemma PDigitsLabel(s: string)
    requires |s| == 3 && (s[0] == 'p' || s[0] == 'P') && IsDigit(s[1]) && IsDigit(s[2])
    ensures RuleFor(s) == Percentile
    ensures SeriesColor(s) == PercentileColor(s)
    ensures NormalizedKey(s) == ['p', s[1], s[2]]
  {
    assert LowerChar(s[0]) == 'p' && IsDigit(s[1]);
    PercentileBeforeLogLevel(s);
    PlainKey(s);
    ToLowerIs(s, ['p', s[1], s[2]]);
  }

  /** The table lookup lowercases, so `p99` and `P99` share a colour. */
  lemma PercentileP99()
    ensures SeriesColor("p99") == "#dc2626"
    ensures SeriesColor("P99") == "#dc2626"
  {
    PDigitsLabel("p99");
    PDigitsLabel("P99");
    PercentileEntry("p99", "p99", "#dc2626");
    PercentileEntry("P99", "p99", "#dc2626");
  }

  /** The table lookup trims, so a trailing space does not matter. */
  lemma PercentileMaxPadded()
    ensures SeriesColor("Max ") == "#991b1b"
  {
    MaxPaddedIsPercentile();
    MaxPaddedKey();
    PercentileEntry("Max ", "max", "#991b1b");
  }

  lemma MaxPaddedIsPercentile()
    ensures SeriesColor("Max ") == PercentileColor("Max ")
  {
    var s := "Max ";
    assert ToLower(s) == "max ";
    ContainsAt("max ", "max", 0);
    PercentileBeforeLogLevel(s);
  }

  lemma MaxPaddedKey()
    ensures NormalizedKey("Max ") == "max"
  {
    var s := "Max ";
    assert ToLower(s) == "max ";
    assert SkipWhiteSpace("max ", 0) == 0;
    assert DropTrailingWhiteSpace("max ", 0, 4) == 3;
  }

  /** `min` matches inside words: `admin` is resolved as a percentile. */
  lemma AdminIsPercentile()
    ensures RuleFor("admin") == Percentile
  {
    var s := "admin";
    assert ToLower(s) == s;
    ContainsAt(s, "min", 2);
    PercentileBeforeLogLevel(s);
  }

  /**
   * `max` matches inside words and the percentile rule comes first, so this
   * label never reaches the log-level rule and is hashed instead.
   */
  lemma MaximumErrorIsPercentile()
    ensures RuleFor("maximum error") == Percentile
    ensures SeriesColor("maximum error") == ThemeColor(Hash("maximum error"))
  {
    MaximumErrorRule();
    MaximumErrorKey();
    PercentileMiss("maximum error", "maximum error");
  }

  lemma MaximumErrorRule()
    ensures RuleFor("maximum error") == Percentile
    ensures SeriesColor("maximum error") == PercentileColor("maximum error")
  {
    var s := "maximum error";
    assert ToLower(s) == s;
    ContainsAt(s, "max", 0);
    PercentileBeforeLogLevel(s);
  }

  lemma MaximumErrorKey()
    ensures NormalizedKey("maximum error") == "maximum error"
    ensures "maximum error" !in PercentileColors
  {
  }

  /**
   * A percentile-shaped label missing from the table is hashed as written:
   * `p42` and `P42` share a key but not a colour.
   */
  lemma PercentileMissHashesOriginal()
    ensures NormalizedKey("p42") == NormalizedKey("P42")
    ensures SeriesColor("p42") == "#ff6347"
    ensures SeriesColor("P42") == "#fac858"
  {
    PDigitsLabel("p42");
    PDigitsLabel("P42");
    P42NotInTable();
    PercentileMiss("p42", "p42");
    PercentileMiss("P42", "p42");
    ThemeColorLowerP42();
    ThemeColorUpperP42();
  }

  lemma P42NotInTable()
    ensures "p42" !in PercentileColors
  {
  }

  /**
   * getSeriesColor tests the untrimmed label, so a shared table key does not
   * give a shared colour: ` p99` has the key `p99` but fails the anchored
   * `^(p|q)\d+` and is hashed, while `p99` gets the table's colour.
   */
  lemma PaddedPercentileIsHashed()
    ensures NormalizedKey(" p99") == NormalizedKey("p99") == "p99"
    ensures SeriesColor(" p99") == "#c71585"
    ensures SeriesColor("p99") == "#dc2626"
  {
    PaddedP99Key();
    PaddedP99Rule();
    PaddedP99Hash();
    PercentileP99();
    PDigitsLabel("p99");
  }

  lemma PaddedP99Key()
    ensures NormalizedKey(" p99") == "p99"
  {
    var s := " p99";
    assert ToLower(s) == s;
    assert SkipWhiteSpace(s, 0) == 1;
    assert DropTrailingWhiteSpace(s, 1, 4) == 4;
    assert s[1..4] == "p99";
  }

  lemma PaddedP99Rule()
    ensures RuleFor(" p99") == Hashed
  {
    var s := " p99";
    NotBlank(s, 1);
    assert ToLower(s) == s;
    NoLetterM(s);
    forall j | 0 <= j < |LogLevelColors|
      ensures !Contains(s, LogLevelColors[j].0)
    {
      ContainsNeedsFirst(s, LogLevelColors[j].0);
    }
  }

  lemma PaddedP99Hash()
    ensures ThemeColor(Hash(" p99")) == "#c71585"
  {
    var s := " p99";
    CodeUnitsBmp(s);
    var u := CodeUnits(s);
    assert u == [32, 112, 57, 57];
    assert u[..3][..2] == u[..2] && u[..2][..1] == u[..1] && u[..1][..0] == [];
    assert HashFold(u[..1]) == 32;
    assert HashFold(u[..2]) == 1104;
    assert HashFold(u[..3]) == 34281;
    assert HashFold(u) == 1062768;
    assert 1062768 % 20 == 8;
  }

  lemma ThemeColorLowerP42()
    ensures ThemeColor(Hash("p42")) == "#ff6347"
  {
    HashLowerP42();
    assert 109294 % 20 == 14;
  }

  lemma ThemeColorUpperP42()
    ensures ThemeColor(Hash("P42")) == "#fac858"
  {
    HashUpperP42();
    assert 78542 % 20 == 2;
  }

  lemma HashLowerP42()
    ensures Hash("p42") == 109294
  {
    var s := "p42";
    CodeUnitsBmp(s);
    var u := CodeUnits(s);
    assert u == [112, 52, 50];
    assert u[..2][..1] == u[..1] && u[..1][..0] == [];
    assert HashFold(u[..1]) == 112;
    assert HashFold(u[..2]) == 3524;
    assert HashFold(u) == 109294;
  }

  lemma HashUpperP42()
    ensures Hash("P42") == 78542
  {
    var s := "P42";
    CodeUnitsBmp(s);
    var u := CodeUnits(s);
    assert u == [80, 52, 50];
    assert u[..2][..1] == u[..1] && u[..1][..0] == [];
    assert HashFold(u[..1]) == 80;
    assert HashFold(u[..2]) == 2532;
    assert HashFold(u) == 78542;
  }

  // ---------------------------------------------------------------------------
  // Log-level labels

  /**
   * On the log-level rule some key occurs in the normalized label, so the hash
   * fallback of getLogLevelColor is not reached from getSeriesColor: the colour
   * is the entry of the whole key, or else that of the first key that occurs.
   */
  lemma LogLevelRuleColor(value: string)
    requires RuleFor(value) == LogLevel
    ensures FirstLogLevel(NormalizedKey(value), 0).Some?
    ensures SeriesColor(value) ==
      match LookupLogLevel(NormalizedKey(value), 0)
      case Some(direct) => direct
      case None => LogLevelColors[FirstLogLevel(NormalizedKey(value), 0).value].1
  {
    var lv := ToLower(value);
    var j :| 0 <= j < |LogLevelColors| && Contains(lv, LogLevelColors[j].0);
    LogLevelKeysHaveNoWhiteSpace();
    ContainsTrim(lv, LogLevelColors[j].0);
  }

  /** The first key, in declaration order, that occurs in `s` is the one the scan finds. */
  lemma FirstLogLevelIs(s: string, j: nat)
    requires j < |LogLevelColors| && Contains(s, LogLevelColors[j].0)
    requires forall i :: 0 <= i < j ==> !Contains(s, LogLevelColors[i].0)
    ensures FirstLogLevel(s, 0) == Some(j)
  {
  }

  /**
   * When the whole key is not a log level, getLogLevelColor answers with the
   * first key in declaration order that occurs in it.
   */
  lemma LogLevelFirstMatch(text: string, j: nat)
    requires LookupLogLevel(NormalizedKey(text), 0).None?
    requires j < |LogLevelColors| && Contains(NormalizedKey(text), LogLevelColors[j].0)
    requires forall i :: 0 <= i < j ==> !Contains(NormalizedKey(text), LogLevelColors[i].0)
    ensures LogLevelColor(text) == LogLevelColors[j].1
  {
    FirstLogLevelIs(NormalizedKey(text), j);
  }

  /** With no key occurring, getLogLevelColor hashes the label as written. */
  lemma LogLevelHashFallback(text: string)
    requires forall i :: 0 <= i < |LogLevelColors| ==> !Contains(NormalizedKey(text), LogLevelColors[i].0)
    ensures LogLevelColor(text) == ThemeColor(Hash(text))
  {
    var key := NormalizedKey(text);
    if LookupLogLevel(key, 0).Some? {
      var i :| 0 <= i < |LogLevelColors| && LogLevelColors[i].0 == key;
      ContainsAt(key, key, 0);
    }
  }

  /** `Warning: disk full` is coloured as a warning. */
  lemma WarningDiskFull()
    ensures SeriesColor("Warning: disk full") == "#fac858"
  {
    WarningDiskFullRule();
    WarningDiskFullKey();
    WarningDiskFullNoEntry();
    WarningDiskFullFirst();
    LogLevelRuleColor("Warning: disk full");
  }

  lemma WarningDiskFullRule()
    ensures RuleFor("Warning: disk full") == LogLevel
  {
    var s := "Warning: disk full";
    NotBlank(s, 0);
    WarningDiskFullNotPercentile();
    WarningDiskFullHasLevel();
  }

  lemma WarningDiskFullNotPercentile()
    ensures !IsPercentileText("Warning: disk full")
  {
    var s := "Warning: disk full";
    assert forall k :: 0 <= k < 9 ==> LowerChar(s[k]) != 'm';
    assert forall k :: 9 <= k < |s| ==> LowerChar(s[k]) != 'm';
    NoLetterM(s);
  }

  lemma WarningDiskFullHasLevel()
    ensures HasLogLevel(ToLower("Warning: disk full"))
  {
    var s := "Warning: disk full";
    WarningDiskFullLower();
    var lv := ToLower(s);
    ContainsAt(lv, "warning", 0);
    assert LogLevelColors[5].0 == "warning";
  }

  lemma WarningDiskFullLower()
    ensures ToLower("Warning: disk full") == "warning: disk full"
  {
    var s, t := "Warning: disk full", "warning: disk full";
    assert forall i :: 0 <= i < 9 ==> LowerChar(s[i]) == t[i];
    assert forall i :: 9 <= i < |s| ==> LowerChar(s[i]) == t[i];
    ToLowerIs(s, t);
  }

  lemma WarningDiskFullKey()
    ensures NormalizedKey("Warning: disk full") == "warning: disk full"
  {
    var s := "Warning: disk full";
    PlainKey(s);
    WarningDiskFullLower();
  }

  lemma WarningDiskFullNoEntry()
    ensures LookupLogLevel("warning: disk full", 0).None?
  {
  }

  lemma WarningDiskFullFirst()
    ensures FirstLogLevel("warning: disk full", 0) == Some(5)
  {
    var lv := "warning: disk full";
    WarningDiskFullMisses();
    WarningDiskFullMissesFail();
    ContainsAt(lv, "warning", 0);
    FirstLogLevelIs(lv, 5);
  }

  /** `error`, `failed`, `exception`, `critical`: no window can start with their first letter. */
  lemma WarningDiskFullMisses()
    ensures !Contains("warning: disk full", "error")
    ensures !Contains("warning: disk full", "failed")
    ensures !Contains("warning: disk full", "exception")
    ensures !Contains("warning: disk full", "critical")
  {
    var lv := "warning: disk full";
    assert forall i :: 0 <= i < |lv| ==> lv[i] != 'e' && lv[i] != 'c';
    assert forall i :: 0 <= i < 14 ==> lv[i] != 'f';
    ContainsMismatch(lv, "error", 0, 0);
    ContainsMismatch(lv, "failed", 0, 0);
    ContainsMismatch(lv, "exception", 0, 0);
    ContainsMismatch(lv, "critical", 0, 0);
  }

  /** The only `f` is followed by `u`. */
  lemma WarningDiskFullMissesFail()
    ensures !Contains("warning: disk full", "fail")
  {
    var lv := "warning: disk full";
    assert forall i :: 0 <= i < 14 ==> lv[i] != 'f';
    assert lv[15] == 'u';
    ContainsMismatch(lv, "fail", 0, 1);
  }

  /**
   * Declaration order decides between several keys: `fail` comes before
   * `warn`, so `warn: job failed` is coloured as a failure.
   */
  lemma WarnJobFailed()
    ensures SeriesColor("warn: job failed") == "#ee6666"
  {
    WarnJobFailedRule();
    WarnJobFailedKey();
    WarnJobFailedNoEntry();
    WarnJobFailedFirst();
    LogLevelRuleColor("warn: job failed");
  }

  lemma WarnJobFailedRule()
    ensures RuleFor("warn: job failed") == LogLevel
  {
    var s := "warn: job failed";
    NotBlank(s, 0);
    WarnJobFailedNotPercentile();
    WarnJobFailedHasLevel();
  }

  lemma WarnJobFailedNotPercentile()
    ensures !IsPercentileText("warn: job failed")
  {
    var s := "warn: job failed";
    assert forall k :: 0 <= k < 8 ==> LowerChar(s[k]) != 'm';
    assert forall k :: 8 <= k < |s| ==> LowerChar(s[k]) != 'm';
    NoLetterM(s);
  }

  lemma WarnJobFailedHasLevel()
    ensures HasLogLevel(ToLower("warn: job failed"))
  {
    var s := "warn: job failed";
    assert ToLower(s) == s;
    ContainsAt(s, "warn", 0);
    assert LogLevelColors[6].0 == "warn";
  }

  lemma WarnJobFailedKey()
    ensures NormalizedKey("warn: job failed") == "warn: job failed"
  {
    var s := "warn: job failed";
    PlainKey(s);
    assert ToLower(s) == s;
  }

  lemma WarnJobFailedNoEntry()
    ensures LookupLogLevel("warn: job failed", 0).None?
  {
  }

  lemma WarnJobFailedFirst()
    ensures FirstLogLevel("warn: job failed", 0) == Some(1)
  {
    var lv := "warn: job failed";
    ContainsMismatch(lv, "error", 0, 0);
    assert lv[10..14] == "fail";
    ContainsAt(lv, "fail", 10);
    FirstLogLevelIs(lv, 1);
  }

  // ---------------------------------------------------------------------------
  // Keys inherited from Object.prototype

  /**
   * The lowercase names a record lookup finds on Object.prototype: there
   * `PERCENTILE_COLORS[key]` and `LOG_LEVEL_COLORS[key]` are not misses.
   */
  predicate IsPrototypeKey(key: string)
  {
    key == "constructor" || key == "__proto__"
  }

  /** A needle holding a character the string lacks does not occur in it. */
  lemma MissingCharNotContained(s: string, t: string, p: nat, letters: set<char>)
    requires p < |t| && t[p] !in letters
    requires forall k :: 0 <= k < |s| ==> s[k] in letters
    ensures !Contains(s, t)
  {
    ContainsMismatch(s, t, p, p);
  }

  /** Neither inherited name contains a log-level key. */
  lemma PrototypeKeyHasNoLogLevel(key: string)
    ensures IsPrototypeKey(key) ==> !HasLogLevel(key)
  {
    if IsPrototypeKey(key) {
      var letters := {'c', 'o', 'n', 's', 't', 'r', 'u', '_', 'p'};
      assert forall k :: 0 <= k < |key| ==> key[k] in letters;
      forall j | 0 <= j < |LogLevelColors|
        ensures !Contains(key, LogLevelColors[j].0)
      {
        var t := LogLevelColors[j].0;
        var p := if t == "success" then 4 else if t == "ok" then 1 else if t == "trace" || t == "critical" then 2 else 0;
        MissingCharNotContained(key, t, p, letters);
      }
    }
  }

  /** A percentile-shaped label never normalizes to an inherited name. */
  lemma PrototypeKeyNotPercentile(value: string)
    ensures IsPercentileText(value) ==> !IsPrototypeKey(NormalizedKey(value))
  {
    if IsPercentileText(value) {
      var lv := ToLower(value);
      var key := NormalizedKey(value);
      if |value| >= 2 && (LowerChar(value[0]) == 'p' || LowerChar(value[0]) == 'q') && IsDigit(value[1]) {
        TrimKeepsFirst(lv);
        assert key[0] == 'p' || key[0] == 'q';
      } else {
        var t := if Contains(lv, "median") then "median" else if Contains(lv, "max") then "max" else "min";
        ContainsTrim(lv, t);
        var letters := {'c', 'o', 'n', 's', 't', 'r', 'u', '_', 'p'};
        if IsPrototypeKey(key) {
          assert forall k :: 0 <= k < |key| ==> key[k] in letters;
          MissingCharNotContained(key, t, 0, letters);
        }
      }
    }
  }

  /**
   * The labels getSeriesColor hands to getPercentileColor or getLogLevelColor
   * never normalize to an inherited name, so for them both tables behave as
   * own-key lookups.
   */
  lemma PrototypeKeysUnreachable(value: string)
    ensures RuleFor(value) == Percentile || RuleFor(value) == LogLevel ==>
      !IsPrototypeKey(NormalizedKey(value))
  {
    PrototypeKeyNotPercentile(value);
    if RuleFor(value) == LogLevel {
      LogLevelRuleColor(value);
      PrototypeKeyHasNoLogLevel(NormalizedKey(value));
    }
  }

  // ---------------------------------------------------------------------------
  // The whole cascade

  lemma PaletteColorIsHex(hash: nat)
    ensures IsHexColor(ThemeColor(hash)) && ThemeColor(hash) != OutOfRangeStatusColor
  {
    ThemeColorsAreHex();
  }

  /** getPercentileColor answers with a table colour or a palette colour. */
  lemma PercentileColorIsHex(p: string)
    ensures IsHexColor(PercentileColor(p)) && PercentileColor(p) != OutOfRangeStatusColor
  {
    PercentileColorsAreHex();
    PaletteColorIsHex(Hash(p));
  }

  /** getLogLevelColor answers with a log-level colour or a palette colour. */
  lemma LogLevelColorIsHex(text: string)
    ensures IsHexColor(LogLevelColor(text)) && LogLevelColor(text) != OutOfRangeStatusColor
  {
    LogLevelColorsAreHex();
    PaletteColorIsHex(Hash(text));
  }

  /**
   * The fallback `#9d96f5` of getStatusCodeColor is never the colour of a
   * label: the status rule only admits codes in range and class tokens.
   */
  lemma SeriesColorNeverOutOfRange(value: string)
    ensures SeriesColor(value) != OutOfRangeStatusColor
  {
    match RuleFor(value)
    case BlankLabel => ThemeColorsAreHex();
    case NullLike =>
    case HttpStatus =>
      if IsStatusCodeText(value) {
        StatusCodeLabelColor(value);
      } else {
        StatusClassLabelColor(value);
      }
    case Percentile => PercentileColorIsHex(value);
    case LogLevel => LogLevelColorIsHex(value);
    case Hashed => PaletteColorIsHex(Hash(value));
  }

  /** Every label gets a `#rrggbb` colour. */
  lemma SeriesColorIsHex(value: string)
    ensures IsHexColor(SeriesColor(value))
  {
    match RuleFor(value)
    case BlankLabel => ThemeColorsAreHex();
    case NullLike =>
    case HttpStatus => StatusCodeColorIsHex(Text(value));
    case Percentile => PercentileColorIsHex(value);
    case LogLevel => LogLevelColorIsHex(value);
    case Hashed => PaletteColorIsHex(Hash(value));
  }

  // ---------------------------------------------------------------------------
  // Hashed labels

  /** Every log-level key has at least two characters. */
  lemma ShortTextHasNoLogLevel(lv: string)
    requires |lv| < 2
    ensures !HasLogLevel(lv)
  {
    forall j | 0 <= j < |LogLevelColors|
      ensures !Contains(lv, LogLevelColors[j].0)
    {
      ContainsLonger(lv, LogLevelColors[j].0);
    }
  }

  /** Every log-level key starts with a lowercase ASCII letter. */
  lemma NoLetterHasNoLogLevel(lv: string)
    requires forall k :: 0 <= k < |lv| ==> !('a' <= lv[k] <= 'z')
    ensures !HasLogLevel(lv)
  {
    forall j | 0 <= j < |LogLevelColors|
      ensures !Contains(lv, LogLevelColors[j].0)
    {
      ContainsNeedsFirst(lv, LogLevelColors[j].0);
    }
  }

  /**
   * The hash fallback is case-sensitive: `a` and `A` hash to 97 and 65 and
   * get palette entries 17 and 5.
   */
  lemma HashedSingleLetters()
    ensures SeriesColor("a") == "#4b0082"
    ensures SeriesColor("A") == "#3ba272"
  {
    HashedLowerA();
    HashedUpperA();
  }

  lemma HashedLowerA()
    ensures SeriesColor("a") == "#4b0082"
  {
    HashedLowerARule();
    HashLowerA();
    assert 97 % 20 == 17;
  }

  lemma HashedLowerARule()
    ensures RuleFor("a") == Hashed
  {
    var s := "a";
    NotBlank(s, 0);
    ShortTextHasNoLogLevel(ToLower(s));
  }

  lemma HashLowerA()
    ensures Hash("a") == 97
  {
    var s := "a";
    CodeUnitsBmp(s);
    assert CodeUnits(s) == [97];
    assert CodeUnits(s)[..0] == [];
  }

  lemma HashedUpperA()
    ensures SeriesColor("A") == "#3ba272"
  {
    HashedUpperARule();
    HashUpperA();
    assert 65 % 20 == 5;
  }

  lemma HashedUpperARule()
    ensures RuleFor("A") == Hashed
  {
    var s := "A";
    NotBlank(s, 0);
    ShortTextHasNoLogLevel(ToLower(s));
  }

  lemma HashUpperA()
    ensures Hash("A") == 65
  {
    var s := "A";
    CodeUnitsBmp(s);
    assert CodeUnits(s) == [65];
    assert CodeUnits(s)[..0] == [];
  }

  /**
   * The label whose hash is 2^31, the absolute value of the int32 minimum,
   * is hashed like any other label and gets palette entry 2^31 % 20 = 8.
   */
  lemma HashedBoundaryLabel()
    ensures SeriesColor("\U{0914}'<(_") == ThemeColors[8] == "#c71585"
  {
    HashedBoundaryRule();
    HashReachesTwoTo31();
    assert TwoTo31 % 20 == 8;
  }

  lemma HashedBoundaryRule()
    ensures RuleFor("\U{0914}'<(_") == Hashed
  {
    var s := "\U{0914}'<(_";
    assert ToLower(s) == s;
    NotBlank(s, 0);
    assert forall k :: 0 <= k < |s| ==> LowerChar(s[k]) != 'm';
    NoLetterM(s);
    NoLetterHasNoLogLevel(s);
  }
}
