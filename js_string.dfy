/**
 * The JavaScript string operations the colour resolver uses, on Dafny strings
 * (sequences of Unicode scalar values): `trim`, an ASCII-only `toLowerCase`,
 * `includes`, `parseInt(_, 10)`, the decimal form of a natural number, and the
 * UTF-16 code units that `length` and `charCodeAt` see.
 */
module JsString {
  import opened Wrappers

  /** A UTF-16 code unit, the value `charCodeAt` returns. */
  type CodeUnit = x: int | 0 <= x < 0x1_0000

  /**
   * The characters `trim` and `parseInt` skip: ECMAScript WhiteSpace (tab,
   * vertical tab, form feed, space, no-break space, byte order mark and the
   * Unicode space separators) and LineTerminator (LF, CR, U+2028, U+2029).
   */
  predicate IsWhiteSpace(c: char)
  {
    var n := c as int;
    n == 0x09 || n == 0x0A || n == 0x0B || n == 0x0C || n == 0x0D ||
    n == 0x20 || n == 0xA0 || n == 0x1680 || (0x2000 <= n <= 0x200A) ||
    n == 0x2028 || n == 0x2029 || n == 0x202F || n == 0x205F ||
    n == 0x3000 || n == 0xFEFF
  }

  predicate IsDigit(c: char)
  {
    '0' <= c <= '9'
  }

  function DigitValue(c: char): nat
    requires IsDigit(c)
  {
    c as int - '0' as int
  }

  // ---------------------------------------------------------------------------
  // toLowerCase, restricted to ASCII letters

  function LowerChar(c: char): char
  {
    if 'A' <= c <= 'Z' then (c as int + 32) as char else c
  }

  function ToLower(s: string): (r: string)
    ensures |r| == |s|
    ensures forall i :: 0 <= i < |s| ==> r[i] == LowerChar(s[i])
  {
    seq(|s|, i requires 0 <= i < |s| => LowerChar(s[i]))
  }

  // ---------------------------------------------------------------------------
  // trim

  /** Index of the first non-whitespace character at or after `k`. */
  function SkipWhiteSpace(s: string, k: nat): (r: nat)
    requires k <= |s|
    ensures k <= r <= |s|
    ensures forall i :: k <= i < r ==> IsWhiteSpace(s[i])
    ensures r < |s| ==> !IsWhiteSpace(s[r])
    decreases |s| - k
  {
    if k < |s| && IsWhiteSpace(s[k]) then SkipWhiteSpace(s, k + 1) else k
  }

  /** The end of `s[lo..hi]` once its trailing whitespace is dropped. */
  function DropTrailingWhiteSpace(s: string, lo: nat, hi: nat): (r: nat)
    requires lo <= hi <= |s|
    ensures lo <= r <= hi
    ensures forall i :: r <= i < hi ==> IsWhiteSpace(s[i])
    ensures r > lo ==> !IsWhiteSpace(s[r - 1])
    decreases hi - lo
  {
    if hi > lo && IsWhiteSpace(s[hi - 1]) then DropTrailingWhiteSpace(s, lo, hi - 1) else hi
  }

  function TrimStart(s: string): string
  {
    s[SkipWhiteSpace(s, 0)..]
  }

  function Trim(s: string): string
  {
    var lo := SkipWhiteSpace(s, 0);
    s[lo..DropTrailingWhiteSpace(s, lo, |s|)]
  }

  /** `s.trim() === ''` exactly when every character of `s` is whitespace. */
  lemma TrimEmptyIff(s: string)
    ensures Trim(s) == [] <==> forall i :: 0 <= i < |s| ==> IsWhiteSpace(s[i])
  {
    var lo := SkipWhiteSpace(s, 0);
    var hi := DropTrailingWhiteSpace(s, lo, |s|);
    if Trim(s) == [] {
      assert hi == lo;
      forall i | 0 <= i < |s| ensures IsWhiteSpace(s[i]) {
        if i >= lo { assert hi <= i < |s|; }
      }
    }
  }

  /** A string that does not start with whitespace keeps its first character when trimmed. */
  lemma TrimKeepsFirst(s: string)
    requires |s| > 0 && !IsWhiteSpace(s[0])
    ensures |Trim(s)| > 0 && Trim(s)[0] == s[0]
  {
    var lo := SkipWhiteSpace(s, 0);
    assert lo == 0;
    var hi := DropTrailingWhiteSpace(s, lo, |s|);
    assert hi > 0;
  }

  /** Trimming a string that neither starts nor ends with whitespace leaves it as it is. */
  lemma TrimUnpadded(s: string)
    requires |s| > 0 ==> !IsWhiteSpace(s[0]) && !IsWhiteSpace(s[|s| - 1])
    ensures Trim(s) == s
  {
    var lo := SkipWhiteSpace(s, 0);
    assert lo == 0;
    assert DropTrailingWhiteSpace(s, lo, |s|) == |s|;
  }

  // ---------------------------------------------------------------------------
  // includes

  /** `t` occurs in `s` at position `k`. */
  predicate OccursAt(s: string, t: string, k: int)
  {
    0 <= k && k + |t| <= |s| && s[k..k + |t|] == t
  }

  /** `s[k + j..k + |t|] == t[j..]`, compared one character at a time. */
  predicate MatchesFrom(s: string, t: string, k: nat, j: nat)
    requires k + |t| <= |s| && j <= |t|
    decreases |t| - j
  {
    j == |t| || (s[k + j] == t[j] && MatchesFrom(s, t, k, j + 1))
  }

  /** `t` occurs in `s` at some position `k` or later. */
  predicate OccursFrom(s: string, t: string, k: nat)
    decreases |s| - k
  {
    k + |t| <= |s| && (MatchesFrom(s, t, k, 0) || OccursFrom(s, t, k + 1))
  }

  /** `s.includes(t)` */
  predicate Contains(s: string, t: string)
  {
    OccursFrom(s, t, 0)
  }

  lemma {:induction false} MatchesFromIff(s: string, t: string, k: nat, j: nat)
    requires k + |t| <= |s| && j <= |t|
    ensures MatchesFrom(s, t, k, j) <==> s[k + j..k + |t|] == t[j..]
    decreases |t| - j
  {
    if j < |t| {
      MatchesFromIff(s, t, k, j + 1);
      assert s[k + j..k + |t|] == [s[k + j]] + s[k + j + 1..k + |t|];
      assert t[j..] == [t[j]] + t[j + 1..];
    }
  }

  lemma {:induction false} OccursFromIff(s: string, t: string, k: nat)
    ensures OccursFrom(s, t, k) <==> exists m :: k <= m && OccursAt(s, t, m)
    decreases |s| - k
  {
    if k + |t| <= |s| {
      MatchesFromIff(s, t, k, 0);
      assert t[0..] == t;
      OccursFromIff(s, t, k + 1);
      if exists m :: k <= m && OccursAt(s, t, m) {
        var m :| k <= m && OccursAt(s, t, m);
        if m > k {
          assert k + 1 <= m && OccursAt(s, t, m);
        }
      } else {
        assert !OccursAt(s, t, k);
        assert !exists m :: k + 1 <= m && OccursAt(s, t, m);
      }
    } else {
      assert forall m :: k <= m ==> !OccursAt(s, t, m);
    }
  }

  /** `includes` holds exactly when there is a position where `t` occurs. */
  lemma ContainsIff(s: string, t: string)
    ensures Contains(s, t) <==> exists k :: OccursAt(s, t, k)
  {
    OccursFromIff(s, t, 0);
  }

  /** A string without the needle's first character does not contain it. */
  lemma ContainsNeedsFirst(s: string, t: string)
    requires |t| > 0
    requires forall k :: 0 <= k < |s| ==> s[k] != t[0]
    ensures !Contains(s, t)
  {
    ContainsIff(s, t);
    forall k | 0 <= k && k + |t| <= |s|
      ensures !OccursAt(s, t, k)
    {
      assert s[k..k + |t|][0] == s[k];
    }
  }

  /**
   * `s` does not contain `t` when every window of `s` differs from `t` at
   * offset `p` or at offset `q`: each `i` below is where a window's offset
   * `p` falls.
   */
  lemma ContainsMismatch(s: string, t: string, p: nat, q: nat)
    requires p < |t| && q < |t|
    requires forall i :: p <= i && i - p + |t| <= |s| ==> s[i] != t[p] || s[i - p + q] != t[q]
    ensures !Contains(s, t)
  {
    ContainsIff(s, t);
    forall k | 0 <= k && k + |t| <= |s|
      ensures !OccursAt(s, t, k)
    {
      assert s[k..k + |t|][p] == s[k + p] && s[k..k + |t|][q] == s[k + q];
    }
  }

  /** `ToLower(s)` is `t` when they agree character by character. */
  lemma ToLowerIs(s: string, t: string)
    requires |s| == |t|
    requires forall i :: 0 <= i < |s| ==> LowerChar(s[i]) == t[i]
    ensures ToLower(s) == t
  {
  }

  /** A needle longer than the string does not occur in it. */
  lemma ContainsLonger(s: string, t: string)
    requires |t| > |s|
    ensures !Contains(s, t)
  {
    ContainsIff(s, t);
  }

  lemma ContainsAt(s: string, t: string, k: int)
    requires OccursAt(s, t, k)
    ensures Contains(s, t)
  {
    ContainsIff(s, t);
  }

  /**
   * A whitespace-free needle that occurs in a string occurs in the trimmed
   * string: trimming only removes whitespace from the two ends.
   */
  lemma ContainsTrim(s: string, t: string)
    requires forall i :: 0 <= i < |t| ==> !IsWhiteSpace(t[i])
    requires Contains(s, t)
    ensures Contains(Trim(s), t)
  {
    var lo := SkipWhiteSpace(s, 0);
    var hi := DropTrailingWhiteSpace(s, lo, |s|);
    var r := s[lo..hi];
    assert Trim(s) == r;
    ContainsIff(s, t);
    var k :| OccursAt(s, t, k);
    if |t| == 0 {
      ContainsAt(r, t, 0);
    } else {
      assert t[0] == s[k] && t[|t| - 1] == s[k + |t| - 1];
      assert lo <= k;
      assert k + |t| <= hi;
      var inTrim, inS := r[k - lo..k - lo + |t|], s[k..k + |t|];
      forall m | 0 <= m < |t| ensures inTrim[m] == inS[m] {
        assert inTrim[m] == r[k - lo + m] && inS[m] == s[k + m];
      }
      assert inTrim == inS;
      ContainsAt(r, t, k - lo);
    }
  }

  // ---------------------------------------------------------------------------
  // parseInt(s, 10)

  /** Length of the longest prefix of `s[k..]` made of ASCII digits, plus `k`. */
  function DigitRunEnd(s: string, k: nat): (r: nat)
    requires k <= |s|
    ensures k <= r <= |s|
    ensures forall i :: k <= i < r ==> IsDigit(s[i])
    ensures r < |s| ==> !IsDigit(s[r])
    decreases |s| - k
  {
    if k < |s| && IsDigit(s[k]) then DigitRunEnd(s, k + 1) else k
  }

  /** The value of a run of decimal digits, most significant first. */
  function DecimalValue(d: string): nat
    requires forall i :: 0 <= i < |d| ==> IsDigit(d[i])
  {
    if |d| == 0 then 0 else DecimalValue(d[..|d| - 1]) * 10 + DigitValue(d[|d| - 1])
  }

  /**
   * `parseInt(s, 10)`: skip leading whitespace, take an optional sign, then
   * the longest run of decimal digits; `None` stands for NaN (no digits).
   */
  function ParseInt(s: string): (r: Option<int>)
    ensures r.None? <==> DigitRunEnd(SignStripped(TrimStart(s)), 0) == 0
  {
    var t := TrimStart(s);
    var u := SignStripped(t);
    var n := DigitRunEnd(u, 0);
    var v: int := if n == 0 then 0 else DecimalValue(u[..n]);
    if n == 0 then None
    else if |t| > 0 && t[0] == '-' then Some(-v)
    else Some(v)
  }

  function SignStripped(t: string): string
  {
    if |t| > 0 && (t[0] == '-' || t[0] == '+') then t[1..] else t
  }

  /** Three ASCII digits parse to their decimal value. */
  lemma ParseThreeDigits(s: string)
    requires |s| == 3 && IsDigit(s[0]) && IsDigit(s[1]) && IsDigit(s[2])
    ensures ParseInt(s) == Some(100 * DigitValue(s[0]) + 10 * DigitValue(s[1]) + DigitValue(s[2]))
  {
    assert SkipWhiteSpace(s, 0) == 0;
    assert TrimStart(s) == s;
    assert SignStripped(s) == s;
    assert DigitRunEnd(s, 0) == 3 by {
      assert DigitRunEnd(s, 3) == 3;
      assert DigitRunEnd(s, 2) == 3;
      assert DigitRunEnd(s, 1) == 3;
    }
    assert s[..3] == s;
    assert s[..2][..1] == s[..1];
    assert s[..1][..0] == [];
    assert DecimalValue(s[..1]) == DigitValue(s[0]);
    assert DecimalValue(s[..2]) == 10 * DigitValue(s[0]) + DigitValue(s[1]);
  }

  // ---------------------------------------------------------------------------
  // `${n}` for a natural number

  function DigitChar(d: nat): (c: char)
    requires d < 10
    ensures IsDigit(c) && DigitValue(c) == d
  {
    ('0' as int + d) as char
  }

  /** The decimal form of `n`: digits only, no leading zero, and its value is `n`. */
  function NatToDecimal(n: nat): (r: string)
    ensures |r| >= 1
    ensures forall i :: 0 <= i < |r| ==> IsDigit(r[i])
    ensures r[0] == '0' ==> n == 0
    ensures DecimalValue(r) == n
  {
    if n < 10 then
      var r := [DigitChar(n)];
      assert r[..0] == [];
      r
    else
      var p := NatToDecimal(n / 10);
      var r := p + [DigitChar(n % 10)];
      assert r[..|r| - 1] == p;
      r
  }

  /** `parseInt` reads back the decimal form of every natural number. */
  lemma ParseNatToDecimal(n: nat)
    ensures ParseInt(NatToDecimal(n)) == Some(n)
  {
    var r := NatToDecimal(n);
    assert SkipWhiteSpace(r, 0) == 0;
    assert TrimStart(r) == r;
    assert SignStripped(r) == r;
    assert DigitRunEnd(r, 0) == |r|;
    assert r[..|r|] == r;
  }

  // ---------------------------------------------------------------------------
  // UTF-16 code units

  /** The UTF-16 encoding of one character: one unit, or a surrogate pair. */
  function CharUnits(c: char): (u: seq<CodeUnit>)
    ensures 1 <= |u| <= 2
    ensures |u| == 1 <==> c as int < 0x1_0000
  {
    if c as int < 0x1_0000 then [c as int]
    else
      var v := c as int - 0x1_0000;
      [0xD800 + v / 0x400, 0xDC00 + v % 0x400]
  }

  /** The code units of `s`, as `length` and `charCodeAt` see them. */
  function CodeUnits(s: string): seq<CodeUnit>
  {
    if |s| == 0 then [] else CodeUnits(s[..|s| - 1]) + CharUnits(s[|s| - 1])
  }

  /** In the Basic Multilingual Plane every character is one code unit. */
  lemma {:induction false} CodeUnitsBmp(s: string)
    requires forall i :: 0 <= i < |s| ==> s[i] as int < 0x1_0000
    ensures |CodeUnits(s)| == |s|
    ensures forall i :: 0 <= i < |s| ==> CodeUnits(s)[i] == s[i] as int
  {
    if |s| > 0 {
      CodeUnitsBmp(s[..|s| - 1]);
    }
  }
}
