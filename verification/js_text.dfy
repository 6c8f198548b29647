/**
 * The JavaScript string operations the icon resolver relies on, on strings
 * modelled as sequences of Dafny characters. A Dafny character is a Unicode
 * scalar value, not a UTF-16 code unit, so a position returned by `IndexOf`
 * differs from JavaScript's `indexOf` after a character outside the Basic
 * Multilingual Plane; the string `RemoveFirst` returns is the same.
 */
module JsText {
  import opened Wrappers

  /** `s.endsWith(suffix)` */
  predicate EndsWith(s: string, suffix: string)
    ensures EndsWith(s, suffix) <==> |suffix| <= |s| && OccursAt(s, suffix, |s| - |suffix|)
  {
    |suffix| <= |s| && s[|s| - |suffix|..] == suffix
  }

  /** A string does not end with a suffix whose last character differs from its own. */
  lemma LastCharRulesOutSuffix(s: string, suffix: string)
    requires |s| > 0 && |suffix| > 0 && s[|s| - 1] != suffix[|suffix| - 1]
    ensures !EndsWith(s, suffix)
  {
    if |suffix| <= |s| {
      assert s[|s| - |suffix|..][|suffix| - 1] == s[|s| - 1];
    }
  }

  /** A string ends with whatever was appended last. */
  lemma EndsWithAppended(a: string, b: string)
    ensures EndsWith(a + b, b)
  {
    assert (a + b)[|a|..] == b;
  }

  /** `endsWith` holds exactly when the string is something followed by the suffix. */
  lemma EndsWithIffAppended(s: string, suffix: string)
    ensures EndsWith(s, suffix) <==> exists t: string :: s == t + suffix
  {
    if EndsWith(s, suffix) {
      var t := s[..|s| - |suffix|];
      assert s == t + suffix;
    }
    if t: string :| s == t + suffix {
      EndsWithAppended(t, suffix);
    }
  }

  /** `sub` occurs in `s` starting at position `i`. */
  predicate OccursAt(s: string, sub: string, i: nat) {
    i + |sub| <= |s| && s[i..i + |sub|] == sub
  }

  /** The first position at or after `from` where `sub` occurs. */
  function IndexFrom(s: string, sub: string, from: nat): (r: Option<nat>)
    ensures r.Some? ==> from <= r.value && OccursAt(s, sub, r.value)
    ensures r.Some? ==> forall j :: from <= j < r.value ==> !OccursAt(s, sub, j)
    ensures r.None? ==> forall j :: from <= j ==> !OccursAt(s, sub, j)
    decreases |s| + 1 - from
  {
    if from + |sub| > |s| then None
    else if s[from..from + |sub|] == sub then Some(from)
    else IndexFrom(s, sub, from + 1)
  }

  /** `s.indexOf(sub)`, with `None` for JavaScript's -1. */
  function IndexOf(s: string, sub: string): (r: Option<nat>)
    ensures r.Some? ==> OccursAt(s, sub, r.value)
    ensures r.Some? ==> forall j :: 0 <= j < r.value ==> !OccursAt(s, sub, j)
    ensures r.None? <==> forall j :: 0 <= j ==> !OccursAt(s, sub, j)
  {
    IndexFrom(s, sub, 0)
  }

  /** `s.replace(sub, "")`: a string pattern replaces only its first occurrence. */
  function RemoveFirst(s: string, sub: string): (r: string)
    ensures IndexOf(s, sub).None? ==> r == s
    ensures IndexOf(s, sub).Some? ==>
              var i := IndexOf(s, sub).value;
              r == s[..i] + s[i + |sub|..] && |r| == |s| - |sub|
  {
    match IndexOf(s, sub)
    case None => s
    case Some(i) => s[..i] + s[i + |sub|..]
  }

  /**
   * `s.replace(/(.*)-$/, "$1")`. Whatever line terminators `s` holds, the
   * leftmost match ends at the final character, so exactly one trailing
   * '-' is dropped.
   */
  function StripTrailingDash(s: string): (r: string)
    ensures EndsWith(s, "-") ==> r + "-" == s
    ensures !EndsWith(s, "-") ==> r == s
  {
    if |s| > 0 && s[|s| - 1] == '-' then s[..|s| - 1] else s
  }

  /** When the first occurrence of `sub` is the suffix, removing it removes the suffix. */
  lemma RemoveFirstOfSoleSuffix(s: string, sub: string)
    requires EndsWith(s, sub)
    requires forall j :: 0 <= j < |s| - |sub| ==> !OccursAt(s, sub, j)
    ensures RemoveFirst(s, sub) + sub == s
  {
    assert OccursAt(s, sub, |s| - |sub|);
    assert IndexOf(s, sub) == Some(|s| - |sub|);
  }

  // ---------------------------------------------------------------------
  // Decimal array-index keys
  // ---------------------------------------------------------------------

  predicate IsDigit(c: char) {
    '0' <= c <= '9'
  }

  predicate AllDigits(s: string) {
    forall i :: 0 <= i < |s| ==> IsDigit(s[i])
  }

  /** The value of a string of decimal digits. */
  function DigitsValue(s: string): nat
    requires AllDigits(s)
  {
    if |s| == 0 then 0
    else DigitsValue(s[..|s| - 1]) * 10 + (s[|s| - 1] as int - '0' as int)
  }

  function DigitChar(d: nat): (c: char)
    requires d < 10
    ensures IsDigit(c) && c as int - '0' as int == d
  {
    ('0' as int + d) as char
  }

  /** `String(n)` for a non-negative integer: its canonical decimal spelling. */
  function NatToString(n: nat): string {
    if n < 10 then [DigitChar(n)]
    else NatToString(n / 10) + [DigitChar(n % 10)]
  }

  /**
   * A canonical numeric string: the property keys JavaScript gives array
   * elements are exactly these ("0", "7", "12"; never "07", "" or "-1").
   */
  predicate IsCanonicalIndex(s: string) {
    |s| > 0 && AllDigits(s) && (s[0] == '0' ==> |s| == 1)
  }

  /** Spelling a number and reading it back gives the number, and the spelling is canonical. */
  lemma {:induction false} NatToStringRoundTrip(n: nat)
    ensures IsCanonicalIndex(NatToString(n))
    ensures DigitsValue(NatToString(n)) == n
  {
    if n >= 10 {
      NatToStringRoundTrip(n / 10);
      var p := NatToString(n / 10);
      var s := p + [DigitChar(n % 10)];
      assert s[..|s| - 1] == p;
      assert s[0] == p[0];
    }
  }

  /** A canonical key with a non-zero leading digit has a positive value. */
  lemma {:induction false} LeadingNonZeroIsPositive(s: string)
    requires |s| > 0 && AllDigits(s) && s[0] != '0'
    ensures DigitsValue(s) >= 1
  {
    if |s| > 1 {
      var p := s[..|s| - 1];
      assert p[0] == s[0];
      LeadingNonZeroIsPositive(p);
    }
  }

  /** Reading a canonical key and spelling its value gives the key back. */
  lemma {:induction false} CanonicalIndexRoundTrip(s: string)
    requires IsCanonicalIndex(s)
    ensures NatToString(DigitsValue(s)) == s
  {
    if |s| > 1 {
      var p := s[..|s| - 1];
      assert p[0] == s[0];
      LeadingNonZeroIsPositive(p);
      CanonicalIndexRoundTrip(p);
      assert s == p + [s[|s| - 1]];
    }
  }
}
