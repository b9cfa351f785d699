/** The string operations the route summarizer relies on: substring search as
    Python's `str.find` and `in` perform it, the digit test of `str.isdigit`
    (restricted to ASCII digits) and the decimal reading of `int(s)`. */
module Text {
  import opened Wrappers

  /** `pat` occurs in `s` starting at index `k`. */
  predicate OccursAt(s: string, pat: string, k: nat) {
    k + |pat| <= |s| && s[k..k + |pat|] == pat
  }

  /** The lowest index at or after `from` where `pat` occurs in `s`. */
  function FindFrom(s: string, pat: string, from: nat): Option<nat>
    decreases |s| - from
  {
    if from + |pat| > |s| then None
    else if s[from..from + |pat|] == pat then Some(from)
    else FindFrom(s, pat, from + 1)
  }

  /** Python's `s.find(pat)`: the index of the first occurrence of `pat` in `s`,
      or None where Python returns -1. */
  function FirstIndex(s: string, pat: string): Option<nat> {
    FindFrom(s, pat, 0)
  }

  /** Python's `pat in s`. */
  function Contains(s: string, pat: string): bool {
    FirstIndex(s, pat).Some?
  }

  /** `FindFrom` finds the first occurrence at or after `from`, and finds
      nothing only when there is none. */
  lemma {:induction false} FindFromSpec(s: string, pat: string, from: nat)
    decreases |s| - from
    ensures var r := FindFrom(s, pat, from);
      && (r.Some? ==> from <= r.value && OccursAt(s, pat, r.value))
      && (r.Some? ==> forall k :: from <= k < r.value ==> !OccursAt(s, pat, k))
      && (r.None? ==> forall k :: from <= k ==> !OccursAt(s, pat, k))
  {
    if from + |pat| <= |s| && s[from..from + |pat|] != pat {
      FindFromSpec(s, pat, from + 1);
    }
  }

  /** `FirstIndex` returns the first occurrence, and None exactly when there is
      no occurrence at all. */
  lemma FirstIndexSpec(s: string, pat: string)
    ensures var r := FirstIndex(s, pat);
      && (r.Some? ==> OccursAt(s, pat, r.value))
      && (r.Some? ==> forall k :: 0 <= k < r.value ==> !OccursAt(s, pat, k))
      && (r.None? <==> forall k :: !OccursAt(s, pat, k))
  {
    FindFromSpec(s, pat, 0);
  }

  /** `pat in s` holds exactly when `pat` occurs somewhere in `s`. */
  lemma ContainsSpec(s: string, pat: string)
    ensures Contains(s, pat) <==> exists k :: OccursAt(s, pat, k)
  {
    FirstIndexSpec(s, pat);
  }

  /** Any occurrence of `pat` that is not preceded by an earlier one is the one
      `FirstIndex` finds. */
  lemma FirstIndexIs(s: string, pat: string, k: nat)
    requires OccursAt(s, pat, k)
    requires forall j :: 0 <= j < k ==> !OccursAt(s, pat, j)
    ensures FirstIndex(s, pat) == Some(k)
  {
    FirstIndexSpec(s, pat);
  }

  predicate IsDigit(c: char) {
    '0' <= c <= '9'
  }

  /** `s.isdigit()` for ASCII digits (false on the empty string, as in Python). */
  predicate IsNumeral(s: string) {
    |s| > 0 && AllDigits(s)
  }

  predicate AllDigits(s: string) {
    forall i :: 0 <= i < |s| ==> IsDigit(s[i])
  }

  function DigitValue(c: char): (d: nat)
    requires IsDigit(c)
    ensures d < 10
  {
    (c - '0') as nat
  }

  function DigitChar(d: nat): (c: char)
    requires d < 10
    ensures IsDigit(c) && DigitValue(c) == d
  {
    ('0' as int + d) as char
  }

  function Pow10(n: nat): (p: nat)
    ensures p >= 1
  {
    if n == 0 then 1 else 10 * Pow10(n - 1)
  }

  /** `int(s)` for a string of decimal digits: leading zeros are allowed and the
      empty string reads as 0. A numeral of `n` digits stays below `10^n`. */
  function ParseNat(s: string): (v: nat)
    requires AllDigits(s)
    ensures v < Pow10(|s|)
  {
    if s == [] then 0
    else ParseNat(s[..|s| - 1]) * 10 + DigitValue(s[|s| - 1])
  }

  /** The shortest decimal rendering of `n`: the reference that `ParseNat` inverts. */
  function DecimalOf(n: nat): (s: string)
    ensures IsNumeral(s)
    ensures |s| > 1 ==> s[0] != '0'
  {
    if n < 10 then [DigitChar(n)]
    else DecimalOf(n / 10) + [DigitChar(n % 10)]
  }

  /** Reading back a rendered number gives the number. */
  lemma {:induction false} ParseDecimal(n: nat)
    ensures ParseNat(DecimalOf(n)) == n
  {
    var s := DecimalOf(n);
    if n >= 10 {
      assert s[..|s| - 1] == DecimalOf(n / 10);
      ParseDecimal(n / 10);
    }
  }

  /** Leading zeros do not change the value `int(s)` reads. */
  lemma {:induction false} ParseLeadingZero(s: string)
    requires AllDigits(s)
    ensures AllDigits("0" + s) && ParseNat("0" + s) == ParseNat(s)
  {
    var t := "0" + s;
    if s != [] {
      assert t[..|t| - 1] == "0" + s[..|s| - 1];
      ParseLeadingZero(s[..|s| - 1]);
    }
  }
}
