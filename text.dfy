/**
  The pieces of JavaScript string and regular-expression behaviour the ICS import relies on:
  ASCII digits (what `\d` matches without the `u` flag), `parseInt` of a run of digits,
  zero-padded decimal formatting, and the leftmost-match search `String.prototype.match`
  performs for a pattern without the `g` flag.
*/
module Text {
  import opened Wrappers

  predicate IsDigit(c: char) {
    '0' <= c <= '9'
  }

  predicate AllDigits(s: string) {
    forall i :: 0 <= i < |s| ==> IsDigit(s[i])
  }

  /** Every part of a run of digits is a run of digits. */
  lemma DigitsSlice(s: string, a: int, b: int, c: int, d: int)
    requires 0 <= a <= c <= d <= b <= |s| && AllDigits(s[a..b])
    ensures AllDigits(s[c..d])
  {
    forall k | 0 <= k < d - c
      ensures IsDigit(s[c..d][k])
    {
      assert s[c..d][k] == s[a..b][k + c - a];
    }
  }

  /** `parseInt` of a non-empty run of decimal digits (leading zeros allowed). */
  function Value(s: string): (r: nat)
    requires AllDigits(s)
    ensures r < Pow10(|s|)
    decreases |s|
  {
    if s == [] then 0
    else Value(s[..|s| - 1]) * 10 + (s[|s| - 1] as int - '0' as int)
  }

  function Pow10(n: nat): (r: nat)
    ensures r >= 1
  {
    if n == 0 then 1 else 10 * Pow10(n - 1)
  }

  /** The digit character for `d`. */
  function Digit(d: nat): (c: char)
    requires d < 10
    ensures IsDigit(c) && c as int - '0' as int == d
  {
    (d + '0' as int) as char
  }

  /** `n` written in exactly `width` decimal digits, zero-padded on the left. */
  function Pad(n: nat, width: nat): (s: string)
    ensures |s| == width && AllDigits(s)
  {
    if width == 0 then "" else Pad(n / 10, width - 1) + [Digit(n % 10)]
  }

  /** Reading back a padded number gives the number, when it fits in the width. */
  lemma {:induction false} PadValue(n: nat, width: nat)
    requires n < Pow10(width)
    ensures Value(Pad(n, width)) == n
  {
    if width > 0 {
      PadValue(n / 10, width - 1);
      var s := Pad(n, width);
      assert s[..|s| - 1] == Pad(n / 10, width - 1);
    }
  }

  /**
    The first position at or after `from` where `matches` holds: where a regular expression
    without the `g` flag finds its match, trying each start position in turn.
  */
  function Leftmost(s: string, matches: (string, int) -> bool, from: nat): (r: Option<nat>)
    ensures r.Some? ==> from <= r.value <= |s| && matches(s, r.value)
    decreases |s| - from
  {
    if from > |s| then None
    else if matches(s, from) then Some(from)
    else Leftmost(s, matches, from + 1)
  }

  /** The search finds a matching position, and no earlier one matches; or nothing matches at all. */
  lemma {:induction false} LeftmostSpec(s: string, matches: (string, int) -> bool, from: nat)
    ensures var r := Leftmost(s, matches, from);
      && (r.Some? ==> forall k :: from <= k < r.value ==> !matches(s, k))
      && (r.None? ==> forall k :: from <= k <= |s| ==> !matches(s, k))
    decreases |s| - from
  {
    if from <= |s| && !matches(s, from) {
      LeftmostSpec(s, matches, from + 1);
    }
  }

  /** A matching position with no match before it is where the search stops. */
  lemma LeftmostAt(s: string, matches: (string, int) -> bool, from: nat, i: int)
    requires from <= i <= |s| && matches(s, i)
    requires forall k :: from <= k < i ==> !matches(s, k)
    ensures Leftmost(s, matches, from) == Some(i)
  {
    LeftmostSpec(s, matches, from);
  }

  /** `pat` occurs in `s` starting at `k`. */
  predicate OccursAt(s: string, pat: string, k: int) {
    0 <= k && k + |pat| <= |s| && s[k..k + |pat|] == pat
  }
}
