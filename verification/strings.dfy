/** Python `str` operations used by both scripts, over `string` (a sequence of code points). */
module Strings {
  import opened Chars

  // ---------------------------------------------------------------------------
  // str.strip()

  /** The number of whitespace characters at the start of `s`. */
  function LeadingSpaces(s: string): (n: nat)
    ensures n <= |s|
    ensures forall k :: 0 <= k < n ==> IsSpace(s[k])
    ensures n < |s| ==> !IsSpace(s[n])
  {
    if s == [] || !IsSpace(s[0]) then 0 else 1 + LeadingSpaces(s[1..])
  }

  /** The index at which the run of whitespace that ends `s` begins. */
  function TrailingStart(s: string): (m: nat)
    ensures m <= |s|
    ensures forall k :: m <= k < |s| ==> IsSpace(s[k])
    ensures 0 < m ==> !IsSpace(s[m - 1])
  {
    if s == [] || !IsSpace(s[|s| - 1]) then |s| else TrailingStart(s[..|s| - 1])
  }

  /** Python's `s.strip()`: `s` without its leading and trailing whitespace. */
  function Strip(s: string): string {
    var t := s[LeadingSpaces(s)..];
    t[..TrailingStart(t)]
  }

  /** `s.strip()` is empty exactly when `s` is all whitespace; otherwise it neither starts
      nor ends with whitespace, and it is the part of `s` after the leading whitespace,
      cut short. */
  lemma StripMeaning(s: string)
    ensures var r := Strip(s);
            && (r == [] <==> forall k :: 0 <= k < |s| ==> IsSpace(s[k]))
            && (r != [] ==> !IsSpace(r[0]) && !IsSpace(r[|r| - 1]))
            && LeadingSpaces(s) + |r| <= |s|
            && (forall k :: 0 <= k < |r| ==> r[k] == s[LeadingSpaces(s) + k])
  {
  }

  // ---------------------------------------------------------------------------
  // Runs of digits

  /** `s[p..p+n]` exists and is made of digits. */
  predicate DigitsAt(s: string, p: nat, n: nat) {
    p + n <= |s| && forall k :: p <= k < p + n ==> IsDigit(s[k])
  }

  /** No digit stands immediately before index `p` (a `(?<!\d)` lookbehind). */
  predicate NoDigitBefore(s: string, p: nat) {
    p == 0 || (p <= |s| && !IsDigit(s[p - 1]))
  }

  /** No digit stands at index `e` (a `(?!\d)` lookahead at the end of a match). */
  predicate NoDigitAt(s: string, e: nat) {
    e >= |s| || !IsDigit(s[e])
  }

  /** Every character of `s` is a digit. */
  predicate AllDigits(s: string) {
    forall k :: 0 <= k < |s| ==> IsDigit(s[k])
  }

  /** The length of the run of digits that starts at `p`. */
  function RunLength(s: string, p: nat): (n: nat)
    requires p <= |s|
    ensures DigitsAt(s, p, n) && NoDigitAt(s, p + n)
    decreases |s| - p
  {
    if p < |s| && IsDigit(s[p]) then 1 + RunLength(s, p + 1) else 0
  }

  /** A run of digits is determined by where it starts: any `n` digits followed
      by a non-digit are the whole run. */
  lemma RunLengthUnique(s: string, p: nat, n: nat)
    requires DigitsAt(s, p, n) && NoDigitAt(s, p + n)
    ensures RunLength(s, p) == n
  {
  }

  /** The index of the first digit at or after `from`, or `|s|` when there is none. */
  function FirstDigit(s: string, from: nat): (i: nat)
    requires from <= |s|
    ensures from <= i <= |s|
    ensures i < |s| ==> IsDigit(s[i])
    ensures forall k :: from <= k < i ==> !IsDigit(s[k])
    decreases |s| - from
  {
    if from == |s| || IsDigit(s[from]) then from else FirstDigit(s, from + 1)
  }

  // ---------------------------------------------------------------------------
  // str(n) and int(digits)

  /** Python's `str(n)` for a natural number: its decimal digits, most significant first. */
  function NatToString(n: nat): (r: string)
    ensures |r| > 0 && forall k :: 0 <= k < |r| ==> '0' <= r[k] <= '9'
  {
    if n < 10 then [AsciiDigit(n)] else NatToString(n / 10) + [AsciiDigit(n % 10)]
  }

  /** Python's `int(s)` for a string of (Unicode) decimal digits. */
  function DigitsValue(s: string): nat
    requires AllDigits(s)
  {
    if s == [] then 0 else 10 * DigitsValue(s[..|s| - 1]) + DigitValue(s[|s| - 1])
  }

  /** `int(str(n)) == n`. */
  lemma {:induction false} DigitsValueOfNatToString(n: nat)
    ensures AllDigits(NatToString(n))
    ensures DigitsValue(NatToString(n)) == n
  {
    var r := NatToString(n);
    if n >= 10 {
      DigitsValueOfNatToString(n / 10);
      assert r[..|r| - 1] == NatToString(n / 10);
    }
  }

  // ---------------------------------------------------------------------------
  // ", ".join(xs) and s.split(", ")

  const Separator: string := ", "

  /** Python's `", ".join(xs)`. */
  function Join(xs: seq<string>): string {
    if |xs| == 0 then "" else if |xs| == 1 then xs[0] else xs[0] + Separator + Join(xs[1..])
  }

  /** `", "` starts at index `k` of `s`. */
  predicate SeparatorAt(s: string, k: nat) {
    k + 1 < |s| && s[k] == ',' && s[k + 1] == ' '
  }

  /** The first index at or after `from` where `", "` starts, or `|s|` when there is none. */
  function SeparatorIndex(s: string, from: nat): (i: nat)
    requires from <= |s|
    ensures from <= i <= |s|
    ensures i < |s| ==> SeparatorAt(s, i)
    ensures forall k :: from <= k < i ==> !SeparatorAt(s, k)
    decreases |s| - from
  {
    if from == |s| || SeparatorAt(s, from) then from else SeparatorIndex(s, from + 1)
  }

  /** Python's `s.split(", ")`: the pieces between the occurrences of the separator,
      found from left to right. */
  function Split(s: string): (parts: seq<string>)
    ensures |parts| >= 1
    decreases |s|
  {
    var i := SeparatorIndex(s, 0);
    if i == |s| then [s] else [s[..i]] + Split(s[i + 2..])
  }

  /** No piece contains a comma, so the separator never occurs inside one. */
  predicate CommaFree(xs: seq<string>) {
    forall i, k :: 0 <= i < |xs| && 0 <= k < |xs[i]| ==> xs[i][k] != ','
  }

  lemma SeparatorAfterPiece(x: string, rest: string, from: nat)
    requires from <= |x|
    requires forall k :: 0 <= k < |x| ==> x[k] != ','
    ensures SeparatorIndex(x + Separator + rest, from) == |x|
    decreases |x| - from
  {
    var s := x + Separator + rest;
    if from < |x| {
      assert !SeparatorAt(s, from) by { assert s[from] == x[from]; }
      SeparatorAfterPiece(x, rest, from + 1);
    } else {
      assert SeparatorAt(s, from);
    }
  }

  lemma NoSeparatorInPiece(x: string, from: nat)
    requires from <= |x|
    requires forall k :: 0 <= k < |x| ==> x[k] != ','
    ensures SeparatorIndex(x, from) == |x|
    decreases |x| - from
  {
    if from < |x| { NoSeparatorInPiece(x, from + 1); }
  }

  /** Splitting a join of comma-free pieces gives the pieces back. */
  lemma {:induction false} SplitJoin(xs: seq<string>)
    requires |xs| >= 1 && CommaFree(xs)
    ensures Split(Join(xs)) == xs
  {
    if |xs| == 1 {
      NoSeparatorInPiece(xs[0], 0);
    } else {
      var s := Join(xs);
      assert s == xs[0] + Separator + Join(xs[1..]);
      assert forall k :: 0 <= k < |xs[0]| ==> xs[0][k] != ',' by {
        forall k | 0 <= k < |xs[0]| ensures xs[0][k] != ',' { assert xs[0][k] == xs[0][k]; }
      }
      SeparatorAfterPiece(xs[0], Join(xs[1..]), 0);
      assert s[..|xs[0]|] == xs[0];
      assert s[|xs[0]| + 2..] == Join(xs[1..]);
      assert CommaFree(xs[1..]) by {
        forall i, k | 0 <= i < |xs[1..]| && 0 <= k < |xs[1..][i]| ensures xs[1..][i][k] != ',' {
          assert xs[1..][i] == xs[i + 1];
        }
      }
      SplitJoin(xs[1..]);
    }
  }

  // ---------------------------------------------------------------------------
  // str.endswith

  /** Python's `s.endswith(suffix)`. */
  predicate EndsWith(s: string, suffix: string) {
    |suffix| <= |s| && s[|s| - |suffix|..] == suffix
  }

  /** `s` with every ASCII capital turned into the small letter. */
  function LowerAscii(s: string): string {
    seq(|s|, k requires 0 <= k < |s| => AsciiLower(s[k]))
  }

  /** Lower-casing leaves no ASCII capital behind, so doing it twice changes nothing more,
      and two strings lower-case alike exactly when they agree letter by letter up to case. */
  lemma LowerAsciiMeaning(s: string, t: string)
    ensures forall k :: 0 <= k < |LowerAscii(s)| ==> !('A' <= LowerAscii(s)[k] <= 'Z')
    ensures LowerAscii(LowerAscii(s)) == LowerAscii(s)
    ensures LowerAscii(s) == LowerAscii(t) <==>
              |s| == |t| && forall k :: 0 <= k < |s| ==> AsciiLower(s[k]) == AsciiLower(t[k])
  {
    if |s| == |t| && forall k :: 0 <= k < |s| ==> AsciiLower(s[k]) == AsciiLower(t[k]) {
      assert LowerAscii(s) == LowerAscii(t);
    }
    if LowerAscii(s) == LowerAscii(t) {
      assert forall k :: 0 <= k < |s| ==> LowerAscii(s)[k] == AsciiLower(s[k]);
    }
  }
}
