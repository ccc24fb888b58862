/**
  The few JavaScript string operations the theme resolver relies on:
  `String.prototype.match(/\d+/g)`, `Number` on a run of digits,
  `toLowerCase`, `includes`, and the truthiness of an optional string.
 */
module JsStrings {

  import opened Wrappers

  /**
    JavaScript truthiness of a string property that may be missing: a string
    is falsy only when it is missing or empty.
   */
  predicate Truthy(o: Option<string>)
    ensures Truthy(o) <==> o != None && o != Some("")
  {
    o.Some? && |o.value| > 0
  }

  // ---------------------------------------------------------------------------
  // Digit runs: the matches of the global pattern /\d+/g
  // ---------------------------------------------------------------------------

  /** `\d` without the `u` flag: exactly the ASCII digits. */
  predicate IsDigit(c: char) {
    '0' <= c <= '9'
  }

  predicate AllDigits(s: string) {
    forall i :: 0 <= i < |s| ==> IsDigit(s[i])
  }

  predicate NoDigits(s: string) {
    forall i :: 0 <= i < |s| ==> !IsDigit(s[i])
  }

  /** Length of the longest prefix of `s` made only of digits (a greedy `\d+` at position 0). */
  function DigitPrefixLen(s: string): (n: nat)
    ensures n <= |s| && AllDigits(s[..n])
    ensures n < |s| ==> !IsDigit(s[n])
  {
    if s == [] || !IsDigit(s[0]) then 0
    else
      var m := DigitPrefixLen(s[1..]);
      assert s[..m + 1] == [s[0]] + s[1..][..m];
      m + 1
  }

  /**
    The list `s.match(/\d+/g)` yields, in order (an empty list standing for the
    `null` that `match` returns when nothing matches): each match is a non-empty
    run of digits.
   */
  function DigitRuns(s: string): (runs: seq<string>)
    ensures forall k :: 0 <= k < |runs| ==> runs[k] != [] && AllDigits(runs[k])
    decreases |s|
  {
    if s == [] then []
    else if !IsDigit(s[0]) then DigitRuns(s[1..])
    else
      var n := DigitPrefixLen(s);
      [s[..n]] + DigitRuns(s[n..])
  }

  /** The digit characters of `s`, in order. */
  function DigitsOf(s: string): (d: string)
    ensures AllDigits(d)
  {
    if s == [] then []
    else (if IsDigit(s[0]) then [s[0]] else []) + DigitsOf(s[1..])
  }

  function Concat(runs: seq<string>): string {
    if runs == [] then [] else runs[0] + Concat(runs[1..])
  }

  lemma {:induction false} DigitsOfAppend(a: string, b: string)
    ensures DigitsOf(a + b) == DigitsOf(a) + DigitsOf(b)
  {
    if a == [] {
      assert a + b == b;
    } else {
      var ab := a + b;
      var head := if IsDigit(a[0]) then [a[0]] else [];
      assert ab[0] == a[0] && ab[1..] == a[1..] + b;
      assert DigitsOf(ab) == head + DigitsOf(a[1..] + b);
      assert DigitsOf(a) == head + DigitsOf(a[1..]);
      DigitsOfAppend(a[1..], b);
      assert head + (DigitsOf(a[1..]) + DigitsOf(b)) == (head + DigitsOf(a[1..])) + DigitsOf(b);
    }
  }

  lemma {:induction false} DigitsOfDigitString(d: string)
    requires AllDigits(d)
    ensures DigitsOf(d) == d
  {
    if d != [] {
      DigitsOfDigitString(d[1..]);
      assert d == [d[0]] + d[1..];
    }
  }

  /** The runs, put back together, are exactly the digits of the input: no digit is lost or invented. */
  lemma {:induction false} RunsCoverDigits(s: string)
    ensures Concat(DigitRuns(s)) == DigitsOf(s)
    decreases |s|
  {
    if s == [] {
    } else if !IsDigit(s[0]) {
      RunsCoverDigits(s[1..]);
    } else {
      var n := DigitPrefixLen(s);
      RunsCoverDigits(s[n..]);
      assert s == s[..n] + s[n..];
      DigitsOfAppend(s[..n], s[n..]);
      DigitsOfDigitString(s[..n]);
      var runs := [s[..n]] + DigitRuns(s[n..]);
      assert runs[0] == s[..n] && runs[1..] == DigitRuns(s[n..]);
    }
  }

  /** Appending text that starts with a non-digit does not move the end of a leading digit run. */
  lemma {:induction false} DigitPrefixLenAppend(a: string, x: string)
    requires x == [] || !IsDigit(x[0])
    ensures DigitPrefixLen(a + x) == DigitPrefixLen(a)
  {
    if a == [] {
      assert a + x == x;
    } else if IsDigit(a[0]) {
      assert (a + x)[0] == a[0];
      assert (a + x)[1..] == a[1..] + x;
      DigitPrefixLenAppend(a[1..], x);
    } else {
      assert (a + x)[0] == a[0];
    }
  }

  /**
    Runs are maximal and never cross a non-digit: a non-digit splits the input
    into two halves matched independently.
   */
  lemma {:induction false} RunsSplitAtNonDigit(a: string, c: char, b: string)
    requires !IsDigit(c)
    ensures DigitRuns(a + [c] + b) == DigitRuns(a) + DigitRuns(b)
    decreases |a|
  {
    var s := a + [c] + b;
    if a == [] {
      assert s[0] == c && s[1..] == b;
    } else if !IsDigit(a[0]) {
      assert s[0] == a[0] && s[1..] == a[1..] + [c] + b;
      RunsSplitAtNonDigit(a[1..], c, b);
    } else {
      assert s == a + ([c] + b);
      DigitPrefixLenAppend(a, [c] + b);
      var m := DigitPrefixLen(a);
      assert s[..m] == a[..m];
      assert s[m..] == a[m..] + [c] + b;
      if m == |a| {
        assert a[m..] == [];
        assert DigitRuns(a) == [a[..m]] + DigitRuns([]);
        assert ([c] + b)[0] == c && ([c] + b)[1..] == b;
        assert s[m..] == [c] + b;
      } else {
        RunsSplitAtNonDigit(a[m..], c, b);
      }
    }
  }

  /** A non-empty string of digits is a single match. */
  lemma RunsOfDigitString(d: string)
    requires d != [] && AllDigits(d)
    ensures DigitRuns(d) == [d]
  {
    var n := DigitPrefixLen(d);
    assert IsDigit(d[0]) && n == |d|;
    assert d[..n] == d && d[n..] == [];
  }

  /** Leading text without digits contributes no match. */
  lemma {:induction false} RunsSkipNonDigits(p: string, x: string)
    requires NoDigits(p)
    ensures DigitRuns(p + x) == DigitRuns(x)
  {
    if p != [] {
      assert (p + x)[0] == p[0] && (p + x)[1..] == p[1..] + x;
      RunsSkipNonDigits(p[1..], x);
    } else {
      assert p + x == x;
    }
  }

  /** A number followed by a separator without digits is one match, and matching resumes after the separator. */
  lemma RunsOfNumberThen(d: string, sep: string, x: string)
    requires d != [] && AllDigits(d)
    requires sep != [] && NoDigits(sep)
    ensures DigitRuns(d + sep + x) == [d] + DigitRuns(x)
  {
    assert d + sep + x == d + [sep[0]] + (sep[1..] + x);
    RunsSplitAtNonDigit(d, sep[0], sep[1..] + x);
    RunsOfDigitString(d);
    RunsSkipNonDigits(sep[1..], x);
  }

  // ---------------------------------------------------------------------------
  // Number(run): decimal value of a run of digits
  // ---------------------------------------------------------------------------

  function DigitValue(c: char): nat
    requires IsDigit(c)
  {
    c as int - '0' as int
  }

  function DigitChar(d: nat): (c: char)
    requires d < 10
    ensures IsDigit(c) && DigitValue(c) == d
  {
    ('0' as int + d) as char
  }

  function Pow10(n: nat): (p: nat)
    ensures p >= 1
  {
    if n == 0 then 1 else 10 * Pow10(n - 1)
  }

  /** `Number(s)` for a run of ASCII digits: the decimal value, leading zeros included. */
  function DecimalValue(s: string): (v: nat)
    requires AllDigits(s)
    ensures v < Pow10(|s|)
    decreases |s|
  {
    if s == [] then 0 else 10 * DecimalValue(s[..|s| - 1]) + DigitValue(s[|s| - 1])
  }

  /** The shortest decimal spelling of `n`, as a colour string would write a channel. */
  function DecimalString(n: nat): (s: string)
    ensures s != [] && AllDigits(s)
  {
    if n < 10 then [DigitChar(n)] else DecimalString(n / 10) + [DigitChar(n % 10)]
  }

  /** Reading back a written channel value gives the value. */
  lemma {:induction false} DecimalRoundTrip(n: nat)
    ensures DecimalValue(DecimalString(n)) == n
  {
    var s := DecimalString(n);
    if n >= 10 {
      DecimalRoundTrip(n / 10);
      assert s[..|s| - 1] == DecimalString(n / 10);
      assert s[|s| - 1] == DigitChar(n % 10);
    }
  }

  /** `Number` reads a run in base ten, so a leading zero does not change the channel (it is not octal). */
  lemma {:induction false} LeadingZeroIgnored(s: string)
    requires AllDigits(s)
    ensures AllDigits("0" + s) && DecimalValue("0" + s) == DecimalValue(s)
    decreases |s|
  {
    var z := "0" + s;
    if s != [] {
      assert z[..|z| - 1] == "0" + s[..|s| - 1];
      assert z[|z| - 1] == s[|s| - 1];
      LeadingZeroIgnored(s[..|s| - 1]);
    }
  }

  // ---------------------------------------------------------------------------
  // toLowerCase and includes
  // ---------------------------------------------------------------------------

  function LowerChar(c: char): char {
    if 'A' <= c <= 'Z' then (c as int + 32) as char else c
  }

  /** `s.toLowerCase()` restricted to ASCII letters. */
  function ToLowerAscii(s: string): (t: string)
    ensures |t| == |s|
    ensures forall i :: 0 <= i < |s| ==> t[i] == LowerChar(s[i])
  {
    if s == [] then [] else [LowerChar(s[0])] + ToLowerAscii(s[1..])
  }

  /** Lower-casing commutes with taking a slice. */
  lemma ToLowerSlice(s: string, i: int, j: int)
    requires 0 <= i <= j <= |s|
    ensures ToLowerAscii(s)[i..j] == ToLowerAscii(s[i..j])
  {
  }

  predicate StartsWith(s: string, p: string) {
    |p| <= |s| && s[..|p|] == p
  }

  /** `s.includes(sub)`, scanning the start positions from left to right. */
  function Includes(s: string, sub: string): (found: bool)
    ensures StartsWith(s, sub) ==> found
    ensures found ==> |sub| <= |s|
    decreases |s|
  {
    StartsWith(s, sub) || (s != [] && Includes(s[1..], sub))
  }

  predicate OccursAt(s: string, sub: string, i: int) {
    0 <= i && i + |sub| <= |s| && s[i..i + |sub|] == sub
  }

  /** The scan finds `sub` exactly when `sub` occurs at some position of `s`. */
  lemma {:induction false} IncludesIffOccurs(s: string, sub: string)
    ensures Includes(s, sub) <==> exists i :: OccursAt(s, sub, i)
    decreases |s|
  {
    if StartsWith(s, sub) {
      assert OccursAt(s, sub, 0);
    } else if s != [] {
      IncludesIffOccurs(s[1..], sub);
      forall j | OccursAt(s[1..], sub, j)
        ensures OccursAt(s, sub, j + 1)
      {
        assert s[1..][j..j + |sub|] == s[j + 1..j + 1 + |sub|];
      }
      forall i | OccursAt(s, sub, i)
        ensures i > 0 && OccursAt(s[1..], sub, i - 1)
      {
        assert s[..|sub|] == s[0..0 + |sub|];
        assert i > 0;
        assert s[1..][i - 1..i - 1 + |sub|] == s[i..i + |sub|];
      }
    }
  }
}
