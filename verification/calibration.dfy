/** Trebuchet calibration, part 1 (day_1): the value of a line is the
    two-digit number made of its first and its last digit, and the answer
    is the sum over all lines.  Characters are ASCII; `usize` is unbounded. */
module Calibration {
  import opened Wrappers
  import opened Text

  /** The digits of a line, left to right: the matches of `[0-9]`. */
  function DigitChars(s: string): (ds: string)
    ensures |ds| <= |s|
  {
    if s == [] then [] else (if IsDigit(s[0]) then [s[0]] else []) + DigitChars(s[1..])
  }

  /** Only digits are collected. */
  lemma {:induction false} DigitCharsDigits(s: string)
    ensures AllDigits(DigitChars(s))
  {
    if s != [] {
      DigitCharsDigits(s[1..]);
      var head: string := if IsDigit(s[0]) then [s[0]] else [];
      var ds := DigitChars(s);
      forall k | 0 <= k < |ds|
        ensures IsDigit(ds[k])
      {
        if k >= |head| {
          assert ds[k] == DigitChars(s[1..])[k - |head|];
        }
      }
    }
  }

  /** Collecting the digits of two pieces one after the other. */
  lemma {:induction false} DigitCharsAppend(a: string, b: string)
    ensures DigitChars(a + b) == DigitChars(a) + DigitChars(b)
  {
    if a != [] {
      assert (a + b)[1..] == a[1..] + b;
      DigitCharsAppend(a[1..], b);
    } else {
      assert a + b == b;
    }
  }

  /** A character is among the digits collected exactly when it is a digit
      of the line. */
  lemma {:induction false} DigitCharsMembers(s: string, c: char)
    ensures c in DigitChars(s) <==> c in s && IsDigit(c)
  {
    if s != [] {
      DigitCharsMembers(s[1..], c);
      assert s == [s[0]] + s[1..];
    }
  }

  /** Trimming characters that are not digits keeps every digit. */
  lemma {:induction false} TrimMatchesKeepsDigits(s: string, cs: set<char>)
    requires forall c | c in cs :: !IsDigit(c)
    ensures DigitChars(TrimMatches(s, cs)) == DigitChars(s)
    decreases |s|
  {
    if s == [] {
    } else if s[0] in cs {
      TrimMatchesKeepsDigits(s[1..], cs);
    } else if s[|s| - 1] in cs {
      TrimMatchesKeepsDigits(s[..|s| - 1], cs);
      assert s == s[..|s| - 1] + [s[|s| - 1]];
      DigitCharsAppend(s[..|s| - 1], [s[|s| - 1]]);
      assert DigitChars([s[|s| - 1]]) == [] + DigitChars([]);
    }
  }

  /** `trim` never removes a digit. */
  lemma {:induction false} TrimKeepsDigits(s: string)
    ensures DigitChars(Trim(s)) == DigitChars(s)
  {
    TrimMatchesKeepsDigits(s, set c: char | c in s && IsWhitespace(c));
  }

  /** `format!("{}{}", a, b).parse::<usize>()` of two digits. */
  lemma {:induction false} TwoDigits(a: char, b: char)
    requires IsDigit(a) && IsDigit(b)
    ensures ParseNat([a, b]) == Some(10 * DigitValue(a) + DigitValue(b))
  {
    assert [a, b][..1] == [a];
    assert DigitsValue([a]) == 10 * DigitsValue([]) + DigitValue(a);
  }

  /** The value of one line (main.rs lines 9-18): the first and the last
      digit of the trimmed line side by side, or nothing without a digit. */
  function LineValue(line: string): (v: nat)
    ensures v < 100
  {
    var ds := DigitChars(Trim(line));
    if ds == [] then 0
    else
      DigitCharsDigits(Trim(line));
      TwoDigits(ds[0], ds[|ds| - 1]);
      ParseNat([ds[0], ds[|ds| - 1]]).value
  }

  /** The value is ten times the line's first digit plus its last, and a
      line with a single digit `d` is worth `dd`. */
  lemma {:induction false} LineValueDigits(line: string)
    ensures DigitChars(line) == [] ==> LineValue(line) == 0
    ensures DigitChars(line) != [] ==>
      var ds := DigitChars(line);
      AllDigits(ds) && LineValue(line) == 10 * DigitValue(ds[0]) + DigitValue(ds[|ds| - 1])
    ensures |DigitChars(line)| == 1 ==> LineValue(line) == 11 * DigitValue(DigitChars(line)[0])
  {
    TrimKeepsDigits(line);
    DigitCharsDigits(line);
    var ds := DigitChars(line);
    if ds != [] {
      TwoDigits(ds[0], ds[|ds| - 1]);
    }
  }

  /** The sum of the line values. */
  function Total(lines: seq<string>): nat {
    if lines == [] then 0 else Total(lines[..|lines| - 1]) + LineValue(lines[|lines| - 1])
  }

  /** Every line adds at most 99. */
  lemma {:induction false} TotalBound(lines: seq<string>)
    ensures Total(lines) <= 99 * |lines|
  {
    if lines != [] {
      TotalBound(lines[..|lines| - 1]);
    }
  }

  /** Part 1's `main` (lines 4-21): the line values added up one line at a
      time. */
  method SumCalibrationValues(lines: seq<string>) returns (total: nat)
    ensures total == Total(lines)
  {
    total := 0;
    for i := 0 to |lines|
      invariant total == Total(lines[..i])
    {
      var ds := DigitChars(Trim(lines[i]));
      if |ds| > 0 {
        DigitCharsDigits(Trim(lines[i]));
        var interim := [ds[0], ds[|ds| - 1]];
        TwoDigits(ds[0], ds[|ds| - 1]);
        total := total + ParseNat(interim).value;
      }
      assert lines[..i + 1][..i] == lines[..i];
    }
    assert lines[..|lines|] == lines;
  }
}
