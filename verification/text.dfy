/** The string operations of Rust's standard library that the puzzle programs
    use: `split`, `split_whitespace`, `trim`, `trim_matches`, and `parse` for
    unsigned and signed integers.  Characters are ASCII; integers are unbounded. */
module Text {
  import opened Wrappers

  predicate IsDigit(c: char) {
    '0' <= c <= '9'
  }

  function DigitValue(c: char): (d: nat)
    requires IsDigit(c)
    ensures d < 10
  {
    (c as int) - ('0' as int)
  }

  /** The ASCII part of `char::is_whitespace`. */
  predicate IsWhitespace(c: char) {
    c == ' ' || c == '\t' || c == '\n' || c == '\r' || c == '\U{000B}' || c == '\U{000C}'
  }

  predicate AllDigits(s: string) {
    forall i | 0 <= i < |s| :: IsDigit(s[i])
  }

  /** `str::split` on any character of `seps`: always at least one part, and no
      part holds a separator. */
  function Split(s: string, seps: set<char>): (parts: seq<string>)
    ensures |parts| >= 1
    ensures forall i, k | 0 <= i < |parts| && 0 <= k < |parts[i]| :: parts[i][k] !in seps
  {
    if s == [] then [[]]
    else
      var rest := Split(s[1..], seps);
      if s[0] in seps then [[]] + rest
      else [[s[0]] + rest[0]] + rest[1..]
  }

  /** The inverse of splitting on one separator: the parts glued back together. */
  function Join(parts: seq<string>, sep: char): string
    requires |parts| >= 1
  {
    if |parts| == 1 then parts[0] else parts[0] + [sep] + Join(parts[1..], sep)
  }

  /** Splitting on a single character loses nothing: joining the parts with that
      character gives the input back. */
  lemma {:induction false} SplitJoin(s: string, sep: char)
    ensures Join(Split(s, {sep}), sep) == s
  {
    if s != [] {
      var rest := Split(s[1..], {sep});
      SplitJoin(s[1..], sep);
      if s[0] != sep {
        if |rest| == 1 {
          assert Split(s, {sep}) == [[s[0]] + rest[0]];
        } else {
          assert Split(s, {sep})[1..] == rest[1..];
        }
      }
    }
  }

  /** Splitting text with no separator in it gives the text back whole. */
  lemma {:induction false} SplitWithoutSeparator(s: string, seps: set<char>)
    requires forall i | 0 <= i < |s| :: s[i] !in seps
    ensures Split(s, seps) == [s]
  {
    if s != [] {
      SplitWithoutSeparator(s[1..], seps);
      assert [s[0]] + s[1..] == s;
    }
  }

  /** A separator after a run without one ends the first part. */
  lemma {:induction false} SplitAtSeparator(a: string, c: char, b: string, seps: set<char>)
    requires forall i | 0 <= i < |a| :: a[i] !in seps
    requires c in seps
    ensures Split(a + [c] + b, seps) == [a] + Split(b, seps)
  {
    if a == [] {
      assert a + [c] + b == [c] + b;
      assert ([c] + b)[1..] == b;
    } else {
      var s := a + [c] + b;
      assert s[1..] == a[1..] + [c] + b;
      SplitAtSeparator(a[1..], c, b, seps);
      assert [a[0]] + a[1..] == a;
    }
  }

  /** The non-empty strings, in order: the parts left after splitting, or
      the lines kept by `filter(|l| l.len() > 0)`. */
  function NonEmpty(parts: seq<string>): (r: seq<string>)
    ensures forall i | 0 <= i < |r| :: r[i] != []
    ensures |r| <= |parts|
  {
    if parts == [] then []
    else if parts[0] == [] then NonEmpty(parts[1..])
    else [parts[0]] + NonEmpty(parts[1..])
  }

  /** Filtering a concatenation filters each piece: the non-empty strings
      are kept in their order. */
  lemma {:induction false} NonEmptyAppend(a: seq<string>, b: seq<string>)
    ensures NonEmpty(a + b) == NonEmpty(a) + NonEmpty(b)
  {
    if a != [] {
      assert (a + b)[1..] == a[1..] + b;
      NonEmptyAppend(a[1..], b);
    } else {
      assert a + b == b;
    }
  }

  /** A single string is kept exactly when it is not empty; with
      `NonEmptyAppend` this fixes the result on every input. */
  lemma {:induction false} NonEmptySingle(t: string)
    ensures NonEmpty([t]) == if t == [] then [] else [t]
  {
    assert [t][1..] == [];
  }

  /** A string is kept exactly when it occurs and is not empty. */
  lemma {:induction false} NonEmptyMembers(parts: seq<string>, t: string)
    ensures t in NonEmpty(parts) <==> t in parts && t != []
  {
    if parts != [] {
      NonEmptyMembers(parts[1..], t);
      assert parts == [parts[0]] + parts[1..];
    }
  }

  /** `str::split_whitespace`: the maximal runs of non-whitespace characters. */
  function SplitWhitespace(s: string): seq<string> {
    NonEmpty(Split(s, set c: char | c in s && IsWhitespace(c)))
  }

  /** Parts without separators, glued with one separator, split back into
      the same parts. */
  lemma {:induction false} JoinSplit(parts: seq<string>, sep: char, seps: set<char>)
    requires |parts| >= 1 && sep in seps
    requires forall i, k | 0 <= i < |parts| && 0 <= k < |parts[i]| :: parts[i][k] !in seps
    ensures Split(Join(parts, sep), seps) == parts
  {
    if |parts| == 1 {
      SplitWithoutSeparator(parts[0], seps);
    } else {
      JoinSplit(parts[1..], sep, seps);
      SplitAtSeparator(parts[0], sep, Join(parts[1..], sep), seps);
    }
  }

  /** Dropping empty parts keeps a sequence with none. */
  lemma {:induction false} NonEmptyKeeps(parts: seq<string>)
    requires forall i | 0 <= i < |parts| :: parts[i] != []
    ensures NonEmpty(parts) == parts
  {
    if parts != [] {
      NonEmptyKeeps(parts[1..]);
    }
  }

  /** Words without whitespace, written with single spaces between them, are
      what `split_whitespace` returns. */
  lemma SplitWhitespaceJoin(words: seq<string>)
    requires |words| >= 1
    requires forall i | 0 <= i < |words| :: words[i] != []
    requires forall i, k | 0 <= i < |words| && 0 <= k < |words[i]| :: !IsWhitespace(words[i][k])
    ensures SplitWhitespace(Join(words, ' ')) == words
  {
    var s := Join(words, ' ');
    var ws := set c: char | c in s && IsWhitespace(c);
    if |words| == 1 {
      SplitWithoutSeparator(s, ws);
    } else {
      assert ' ' in ws by {
        assert s == words[0] + [' '] + Join(words[1..], ' ');
        assert s[|words[0]|] == ' ';
      }
      JoinSplit(words, ' ', ws);
    }
    NonEmptyKeeps(words);
  }

  /** `str::trim_matches` with a set of characters: drops them from both ends. */
  function TrimMatches(s: string, cs: set<char>): (r: string)
    ensures |r| <= |s|
    ensures r != [] ==> r[0] !in cs && r[|r| - 1] !in cs
    ensures forall c | c in r :: c in s
    decreases |s|
  {
    if s == [] then s
    else if s[0] in cs then TrimMatches(s[1..], cs)
    else if s[|s| - 1] in cs then TrimMatches(s[..|s| - 1], cs)
    else s
  }

  /** Trimming text whose two ends are kept, padded on each side with
      characters that are trimmed, leaves that text. */
  lemma {:induction false} TrimMatchesFrame(p: string, m: string, q: string, cs: set<char>)
    requires forall i | 0 <= i < |p| :: p[i] in cs
    requires forall i | 0 <= i < |q| :: q[i] in cs
    requires m != [] && m[0] !in cs && m[|m| - 1] !in cs
    ensures TrimMatches(p + m + q, cs) == m
    decreases |p| + |q|
  {
    var s := p + m + q;
    if p != [] {
      assert s[0] == p[0];
      assert s[1..] == p[1..] + m + q;
      TrimMatchesFrame(p[1..], m, q, cs);
    } else if q != [] {
      assert s[0] == m[0];
      assert s[|s| - 1] == q[|q| - 1];
      assert s[..|s| - 1] == p + m + q[..|q| - 1];
      TrimMatchesFrame(p, m, q[..|q| - 1], cs);
    } else {
      assert s == m;
    }
  }

  /** `str::trim`. */
  function Trim(s: string): string {
    TrimMatches(s, set c: char | c in s && IsWhitespace(c))
  }

  /** Trimming a token without whitespace keeps it. */
  lemma {:induction false} TrimPlain(s: string)
    requires forall i | 0 <= i < |s| :: !IsWhitespace(s[i])
    ensures Trim(s) == s
  {
    if s != [] {
      assert s[0] !in set c: char | c in s && IsWhitespace(c);
      assert s[|s| - 1] !in set c: char | c in s && IsWhitespace(c);
    }
  }

  /** The value of a run of decimal digits, most significant first. */
  function DigitsValue(s: string): nat
    requires AllDigits(s)
  {
    if s == [] then 0 else 10 * DigitsValue(s[..|s| - 1]) + DigitValue(s[|s| - 1])
  }

  /** `str::parse::<usize>`: an optional '+' and at least one digit. */
  function ParseNat(s: string): (r: Option<nat>)
    ensures AllDigits(s) && s != [] ==> r == Some(DigitsValue(s))
    ensures s == [] ==> r.None?
    ensures r.Some? <==> (s != [] && AllDigits(s)) || (|s| > 1 && s[0] == '+' && AllDigits(s[1..]))
    ensures r.Some? && s[0] == '+' ==> r.value == DigitsValue(s[1..])
  {
    var digits := if |s| > 0 && s[0] == '+' then s[1..] else s;
    if digits != [] && AllDigits(digits) then Some(DigitsValue(digits)) else None
  }

  /** `str::parse::<isize>` (and `i32`): an optional '+' or '-' and at least one digit. */
  function ParseInt(s: string): (r: Option<int>)
    ensures ParseNat(s).Some? ==> r == Some(ParseNat(s).value as int)
    ensures |s| > 0 && s[0] == '-' ==> (r.Some? <==> |s| > 1 && AllDigits(s[1..]))
    ensures |s| > 0 && s[0] == '-' && r.Some? ==> r.value == -(DigitsValue(s[1..]) as int)
    ensures (s == [] || s[0] != '-') ==> (r.Some? <==> ParseNat(s).Some?)
  {
    if |s| > 0 && s[0] == '-' then
      var digits := s[1..];
      if digits != [] && AllDigits(digits) then Some(-(DigitsValue(digits) as int)) else None
    else
      match ParseNat(s)
      case None => None
      case Some(n) => Some(n as int)
  }

  /** A sequence back to front (`reverse`, `rev`). */
  function Reversed<T>(s: seq<T>): (r: seq<T>)
    ensures |r| == |s|
    ensures forall i | 0 <= i < |s| :: r[i] == s[|s| - 1 - i]
  {
    seq(|s|, i requires 0 <= i < |s| => s[|s| - 1 - i])
  }
}
