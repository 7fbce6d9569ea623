/** Trebuchet calibration, part 2 (day_1): the digits of a line may also be
    spelled out, "one" to "nine".  `extract_numbers_from_line` collects the
    matches of ten patterns in the trimmed, lower-cased line, sorts them by
    where they start and reads the first and the last.  The patterns are
    plain text here, matched at every position the regex engine would. */
module SpelledDigits {
  import opened Wrappers
  import opened Text
  import Calibration

  /** `to_lowercase` on ASCII letters. */
  function LowerChar(c: char): char {
    if 'A' <= c <= 'Z' then (c as int + 32) as char else c
  }

  function Lower(s: string): (r: string)
    ensures |r| == |s| && forall k | 0 <= k < |s| :: r[k] == LowerChar(s[k])
  {
    seq(|s|, k requires 0 <= k < |s| => LowerChar(s[k]))
  }

  /** The spelled digits, "one" at index 0. */
  const Words: seq<string> := ["one", "two", "three", "four", "five", "six", "seven", "eight", "nine"]

  /** `number_map`: every word to its digit. */
  const NumberMap: map<string, string> := map[
    "one" := "1", "two" := "2", "three" := "3", "four" := "4", "five" := "5",
    "six" := "6", "seven" := "7", "eight" := "8", "nine" := "9"]

  /** A pattern of `number_regexes`: `[0-9]` or one of the words. */
  datatype Pattern = AnyDigit | Word(w: string)

  /** `number_regexes`: `[0-9]`, then the words in order. */
  const Patterns: seq<Pattern> := [AnyDigit, Word("one"), Word("two"), Word("three"), Word("four"),
    Word("five"), Word("six"), Word("seven"), Word("eight"), Word("nine")]

  /** How many characters a match of the pattern covers. */
  function Width(p: Pattern): nat {
    match p
    case AnyDigit => 1
    case Word(w) => |w|
  }

  /** The pattern matches the text at `k`. */
  predicate MatchesAt(s: string, p: Pattern, k: nat) {
    k + Width(p) <= |s| &&
    match p
    case AnyDigit => IsDigit(s[k])
    case Word(w) => s[k..k + |w|] == w
  }

  /** `m` is a match of the pattern in the text. */
  predicate IsMatch(s: string, p: Pattern, m: Match) {
    MatchesAt(s, p, m.start) && m.text == s[m.start..m.start + Width(p)]
  }

  /** No match of the pattern can begin inside another match of it. */
  predicate NoSelfOverlap(p: Pattern) {
    match p
    case AnyDigit => true
    case Word(w) => forall d | 0 < d < |w| :: w[d..] != w[..|w| - d]
  }

  /** Checkable form of `NoSelfOverlap`: for each shift `d` from `d` on,
      the first or the second character of the shifted word differs. */
  predicate ShiftsDiffer(w: string, d: nat)
    decreases |w| - d
  {
    d >= |w| || ((w[d] != w[0] || (d + 1 < |w| && w[d + 1] != w[1])) && ShiftsDiffer(w, d + 1))
  }

  lemma {:induction false} ShiftsDifferNoOverlap(w: string, d: nat)
    requires d > 0 && ShiftsDiffer(w, d)
    ensures forall e | d <= e < |w| :: w[e..] != w[..|w| - e]
    decreases |w| - d
  {
    if d < |w| {
      ShiftsDifferNoOverlap(w, d + 1);
      assert w[d..][0] == w[d] && w[..|w| - d][0] == w[0];
      if d + 1 < |w| {
        assert w[d..][1] == w[d + 1] && w[..|w| - d][1] == w[1];
      }
    }
  }

  /** A found match: where it starts and the text it covers (`regex::Match`). */
  datatype Match = Match(start: nat, text: string)

  /** `find_iter`: the leftmost match from `from` on, then the next one from
      where it ends. */
  function FindIter(s: string, p: Pattern, from: nat): seq<Match>
    requires Width(p) > 0
    decreases |s| - from
  {
    if from >= |s| then []
    else if MatchesAt(s, p, from) then [Match(from, s[from..from + Width(p)])] + FindIter(s, p, from + Width(p))
    else FindIter(s, p, from + 1)
  }

  /** For a pattern that cannot overlap itself, `find_iter` finds it at every
      position where it occurs. */
  lemma {:induction false} FindIterMembers(s: string, p: Pattern, from: nat, m: Match)
    requires Width(p) > 0 && NoSelfOverlap(p)
    ensures m in FindIter(s, p, from) <==>
      from <= m.start && IsMatch(s, p, m)
    decreases |s| - from
  {
    if from >= |s| {
    } else if MatchesAt(s, p, from) {
      var next := from + Width(p);
      FindIterMembers(s, p, next, m);
      if p.Word? && from < m.start < next {
        NoMatchInside(s, p.w, from, m.start);
      }
    } else {
      FindIterMembers(s, p, from + 1, m);
    }
  }

  /** A word that cannot overlap itself does not match again inside one of
      its own matches. */
  lemma {:induction false} NoMatchInside(s: string, w: string, a: nat, b: nat)
    requires NoSelfOverlap(Word(w)) && MatchesAt(s, Word(w), a) && a < b < a + |w|
    ensures !MatchesAt(s, Word(w), b)
  {
    var d := b - a;
    assert w[d..] != w[..|w| - d];
    assert s[b..a + |w|] == w[d..];
    assert s[b..a + |w|] != w[..|w| - d];
  }

  /** Every pattern is at least one character wide and cannot overlap
      itself. */
  lemma {:induction false} PatternsWellFormed()
    ensures forall k | 0 <= k < |Patterns| :: Width(Patterns[k]) > 0 && NoSelfOverlap(Patterns[k])
  {
    forall k | 1 <= k < |Patterns|
      ensures Width(Patterns[k]) > 0 && NoSelfOverlap(Patterns[k])
    {
      WordFacts(k - 1);
      assert Patterns[k] == Word(Words[k - 1]);
      ShiftsDifferNoOverlap(Words[k - 1], 1);
    }
  }

  /** The digit character for `d`. */
  function DigitChar(d: nat): char
    requires d <= 9
  {
    ('0' as int + d) as char
  }

  /** Each word is at least three lower-case letters long, cannot overlap
      itself, and `number_map` takes it to its digit. */
  lemma {:induction false} WordFacts(i: nat)
    requires i < |Words|
    ensures |Words[i]| >= 3 && 'a' <= Words[i][0] <= 'z'
    ensures ShiftsDiffer(Words[i], 1)
    ensures Words[i] in NumberMap && NumberMap[Words[i]] == [DigitChar(i + 1)]
    ensures IsDigit(DigitChar(i + 1)) && DigitValue(DigitChar(i + 1)) == i + 1
  {
  }

  /** `flat_map` of `find_iter` over the patterns, in their order. */
  function FindAll(s: string, ps: seq<Pattern>): seq<Match>
    requires forall k | 0 <= k < |ps| :: Width(ps[k]) > 0
  {
    if ps == [] then [] else FindIter(s, ps[0], 0) + FindAll(s, ps[1..])
  }

  lemma {:induction false} FindAllMembers(s: string, ps: seq<Pattern>, m: Match)
    requires forall k | 0 <= k < |ps| :: Width(ps[k]) > 0 && NoSelfOverlap(ps[k])
    ensures m in FindAll(s, ps) <==>
      exists k | 0 <= k < |ps| :: IsMatch(s, ps[k], m)
  {
    if ps != [] {
      FindIterMembers(s, ps[0], 0, m);
      FindAllMembers(s, ps[1..], m);
      if exists k | 0 <= k < |ps| :: IsMatch(s, ps[k], m) {
        var k :| 0 <= k < |ps| && IsMatch(s, ps[k], m);
        if k > 0 {
          assert ps[1..][k - 1] == ps[k];
        }
      }
      if exists k | 0 <= k < |ps[1..]| :: IsMatch(s, ps[1..][k], m) {
        var k :| 0 <= k < |ps[1..]| && IsMatch(s, ps[1..][k], m);
        assert ps[k + 1] == ps[1..][k];
      }
    }
  }

  /** `found_digits` before sorting. */
  function Found(s: string): seq<Match> {
    PatternsWellFormed();
    FindAll(s, Patterns)
  }

  /** Matches in order of their start. */
  predicate Ordered(ms: seq<Match>) {
    forall i, j | 0 <= i < j < |ms| :: ms[i].start <= ms[j].start
  }

  /** The first match of an ordered sequence starts no later than any. */
  lemma {:induction false} HeadEarliest(ms: seq<Match>, x: Match)
    requires Ordered(ms) && x in ms
    ensures ms[0].start <= x.start
  {
    var k :| 0 <= k < |ms| && ms[k] == x;
    if k > 0 {
      assert ms[0].start <= ms[k].start;
    }
  }

  /** A match starting no later than an ordered sequence may go before it. */
  lemma {:induction false} ConsOrdered(x: Match, ms: seq<Match>)
    requires Ordered(ms) && forall y | y in ms :: x.start <= y.start
    ensures Ordered([x] + ms)
  {
    forall i, j | 0 <= i < j < |[x] + ms|
      ensures ([x] + ms)[i].start <= ([x] + ms)[j].start
    {
      assert ([x] + ms)[j] == ms[j - 1];
      if i > 0 {
        assert ([x] + ms)[i] == ms[i - 1];
      }
    }
  }

  /** `m` placed before the first match that does not start earlier. */
  function Insert(m: Match, ms: seq<Match>): (r: seq<Match>)
    requires Ordered(ms)
    ensures multiset(r) == multiset(ms) + multiset{m}
    ensures Ordered(r)
  {
    if ms == [] || m.start <= ms[0].start then
      InsertFront(m, ms);
      [m] + ms
    else
      var rest := Insert(m, ms[1..]);
      InsertBehind(m, ms, rest);
      [ms[0]] + rest
  }

  lemma {:induction false} InsertFront(m: Match, ms: seq<Match>)
    requires Ordered(ms) && (ms == [] || m.start <= ms[0].start)
    ensures Ordered([m] + ms)
  {
    forall y | y in ms
      ensures m.start <= y.start
    {
      HeadEarliest(ms, y);
    }
    ConsOrdered(m, ms);
  }

  lemma {:induction false} InsertBehind(m: Match, ms: seq<Match>, rest: seq<Match>)
    requires Ordered(ms) && ms != [] && ms[0].start < m.start
    requires Ordered(rest) && multiset(rest) == multiset(ms[1..]) + multiset{m}
    ensures Ordered([ms[0]] + rest)
    ensures multiset([ms[0]] + rest) == multiset(ms) + multiset{m}
  {
    assert ms == [ms[0]] + ms[1..];
    forall y | y in rest
      ensures ms[0].start <= y.start
    {
      assert y in multiset(rest);
      if y != m {
        assert y in multiset(ms[1..]);
        HeadEarliest(ms, y);
      }
    }
    ConsOrdered(ms[0], rest);
  }

  /** `sort_by` the start: a stable insertion sort. */
  function SortByStart(ms: seq<Match>): (r: seq<Match>)
    ensures Ordered(r) && multiset(r) == multiset(ms)
  {
    if ms == [] then []
    else
      assert ms == [ms[0]] + ms[1..];
      Insert(ms[0], SortByStart(ms[1..]))
  }

  /** The word spelled at position `k`, searched from `Words[i]` on, as its
      digit. */
  function WordAt(s: string, k: nat, i: nat): (d: Option<nat>)
    requires i <= |Words|
    ensures d.Some? ==> 1 <= d.value <= 9
    decreases |Words| - i
  {
    if i == |Words| then None
    else if MatchesAt(s, Word(Words[i]), k) then Some(i + 1)
    else WordAt(s, k, i + 1)
  }

  /** The digit written or spelled at position `k`, if any: the reference
      reading of a line, one position at a time. */
  function SpelledAt(s: string, k: nat): (d: Option<nat>)
    ensures d.Some? ==> d.value <= 9
  {
    if k < |s| && IsDigit(s[k]) then Some(DigitValue(s[k])) else WordAt(s, k, 0)
  }

  /** The first position from `k` on where a digit is written or spelled. */
  function FirstFrom(s: string, k: nat): (p: Option<nat>)
    ensures p.Some? ==> k <= p.value < |s| && SpelledAt(s, p.value).Some?
    ensures p.Some? ==> forall q | k <= q < p.value :: SpelledAt(s, q).None?
    ensures p.None? ==> forall q | k <= q < |s| :: SpelledAt(s, q).None?
    decreases |s| - k
  {
    if k >= |s| then None
    else if SpelledAt(s, k).Some? then Some(k)
    else FirstFrom(s, k + 1)
  }

  /** The last position before `k` where a digit is written or spelled. */
  function LastBefore(s: string, k: nat): (p: Option<nat>)
    requires k <= |s|
    ensures p.Some? ==> p.value < k && SpelledAt(s, p.value).Some?
    ensures p.Some? ==> forall q | p.value < q < k :: SpelledAt(s, q).None?
    ensures p.None? ==> forall q | 0 <= q < k :: SpelledAt(s, q).None?
  {
    if k == 0 then None
    else if SpelledAt(s, k - 1).Some? then Some(k - 1)
    else LastBefore(s, k - 1)
  }

  /** The value part 2 gives a line: ten times the first digit written or
      spelled in the trimmed, lower-cased line plus the last, or 0 without
      one. */
  function SpelledValue(line: string): (v: nat)
    ensures v < 100
  {
    var s := Lower(Trim(line));
    match FirstFrom(s, 0)
    case None => 0
    case Some(p) => 10 * SpelledAt(s, p).value + SpelledAt(s, LastBefore(s, |s|).value).value
  }

  /** What a match's text becomes after the `number_map` lookup. */
  function Mapped(text: string): string {
    if text in NumberMap then NumberMap[text] else text
  }

  /** At most one word is spelled at any position: any two differ in their
      first two letters. */
  lemma {:induction false} WordsDistinct(i: nat, j: nat)
    requires i < |Words| && j < |Words| && i != j
    ensures Words[i][0] != Words[j][0] || Words[i][1] != Words[j][1]
  {
  }

  lemma {:induction false} WordAtFinds(s: string, k: nat, i: nat, j: nat)
    requires i <= j < |Words| && MatchesAt(s, Word(Words[j]), k)
    ensures WordAt(s, k, i) == Some(j + 1)
    decreases |Words| - i
  {
    if i < j {
      if MatchesAt(s, Word(Words[i]), k) {
        WordsDistinct(i, j);
        WordFacts(i);
        WordFacts(j);
      }
      WordAtFinds(s, k, i + 1, j);
    }
  }

  lemma {:induction false} WordAtMatches(s: string, k: nat, i: nat)
    requires i <= |Words| && WordAt(s, k, i).Some?
    ensures MatchesAt(s, Word(Words[WordAt(s, k, i).value - 1]), k)
    decreases |Words| - i
  {
    if !MatchesAt(s, Word(Words[i]), k) {
      WordAtMatches(s, k, i + 1);
    }
  }

  /** Every match found stands for the digit written or spelled where it
      starts, and maps to that one digit. */
  lemma {:induction false} FoundIsSpelled(s: string, m: Match)
    requires m in Found(s)
    ensures |Mapped(m.text)| == 1 && IsDigit(Mapped(m.text)[0])
    ensures SpelledAt(s, m.start) == Some(DigitValue(Mapped(m.text)[0]))
  {
    PatternsWellFormed();
    FindAllMembers(s, Patterns, m);
    var k :| 0 <= k < |Patterns| && IsMatch(s, Patterns[k], m);
    if k == 0 {
      DigitNotWord(s[m.start..m.start + 1]);
    } else {
      WordMatch(s, m, k - 1);
    }
  }

  /** A one-character text is no key of `number_map`. */
  lemma {:induction false} DigitNotWord(text: string)
    requires |text| == 1
    ensures text !in NumberMap
  {
  }

  lemma {:induction false} WordMatch(s: string, m: Match, i: nat)
    requires i < |Words| && 1 + i < |Patterns|
    requires IsMatch(s, Patterns[1 + i], m)
    ensures |Mapped(m.text)| == 1 && IsDigit(Mapped(m.text)[0])
    ensures SpelledAt(s, m.start) == Some(DigitValue(Mapped(m.text)[0]))
  {
    assert Patterns[1 + i] == Word(Words[i]);
    WordFacts(i);
    assert m.text == Words[i];
    assert s[m.start] == Words[i][0];
    WordAtFinds(s, m.start, 0, i);
  }

  /** And wherever a digit is written or spelled, a match starts. */
  lemma {:induction false} SpelledIsFound(s: string, k: nat)
    requires SpelledAt(s, k).Some?
    ensures exists m | m in Found(s) :: m.start == k
  {
    if k < |s| && IsDigit(s[k]) {
      var m := Match(k, s[k..k + 1]);
      assert IsMatch(s, Patterns[0], m);
      PatternFound(s, 0, m);
    } else {
      var d := WordAt(s, k, 0).value;
      WordAtMatches(s, k, 0);
      var m := Match(k, Words[d - 1]);
      assert Patterns[d] == Word(Words[d - 1]);
      assert IsMatch(s, Patterns[d], m);
      PatternFound(s, d, m);
    }
  }

  /** A match of any one pattern is found. */
  lemma {:induction false} PatternFound(s: string, i: nat, m: Match)
    requires i < |Patterns| && IsMatch(s, Patterns[i], m)
    ensures m in Found(s)
  {
    PatternsWellFormed();
    FindAllMembers(s, Patterns, m);
  }

  /** The sorted matches' ends are the earliest and the latest. */
  lemma {:induction false} SortedEnds(found: seq<Match>, sorted: seq<Match>)
    requires Ordered(sorted) && multiset(sorted) == multiset(found) && sorted != []
    ensures sorted[0] in found && sorted[|sorted| - 1] in found
    ensures forall m | m in found :: sorted[0].start <= m.start <= sorted[|sorted| - 1].start
  {
    assert sorted[0] in multiset(sorted);
    assert sorted[|sorted| - 1] in multiset(sorted);
    forall m | m in found
      ensures sorted[0].start <= m.start <= sorted[|sorted| - 1].start
    {
      assert m in multiset(found);
      var i :| 0 <= i < |sorted| && sorted[i] == m;
    }
  }

  /** Read through the found matches, the ends of the sorted matches are
      the first and the last position where a digit is written or spelled. */
  lemma {:induction false} EndsSpelled(s: string, sorted: seq<Match>)
    requires Ordered(sorted) && multiset(sorted) == multiset(Found(s)) && sorted != []
    ensures FirstFrom(s, 0) == Some(sorted[0].start)
    ensures LastBefore(s, |s|) == Some(sorted[|sorted| - 1].start)
    ensures |Mapped(sorted[0].text)| == 1 && IsDigit(Mapped(sorted[0].text)[0])
    ensures |Mapped(sorted[|sorted| - 1].text)| == 1 && IsDigit(Mapped(sorted[|sorted| - 1].text)[0])
    ensures SpelledAt(s, sorted[0].start) == Some(DigitValue(Mapped(sorted[0].text)[0]))
    ensures SpelledAt(s, sorted[|sorted| - 1].start) == Some(DigitValue(Mapped(sorted[|sorted| - 1].text)[0]))
  {
    var found := Found(s);
    SortedEnds(found, sorted);
    FoundIsSpelled(s, sorted[0]);
    FoundIsSpelled(s, sorted[|sorted| - 1]);
    EarliestFound(s, sorted[0]);
    LatestFound(s, sorted[|sorted| - 1]);
  }

  /** A found match that starts no later than any other starts at the first
      position where a digit is written or spelled. */
  lemma {:induction false} EarliestFound(s: string, first: Match)
    requires first in Found(s)
    requires forall m | m in Found(s) :: first.start <= m.start
    ensures FirstFrom(s, 0) == Some(first.start)
  {
    FoundIsSpelled(s, first);
    SpelledInside(s, first.start);
    var p := FirstFrom(s, 0).value;
    SpelledIsFound(s, p);
    var m :| m in Found(s) && m.start == p;
    assert first.start <= p;
    assert !(first.start < p);
  }

  /** Likewise the one that starts no earlier than any other. */
  lemma {:induction false} LatestFound(s: string, last: Match)
    requires last in Found(s)
    requires forall m | m in Found(s) :: m.start <= last.start
    ensures LastBefore(s, |s|) == Some(last.start)
  {
    FoundIsSpelled(s, last);
    SpelledInside(s, last.start);
    var q := LastBefore(s, |s|).value;
    SpelledIsFound(s, q);
    var m :| m in Found(s) && m.start == q;
  }

  /** A digit is only written or spelled inside the text. */
  lemma {:induction false} SpelledInside(s: string, k: nat)
    requires SpelledAt(s, k).Some?
    ensures k < |s|
  {
    if !(k < |s| && IsDigit(s[k])) {
      var d := WordAt(s, k, 0).value;
      WordAtMatches(s, k, 0);
      WordFacts(d - 1);
    }
  }

  /** Without a match, no digit is written or spelled anywhere. */
  lemma {:induction false} NothingSpelled(s: string)
    requires Found(s) == []
    ensures FirstFrom(s, 0).None?
  {
    if FirstFrom(s, 0).Some? {
      SpelledIsFound(s, FirstFrom(s, 0).value);
    }
  }

  /** `format!("{}{}", a, b).parse::<usize>()` of two one-digit texts. */
  lemma {:induction false} ParseTwoDigits(a: string, b: string)
    requires |a| == 1 && |b| == 1 && IsDigit(a[0]) && IsDigit(b[0])
    ensures ParseNat(a + b) == Some(10 * DigitValue(a[0]) + DigitValue(b[0]))
  {
    assert a + b == [a[0], b[0]];
    Calibration.TwoDigits(a[0], b[0]);
  }

  /** The loop of main.rs lines 53-57: each of the two matched texts that
      is a number word becomes its digit. */
  method MapToDigits(ends: seq<string>) returns (digits: seq<string>)
    requires |ends| == 2
    ensures digits == [Mapped(ends[0]), Mapped(ends[1])]
  {
    digits := ends;
    for index := 0 to 2
      invariant |digits| == 2
      invariant forall k | 0 <= k < index :: digits[k] == Mapped(ends[k])
      invariant forall k | index <= k < 2 :: digits[k] == ends[k]
    {
      if digits[index] in NumberMap {
        digits := digits[index := NumberMap[digits[index]]];
      }
    }
  }

  /** `extract_numbers_from_line` (main.rs lines 17-63): the matches of all
      patterns, sorted by start; the first and the last, words mapped to
      their digits, are read as a two-digit number; 0 without a match. */
  method ExtractNumbersFromLine(line: string) returns (v: nat)
    ensures v == SpelledValue(line)
  {
    var s := Lower(Trim(line));
    var found := Found(s);
    var sorted := SortByStart(found);
    if |sorted| > 0 {
      EndsSpelled(s, sorted);
      var first, last := sorted[0], sorted[|sorted| - 1];
      var digits := MapToDigits([first.text, last.text]);
      ParseTwoDigits(digits[0], digits[1]);
      v := ParseNat(digits[0] + digits[1]).value;
    } else {
      assert found == [] by {
        assert |multiset(found)| == 0;
      }
      NothingSpelled(s);
      v := 0;
    }
  }

  /** The sum of the part 2 line values. */
  function Total(lines: seq<string>): nat {
    if lines == [] then 0 else Total(lines[..|lines| - 1]) + SpelledValue(lines[|lines| - 1])
  }

  /** Part 2's `main` (lines 6-15). */
  method SumSpelledValues(lines: seq<string>) returns (total: nat)
    ensures total == Total(lines)
  {
    total := 0;
    for i := 0 to |lines|
      invariant total == Total(lines[..i])
    {
      var v := ExtractNumbersFromLine(lines[i]);
      total := total + v;
      assert lines[..i + 1][..i] == lines[..i];
    }
    assert lines[..|lines|] == lines;
  }

  /** No word is spelled at `k` from `Words[i]` on when none of them
      matches there. */
  lemma {:induction false} WordAtNone(s: string, k: nat, i: nat)
    requires i <= |Words|
    requires forall j | i <= j < |Words| :: !MatchesAt(s, Word(Words[j]), k)
    ensures WordAt(s, k, i).None?
    decreases |Words| - i
  {
    if i < |Words| {
      WordAtNone(s, k, i + 1);
    }
  }

  /** Nothing is written or spelled at a non-digit that is too close to the
      end for a word, is not the first letter of a word, or is followed by a
      digit. */
  lemma {:induction false} NothingAt(s: string, k: nat)
    requires k < |s| && !IsDigit(s[k])
    requires |s| < k + 3 || s[k] !in {'o', 't', 'f', 's', 'e', 'n'} || IsDigit(s[k + 1])
    ensures SpelledAt(s, k).None?
  {
    forall j | 0 <= j < |Words|
      ensures !MatchesAt(s, Word(Words[j]), k)
    {
      WordFacts(j);
    }
    WordAtNone(s, k, 0);
  }

  /** The test at main.rs lines 68-72. */
  lemma {:induction false} TwoNumbersExample()
    ensures SpelledValue("f96xhv") == 96
  {
    var s := "f96xhv";
    TrimPlain(s);
    assert Lower(s) == s;
    NothingAt(s, 0);
    assert FirstFrom(s, 0) == Some(1);
    NothingAt(s, 5);
    NothingAt(s, 4);
    NothingAt(s, 3);
    assert LastBefore(s, 6) == Some(2);
  }

  /** The test at main.rs lines 80-84: a word first, a digit last. */
  lemma {:induction false} SpelledFirstExample()
    ensures SpelledValue("six97") == 67
  {
    var s := "six97";
    TrimPlain(s);
    assert Lower(s) == s;
    assert s[0..3] == "six";
    assert SpelledAt(s, 0) == Some(6);
    assert FirstFrom(s, 0) == Some(0);
    assert LastBefore(s, 5) == Some(4);
  }

  /** The test at main.rs lines 86-90: a single digit is both ends. */
  lemma {:induction false} OneNumberExample()
    ensures SpelledValue("d6") == 66
  {
    var s := "d6";
    TrimPlain(s);
    assert Lower(s) == s;
    assert FirstFrom(s, 0) == Some(1);
    assert LastBefore(s, 2) == Some(1);
  }

  /** The test at main.rs lines 99-103: in "twone" the later word, "one",
      is the last digit. */
  lemma {:induction false} OverlappingLastExample()
    ensures SpelledValue("1twone") == 11
  {
    var s := "1twone";
    TrimPlain(s);
    assert Lower(s) == s;
    assert FirstFrom(s, 0) == Some(0);
    NothingAt(s, 5);
    NothingAt(s, 4);
    assert s[3..6] == "one";
    assert SpelledAt(s, 3) == Some(1);
    assert LastBefore(s, 6) == Some(3);
  }
}
