/** Cube conundrum (day_2): each line of a game names counts of red, green
    and blue cubes drawn from a bag; a game remembers the largest count of
    each colour, its power is the product of those three, and part 1 adds up
    the ids of the games that a bag of 12 red, 13 green and 14 blue cubes
    makes possible.  Characters are ASCII; `usize` is unbounded. */
module CubeGame {
  import opened Wrappers
  import opened Text

  /** `Colour`, read by `strum`'s `EnumString` from its variant names. */
  datatype Colour = Red | Green | Blue

  /** The words of the pattern's alternation `(blue|green|red)`. */
  function Name(c: Colour): string {
    match c
    case Blue => "blue"
    case Green => "green"
    case Red => "red"
  }

  /** ASCII `to_uppercase`. */
  function UpperChar(c: char): char {
    if 'a' <= c <= 'z' then (c as int - 32) as char else c
  }

  function Upper(s: string): string {
    seq(|s|, k requires 0 <= k < |s| => UpperChar(s[k]))
  }

  /** `Colour::from_str`: exactly the variant names; anything else is an
      error, on which `unwrap` panics. */
  function FromStr(name: string): (r: Option<Colour>)
    ensures r.Some? ==> name == Upper(Name(r.value))
  {
    UpperNames();
    if name == "RED" then Some(Red)
    else if name == "GREEN" then Some(Green)
    else if name == "BLUE" then Some(Blue)
    else None
  }

  /** The colour words upper-cased. */
  lemma {:induction false} UpperNames()
    ensures Upper("blue") == "BLUE" && Upper("green") == "GREEN" && Upper("red") == "RED"
  {
    assert Upper("blue") == "BLUE" by {
      assert Upper("blue")[0] == 'B' && Upper("blue")[1] == 'L';
      assert Upper("blue")[2] == 'U' && Upper("blue")[3] == 'E';
    }
    assert Upper("green") == "GREEN" by {
      assert Upper("green")[0] == 'G' && Upper("green")[1] == 'R' && Upper("green")[2] == 'E';
      assert Upper("green")[3] == 'E' && Upper("green")[4] == 'N';
    }
    assert Upper("red") == "RED" by {
      assert Upper("red")[0] == 'R' && Upper("red")[1] == 'E' && Upper("red")[2] == 'D';
    }
  }

  /** Upper-casing a colour word gives the name its variant is read from. */
  lemma {:induction false} FromStrUpperName(c: Colour)
    ensures FromStr(Upper(Name(c))) == Some(c)
  {
    UpperNames();
  }

  /** A colour word is made of letters only. */
  lemma {:induction false} NameLetters(c: Colour, i: nat)
    requires i < |Name(c)|
    ensures !IsDigit(Name(c)[i]) && Name(c)[i] != ' '
  {
  }

  /** The end of the run of digits that starts at `k`. */
  function DigitRunEnd(s: string, k: nat): (e: nat)
    requires k <= |s|
    ensures k <= e <= |s|
    ensures forall i | k <= i < e :: IsDigit(s[i])
    ensures e < |s| ==> !IsDigit(s[e])
    decreases |s| - k
  {
    if k < |s| && IsDigit(s[k]) then DigitRunEnd(s, k + 1) else k
  }

  /** The text holds the word at `i`. */
  predicate WordAt(s: string, i: nat, w: string) {
    i + |w| <= |s| && s[i..i + |w|] == w
  }

  /** The colour whose word starts at `i`, trying them in the pattern's
      order. */
  function ColourAt(s: string, i: nat): (r: Option<Colour>)
    ensures r.Some? ==> WordAt(s, i, Name(r.value))
  {
    if WordAt(s, i, "blue") then Some(Blue)
    else if WordAt(s, i, "green") then Some(Green)
    else if WordAt(s, i, "red") then Some(Red)
    else None
  }

  /** Where a match ends whose digits end at `e`: a space, then a colour
      word. */
  function AfterDigits(s: string, e: nat): (r: Option<nat>)
    ensures r.Some? ==> e + 1 < r.value <= |s|
  {
    if e < |s| && s[e] == ' ' then
      match ColourAt(s, e + 1)
      case None => None
      case Some(c) => Some(e + 1 + |Name(c)|)
    else None
  }

  /** Where a match of `\d+ (blue|green|red)` that starts at `k` ends.  The
      digits can only be followed by the space where their run ends, so the
      greedy `\d+` never gives any back. */
  function MatchEnd(s: string, k: nat): (r: Option<nat>)
    ensures r.Some? ==> k < r.value <= |s|
  {
    if k < |s| && IsDigit(s[k]) then AfterDigits(s, DigitRunEnd(s, k)) else None
  }

  /** A match found by `find_iter`: where it starts and where it ends. */
  datatype Match = Match(start: nat, end: nat)

  /** `find_iter` from `from` on: the leftmost match, then the next one from
      where it ends. */
  function FindIter(s: string, from: nat): (r: seq<Match>)
    ensures forall i | 0 <= i < |r| :: from <= r[i].start && MatchEnd(s, r[i].start) == Some(r[i].end)
    ensures forall i, j | 0 <= i < j < |r| :: r[i].end <= r[j].start
    decreases |s| - from
  {
    if from >= |s| then []
    else
      match MatchEnd(s, from)
      case Some(e) => [Match(from, e)] + FindIter(s, e)
      case None => FindIter(s, from + 1)
  }

  /** A draw is written at `k`: the pattern matches there, and `k` is the
      first digit of its number. */
  predicate Written(s: string, k: nat) {
    (k == 0 || (k <= |s| && !IsDigit(s[k - 1]))) && MatchEnd(s, k).Some?
  }

  /** The pieces of a match that starts at `k`: its digits end at `d`, a
      space follows, then the word of colour `c`, which ends the match at `e`. */
  lemma {:induction false} MatchParts(s: string, k: nat) returns (d: nat, c: Colour, e: nat)
    requires MatchEnd(s, k).Some?
    ensures d == DigitRunEnd(s, k) && k < d && e == MatchEnd(s, k).value
    ensures ColourAt(s, d + 1) == Some(c)
    ensures d < |s| && s[d] == ' ' && e == d + 1 + |Name(c)| && e <= |s|
    ensures s[d + 1..e] == Name(c)
  {
    d := DigitRunEnd(s, k);
    c := ColourAt(s, d + 1).value;
    e := d + 1 + |Name(c)|;
  }

  /** The letters of a match's colour word, one by one. */
  lemma {:induction false} WordLetter(s: string, d: nat, c: Colour, e: nat, i: nat)
    requires d + 1 <= i < e <= |s| && s[d + 1..e] == Name(c)
    ensures s[i] == Name(c)[i - d - 1] && !IsDigit(s[i]) && s[i] != ' '
  {
    assert s[d + 1..e][i - d - 1] == s[i];
    NameLetters(c, i - d - 1);
  }

  /** A match ends with a letter and holds no other start of a match. */
  lemma {:induction false} NoMatchInside(s: string, k: nat, j: nat)
    requires MatchEnd(s, k).Some?
    ensures !IsDigit(s[MatchEnd(s, k).value - 1])
    ensures k < j < MatchEnd(s, k).value ==> !Written(s, j)
  {
    var d, c, e := MatchParts(s, k);
    WordLetter(s, d, c, e, e - 1);
    if k < j < e {
      if j < d {
        assert IsDigit(s[j - 1]);
      } else if j > d {
        WordLetter(s, d, c, e, j);
      }
    }
  }

  /** `find_iter` reports a match at exactly the places where a draw is
      written, provided it does not resume inside a run of digits that could
      have started one. */
  lemma {:induction false} FindIterMembers(s: string, from: nat, m: Match)
    requires from == 0 || from > |s| || !IsDigit(s[from - 1]) || MatchEnd(s, from - 1).None?
    ensures m in FindIter(s, from) <==>
      from <= m.start && Written(s, m.start) && m.end == MatchEnd(s, m.start).value
    decreases |s| - from
  {
    if from < |s| {
      match MatchEnd(s, from)
      case Some(e) =>
        NoMatchInside(s, from, m.start);
        FindIterMembers(s, e, m);
        FindIterMatched(s, from, e, m);
      case None =>
        FindIterMembers(s, from + 1, m);
        FindIterUnmatched(s, from, m);
    }
  }

  /** The step of `FindIterMembers` where a match starts at `from`. */
  lemma {:induction false} FindIterMatched(s: string, from: nat, e: nat, m: Match)
    requires from < |s| && MatchEnd(s, from) == Some(e)
    requires from == 0 || !IsDigit(s[from - 1]) || MatchEnd(s, from - 1).None?
    requires m in FindIter(s, e) <==> e <= m.start && Written(s, m.start) && m.end == MatchEnd(s, m.start).value
    requires from < m.start < e ==> !Written(s, m.start)
    ensures m in FindIter(s, from) <==>
      from <= m.start && Written(s, m.start) && m.end == MatchEnd(s, m.start).value
  {
    assert FindIter(s, from) == [Match(from, e)] + FindIter(s, e);
    if m == Match(from, e) {
      assert Written(s, from);
    } else if from <= m.start < e {
      assert m !in FindIter(s, e);
    }
  }

  /** The step of `FindIterMembers` where no match starts at `from`. */
  lemma {:induction false} FindIterUnmatched(s: string, from: nat, m: Match)
    requires from < |s| && MatchEnd(s, from).None?
    requires m in FindIter(s, from + 1) <==>
      from + 1 <= m.start && Written(s, m.start) && m.end == MatchEnd(s, m.start).value
    ensures m in FindIter(s, from) <==>
      from <= m.start && Written(s, m.start) && m.end == MatchEnd(s, m.start).value
  {
    assert FindIter(s, from) == FindIter(s, from + 1);
  }

  /** The count and the colour of the draw whose match starts at `k`. */
  function DrawAt(s: string, k: nat): (nat, Colour)
    requires MatchEnd(s, k).Some?
  {
    var e := DigitRunEnd(s, k);
    (DigitsValue(s[k..e]), ColourAt(s, e + 1).value)
  }

  /** The draws of a text, left to right: what `get_numbers_and_colours`
      returns. */
  function Draws(text: string): seq<(nat, Colour)> {
    var t := Trim(text);
    var ms := FindIter(t, 0);
    seq(|ms|, i requires 0 <= i < |ms| => DrawAt(t, ms[i].start))
  }

  /** A draw is listed exactly when it is written somewhere in the trimmed
      text. */
  lemma {:induction false} DrawsMembers(text: string, d: (nat, Colour))
    ensures d in Draws(text) <==> exists k | Written(Trim(text), k) :: DrawAt(Trim(text), k) == d
  {
    var t := Trim(text);
    var ms := FindIter(t, 0);
    if d in Draws(text) {
      var i :| 0 <= i < |ms| && Draws(text)[i] == d;
      FindIterMembers(t, 0, ms[i]);
    }
    if exists k | Written(t, k) :: DrawAt(t, k) == d {
      var k :| Written(t, k) && DrawAt(t, k) == d;
      FindIterMembers(t, 0, Match(k, MatchEnd(t, k).value));
      var i :| 0 <= i < |ms| && ms[i] == Match(k, MatchEnd(t, k).value);
      assert Draws(text)[i] == d;
    }
  }

  /** The loop body of `get_numbers_and_colours` reads a match without
      panicking: split at its space, the number parses and the upper-cased
      word names the colour. */
  lemma {:induction false} ReadMatch(s: string, k: nat)
    requires MatchEnd(s, k).Some?
    ensures var parts := Split(s[k..MatchEnd(s, k).value], {' '});
      |parts| == 2 && ParseNat(parts[0]) == Some(DrawAt(s, k).0) &&
      FromStr(Upper(parts[1])) == Some(DrawAt(s, k).1)
  {
    var d, c, e := MatchParts(s, k);
    assert DrawAt(s, k) == (DigitsValue(s[k..d]), c);
    forall i | d + 1 <= i < e
      ensures s[i] != ' '
    {
      WordLetter(s, d, c, e, i);
    }
    SplitMatch(s, k, d, e);
    var parts := Split(s[k..e], {' '});
    assert AllDigits(parts[0]) && parts[0] != [];
    assert parts[1] == Name(c);
    FromStrUpperName(c);
  }

  /** A match splits at its one space into its digits and its word. */
  lemma {:induction false} SplitMatch(s: string, k: nat, d: nat, e: nat)
    requires k < d < e <= |s| && s[d] == ' '
    requires forall i | k <= i < d :: IsDigit(s[i])
    requires forall i | d + 1 <= i < e :: s[i] != ' '
    ensures Split(s[k..e], {' '}) == [s[k..d], s[d + 1..e]]
  {
    var digits, word := s[k..d], s[d + 1..e];
    assert s[k..e] == digits + [' '] + word;
    SplitAtSeparator(digits, ' ', word, {' '});
    SplitWithoutSeparator(word, {' '});
  }

  /** `get_numbers_and_colours` (game.rs lines 53-63): every match of the
      trimmed text, split into its number and its colour, pushed in turn. */
  method GetNumbersAndColours(matchString: string) returns (out: seq<(nat, Colour)>)
    ensures out == Draws(matchString)
  {
    var t := Trim(matchString);
    var matches := FindIter(t, 0);
    out := [];
    for i := 0 to |matches|
      invariant |out| == i
      invariant forall j | 0 <= j < i :: out[j] == DrawAt(t, matches[j].start)
    {
      var m := matches[i];
      ReadMatch(t, m.start);
      var parts := Split(t[m.start..m.end], {' '});
      var numberPart := ParseNat(parts[0]).value;
      var colour := FromStr(Upper(parts[1])).value;
      out := out + [(numberPart, colour)];
    }
  }

  /** Text that neither starts nor ends with whitespace is kept whole by
      `trim`. */
  lemma {:induction false} TrimEnds(s: string)
    requires s != [] && !IsWhitespace(s[0]) && !IsWhitespace(s[|s| - 1])
    ensures Trim(s) == s
  {
    assert s[0] !in set c: char | c in s && IsWhitespace(c);
    assert s[|s| - 1] !in set c: char | c in s && IsWhitespace(c);
  }

  /** The first test of game.rs (lines 73-77). */
  lemma {:induction false} DrawsExampleOne()
    ensures Draws("5 blue") == [(5, Blue)]
  {
    var s := "5 blue";
    TrimEnds(s);
    assert DigitRunEnd(s, 1) == 1;
    assert DigitRunEnd(s, 0) == 1;
    assert WordAt(s, 2, "blue");
    assert ColourAt(s, 2) == Some(Blue);
    assert MatchEnd(s, 0) == Some(6);
    assert FindIter(s, 0) == [Match(0, 6)] + FindIter(s, 6);
    assert s[0..1] == "5";
  }

  /** The matches of the second test of game.rs. */
  lemma {:induction false} FindIterExampleTwo()
    ensures FindIter("5 blue, 3 green", 0) == [Match(0, 6), Match(8, 15)]
  {
    var s := "5 blue, 3 green";
    assert DigitRunEnd(s, 1) == 1;
    assert DigitRunEnd(s, 0) == 1;
    assert WordAt(s, 2, "blue");
    assert ColourAt(s, 2) == Some(Blue);
    assert MatchEnd(s, 0) == Some(6);
    assert DigitRunEnd(s, 9) == 9;
    assert DigitRunEnd(s, 8) == 9;
    assert !WordAt(s, 10, "blue") by {
      assert s[10..14][0] == 'g';
    }
    assert WordAt(s, 10, "green");
    assert ColourAt(s, 10) == Some(Green);
    assert MatchEnd(s, 8) == Some(15);
    assert s[6] == ',' && s[7] == ' ';
    assert MatchEnd(s, 6) == None;
    assert MatchEnd(s, 7) == None;
    assert FindIter(s, 8) == [Match(8, 15)] + FindIter(s, 15);
    assert FindIter(s, 6) == FindIter(s, 8);
  }

  /** The draws of the two matches of the second test of game.rs. */
  lemma {:induction false} DrawAtExampleTwo()
    ensures MatchEnd("5 blue, 3 green", 0).Some? && DrawAt("5 blue, 3 green", 0) == (5, Blue)
    ensures MatchEnd("5 blue, 3 green", 8).Some? && DrawAt("5 blue, 3 green", 8) == (3, Green)
  {
    var s := "5 blue, 3 green";
    assert DigitRunEnd(s, 1) == 1;
    assert DigitRunEnd(s, 0) == 1;
    assert DigitRunEnd(s, 9) == 9;
    assert DigitRunEnd(s, 8) == 9;
    assert WordAt(s, 2, "blue");
    assert !WordAt(s, 10, "blue") by {
      assert s[10..14][0] == 'g';
    }
    assert WordAt(s, 10, "green");
    assert s[0..1] == "5" && s[8..9] == "3";
  }

  /** The second test of game.rs (lines 79-83). */
  lemma {:induction false} DrawsExampleTwo()
    ensures Draws("5 blue, 3 green") == [(5, Blue), (3, Green)]
  {
    var s := "5 blue, 3 green";
    FindIterExampleTwo();
    DrawAtExampleTwo();
    TrimEnds(s);
    assert |Draws(s)| == 2 && Draws(s)[0] == (5, Blue) && Draws(s)[1] == (3, Green);
  }

  /** A game: its id and the largest count seen of each colour. */
  datatype Game = Game(id: nat, knownRed: nat, knownGreen: nat, knownBlue: nat)

  function Known(g: Game, c: Colour): nat {
    match c
    case Red => g.knownRed
    case Green => g.knownGreen
    case Blue => g.knownBlue
  }

  /** The running maximum of one colour over the draws. */
  function MaxCount(draws: seq<(nat, Colour)>, c: Colour): nat {
    if draws == [] then 0
    else
      var m := MaxCount(draws[..|draws| - 1], c);
      var last := draws[|draws| - 1];
      if last.1 == c && last.0 > m then last.0 else m
  }

  /** The running maximum is the largest count drawn of the colour, or 0
      when it is never drawn. */
  lemma {:induction false} MaxCountIsMaximum(draws: seq<(nat, Colour)>, c: Colour)
    ensures forall i | 0 <= i < |draws| && draws[i].1 == c :: draws[i].0 <= MaxCount(draws, c)
    ensures MaxCount(draws, c) == 0 || exists i | 0 <= i < |draws| :: draws[i] == (MaxCount(draws, c), c)
  {
    if draws != [] {
      var rest := draws[..|draws| - 1];
      MaxCountIsMaximum(rest, c);
      assert forall i | 0 <= i < |rest| :: rest[i] == draws[i];
      if MaxCount(draws, c) == MaxCount(rest, c) != 0 {
        var i :| 0 <= i < |rest| && rest[i] == (MaxCount(rest, c), c);
        assert draws[i] == (MaxCount(draws, c), c);
      }
    }
  }

  /** The id's text: the last word, split at single spaces, of the
      trimmed text before the first ':'. */
  function IdText(line: string): string {
    var words := Split(Trim(Split(line, {':'})[0]), {' '});
    words[|words| - 1]
  }

  /** The text the draws are read from: the trimmed text after the last
      ':'. */
  function DrawText(line: string): string {
    var parts := Split(line, {':'});
    Trim(parts[|parts| - 1])
  }

  /** The game of an id and its draws: the running maximum of each colour. */
  function GameOf(id: nat, draws: seq<(nat, Colour)>): Game {
    Game(id, MaxCount(draws, Red), MaxCount(draws, Green), MaxCount(draws, Blue))
  }

  /** The game a line describes; `None` where parsing the id panics. */
  function ParseGame(line: string): (r: Option<Game>)
    ensures r.Some? <==> ParseNat(IdText(line)).Some?
    ensures r.Some? ==> r.value.id == ParseNat(IdText(line)).value
  {
    match ParseNat(IdText(line))
    case None => None
    case Some(id) => Some(GameOf(id, Draws(DrawText(line))))
  }

  /** What a parsed game knows of a colour is the largest count of it
      written in the line, and 0 when no draw names it. */
  lemma {:induction false} ParseGameKnown(line: string, c: Colour)
    requires ParseGame(line).Some?
    ensures var t := Trim(DrawText(line));
      var known := Known(ParseGame(line).value, c);
      (forall k | Written(t, k) && DrawAt(t, k).1 == c :: DrawAt(t, k).0 <= known) &&
      (known == 0 || exists k | Written(t, k) :: DrawAt(t, k) == (known, c))
  {
    var t := Trim(DrawText(line));
    var draws := Draws(DrawText(line));
    var known := Known(ParseGame(line).value, c);
    assert known == MaxCount(draws, c);
    MaxCountIsMaximum(draws, c);
    forall k | Written(t, k) && DrawAt(t, k).1 == c
      ensures DrawAt(t, k).0 <= known
    {
      DrawsMembers(DrawText(line), DrawAt(t, k));
    }
    if known != 0 {
      DrawsMembers(DrawText(line), (known, c));
    }
  }

  /** `game_from_line` (game.rs lines 28-51): the id after the last space
      before ':', then the running maximum of each colour over the draws. */
  method GameFromLine(line: string) returns (g: Option<Game>)
    ensures g == ParseGame(line)
  {
    var parts := Split(line, {':'});
    var firstSplit := seq(|parts|, i requires 0 <= i < |parts| => Trim(parts[i]));
    var idText := firstSplit[0];
    assert idText == Trim(parts[0]);
    var idWords := Split(idText, {' '});
    assert idWords[|idWords| - 1] == IdText(line);
    var id := ParseNat(idWords[|idWords| - 1]);
    if id.None? {
      return None;
    }
    var drawText := firstSplit[|firstSplit| - 1];
    assert drawText == DrawText(line);
    var colours := GetNumbersAndColours(drawText);
    var game := LargestOfEach(id.value, colours);
    g := Some(game);
  }

  /** The loop of `game_from_line` (game.rs lines 39-50) over the draws. */
  method LargestOfEach(id: nat, colours: seq<(nat, Colour)>) returns (g: Game)
    ensures g == GameOf(id, colours)
  {
    var largestRed, largestGreen, largestBlue := 0, 0, 0;
    for i := 0 to |colours|
      invariant largestRed == MaxCount(colours[..i], Red)
      invariant largestGreen == MaxCount(colours[..i], Green)
      invariant largestBlue == MaxCount(colours[..i], Blue)
    {
      var size, colour := colours[i].0, colours[i].1;
      assert colours[..i + 1][..i] == colours[..i];
      if colour == Red {
        largestRed := if largestRed >= size then largestRed else size;
      } else if colour == Green {
        largestGreen := if largestGreen >= size then largestGreen else size;
      } else {
        largestBlue := if largestBlue >= size then largestBlue else size;
      }
    }
    assert colours[..|colours|] == colours;
    g := Game(id, largestRed, largestGreen, largestBlue);
  }

  /** The test of game.rs (lines 85-94), read through its draws. */
  lemma {:induction false} GameOfExample()
    ensures GameOf(1, [(3, Blue), (4, Red), (1, Red), (2, Green), (6, Blue), (2, Green)]) == Game(1, 4, 2, 6)
  {
    var draws := [(3, Blue), (4, Red), (1, Red), (2, Green), (6, Blue), (2, Green)];
    forall c: Colour
      ensures MaxCount(draws, c) == match c case Red => 4 case Green => 2 case Blue => 6
    {
      assert draws[..1] == [(3, Blue)];
      assert draws[..2][..1] == draws[..1];
      assert draws[..3][..2] == draws[..2];
      assert draws[..4][..3] == draws[..3];
      assert draws[..5][..4] == draws[..4];
      assert draws[..5] == draws[..|draws| - 1];
      assert MaxCount(draws[..1], c) == if c == Blue then 3 else 0;
      assert MaxCount(draws[..2], c) == match c case Red => 4 case Green => 0 case Blue => 3;
      assert MaxCount(draws[..3], c) == match c case Red => 4 case Green => 0 case Blue => 3;
      assert MaxCount(draws[..4], c) == match c case Red => 4 case Green => 2 case Blue => 3;
      assert MaxCount(draws[..5], c) == match c case Red => 4 case Green => 2 case Blue => 6;
    }
    assert MaxCount(draws, Red) == 4 && MaxCount(draws, Green) == 2 && MaxCount(draws, Blue) == 6;
  }

  /** `get_power`: the product of the three maxima. */
  function Power(g: Game): (p: nat)
    ensures p == 0 <==> g.knownRed == 0 || g.knownGreen == 0 || g.knownBlue == 0
  {
    ProductOfThree(g.knownBlue, g.knownGreen, g.knownRed);
    g.knownBlue * g.knownGreen * g.knownRed
  }

  lemma {:induction false} ProductOfThree(a: nat, b: nat, c: nat)
    ensures a * b * c == 0 <==> a == 0 || b == 0 || c == 0
  {
    if a > 0 && b > 0 && c > 0 {
      assert a * b >= 1;
      assert a * b * c >= 1;
    }
  }

  /** No draw of the colour counts any cube. */
  predicate Absent(draws: seq<(nat, Colour)>, c: Colour) {
    forall i | 0 <= i < |draws| && draws[i].1 == c :: draws[i].0 == 0
  }

  /** A game's power is 0 exactly when one of the colours never shows a
      cube among its draws. */
  lemma {:induction false} PowerZero(id: nat, draws: seq<(nat, Colour)>)
    ensures Power(GameOf(id, draws)) == 0 <==> Absent(draws, Red) || Absent(draws, Green) || Absent(draws, Blue)
  {
    MaxCountZero(draws, Red);
    MaxCountZero(draws, Green);
    MaxCountZero(draws, Blue);
  }

  lemma {:induction false} MaxCountZero(draws: seq<(nat, Colour)>, c: Colour)
    ensures MaxCount(draws, c) == 0 <==> Absent(draws, c)
  {
    MaxCountIsMaximum(draws, c);
    if MaxCount(draws, c) != 0 {
      var i :| 0 <= i < |draws| && draws[i] == (MaxCount(draws, c), c);
    }
  }

  /** The bag of part 1 (main.rs lines 9-11). */
  function Limit(c: Colour): nat {
    match c
    case Red => 12
    case Green => 13
    case Blue => 14
  }

  /** The filter of part 1 (main.rs lines 14-16), limits included. */
  predicate Possible(g: Game) {
    g.knownRed <= Limit(Red) && g.knownGreen <= Limit(Green) && g.knownBlue <= Limit(Blue)
  }

  /** A game is possible exactly when no single draw asks for more cubes of
      a colour than the bag holds; a game without draws is always possible. */
  lemma {:induction false} PossibleIffDrawsFit(id: nat, draws: seq<(nat, Colour)>)
    ensures Possible(GameOf(id, draws)) <==> forall i | 0 <= i < |draws| :: draws[i].0 <= Limit(draws[i].1)
  {
    MaxCountIsMaximum(draws, Red);
    MaxCountIsMaximum(draws, Green);
    MaxCountIsMaximum(draws, Blue);
    var g := GameOf(id, draws);
    if Possible(g) {
      forall i | 0 <= i < |draws|
        ensures draws[i].0 <= Limit(draws[i].1)
      {
        assert draws[i].0 <= Known(g, draws[i].1);
      }
    }
    if forall i | 0 <= i < |draws| :: draws[i].0 <= Limit(draws[i].1) {
      forall c: Colour
        ensures MaxCount(draws, c) <= Limit(c)
      {
        MaxCountIsMaximum(draws, c);
        if MaxCount(draws, c) != 0 {
          var i :| 0 <= i < |draws| && draws[i] == (MaxCount(draws, c), c);
        }
      }
    }
  }

  /** The total of part 1 over the games the lines parse into; `None` once
      one does not parse. */
  function PossibleTotal(games: seq<Option<Game>>): Option<nat> {
    if games == [] then Some(0)
    else
      match PossibleTotal(games[..|games| - 1])
      case None => None
      case Some(t) =>
        match games[|games| - 1]
        case None => None
        case Some(g) => Some(t + if Possible(g) then g.id else 0)
  }

  /** The sum of the ids of the games that parse. */
  function IdSum(games: seq<Option<Game>>): nat {
    if games == [] then 0
    else IdSum(games[..|games| - 1]) + match games[|games| - 1] case None => 0 case Some(g) => g.id
  }

  /** The total exists exactly when every line parses; it is at most the sum
      of all the ids, and equals it when every game is possible. */
  lemma {:induction false} PossibleTotalSome(games: seq<Option<Game>>)
    ensures PossibleTotal(games).Some? <==> forall i | 0 <= i < |games| :: games[i].Some?
    ensures PossibleTotal(games).Some? ==> PossibleTotal(games).value <= IdSum(games)
    ensures (forall i | 0 <= i < |games| :: games[i].Some? && Possible(games[i].value)) ==>
      PossibleTotal(games) == Some(IdSum(games))
  {
    if games != [] {
      var rest := games[..|games| - 1];
      PossibleTotalSome(rest);
      assert forall i | 0 <= i < |rest| :: rest[i] == games[i];
    }
  }

  /** A game that does not parse ends the total. */
  lemma {:induction false} PossibleTotalStops(games: seq<Option<Game>>, i: nat)
    requires i <= |games| && PossibleTotal(games[..i]).None?
    ensures PossibleTotal(games).None?
    decreases |games| - i
  {
    if i < |games| {
      assert games[..i + 1][..i] == games[..i];
      PossibleTotalStops(games, i + 1);
    } else {
      assert games[..i] == games;
    }
  }

  /** One more game added to the total. */
  lemma {:induction false} PossibleTotalStep(games: seq<Option<Game>>, i: nat)
    requires i < |games|
    ensures PossibleTotal(games[..i + 1]) ==
      match PossibleTotal(games[..i])
      case None => None
      case Some(t) =>
        match games[i]
        case None => None
        case Some(g) => Some(t + if Possible(g) then g.id else 0)
  {
    assert games[..i + 1][..i] == games[..i];
  }

  /** The running totals `main` prints: one after each possible game, up to
      the first game that panics. */
  function Printed(games: seq<Option<Game>>): seq<nat> {
    if games == [] then []
    else
      var before := games[..|games| - 1];
      match (PossibleTotal(before), games[|games| - 1])
      case (Some(t), Some(g)) => if Possible(g) then Printed(before) + [t + g.id] else Printed(before)
      case _ => Printed(before)
  }

  /** A possible game adds the new running total to what was printed. */
  lemma PrintedStep(games: seq<Option<Game>>, i: nat, sum: nat)
    requires i < |games| && PossibleTotal(games[..i]) == Some(sum) && games[i].Some?
    ensures Printed(games[..i + 1]) ==
      if Possible(games[i].value) then Printed(games[..i]) + [sum + games[i].value.id] else Printed(games[..i])
  {
    assert games[..i + 1][..i] == games[..i];
  }

  /** A game that panics ends the printing: only what came before it is printed. */
  lemma PrintedPanics(games: seq<Option<Game>>, i: nat)
    requires i < |games| && games[i].None?
    ensures Printed(games) == Printed(games[..i])
  {
    assert games[..i + 1][..i] == games[..i];
    PossibleTotalStops(games, i + 1);
    PrintedStops(games, i + 1);
  }

  /** Once a game panics nothing more is printed. */
  lemma {:induction false} PrintedStops(games: seq<Option<Game>>, i: nat)
    requires i <= |games| && PossibleTotal(games[..i]).None?
    ensures Printed(games) == Printed(games[..i])
    decreases |games| - i
  {
    if i < |games| {
      assert games[..i + 1][..i] == games[..i];
      PrintedStops(games, i + 1);
    } else {
      assert games[..i] == games;
    }
  }

  /** The games of the lines, in order (`lines.map(game_from_line)`): the
      iterator part 1 loops over, each game `None` where reading it panics. */
  function ParseGames(lines: seq<string>): (games: seq<Option<Game>>)
    ensures |games| == |lines|
  {
    seq(|lines|, i requires 0 <= i < |lines| => ParseGame(lines[i]))
  }

  /** Part 1's `main` (main.rs lines 13-19) over the games of the lines: the
      ids of the possible games added up, the running total printed after
      each; a game that panics ends the program after the totals printed so
      far. */
  method SumPossibleIds(games: seq<Option<Game>>) returns (total: Option<nat>, printed: seq<nat>)
    ensures total == PossibleTotal(games)
    ensures printed == Printed(games)
    ensures forall a, b | 0 <= a < b < |printed| :: printed[a] <= printed[b]
    ensures total.Some? && printed != [] ==> printed[|printed| - 1] == total.value
    ensures total.Some? && printed == [] ==> total.value == 0
  {
    var sum := 0;
    printed := [];
    for i := 0 to |games|
      invariant PossibleTotal(games[..i]) == Some(sum)
      invariant printed == Printed(games[..i])
      invariant forall a, b | 0 <= a < b < |printed| :: printed[a] <= printed[b]
      invariant printed != [] ==> printed[|printed| - 1] == sum
      invariant printed == [] ==> sum == 0
    {
      var game := games[i];
      PossibleTotalStep(games, i);
      if game.None? {
        PossibleTotalStops(games, i + 1);
        PrintedPanics(games, i);
        return None, printed;
      }
      PrintedStep(games, i, sum);
      if Possible(game.value) {
        sum := sum + game.value.id;
        printed := printed + [sum];
      }
    }
    assert games[..|games|] == games;
    total := Some(sum);
  }

  /** The total of part 1 for the lines of the puzzle input. */
  function PossibleIdTotal(lines: seq<string>): Option<nat> {
    PossibleTotal(ParseGames(lines))
  }
}
