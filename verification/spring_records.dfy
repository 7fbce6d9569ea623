/** Hot spring condition records (day_12): a line such as `#.#?? 1,1` lists
    the state of each spring, then the sizes of the groups of damaged
    springs.  `usize` is unbounded; a panic is `None`. */
module SpringRecords {
  import opened Wrappers
  import opened Text

  /** `STATE`. */
  datatype State = Operational | Damaged | Unknown

  /** An arrangement: the spring states and the group sizes. */
  datatype Arrangement = Arrangement(stateHistory: seq<State>, sizeHistory: seq<nat>)

  /** The character a state is written with. */
  function Symbol(s: State): char {
    match s
    case Damaged => '#'
    case Operational => '.'
    case Unknown => '?'
  }

  /** The `match` of `from_line` (arrangement.rs lines 25-32): `#`, `.` and
      `?`; any other character panics. */
  function StateOf(c: char): (r: Option<State>)
    ensures r.Some? <==> c == '#' || c == '.' || c == '?'
  {
    match c
    case '#' => Some(Damaged)
    case '.' => Some(Operational)
    case '?' => Some(Unknown)
    case _ => None
  }

  /** Reading a state's character gives that state back, and only that
      character reads as it. */
  lemma {:induction false} StateOfSymbol(s: State, c: char)
    ensures StateOf(Symbol(s)) == Some(s)
    ensures StateOf(c) == Some(s) ==> c == Symbol(s)
  {
  }

  /** The states of a token, one per character; `None` if any character
      panics. */
  function States(token: string): (r: Option<seq<State>>)
    ensures r.Some? <==> forall i | 0 <= i < |token| :: StateOf(token[i]).Some?
    ensures r.Some? ==> (|r.value| == |token| &&
      forall i | 0 <= i < |token| :: StateOf(token[i]) == Some(r.value[i]))
  {
    if token == [] then Some([])
    else
      match StateOf(token[0])
      case None => None
      case Some(s) =>
        match States(token[1..])
        case None => None
        case Some(rest) =>
          assert forall i | 1 <= i < |token| :: token[i] == token[1..][i - 1];
          Some([s] + rest)
  }

  /** The sizes of the comma-separated pieces; `None` if any piece does not
      parse (`expect` panics). */
  function Sizes(pieces: seq<string>): (r: Option<seq<nat>>)
    ensures r.Some? <==> forall i | 0 <= i < |pieces| :: ParseNat(pieces[i]).Some?
    ensures r.Some? ==> (|r.value| == |pieces| &&
      forall i | 0 <= i < |pieces| :: ParseNat(pieces[i]) == Some(r.value[i]))
  {
    var parsed := seq(|pieces|, i requires 0 <= i < |pieces| => ParseNat(pieces[i]));
    assert forall i | 0 <= i < |pieces| :: parsed[i] == ParseNat(pieces[i]);
    AllSome(parsed)
  }


  /** The arrangement read from the states token and the sizes token. */
  function FromTokens(first: string, last: string): Option<Arrangement> {
    match States(first)
    case None => None
    case Some(states) =>
      match Sizes(Split(last, {','}))
      case None => None
      case Some(sizes) => Some(Arrangement(states, sizes))
  }

  /** `from_line` (arrangement.rs lines 19-44): the states from the first
      space-separated token, the sizes from the last. */
  function FromLine(line: string): (r: Option<Arrangement>)
    ensures r.Some? ==> |r.value.stateHistory| == |Split(line, {' '})[0]|
    ensures var parts := Split(line, {' '});
      r.Some? ==> |r.value.sizeHistory| == |Split(parts[|parts| - 1], {','})|
  {
    var parts := Split(line, {' '});
    FromTokens(parts[0], parts[|parts| - 1])
  }

  /** The two tokens read exactly when every character of the first is a
      spring state and every comma-separated piece of the last is a number;
      the arrangement then holds those states and numbers, in order. */
  lemma {:induction false} FromTokensReads(first: string, last: string, pieces: seq<string>)
    requires pieces == Split(last, {','})
    ensures var r := FromTokens(first, last);
      r.Some? <==>
        (forall i | 0 <= i < |first| :: StateOf(first[i]).Some?) &&
        (forall i | 0 <= i < |pieces| :: ParseNat(pieces[i]).Some?)
    ensures var r := FromTokens(first, last);
      r.Some? ==>
        (forall i | 0 <= i < |first| :: StateOf(first[i]) == Some(r.value.stateHistory[i])) &&
        (forall i | 0 <= i < |pieces| :: ParseNat(pieces[i]) == Some(r.value.sizeHistory[i]))
  {
    assert States(first).Some? && Sizes(pieces).Some? ==>
      FromTokens(first, last) == Some(Arrangement(States(first).value, Sizes(pieces).value));
  }

  /** A line without a space is its own first and last token, and such a
      line always panics: a token of states holds no digit to parse. */
  lemma {:induction false} NoSpaceSameToken(line: string)
    requires forall i | 0 <= i < |line| :: line[i] != ' '
    ensures FromLine(line) == FromTokens(line, line)
    ensures FromLine(line).None?
  {
    SplitWithoutSeparator(line, {' '});
    if States(line).Some? {
      SplitWithoutSeparator(line, {','});
      if line != [] {
        assert !IsDigit(line[0]) && line[0] != '+';
      }
    }
  }

  /** The decimal digits of a number, as `to_string` writes them. */
  function Show(n: nat): (s: string)
    ensures s != [] && AllDigits(s)
  {
    var digit := ('0' as int + n % 10) as char;
    if n < 10 then [digit] else Show(n / 10) + [digit]
  }

  /** Parsing a number's digits gives the number back. */
  lemma {:induction false} ParseShow(n: nat)
    ensures ParseNat(Show(n)) == Some(n)
    ensures DigitsValue(Show(n)) == n
  {
    var s := Show(n);
    assert s[0] != '+';
    if n < 10 {
      assert s[..|s| - 1] == [];
      assert DigitsValue(s) == 10 * DigitsValue([]) + DigitValue(s[0]);
    } else {
      ParseShow(n / 10);
      assert s[..|s| - 1] == Show(n / 10);
    }
  }

  /** An arrangement written out as a record line: its states, a space,
      then its sizes separated by commas. */
  function Render(a: Arrangement): string
    requires |a.sizeHistory| >= 1
  {
    Symbols(a.stateHistory) + [' '] + Join(ShowAll(a.sizeHistory), ',')
  }

  function Symbols(states: seq<State>): (s: string)
    ensures |s| == |states| && forall i | 0 <= i < |s| :: s[i] == Symbol(states[i])
  {
    seq(|states|, i requires 0 <= i < |states| => Symbol(states[i]))
  }

  function ShowAll(sizes: seq<nat>): (r: seq<string>)
    ensures |r| == |sizes| && forall i | 0 <= i < |r| :: r[i] == Show(sizes[i])
  {
    seq(|sizes|, i requires 0 <= i < |sizes| => Show(sizes[i]))
  }

  /** Reading a rendered record gives the arrangement back: `from_line`
      loses nothing of a well-formed line. */
  lemma {:induction false} FromLineRender(a: Arrangement)
    requires |a.sizeHistory| >= 1
    ensures FromLine(Render(a)) == Some(a)
  {
    RenderSplit(a);
    SymbolsRead(a.stateHistory);
    ShowAllRead(a.sizeHistory);
  }

  /** A rendered record splits into its states token and its sizes token,
      and the sizes token into the numbers' digits. */
  lemma {:induction false} RenderSplit(a: Arrangement)
    requires |a.sizeHistory| >= 1
    ensures Split(Render(a), {' '}) == [Symbols(a.stateHistory), Join(ShowAll(a.sizeHistory), ',')]
    ensures Split(Join(ShowAll(a.sizeHistory), ','), {','}) == ShowAll(a.sizeHistory)
  {
    var symbols := Symbols(a.stateHistory);
    var shown := ShowAll(a.sizeHistory);
    var joined := Join(shown, ',');
    forall i, k | 0 <= i < |shown| && 0 <= k < |shown[i]|
      ensures shown[i][k] !in {','} && shown[i][k] != ' '
    {
      assert IsDigit(Show(a.sizeHistory[i])[k]);
    }
    JoinNoSpace(shown);
    SplitAtSeparator(symbols, ' ', joined, {' '});
    SplitWithoutSeparator(joined, {' '});
    JoinSplit(shown, ',', {','});
  }

  /** The states' symbols read back as the states. */
  lemma {:induction false} SymbolsRead(states: seq<State>)
    ensures States(Symbols(states)) == Some(states)
  {
    var symbols := Symbols(states);
    forall i | 0 <= i < |symbols|
      ensures StateOf(symbols[i]) == Some(states[i])
    {
      StateOfSymbol(states[i], symbols[i]);
    }
    assert States(symbols).value == states;
  }

  /** The sizes' digits read back as the sizes. */
  lemma {:induction false} ShowAllRead(sizes: seq<nat>)
    ensures Sizes(ShowAll(sizes)) == Some(sizes)
  {
    var shown := ShowAll(sizes);
    forall i | 0 <= i < |shown|
      ensures ParseNat(shown[i]) == Some(sizes[i])
    {
      ParseShow(sizes[i]);
    }
    assert Sizes(shown).value == sizes;
  }

  /** Pieces without spaces, joined with commas, hold no space. */
  lemma {:induction false} JoinNoSpace(parts: seq<string>)
    requires |parts| >= 1
    requires forall i, k | 0 <= i < |parts| && 0 <= k < |parts[i]| :: parts[i][k] != ' '
    ensures forall k | 0 <= k < |Join(parts, ',')| :: Join(parts, ',')[k] != ' '
  {
    if |parts| > 1 {
      JoinNoSpace(parts[1..]);
      var rest := Join(parts[1..], ',');
      assert Join(parts, ',') == parts[0] + [','] + rest;
      forall k | 0 <= k < |Join(parts, ',')|
        ensures Join(parts, ',')[k] != ' '
      {
        if k > |parts[0]| {
          assert Join(parts, ',')[k] == rest[k - |parts[0]| - 1];
        }
      }
    }
  }

  /** A record line whose states and sizes are already written out reads
      back as its arrangement. */
  lemma {:induction false} FromWrittenLine(a: Arrangement, states: string, sizes: string)
    requires |a.sizeHistory| >= 1
    requires Symbols(a.stateHistory) == states
    requires Join(ShowAll(a.sizeHistory), ',') == sizes
    ensures FromLine(states + " " + sizes) == Some(a)
  {
    FromLineRender(a);
  }

  /** The first test of arrangement.rs (lines 55-60). */
  lemma {:induction false} FromLineOneRecord()
    ensures FromLine("# 1") == Some(Arrangement([Damaged], [1]))
  {
    var a := Arrangement([Damaged], [1]);
    assert Symbols(a.stateHistory) == "#";
    assert ShowAll(a.sizeHistory) == ["1"];
    FromWrittenLine(a, "#", "1");
    assert "#" + " " + "1" == "# 1";
  }

  /** The second test of arrangement.rs (lines 62-67). */
  lemma {:induction false} FromLineTwoRecords()
    ensures FromLine("## 2") == Some(Arrangement([Damaged, Damaged], [2]))
  {
    var a := Arrangement([Damaged, Damaged], [2]);
    assert Symbols(a.stateHistory) == "##";
    assert ShowAll(a.sizeHistory) == ["2"];
    FromWrittenLine(a, "##", "2");
    assert "##" + " " + "2" == "## 2";
  }

  /** The sizes "1,1" of the last two tests. */
  lemma {:induction false} ShowOneOne()
    ensures Join(ShowAll([1, 1]), ',') == "1,1"
  {
    assert ShowAll([1, 1]) == ["1", "1"];
    assert Join(["1", "1"], ',') == "1,1";
  }

  /** The third test of arrangement.rs (lines 69-74). */
  lemma {:induction false} FromLineTwoGroups()
    ensures FromLine("#.# 1,1") == Some(Arrangement([Damaged, Operational, Damaged], [1, 1]))
  {
    var a := Arrangement([Damaged, Operational, Damaged], [1, 1]);
    assert Symbols(a.stateHistory) == "#.#";
    ShowOneOne();
    FromWrittenLine(a, "#.#", "1,1");
    assert "#.#" + " " + "1,1" == "#.# 1,1";
  }

  /** The fourth test of arrangement.rs (lines 76-82). */
  lemma {:induction false} FromLineOneUnknown()
    ensures FromLine("#?# 1,1") == Some(Arrangement([Damaged, Unknown, Damaged], [1, 1]))
  {
    var a := Arrangement([Damaged, Unknown, Damaged], [1, 1]);
    assert Symbols(a.stateHistory) == "#?#";
    ShowOneOne();
    FromWrittenLine(a, "#?#", "1,1");
    assert "#?#" + " " + "1,1" == "#?# 1,1";
  }

  /** `resolve_missing_records` (arrangement.rs lines 45-47): its body is
      empty and it only borrows the arrangement, which it leaves as read. */
  function ResolveMissingRecords(a: Arrangement): (r: Arrangement)
    ensures r.stateHistory == a.stateHistory && r.sizeHistory == a.sizeHistory
  {
    a
  }
}
