/** Gear ratios (day_3): an engine schematic is a grid of '.', digits and
    symbols.  Part 1 adds up every number that touches a symbol, diagonals
    included; part 2 adds, for every '*' touching exactly two numbers, the
    product of those two.  Rows are ASCII; `usize` values are unbounded. */
module Engine {
  import opened Wrappers
  import opened Text
  import opened Grids

  /** One row of the numbers matrix: the digit of a cell, or `None`. */
  type Row = seq<Option<char>>

  /** Part 1 marks every character that is neither '.' nor a digit; part 2
      marks only '*'. */
  predicate IsSymbol(c: char, starsOnly: bool) {
    if starsOnly then c == '*' else c != '.' && !IsDigit(c)
  }

  function DigitCell(c: char): Option<char> {
    if IsDigit(c) then Some(c) else None
  }

  /** `get_matrices`, the part 1 version (`starsOnly` false) and the part 2
      version (`starsOnly` true): the digit matrix row and the symbol row of
      one line. */
  method GetMatrices(line: string, starsOnly: bool) returns (characters: Row, symbols: seq<bool>)
    ensures |characters| == |line| && |symbols| == |line|
    ensures forall k | 0 <= k < |line| :: characters[k] == DigitCell(line[k]) && symbols[k] == IsSymbol(line[k], starsOnly)
    ensures forall k | 0 <= k < |line| :: !(characters[k].Some? && symbols[k])
    ensures !starsOnly ==> forall k | 0 <= k < |line| :: (characters[k].Some? || symbols[k]) <==> line[k] != '.'
  {
    characters, symbols := [], [];
    for k := 0 to |line|
      invariant |characters| == k && |symbols| == k
      invariant forall k' | 0 <= k' < k :: characters[k'] == DigitCell(line[k']) && symbols[k'] == IsSymbol(line[k'], starsOnly)
    {
      var c := line[k];
      if c == '.' {
        characters, symbols := characters + [None], symbols + [false];
      } else if IsDigit(c) {
        characters, symbols := characters + [Some(c)], symbols + [false];
      } else if !starsOnly || c == '*' {
        characters, symbols := characters + [None], symbols + [true];
      } else {
        characters, symbols := characters + [None], symbols + [false];
      }
    }
  }

  /** The `get_matrices` tests of part 1, on the row functions the method
      is specified by. */
  lemma {:induction false} MatricesExamples()
    ensures DigitRow(".") == [None] && SymbolGrid(["."], false) == [[false]]
    ensures DigitRow("1") == [Some('1')] && SymbolGrid(["1"], false) == [[false]]
    ensures SymbolGrid(["#"], false) == [[true]] && SymbolGrid(["$"], false) == [[true]]
    ensures DigitRow("1$2") == [Some('1'), None, Some('2')]
    ensures SymbolGrid(["1$2"], false) == [[false, true, false]]
  {
    var r := DigitRow("1$2");
    assert r[0] == Some('1') && r[1] == None && r[2] == Some('2');
    var g := SymbolGrid(["1$2"], false);
    assert g[0][0] == false && g[0][1] == true && g[0][2] == false;
    assert g[0] == [false, true, false];
    assert SymbolGrid(["."], false)[0] == [false];
    assert SymbolGrid(["1"], false)[0] == [false];
    assert SymbolGrid(["#"], false)[0] == [true];
    assert SymbolGrid(["$"], false)[0] == [true];
    assert DigitRow(".")[0] == None && DigitRow("1")[0] == Some('1');
  }

  /** Every line of the schematic as long as the first. */
  predicate SameLength(lines: seq<string>) {
    forall i | 0 <= i < |lines| :: |lines[i]| == |lines[0]|
  }

  function DigitRow(line: string): (row: Row)
    ensures |row| == |line| && forall j | 0 <= j < |line| :: row[j] == DigitCell(line[j])
  {
    seq(|line|, j requires 0 <= j < |line| => DigitCell(line[j]))
  }

  function SymbolGrid(lines: seq<string>, starsOnly: bool): (g: seq<seq<bool>>)
    ensures |g| == |lines|
    ensures forall i | 0 <= i < |lines| :: |g[i]| == |lines[i]|
    ensures forall i, j | 0 <= i < |lines| && 0 <= j < |lines[i]| :: g[i][j] == IsSymbol(lines[i][j], starsOnly)
  {
    seq(|lines|, i requires 0 <= i < |lines| =>
      seq(|lines[i]|, j requires 0 <= j < |lines[i]| => IsSymbol(lines[i][j], starsOnly)))
  }

  /** A marked cell; positions off the grid are unmarked. */
  predicate Cell(g: seq<seq<bool>>, i: int, j: int) {
    0 <= i < |g| && 0 <= j < |g[i]| && g[i][j]
  }

  /** Some marked cell lies in the 3 by 3 block around `(i, j)`. */
  predicate Near(g: seq<seq<bool>>, i: int, j: int) {
    exists di, dj | -1 <= di <= 1 && -1 <= dj <= 1 :: Shifted(g, i, j, di, dj)
  }

  predicate Shifted(g: seq<seq<bool>>, i: int, j: int, di: int, dj: int) {
    Cell(g, i + di, j + dj)
  }

  lemma {:induction false} NearCells(g: seq<seq<bool>>, i: int, j: int)
    ensures Near(g, i, j) <==>
      (Cell(g, i - 1, j - 1) || Cell(g, i - 1, j) || Cell(g, i - 1, j + 1) ||
       Cell(g, i, j - 1) || Cell(g, i, j) || Cell(g, i, j + 1) ||
       Cell(g, i + 1, j - 1) || Cell(g, i + 1, j) || Cell(g, i + 1, j + 1))
  {
    if Near(g, i, j) {
      var di, dj :| -1 <= di <= 1 && -1 <= dj <= 1 && Shifted(g, i, j, di, dj);
      assert di == -1 || di == 0 || di == 1;
      assert dj == -1 || dj == 0 || dj == 1;
    }
    if Cell(g, i - 1, j - 1) { assert Shifted(g, i, j, -1, -1); }
    if Cell(g, i - 1, j) { assert Shifted(g, i, j, -1, 0); }
    if Cell(g, i - 1, j + 1) { assert Shifted(g, i, j, -1, 1); }
    if Cell(g, i, j - 1) { assert Shifted(g, i, j, 0, -1); }
    if Cell(g, i, j) { assert Shifted(g, i, j, 0, 0); }
    if Cell(g, i, j + 1) { assert Shifted(g, i, j, 0, 1); }
    if Cell(g, i + 1, j - 1) { assert Shifted(g, i, j, 1, -1); }
    if Cell(g, i + 1, j) { assert Shifted(g, i, j, 1, 0); }
    if Cell(g, i + 1, j + 1) { assert Shifted(g, i, j, 1, 1); }
  }

  /** The value `make_above_below_valid` gives a cell: it or the cell above
      or below it is valid; a neighbour off the grid counts as invalid. */
  predicate AboveBelow(v: array2<bool>, i: nat, j: nat)
    requires i < v.Length0 && j < v.Length1
    reads v
  {
    v[i, j] || (i > 0 && v[i - 1, j]) || (i + 1 < v.Length0 && v[i + 1, j])
  }

  /** The same along the row. */
  predicate LeftRight(v: array2<bool>, i: nat, j: nat)
    requires i < v.Length0 && j < v.Length1
    reads v
  {
    v[i, j] || (j > 0 && v[i, j - 1]) || (j + 1 < v.Length1 && v[i, j + 1])
  }

  /** `make_above_below_valid` on a clone of `v` (the `saturating_sub` of
      the first row looks at the cell itself, which changes nothing). */
  method SpreadAboveBelow(v: array2<bool>) returns (out: array2<bool>)
    ensures fresh(out) && out.Length0 == v.Length0 && out.Length1 == v.Length1
    ensures forall i: nat, j: nat | i < v.Length0 && j < v.Length1 :: out[i, j] == AboveBelow(v, i, j)
  {
    out := new bool[v.Length0, v.Length1]((i, j) reads v requires 0 <= i < v.Length0 && 0 <= j < v.Length1 => v[i, j]);
    for i := 0 to v.Length0
      invariant forall i': nat, j: nat | i' < i && j < v.Length1 :: out[i', j] == AboveBelow(v, i', j)
      invariant forall i': nat, j: nat | i <= i' < v.Length0 && j < v.Length1 :: out[i', j] == v[i', j]
    {
      for j := 0 to v.Length1
        invariant forall i': nat, j': nat | i' < i && j' < v.Length1 :: out[i', j'] == AboveBelow(v, i', j')
        invariant forall j': nat | j' < j :: out[i, j'] == AboveBelow(v, i, j')
        invariant forall j': nat | j <= j' < v.Length1 :: out[i, j'] == v[i, j']
        invariant forall i': nat, j': nat | i < i' < v.Length0 && j' < v.Length1 :: out[i', j'] == v[i', j']
      {
        var above := v[if i == 0 then 0 else i - 1, j];
        var below := if i + 1 < v.Length0 then v[i + 1, j] else false;
        out[i, j] := out[i, j] || above || below;
      }
    }
  }

  /** `make_left_right_valid` on a clone of `v`. */
  method SpreadLeftRight(v: array2<bool>) returns (out: array2<bool>)
    ensures fresh(out) && out.Length0 == v.Length0 && out.Length1 == v.Length1
    ensures forall i: nat, j: nat | i < v.Length0 && j < v.Length1 :: out[i, j] == LeftRight(v, i, j)
  {
    out := new bool[v.Length0, v.Length1]((i, j) reads v requires 0 <= i < v.Length0 && 0 <= j < v.Length1 => v[i, j]);
    for i := 0 to v.Length0
      invariant forall i': nat, j: nat | i' < i && j < v.Length1 :: out[i', j] == LeftRight(v, i', j)
      invariant forall i': nat, j: nat | i <= i' < v.Length0 && j < v.Length1 :: out[i', j] == v[i', j]
    {
      for j := 0 to v.Length1
        invariant forall i': nat, j': nat | i' < i && j' < v.Length1 :: out[i', j'] == LeftRight(v, i', j')
        invariant forall j': nat | j' < j :: out[i, j'] == LeftRight(v, i, j')
        invariant forall j': nat | j <= j' < v.Length1 :: out[i, j'] == v[i, j']
        invariant forall i': nat, j': nat | i < i' < v.Length0 && j' < v.Length1 :: out[i', j'] == v[i', j']
      {
        var left := v[i, if j == 0 then 0 else j - 1];
        var right := if j + 1 < v.Length1 then v[i, j + 1] else false;
        out[i, j] := out[i, j] || left || right;
      }
    }
  }

  /** The end of the digit run from `s`: the first empty cell at or after it. */
  function RunEnd(row: Row, s: nat): (e: nat)
    requires s <= |row|
    ensures s <= e <= |row|
    ensures forall k | s <= k < e :: row[k].Some?
    ensures e == |row| || row[e].None?
    decreases |row| - s
  {
    if s == |row| || row[s].None? then s else RunEnd(row, s + 1)
  }

  lemma {:induction false} RunEndAt(row: Row, s: nat, e: nat)
    requires s <= e <= |row|
    requires forall k | s <= k < e :: row[k].Some?
    requires e == |row| || row[e].None?
    ensures RunEnd(row, s) == e
    decreases e - s
  {
    if s < e {
      RunEndAt(row, s + 1, e);
    }
  }

  /** A maximal run of digits: cells `s` to `e - 1` all hold digits, and the
      cells just before and just after, if any, do not. */
  predicate IsRun(row: Row, s: nat, e: nat) {
    s < e <= |row| && (forall k | s <= k < e :: row[k].Some?)
    && (s == 0 || row[s - 1].None?) && (e == |row| || row[e].None?)
  }

  /** Position `from` does not cut a run of digits in two. */
  predicate Boundary(row: Row, from: nat) {
    from == 0 || from >= |row| || row[from - 1].None? || row[from].None?
  }

  /** The maximal digit runs of the row from `from` on, left to right, as
      (start, end) pairs. */
  function Runs(row: Row, from: nat): (runs: seq<(nat, nat)>)
    requires from <= |row|
    ensures forall k | 0 <= k < |runs| :: from <= runs[k].0 < runs[k].1 <= |row|
    ensures forall k, c | 0 <= k < |runs| && runs[k].0 <= c < runs[k].1 :: row[c].Some?
    decreases |row| - from
  {
    if from == |row| then []
    else if row[from].None? then Runs(row, from + 1)
    else
      var e := RunEnd(row, from);
      [(from, e)] + Runs(row, e)
  }

  /** The runs are listed left to right, each ending before the next
      begins, so no run is listed twice. */
  lemma {:induction false} RunsIncreasing(row: Row, from: nat)
    requires from <= |row|
    ensures forall k | 0 < k < |Runs(row, from)| :: Runs(row, from)[k - 1].1 < Runs(row, from)[k].0
    decreases |row| - from
  {
    if from < |row| {
      if row[from].None? {
        RunsIncreasing(row, from + 1);
      } else {
        var e := RunEnd(row, from);
        var rest := Runs(row, e);
        var runs := Runs(row, from);
        assert runs == [(from, e)] + rest;
        RunsIncreasing(row, e);
        forall k | 0 < k < |runs|
          ensures runs[k - 1].1 < runs[k].0
        {
          if k == 1 {
            assert runs[1] == rest[0];
            assert row[rest[0].0].Some?;
          } else {
            assert runs[k - 1] == rest[k - 2] && runs[k] == rest[k - 1];
          }
        }
      }
    }
  }

  /** The runs listed are exactly the maximal digit runs. */
  lemma {:induction false} RunsMembers(row: Row, from: nat, s: nat, e: nat)
    requires from <= |row| && Boundary(row, from)
    ensures (s, e) in Runs(row, from) <==> from <= s && IsRun(row, s, e)
    decreases |row| - from
  {
    if from == |row| {
    } else if row[from].None? {
      RunsMembers(row, from + 1, s, e);
    } else {
      var e0 := RunEnd(row, from);
      var rest := Runs(row, e0);
      assert Runs(row, from) == [(from, e0)] + rest;
      assert IsRun(row, from, e0);
      RunsMembers(row, e0, s, e);
      assert (s, e) in Runs(row, from) <==> (s, e) == (from, e0) || (s, e) in rest;
      if from < s && IsRun(row, s, e) {
        RunStartsAfter(row, from, s, e);
      }
      if s == from && IsRun(row, s, e) {
        RunEndAt(row, s, e);
      }
    }
  }

  /** A later run starts after the end of the run at `from`. */
  lemma {:induction false} RunStartsAfter(row: Row, from: nat, s: nat, e: nat)
    requires from < s && IsRun(row, s, e)
    ensures RunEnd(row, from) < s
  {
    assert row[s - 1].None?;
  }

  /** The digits of the cells `s` to `e - 1`. */
  function Digits(row: Row, s: nat, e: nat): (d: string)
    requires s <= e <= |row| && forall k | s <= k < e :: row[k].Some?
    ensures |d| == e - s
  {
    seq(e - s, k requires 0 <= k < e - s => row[s + k].value)
  }

  /** What part 1 adds for the run `s..e`: its number, read by
      `parse().unwrap_or(0)`, when one of its cells is valid. */
  function RunValue(row: Row, valid: seq<bool>, s: nat, e: nat): nat
    requires s <= e <= |row| == |valid| && forall k | s <= k < e :: row[k].Some?
  {
    if AnyValid(valid, s, e) then ParsedOrZero(Digits(row, s, e)) else 0
  }

  /** `parse::<usize>().unwrap_or(0)`. */
  function ParsedOrZero(text: string): nat {
    match ParseNat(text)
    case None => 0
    case Some(n) => n
  }

  lemma {:induction false} DigitsStep(row: Row, s: nat, e: nat)
    requires s <= e < |row| && forall k | s <= k <= e :: row[k].Some?
    ensures Digits(row, s, e + 1) == Digits(row, s, e) + [row[e].value]
  {
  }

  /** Some cell from `s` to `e - 1` is valid. */
  predicate AnyValid(valid: seq<bool>, s: nat, e: nat)
    requires s <= e <= |valid|
  {
    exists k | s <= k < e :: valid[k]
  }

  lemma {:induction false} AnyValidStep(valid: seq<bool>, s: nat, e: nat)
    requires s <= e < |valid|
    ensures AnyValid(valid, s, e + 1) <==> AnyValid(valid, s, e) || valid[e]
  {
    if AnyValid(valid, s, e + 1) && !valid[e] {
      var k :| s <= k < e + 1 && valid[k];
      assert k < e;
    }
  }

  function RunSum(row: Row, valid: seq<bool>, runs: seq<(nat, nat)>): nat
    requires |row| == |valid|
    requires forall k | 0 <= k < |runs| :: runs[k].0 <= runs[k].1 <= |row|
    requires forall k, c | 0 <= k < |runs| && runs[k].0 <= c < runs[k].1 :: row[c].Some?
  {
    if runs == [] then 0 else RunValue(row, valid, runs[0].0, runs[0].1) + RunSum(row, valid, runs[1..])
  }

  /** What a row of part 1 adds: every maximal digit run once, when one of
      its cells is valid. */
  function RowValue(row: Row, valid: seq<bool>): nat
    requires |row| == |valid|
  {
    RestValue(row, valid, 0)
  }

  /** What the runs from `from` on add. */
  function RestValue(row: Row, valid: seq<bool>, from: nat): nat
    requires |row| == |valid| && from <= |row|
  {
    RunSum(row, valid, Runs(row, from))
  }

  /** An empty cell at `j` closes the run begun at `s` (or nothing, when
      `s == j`). */
  lemma {:induction false} RunsClosed(row: Row, s: nat, j: nat)
    requires s <= j < |row| && row[j].None?
    requires forall k | s <= k < j :: row[k].Some?
    ensures Runs(row, s) == (if s < j then [(s, j)] else []) + Runs(row, j + 1)
  {
    if s < j {
      RunEndAt(row, s, j);
    }
  }

  /** The row end closes the run begun at `s`. */
  lemma {:induction false} RunsAtEnd(row: Row, s: nat)
    requires s <= |row|
    requires forall k | s <= k < |row| :: row[k].Some?
    ensures Runs(row, s) == if s < |row| then [(s, |row|)] else []
  {
    if s < |row| {
      RunEndAt(row, s, |row|);
    }
  }

  lemma {:induction false} RunClosed(row: Row, valid: seq<bool>, s: nat, j: nat)
    requires |valid| == |row| && s <= j < |row| && row[j].None?
    requires forall k | s <= k < j :: row[k].Some?
    ensures RunSum(row, valid, Runs(row, s)) == (if s < j then RunValue(row, valid, s, j) else 0) + RunSum(row, valid, Runs(row, j + 1))
  {
    RunsClosed(row, s, j);
    if s < j {
      assert ([(s, j)] + Runs(row, j + 1))[1..] == Runs(row, j + 1);
    } else {
      assert [] + Runs(row, j + 1) == Runs(row, j + 1);
    }
  }

  /** The same, in terms of the scan's `buffer` and `valid_flag`. */
  lemma {:induction false} ScanClosed(row: Row, valid: seq<bool>, s: nat, j: nat, buffer: string, validFlag: bool)
    requires |valid| == |row| && s <= j < |row| && row[j].None?
    requires forall k | s <= k < j :: row[k].Some?
    requires buffer == Digits(row, s, j) && validFlag == AnyValid(valid, s, j)
    ensures RestValue(row, valid, s) == (if validFlag then ParsedOrZero(buffer) else 0) + RestValue(row, valid, j + 1)
  {
    RunClosed(row, valid, s, j);
  }

  lemma {:induction false} RunAtEnd(row: Row, valid: seq<bool>, s: nat, buffer: string, validFlag: bool)
    requires |valid| == |row| && s <= |row|
    requires forall k | s <= k < |row| :: row[k].Some?
    requires buffer == Digits(row, s, |row|) && validFlag == AnyValid(valid, s, |row|)
    ensures RestValue(row, valid, s) == if validFlag then ParsedOrZero(buffer) else 0
  {
    RunsAtEnd(row, s);
    if s < |row| {
      assert RunSum(row, valid, Runs(row, s)) == RunValue(row, valid, s, |row|) + RunSum(row, valid, []);
    }
  }

  /** One row of the scan in part 1's `main` (lines 28-51): `buffer`
      collects the digits of the current run, `valid_flag` whether one of
      them is valid; the run is added when an empty cell or the row end
      closes it. */
  method ScanRow(row: Row, valid: seq<bool>) returns (total: nat)
    requires |valid| == |row|
    ensures total == RowValue(row, valid)
  {
    total := 0;
    var buffer: string := [];
    var validFlag := false;
    ghost var s: nat := 0;
    for j := 0 to |row|
      invariant s <= j
      invariant forall k | s <= k < j :: row[k].Some?
      invariant buffer == Digits(row, s, j)
      invariant validFlag == AnyValid(valid, s, j)
      invariant total + RestValue(row, valid, s) == RowValue(row, valid)
    {
      if row[j].Some? {
        DigitsStep(row, s, j);
        buffer := buffer + [row[j].value];
        AnyValidStep(valid, s, j);
        if valid[j] {
          validFlag := true;
        }
      } else {
        ScanClosed(row, valid, s, j, buffer, validFlag);
        if validFlag {
          total := total + ParsedOrZero(buffer);
        }
        buffer := [];
        validFlag := false;
        s := j + 1;
      }
    }
    RunAtEnd(row, valid, s, buffer, validFlag);
    if validFlag {
      total := total + ParsedOrZero(buffer);
    }
  }

  /** Part 1's validity of one row: a symbol in the 3 by 3 block around the cell. */
  function NearRow(g: seq<seq<bool>>, i: nat, width: nat): (r: seq<bool>)
    ensures |r| == width && forall j | 0 <= j < width :: r[j] == Near(g, i, j)
  {
    seq(width, j requires 0 <= j < width => Near(g, i, j))
  }

  /** What the rows add in part 1, each row with its own validity row. */
  function RowsValue(numbers: seq<Row>, valid: seq<seq<bool>>): nat
    requires |numbers| == |valid| && forall i | 0 <= i < |numbers| :: |numbers[i]| == |valid[i]|
  {
    if numbers == [] then 0
    else
      var i := |numbers| - 1;
      RowsValue(numbers[..i], valid[..i]) + RowValue(numbers[i], valid[i])
  }

  /** Part 1's answer for a schematic: every maximal digit run with a
      symbol in the 3 by 3 block around one of its cells, added once. */
  function PartNumberSum(lines: seq<string>): nat {
    var g := SymbolGrid(lines, false);
    RowsValue(seq(|lines|, i requires 0 <= i < |lines| => DigitRow(lines[i])),
              seq(|lines|, i requires 0 <= i < |lines| => NearRow(g, i, |lines[i]|)))
  }

  /** The outer loop of part 1's scan: every row scanned in turn. */
  method ScanRows(numbers: seq<Row>, valid: seq<seq<bool>>) returns (total: nat)
    requires |numbers| == |valid| && forall i | 0 <= i < |numbers| :: |numbers[i]| == |valid[i]|
    ensures total == RowsValue(numbers, valid)
  {
    total := 0;
    for i := 0 to |numbers|
      invariant total == RowsValue(numbers[..i], valid[..i])
    {
      var t := ScanRow(numbers[i], valid[i]);
      assert numbers[..i + 1][..i] == numbers[..i] && valid[..i + 1][..i] == valid[..i];
      total := total + t;
    }
    assert numbers[..|numbers|] == numbers && valid[..|valid|] == valid;
  }

  /** `assign` of a matrix row from a vector of another length: a vector of
      one element is broadcast across the whole row; otherwise it is kept
      as it is (and must then be as long as the row). */
  function Broadcast<T>(xs: seq<T>, n: nat): (r: seq<T>)
    ensures |xs| == 1 ==> |r| == n && forall j | 0 <= j < n :: r[j] == xs[0]
    ensures |xs| != 1 ==> r == xs
  {
    if |xs| == 1 then seq(n, j => xs[0]) else xs
  }

  /** Every line can be assigned to a row as long as the first: it has that
      length, or a single character that is broadcast; any other length
      makes `assign` panic. */
  predicate Fits(lines: seq<string>)
    requires lines != []
  {
    forall i | 0 <= i < |lines| :: |lines[i]| == |lines[0]| || |lines[i]| == 1
  }

  /** The schematic the two matrices describe: every line broadcast to the
      length of the first. */
  function Widened(lines: seq<string>): (w: seq<string>)
    requires lines != []
    ensures |w| == |lines| && forall i | 0 <= i < |lines| :: w[i] == Broadcast(lines[i], |lines[0]|)
  {
    seq(|lines|, i requires 0 <= i < |lines| => Broadcast(lines[i], |lines[0]|))
  }

  /** Broadcasting keeps the first line, and makes lines that fit all as
      long as it. */
  lemma {:induction false} WidenedFits(lines: seq<string>)
    requires lines != [] && Fits(lines)
    ensures SameLength(Widened(lines)) && Widened(lines)[0] == lines[0]
  {
    var w := Widened(lines);
    if |lines[0]| == 1 {
      assert w[0] == lines[0];
    }
  }

  /** The top of both parts' `main` (lines 12-24 of part 1, 17-29 of part
      2): the numbers matrix and the symbol grid, filled row by row from
      `get_matrices`; `ok` is false where an `assign` panics. */
  method ReadSchematic(lines: seq<string>, starsOnly: bool) returns (ok: bool, numbers: seq<Row>, valid: array2<bool>)
    requires lines != []
    ensures ok <==> Fits(lines)
    ensures fresh(valid) && valid.Length0 == |lines| && valid.Length1 == |lines[0]|
    ensures ok ==> |numbers| == |lines| && forall i | 0 <= i < |lines| :: numbers[i] == DigitRow(Widened(lines)[i])
    ensures ok ==> forall i, j | 0 <= i < |lines| && 0 <= j < |lines[0]| :: valid[i, j] == IsSymbol(Widened(lines)[i][j], starsOnly)
  {
    var m, n := |lines|, |lines[0]|;
    ghost var wide := Widened(lines);
    numbers := [];
    valid := new bool[m, n];
    for i := 0 to m
      invariant forall i' | 0 <= i' < i :: |lines[i']| == n || |lines[i']| == 1
      invariant forall i' | 0 <= i' < i :: |wide[i']| == n
      invariant |numbers| == i && forall i' | 0 <= i' < i :: numbers[i'] == DigitRow(wide[i'])
      invariant forall i', j | 0 <= i' < i && 0 <= j < n :: valid[i', j] == IsSymbol(wide[i'][j], starsOnly)
    {
      var characters, symbols := GetMatrices(lines[i], starsOnly);
      if |characters| != n && |characters| != 1 {
        return false, numbers, valid;
      }
      var row, flags := Broadcast(characters, n), Broadcast(symbols, n);
      BroadcastRow(lines[i], n, characters, symbols, starsOnly);
      assert wide[i] == Broadcast(lines[i], n);
      numbers := numbers + [row];
      AssignRow(valid, i, flags);
      assert forall j | 0 <= j < n :: valid[i, j] == IsSymbol(wide[i][j], starsOnly);
    }
    ok := true;
  }

  /** `assign` of one row of the symbol grid: row `i` takes `flags`, every
      other row keeps its cells. */
  method AssignRow(valid: array2<bool>, i: nat, flags: seq<bool>)
    requires i < valid.Length0 && |flags| == valid.Length1
    modifies valid
    ensures forall i', j | 0 <= i' < valid.Length0 && 0 <= j < valid.Length1 ::
      valid[i', j] == if i' == i then flags[j] else old(valid[i', j])
  {
    for j := 0 to valid.Length1
      invariant forall i', j' | 0 <= i' < valid.Length0 && 0 <= j' < valid.Length1 ::
        valid[i', j'] == if i' == i && j' < j then flags[j'] else old(valid[i', j'])
    {
      valid[i, j] := flags[j];
    }
  }

  /** Broadcasting the two rows `get_matrices` returns gives the rows of the
      broadcast line. */
  lemma {:induction false} BroadcastRow(line: string, n: nat, characters: Row, symbols: seq<bool>, starsOnly: bool)
    requires |line| == n || |line| == 1
    requires |characters| == |line| && |symbols| == |line|
    requires forall k | 0 <= k < |line| :: characters[k] == DigitCell(line[k]) && symbols[k] == IsSymbol(line[k], starsOnly)
    ensures Broadcast(characters, n) == DigitRow(Broadcast(line, n))
    ensures |Broadcast(symbols, n)| == n && |Broadcast(line, n)| == n
    ensures forall j | 0 <= j < n :: Broadcast(symbols, n)[j] == IsSymbol(Broadcast(line, n)[j], starsOnly)
  {
  }

  /** After both passes a cell is valid exactly when a symbol lies in the 3
      by 3 block around it. */
  lemma {:induction false} SpreadIsNear(lines: seq<string>, valid: array2<bool>, vertical: array2<bool>, spread: array2<bool>, i: nat, j: nat)
    requires lines != [] && SameLength(lines)
    requires valid.Length0 == vertical.Length0 == spread.Length0 == |lines|
    requires valid.Length1 == vertical.Length1 == spread.Length1 == |lines[0]|
    requires forall i': nat, j': nat | i' < |lines| && j' < |lines[0]| :: valid[i', j'] == IsSymbol(lines[i'][j'], false)
    requires forall i': nat, j': nat | i' < |lines| && j' < |lines[0]| :: vertical[i', j'] == AboveBelow(valid, i', j')
    requires forall i': nat, j': nat | i' < |lines| && j' < |lines[0]| :: spread[i', j'] == LeftRight(vertical, i', j')
    requires i < |lines| && j < |lines[0]|
    ensures spread[i, j] == Near(SymbolGrid(lines, false), i, j)
  {
    NearCells(SymbolGrid(lines, false), i, j);
  }

  /** Part 1's output for the input lines: `None` where the program panics,
      for want of a non-empty line (`lines[0]`) or on a line `assign`
      cannot fit to its row. */
  function PartNumbers(lines: seq<string>): (r: Option<nat>)
    ensures r.None? <==> NonEmpty(lines) == [] || !Fits(NonEmpty(lines))
  {
    var kept := NonEmpty(lines);
    if kept == [] || !Fits(kept) then None else Some(PartNumberSum(Widened(kept)))
  }

  /** Part 1 (main.rs lines 6-52): drop the empty lines, read the
      schematic, spread the symbols to their neighbours above and below and
      then left and right, and scan every row. */
  method SumPartNumbers(lines: seq<string>) returns (r: Option<nat>)
    ensures r.None? <==> NonEmpty(lines) == [] || !Fits(NonEmpty(lines))
    ensures r == PartNumbers(lines)
  {
    var kept := NonEmpty(lines);
    if kept == [] {
      return None;
    }
    var ok, numbers, valid := ReadSchematic(kept, false);
    if !ok {
      return None;
    }
    ghost var wide := Widened(kept);
    WidenedFits(kept);
    var vertical := SpreadAboveBelow(valid);
    var spread := SpreadLeftRight(vertical);
    forall i: nat, j: nat | i < |wide| && j < |wide[0]|
      ensures spread[i, j] == Near(SymbolGrid(wide, false), i, j)
    {
      SpreadIsNear(wide, valid, vertical, spread, i, j);
    }
    var rows := seq(|kept|, i requires 0 <= i < |kept| reads spread =>
      seq(|kept[0]|, j requires 0 <= j < |kept[0]| reads spread => spread[i, j]));
    ghost var g := SymbolGrid(wide, false);
    forall i | 0 <= i < |wide|
      ensures rows[i] == NearRow(g, i, |wide[i]|)
    {
    }
    assert numbers == seq(|wide|, i requires 0 <= i < |wide| => DigitRow(wide[i]));
    assert rows == seq(|wide|, i requires 0 <= i < |wide| => NearRow(g, i, |wide[i]|));
    var total := ScanRows(numbers, rows);
    return Some(total);
  }

  /** A number of the schematic with the cells it covers (part.rs). */
  datatype Part = Part(number: nat, places: seq<(nat, nat)>)

  /** Every cell of the row holds a digit or nothing, as `get_matrices`
      leaves it. */
  predicate DigitsOnly(row: Row) {
    forall k | 0 <= k < |row| :: row[k].Some? ==> IsDigit(row[k].value)
  }

  lemma {:induction false} DigitsAreDigits(row: Row, s: nat, e: nat)
    requires s <= e <= |row| && forall k | s <= k < e :: row[k].Some?
    requires DigitsOnly(row)
    ensures AllDigits(Digits(row, s, e))
  {
    var d := Digits(row, s, e);
    forall k | 0 <= k < |d|
      ensures IsDigit(d[k])
    {
      assert d[k] == row[s + k].value;
    }
  }

  /** `Part::new` with the number read from its digits. */
  function NewPart(digits: string, places: seq<(nat, nat)>): Part
    requires AllDigits(digits)
  {
    Part(DigitsValue(digits), places)
  }

  /** The cells `(i, s)` to `(i, e - 1)`. */
  function Places(i: nat, s: nat, e: nat): (p: seq<(nat, nat)>)
    requires s <= e
    ensures |p| == e - s && forall k | 0 <= k < e - s :: p[k] == (i, s + k)
  {
    seq(e - s, k requires 0 <= k < e - s => (i, s + k))
  }

  lemma {:induction false} PlacesStep(i: nat, s: nat, e: nat)
    requires s <= e
    ensures Places(i, s, e + 1) == Places(i, s, e) + [(i, e)]
  {
  }

  /** The part that the run `s..e` of row `i` becomes. */
  function RunPart(row: Row, i: nat, s: nat, e: nat): (p: Part)
    requires s <= e <= |row| && DigitsOnly(row) && forall k | s <= k < e :: row[k].Some?
    ensures |p.places| == e - s
  {
    DigitsAreDigits(row, s, e);
    NewPart(Digits(row, s, e), Places(i, s, e))
  }

  /** The parts of the runs from `from` on, found left to right. */
  function RestParts(row: Row, i: nat, from: nat): (ps: seq<Part>)
    requires DigitsOnly(row) && from <= |row|
    ensures forall k | 0 <= k < |ps| :: ps[k].places != []
    decreases |row| - from
  {
    if from == |row| then []
    else if row[from].None? then RestParts(row, i, from + 1)
    else
      var e := RunEnd(row, from);
      [RunPart(row, i, from, e)] + RestParts(row, i, e)
  }

  /** Every maximal run from a boundary `from` on becomes one of the parts. */
  lemma {:induction false} RunInRestParts(row: Row, i: nat, from: nat, s: nat, e: nat)
    requires DigitsOnly(row) && from <= |row| && Boundary(row, from)
    requires from <= s && IsRun(row, s, e)
    ensures RunPart(row, i, s, e) in RestParts(row, i, from)
    decreases |row| - from
  {
    if row[from].None? {
      RunInRestParts(row, i, from + 1, s, e);
    } else if s == from {
      RunEndAt(row, s, e);
    } else {
      var e0 := RunEnd(row, from);
      assert row[s - 1].None?;
      RunInRestParts(row, i, e0, s, e);
    }
  }

  /** And every part is the part of such a run. */
  lemma {:induction false} RestPartIsRun(row: Row, i: nat, from: nat, k: nat)
    requires DigitsOnly(row) && from <= |row| && Boundary(row, from)
    requires k < |RestParts(row, i, from)|
    ensures exists s, e | from <= s && IsRun(row, s, e) :: RestParts(row, i, from)[k] == RunPart(row, i, s, e)
    decreases |row| - from
  {
    if row[from].None? {
      RestPartIsRun(row, i, from + 1, k);
    } else {
      var e0 := RunEnd(row, from);
      if k == 0 {
        assert IsRun(row, from, e0);
      } else {
        RestPartIsRun(row, i, e0, k - 1);
      }
    }
  }

  /** The parts of the whole schematic, row by row. */
  function PartsOf(numbers: seq<Row>): (ps: seq<Part>)
    requires forall i | 0 <= i < |numbers| :: DigitsOnly(numbers[i])
    ensures forall k | 0 <= k < |ps| :: ps[k].places != []
  {
    if numbers == [] then []
    else
      var i := |numbers| - 1;
      PartsOf(numbers[..i]) + RestParts(numbers[i], i, 0)
  }

  /** Every maximal digit run, including one at the end of its row, is a
      part, with its value and its cells. */
  lemma {:induction false} RunIsPart(numbers: seq<Row>, i: nat, s: nat, e: nat)
    requires forall i' | 0 <= i' < |numbers| :: DigitsOnly(numbers[i'])
    requires i < |numbers| && IsRun(numbers[i], s, e)
    ensures RunPart(numbers[i], i, s, e) in PartsOf(numbers)
  {
    var last := |numbers| - 1;
    if i < last {
      assert numbers[..last][i] == numbers[i];
      RunIsPart(numbers[..last], i, s, e);
    } else {
      RunInRestParts(numbers[i], i, 0, s, e);
    }
  }

  /** One row of part 2's part building (main.rs lines 37-59): `buffer`
      collects the digits of the current run and `places` its cells; a
      non-empty buffer becomes a part when an empty cell or the row end
      closes it. */
  method ScanParts(row: Row, i: nat) returns (found: seq<Part>)
    requires DigitsOnly(row)
    ensures found == RestParts(row, i, 0)
  {
    found := [];
    var buffer: string := [];
    var places: seq<(nat, nat)> := [];
    ghost var s: nat := 0;
    ghost var all := RestParts(row, i, 0);
    ghost var rest := all;
    for j := 0 to |row|
      invariant s <= j
      invariant forall k | s <= k < j :: row[k].Some?
      invariant buffer == Digits(row, s, j) && places == Places(i, s, j)
      invariant rest == RestParts(row, i, s)
      invariant found + rest == all
    {
      if row[j].Some? {
        DigitsStep(row, s, j);
        buffer := buffer + [row[j].value];
        PlacesStep(i, s, j);
        places := places + [(i, j)];
      } else {
        PartsClosed(row, i, s, j, buffer, places);
        CloseRun(found, NewPart(buffer, places), rest, RestParts(row, i, j + 1), all, |buffer| > 0);
        if |buffer| > 0 {
          found := found + [NewPart(buffer, places)];
        }
        buffer := [];
        places := [];
        s := j + 1;
        rest := RestParts(row, i, s);
      }
    }
    PartsAtEnd(row, i, s, buffer, places);
    if |buffer| > 0 {
      found := found + [NewPart(buffer, places)];
    }
  }

  /** Accounting for one closed run: what was found plus what remains is
      still everything. */
  lemma {:induction false} CloseRun<T>(found: seq<T>, part: T, rest: seq<T>, later: seq<T>, all: seq<T>, closes: bool)
    requires found + rest == all
    requires closes ==> rest == [part] + later
    requires !closes ==> rest == later
    ensures closes ==> (found + [part]) + later == all
    ensures !closes ==> found + later == all
  {
    if closes {
      assert (found + [part]) + later == found + ([part] + later);
    }
  }

  /** An empty cell at `j` closes the run begun at `s`: a non-empty
      buffer becomes the next part. */
  lemma {:induction false} PartsClosed(row: Row, i: nat, s: nat, j: nat, buffer: string, places: seq<(nat, nat)>)
    requires DigitsOnly(row) && s <= j < |row| && row[j].None?
    requires forall k | s <= k < j :: row[k].Some?
    requires buffer == Digits(row, s, j) && places == Places(i, s, j)
    ensures AllDigits(buffer)
    ensures |buffer| > 0 ==> RestParts(row, i, s) == [NewPart(buffer, places)] + RestParts(row, i, j + 1)
    ensures |buffer| == 0 ==> RestParts(row, i, s) == RestParts(row, i, j + 1)
  {
    DigitsAreDigits(row, s, j);
    if s < j {
      RunEndAt(row, s, j);
    }
  }

  /** The row end closes the run begun at `s`. */
  lemma {:induction false} PartsAtEnd(row: Row, i: nat, s: nat, buffer: string, places: seq<(nat, nat)>)
    requires DigitsOnly(row) && s <= |row|
    requires forall k | s <= k < |row| :: row[k].Some?
    requires buffer == Digits(row, s, |row|) && places == Places(i, s, |row|)
    ensures AllDigits(buffer)
    ensures RestParts(row, i, s) == if |buffer| > 0 then [NewPart(buffer, places)] else []
  {
    DigitsAreDigits(row, s, |row|);
    if s < |row| {
      RunEndAt(row, s, |row|);
      assert RestParts(row, i, s) == [RunPart(row, i, s, |row|)] + RestParts(row, i, |row|);
    }
  }

  /** All rows of part 2's part building. */
  method CollectParts(numbers: seq<Row>) returns (parts: seq<Part>)
    requires forall i | 0 <= i < |numbers| :: DigitsOnly(numbers[i])
    ensures parts == PartsOf(numbers)
  {
    parts := [];
    for i := 0 to |numbers|
      invariant parts == PartsOf(numbers[..i])
    {
      var found := ScanParts(numbers[i], i);
      assert numbers[..i + 1][..i] == numbers[..i];
      parts := parts + found;
    }
    assert numbers[..|numbers|] == numbers;
  }

  /** The digit matrix of a schematic. */
  function DigitRows(lines: seq<string>): (numbers: seq<Row>)
    ensures |numbers| == |lines| && forall i | 0 <= i < |lines| :: numbers[i] == DigitRow(lines[i])
    ensures forall i | 0 <= i < |numbers| :: DigitsOnly(numbers[i])
  {
    seq(|lines|, i requires 0 <= i < |lines| => DigitRow(lines[i]))
  }

  /** The square of the distance from a covered cell to the star at
      `(x, y)`; `euclid_distance` is its square root. */
  function Dist2(place: (nat, nat), x: nat, y: nat): nat {
    var dx: int := place.0 - x;
    var dy: int := place.1 - y;
    dx * dx + dy * dy
  }

  /** The cell is one of the eight around `(x, y)`, or the star's own. */
  predicate Neighbour(place: (nat, nat), x: nat, y: nat) {
    -1 <= place.0 - x <= 1 && -1 <= place.1 - y <= 1
  }

  lemma {:induction false} SquareAtLeastFour(d: int)
    requires d < -1 || d > 1
    ensures d * d >= 4
    decreases if d < 0 then -d else d
  {
    if d < -2 {
      SquareAtLeastFour(d + 1);
      assert d * d == (d + 1) * (d + 1) - 2 * d - 1;
    } else if d > 2 {
      SquareAtLeastFour(d - 1);
      assert d * d == (d - 1) * (d - 1) + 2 * d - 1;
    }
  }

  /** A distance of at most 1.5 is one of at most sqrt 2: exactly the cells
      of the 3 by 3 block around the star. */
  lemma {:induction false} CloseIsNeighbour(place: (nat, nat), x: nat, y: nat)
    ensures Dist2(place, x, y) <= 2 <==> Neighbour(place, x, y)
  {
    var dx: int := place.0 - x;
    var dy: int := place.1 - y;
    if dx < -1 || dx > 1 {
      SquareAtLeastFour(dx);
    } else if dy < -1 || dy > 1 {
      SquareAtLeastFour(dy);
    } else {
      assert dx * dx <= 1 && dy * dy <= 1;
    }
  }

  /** The smallest squared distance from a cell of `places` to the star
      (`min_by` over `euclid_distance`, whose order the square keeps). */
  function MinDist(places: seq<(nat, nat)>, x: nat, y: nat): (m: nat)
    requires places != []
    ensures forall k | 0 <= k < |places| :: m <= Dist2(places[k], x, y)
    ensures exists k | 0 <= k < |places| :: m == Dist2(places[k], x, y)
  {
    var d := Dist2(places[0], x, y);
    if |places| == 1 then d
    else
      var rest := MinDist(places[1..], x, y);
      assert forall k | 1 <= k < |places| :: places[k] == places[1..][k - 1];
      if d <= rest then d else rest
  }

  /** The part is next to the star: its nearest cell is at most 1.5 away. */
  predicate Touches(part: Part, x: nat, y: nat)
    requires part.places != []
  {
    MinDist(part.places, x, y) <= 2
  }

  /** A part touches a star exactly when one of its cells is in the 3 by 3
      block around it. */
  lemma {:induction false} TouchesNeighbour(part: Part, x: nat, y: nat)
    requires part.places != []
    ensures Touches(part, x, y) <==> exists k | 0 <= k < |part.places| :: Neighbour(part.places[k], x, y)
  {
    var m := MinDist(part.places, x, y);
    if Touches(part, x, y) {
      var k :| 0 <= k < |part.places| && m == Dist2(part.places[k], x, y);
      CloseIsNeighbour(part.places[k], x, y);
    }
    if exists k | 0 <= k < |part.places| :: Neighbour(part.places[k], x, y) {
      var k :| 0 <= k < |part.places| && Neighbour(part.places[k], x, y);
      CloseIsNeighbour(part.places[k], x, y);
    }
  }

  /** The numbers of the parts next to the star at `(x, y)`, in the order of
      `parts`: what the inner loop of part 2 pushes onto `numbers`. */
  function Adjacent(parts: seq<Part>, x: nat, y: nat): (ns: seq<nat>)
    requires forall k | 0 <= k < |parts| :: parts[k].places != []
    ensures |ns| <= |parts|
  {
    if parts == [] then []
    else
      var i := |parts| - 1;
      Adjacent(parts[..i], x, y) + (if Touches(parts[i], x, y) then [parts[i].number] else [])
  }

  /** A number is listed exactly when a part with that number touches the
      star. */
  lemma {:induction false} AdjacentMembers(parts: seq<Part>, x: nat, y: nat, n: nat)
    requires forall k | 0 <= k < |parts| :: parts[k].places != []
    ensures n in Adjacent(parts, x, y) <==> exists k | 0 <= k < |parts| :: parts[k].number == n && Touches(parts[k], x, y)
  {
    if n in Adjacent(parts, x, y) {
      var k := AdjacentWitness(parts, x, y, n);
    }
    if exists k | 0 <= k < |parts| :: parts[k].number == n && Touches(parts[k], x, y) {
      var k :| 0 <= k < |parts| && parts[k].number == n && Touches(parts[k], x, y);
      AdjacentListed(parts, x, y, k);
    }
  }

  /** A listed number belongs to a part that touches the star. */
  lemma {:induction false} AdjacentWitness(parts: seq<Part>, x: nat, y: nat, n: nat) returns (k: nat)
    requires forall k | 0 <= k < |parts| :: parts[k].places != []
    requires n in Adjacent(parts, x, y)
    ensures k < |parts| && parts[k].number == n && Touches(parts[k], x, y)
  {
    var i := |parts| - 1;
    var init := parts[..i];
    var last: seq<nat> := if Touches(parts[i], x, y) then [parts[i].number] else [];
    assert Adjacent(parts, x, y) == Adjacent(init, x, y) + last;
    if n in last {
      k := i;
    } else {
      k := AdjacentWitness(init, x, y, n);
      assert init[k] == parts[k];
    }
  }

  /** The number of a part that touches the star is listed. */
  lemma {:induction false} AdjacentListed(parts: seq<Part>, x: nat, y: nat, k: nat)
    requires forall k | 0 <= k < |parts| :: parts[k].places != []
    requires k < |parts| && Touches(parts[k], x, y)
    ensures parts[k].number in Adjacent(parts, x, y)
  {
    var i := |parts| - 1;
    var init := parts[..i];
    var last: seq<nat> := if Touches(parts[i], x, y) then [parts[i].number] else [];
    assert Adjacent(parts, x, y) == Adjacent(init, x, y) + last;
    if k < i {
      assert init[k] == parts[k];
      assert forall j | 0 <= j < i :: init[j] == parts[j];
      AdjacentListed(init, x, y, k);
      assert parts[k].number in Adjacent(init, x, y);
    } else {
      assert last == [parts[k].number];
    }
  }

  /** `iter().product()`. */
  function Product(numbers: seq<nat>): nat {
    if numbers == [] then 1 else numbers[0] * Product(numbers[1..])
  }

  /** What a star adds: the product of the two numbers next to it when
      there are exactly two, and nothing otherwise. */
  function GearRatio(numbers: seq<nat>): (r: nat)
    ensures |numbers| == 2 ==> r == numbers[0] * numbers[1]
  {
    if |numbers| == 2 then
      assert numbers[1..][1..] == [];
      assert Product(numbers[1..]) == numbers[1] * Product([]);
      Product(numbers)
    else 0
  }

  /** The sum of the gear ratios of the stars. */
  function GearSum(parts: seq<Part>, stars: seq<(nat, nat)>): nat
    requires forall k | 0 <= k < |parts| :: parts[k].places != []
  {
    if stars == [] then 0
    else
      var s := |stars| - 1;
      GearSum(parts, stars[..s]) + GearRatio(Adjacent(parts, stars[s].0, stars[s].1))
  }

  /** Only a star next to exactly two parts adds anything. */
  lemma {:induction false} GearSumFromGears(parts: seq<Part>, stars: seq<(nat, nat)>)
    requires forall k | 0 <= k < |parts| :: parts[k].places != []
    ensures GearSum(parts, stars) > 0 ==> exists s | 0 <= s < |stars| :: |Adjacent(parts, stars[s].0, stars[s].1)| == 2
  {
    if stars != [] {
      var s := |stars| - 1;
      GearSumFromGears(parts, stars[..s]);
      if GearSum(parts, stars[..s]) > 0 {
        var t :| 0 <= t < s && |Adjacent(parts, stars[..s][t].0, stars[..s][t].1)| == 2;
        assert stars[..s][t] == stars[t];
      }
    }
  }

  /** The gear loop of part 2 (main.rs lines 61-79): for every star, the
      numbers of the parts next to it are collected, multiplied when there
      are exactly two, and cleared. */
  method SumGearRatios(parts: seq<Part>, stars: seq<(nat, nat)>) returns (total: nat)
    requires forall k | 0 <= k < |parts| :: parts[k].places != []
    ensures total == GearSum(parts, stars)
  {
    total := 0;
    var numbers: seq<nat> := [];
    for s := 0 to |stars|
      invariant numbers == []
      invariant total == GearSum(parts, stars[..s])
    {
      var x, y := stars[s].0, stars[s].1;
      for p := 0 to |parts|
        invariant numbers == Adjacent(parts[..p], x, y)
      {
        var m := MinDist(parts[p].places, x, y);
        if m <= 2 {
          numbers := numbers + [parts[p].number];
        }
        assert parts[..p + 1][..p] == parts[..p];
      }
      assert parts[..|parts|] == parts;
      if |numbers| == 2 {
        total := total + Product(numbers);
      }
      assert stars[..s + 1][..s] == stars[..s];
      numbers := [];
    }
    assert stars[..|stars|] == stars;
  }

  /** Part 2's answer for a schematic: the parts found row by row, the
      stars in row-major order. */
  function GearRatioSum(lines: seq<string>): nat {
    GearSum(PartsOf(DigitRows(lines)), MarkedCells(SymbolGrid(lines, true), true))
  }

  /** The stars listed are exactly the '*' cells. */
  lemma {:induction false} StarsListed(lines: seq<string>, p: (nat, nat))
    ensures p in MarkedCells(SymbolGrid(lines, true), true) <==> p.0 < |lines| && p.1 < |lines[p.0]| && lines[p.0][p.1] == '*'
  {
    MarkedCellsMembers(SymbolGrid(lines, true), true, p);
  }

  /** Part 2's output for the input lines, `None` where it panics as part
      1 does. */
  function GearRatios(lines: seq<string>): (r: Option<nat>)
    ensures r.None? <==> NonEmpty(lines) == [] || !Fits(NonEmpty(lines))
  {
    var kept := NonEmpty(lines);
    if kept == [] || !Fits(kept) then None else Some(GearRatioSum(Widened(kept)))
  }

  /** Part 2 (main.rs lines 9-82): drop the empty lines, read the schematic
      with only '*' marked, list the stars, build the parts and add up the
      gear ratios. */
  method SumGearRatiosOf(lines: seq<string>) returns (r: Option<nat>)
    ensures r.None? <==> NonEmpty(lines) == [] || !Fits(NonEmpty(lines))
    ensures r == GearRatios(lines)
  {
    var kept := NonEmpty(lines);
    if kept == [] {
      return None;
    }
    var ok, numbers, valid := ReadSchematic(kept, true);
    if !ok {
      return None;
    }
    ghost var wide := Widened(kept);
    WidenedFits(kept);
    var grid := seq(|kept|, i requires 0 <= i < |kept| reads valid =>
      seq(|kept[0]|, j requires 0 <= j < |kept[0]| reads valid => valid[i, j]));
    forall i | 0 <= i < |wide|
      ensures grid[i] == SymbolGrid(wide, true)[i]
    {
    }
    assert grid == SymbolGrid(wide, true);
    var stars := MarkedCells(grid, true);
    var parts := CollectParts(numbers);
    assert numbers == DigitRows(wide);
    var total := SumGearRatios(parts, stars);
    return Some(total);
  }

  /** Empty lines anywhere in the input change neither answer: both parts
      drop them before reading the schematic. */
  lemma {:induction false} BlankLinesIgnored(a: seq<string>, b: seq<string>)
    ensures PartNumbers(a + [""] + b) == PartNumbers(a + b)
    ensures GearRatios(a + [""] + b) == GearRatios(a + b)
  {
    NonEmptyAppend(a + [""], b);
    NonEmptyAppend(a, [""]);
    NonEmptySingle("");
    NonEmptyAppend(a, b);
    assert NonEmpty(a + [""] + b) == NonEmpty(a + b);
  }

  /** A one-character line is broadcast across its row, and a line of any
      other length than the first's makes both parts panic. */
  lemma {:induction false} RaggedLines(first: string, other: string)
    requires first != [] && other != []
    ensures |other| == 1 ==> Widened([first, other])[1] == seq(|first|, j => other[0])
    ensures |other| != |first| && |other| != 1 ==>
      PartNumbers([first, other]).None? && GearRatios([first, other]).None?
  {
    NonEmptyKeeps([first, other]);
    if |other| == 1 {
      assert Widened([first, other])[1] == Broadcast(other, |first|);
    }
  }
}
