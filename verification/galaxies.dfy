/** The galaxy image (day_11): a rectangle of '.' and '#' cells.  Every row
    and every column holding only '.' is expanded; part 1 duplicates them in
    the grid, part 2 shifts each galaxy's coordinates by the number of empty
    rows and columns before it.  The answer sums the distances between all
    pairs of galaxies. */
module Galaxies {
  import opened Wrappers
  import opened Text
  import opened Coordinates
  import opened Grids

  /** One row or column of the image. */
  type Line = seq<char>

  /** A grid given as its rows, each `width` cells long. */
  predicate Rectangular(rows: seq<Line>, width: nat) {
    forall i | 0 <= i < |rows| :: |rows[i]| == width
  }

  /** A line with no galaxy: every cell is '.'. */
  predicate AllDots(line: Line) {
    forall i | 0 <= i < |line| :: line[i] == '.'
  }

  /** How many of the lines hold only '.'. */
  function EmptyCount(lines: seq<Line>): (n: nat)
    ensures n <= |lines|
  {
    if lines == [] then 0
    else EmptyCount(lines[..|lines| - 1]) + (if AllDots(lines[|lines| - 1]) then 1 else 0)
  }

  /** Every line in order, followed by a second copy when it holds only '.'. */
  function Doubled(lines: seq<Line>): (r: seq<Line>)
    ensures |r| == |lines| + EmptyCount(lines)
  {
    if lines == [] then []
    else
      var last := lines[|lines| - 1];
      Doubled(lines[..|lines| - 1]) + (if AllDots(last) then [last, last] else [last])
  }

  /** The loop of `expand_matrix` over rows (lines 37-45) and, the same
      again, over columns (lines 52-59): push each line, and push it once
      more when it holds only '.'. */
  method DuplicateEmpty(lines: seq<Line>) returns (out: seq<Line>)
    ensures out == Doubled(lines)
  {
    out := [];
    var i := 0;
    while i < |lines|
      invariant i <= |lines|
      invariant out == Doubled(lines[..i])
    {
      assert lines[..i + 1][..i] == lines[..i];
      out := out + [lines[i]];
      if AllDots(lines[i]) {
        out := out + [lines[i]];
      }
      i := i + 1;
    }
    assert lines[..|lines|] == lines;
  }

  /** Doubling works line by line: it distributes over concatenation. */
  lemma {:induction false} DoubledAppend(a: seq<Line>, b: seq<Line>)
    ensures Doubled(a + b) == Doubled(a) + Doubled(b)
    ensures EmptyCount(a + b) == EmptyCount(a) + EmptyCount(b)
    decreases |b|
  {
    if b != [] {
      var init := b[..|b| - 1];
      assert (a + b)[..|a + b| - 1] == a + init;
      assert (a + b)[|a + b| - 1] == b[|b| - 1];
      DoubledAppend(a, init);
    } else {
      assert a + b == a;
    }
  }

  /** Line `i` lands at `i` plus the number of empty lines before it, and an
      empty line's copy follows it at once. */
  lemma {:induction false} DoubledIndex(lines: seq<Line>, i: nat)
    requires i < |lines|
    ensures i + EmptyCount(lines[..i]) < |Doubled(lines)|
    ensures Doubled(lines)[i + EmptyCount(lines[..i])] == lines[i]
    ensures AllDots(lines[i]) ==>
      (i + EmptyCount(lines[..i]) + 1 < |Doubled(lines)| && Doubled(lines)[i + EmptyCount(lines[..i]) + 1] == lines[i])
  {
    var before := lines[..i];
    var rest := lines[i..];
    assert lines == before + rest;
    DoubledAppend(before, rest);
    assert rest == [lines[i]] + rest[1..];
    DoubledAppend([lines[i]], rest[1..]);
    assert [lines[i]][..0] == [];
  }

  /** Doubling adds no new line: the lines of the result are the lines of
      the input. */
  lemma {:induction false} DoubledLines(lines: seq<Line>, l: Line)
    ensures l in Doubled(lines) <==> l in lines
  {
    if lines != [] {
      var init := lines[..|lines| - 1];
      DoubledLines(init, l);
      assert lines == init + [lines[|lines| - 1]];
    }
  }

  /** Column `j` of a rectangular grid: the `j`-th cell of every row. */
  function Column(rows: seq<Line>, width: nat, j: nat): (c: Line)
    requires Rectangular(rows, width) && j < width
    ensures |c| == |rows| && forall i | 0 <= i < |rows| :: c[i] == rows[i][j]
  {
    seq(|rows|, i requires 0 <= i < |rows| => rows[i][j])
  }

  /** The columns of a rectangular grid (`t().outer_iter()`, `Axis(1)`):
      a grid `|rows|` cells wide whose cell `(j, i)` is cell `(i, j)`. */
  function Transpose(rows: seq<Line>, width: nat): (cols: seq<Line>)
    requires Rectangular(rows, width)
    ensures |cols| == width && Rectangular(cols, |rows|)
    ensures forall j, i | 0 <= j < width && 0 <= i < |rows| :: cols[j][i] == rows[i][j]
  {
    seq(width, j requires 0 <= j < width => Column(rows, width, j))
  }

  /** Transposing twice gives the grid back. */
  lemma {:induction false} TransposeTwice(rows: seq<Line>, width: nat)
    requires Rectangular(rows, width)
    ensures Transpose(Transpose(rows, width), |rows|) == rows
  {
    var back := Transpose(Transpose(rows, width), |rows|);
    assert forall i | 0 <= i < |rows| :: back[i] == rows[i];
  }

  /** Rows glued end to end (`concat`, and the flattening of the input lines). */
  function Concat(rows: seq<Line>): Line {
    if rows == [] then [] else rows[0] + Concat(rows[1..])
  }

  /** `Array2::from_shape_vec((nrows, ncols), v)`: the cells cut into `nrows`
      rows of `ncols`; `None` when the number of cells does not fit the shape. */
  function Reshape(cells: Line, nrows: nat, ncols: nat): (r: Option<seq<Line>>)
    ensures r.Some? ==> |r.value| == nrows && Rectangular(r.value, ncols)
    ensures r.Some? ==> Concat(r.value) == cells
  {
    if nrows == 0 then (if cells == [] then Some([]) else None)
    else if |cells| < ncols then None
    else
      match Reshape(cells[ncols..], nrows - 1, ncols)
      case None => None
      case Some(rest) =>
        assert ([cells[..ncols]] + rest)[1..] == rest;
        assert cells[..ncols] + cells[ncols..] == cells;
        Some([cells[..ncols]] + rest)
  }

  /** Cutting the concatenation of equal-length rows gives the rows back. */
  lemma {:induction false} ReshapeConcat(rows: seq<Line>, width: nat)
    requires Rectangular(rows, width)
    ensures Reshape(Concat(rows), |rows|, width) == Some(rows)
  {
    if rows != [] {
      ReshapeConcat(rows[1..], width);
      var c := Concat(rows);
      assert c[..width] == rows[0];
      assert c[width..] == Concat(rows[1..]);
      assert [rows[0]] + rows[1..] == rows;
    }
  }

  /** The cells `(i, 0), (i, 1), ...` of row `i` across the given columns. */
  function Across(cols: seq<Line>, height: nat, i: nat): (r: Line)
    requires Rectangular(cols, height) && i < height
    ensures |r| == |cols| && forall j | 0 <= j < |cols| :: r[j] == cols[j][i]
  {
    seq(|cols|, j requires 0 <= j < |cols| => cols[j][i])
  }

  /** `flat_map` over the row indices `i..height` of the rows across the
      columns. */
  function FlattenFrom(cols: seq<Line>, height: nat, i: nat): Line
    requires Rectangular(cols, height) && i <= height
    decreases height - i
  {
    if i == height then [] else Across(cols, height, i) + FlattenFrom(cols, height, i + 1)
  }

  /** `flatten_columns_correctly`: the cells of a list of columns in
      row-major order; `None` for no columns, where `input[0]` panics. */
  function FlattenColumns(cols: seq<Line>): (r: Option<Line>)
    requires cols != [] ==> Rectangular(cols, |cols[0]|)
    ensures r.Some? <==> cols != []
  {
    if cols == [] then None else Some(FlattenFrom(cols, |cols[0]|, 0))
  }

  /** Cell `(i, j)` of the row-major output is cell `i` of column `j`. */
  lemma {:induction false} FlattenFromIndex(cols: seq<Line>, height: nat, from: nat, i: nat, j: nat)
    requires Rectangular(cols, height) && from <= i < height && j < |cols|
    ensures (i - from) * |cols| + j < |FlattenFrom(cols, height, from)|
    ensures FlattenFrom(cols, height, from)[(i - from) * |cols| + j] == cols[j][i]
    decreases i - from
  {
    var row := Across(cols, height, from);
    var rest := FlattenFrom(cols, height, from + 1);
    assert FlattenFrom(cols, height, from) == row + rest;
    var n: nat := i - from;
    if n == 0 {
      assert n * |cols| + j == j;
    } else {
      FlattenFromIndex(cols, height, from + 1, i, j);
      var k := (n - 1) * |cols| + j;
      MulSucc(n - 1, |cols|);
      assert n * |cols| + j == |cols| + k;
    }
  }

  lemma {:induction false} MulSucc(n: nat, c: nat)
    ensures (n + 1) * c == c + n * c
  {
  }

  lemma {:induction false} FlattenFromLength(cols: seq<Line>, height: nat, from: nat)
    requires Rectangular(cols, height) && from <= height
    ensures |FlattenFrom(cols, height, from)| == (height - from) * |cols|
    decreases height - from
  {
    if from < height {
      FlattenFromLength(cols, height, from + 1);
      MulSucc(height - (from + 1), |cols|);
    }
  }

  /** Cut into rows as wide as there are columns, the flattened columns are
      the transposed grid: the output really is row-major. */
  lemma {:induction false} FlattenFromRows(cols: seq<Line>, height: nat, from: nat)
    requires Rectangular(cols, height) && from <= height
    ensures Reshape(FlattenFrom(cols, height, from), height - from, |cols|) == Some(Transpose(cols, height)[from..])
    decreases height - from
  {
    if from < height {
      FlattenFromRows(cols, height, from + 1);
      var flat := FlattenFrom(cols, height, from);
      var row := Across(cols, height, from);
      assert flat[..|cols|] == row;
      assert flat[|cols|..] == FlattenFrom(cols, height, from + 1);
      var t := Transpose(cols, height);
      assert t[from] == row;
      assert t[from..] == [row] + t[from + 1..];
    }
  }

  /** The grid both parts read: the cells of the non-empty lines, cut into
      rows; `expect` panics when they do not fill the fixed shape. */
  function ReadImage(lines: seq<string>, nrows: nat, ncols: nat): Option<seq<Line>> {
    Reshape(Concat(NonEmpty(lines)), nrows, ncols)
  }

  /** The input's fixed shape. */
  const Side: nat := 140

  /** The expanded grid: rows doubled, then the columns of the result. */
  function Expanded(rows: seq<Line>, width: nat): (r: seq<Line>)
    requires Rectangular(rows, width)
  {
    var tall := Doubled(rows);
    DoubledRectangular(rows, width);
    var cols := Doubled(Transpose(tall, width));
    DoubledRectangular(Transpose(tall, width), |tall|);
    Transpose(cols, |tall|)
  }

  /** Doubling keeps a grid rectangular. */
  lemma {:induction false} DoubledRectangular(rows: seq<Line>, width: nat)
    requires Rectangular(rows, width)
    ensures Rectangular(Doubled(rows), width)
  {
    forall l | l in Doubled(rows)
      ensures |l| == width
    {
      DoubledLines(rows, l);
    }
  }

  /** `expand_matrix`: `None` for a grid without columns, where
      `flatten_columns_correctly` indexes `input[0]` of an empty list. */
  method ExpandMatrix(rows: seq<Line>, width: nat) returns (r: Option<seq<Line>>)
    requires Rectangular(rows, width)
    ensures width == 0 ==> r.None?
    ensures width > 0 ==> r == Some(Expanded(rows, width))
  {
    var newRows := DuplicateEmpty(rows);
    DoubledRectangular(rows, width);
    ReshapeConcat(newRows, width);
    var intermediate := Reshape(Concat(newRows), |newRows|, width).value;
    var columns := Transpose(intermediate, width);
    var newCols := DuplicateEmpty(columns);
    DoubledRectangular(columns, |intermediate|);
    if newCols == [] {
      return None;
    }
    var flat := FlattenColumns(newCols).value;
    FlattenFromRows(newCols, |intermediate|, 0);
    assert Transpose(newCols, |intermediate|)[0..] == Transpose(newCols, |intermediate|);
    r := Reshape(flat, |intermediate|, |newCols|);
  }

  /** Cutting succeeds exactly when the number of cells fits the shape. */
  lemma {:induction false} ReshapeSome(cells: Line, nrows: nat, ncols: nat)
    ensures Reshape(cells, nrows, ncols).Some? <==> |cells| == nrows * ncols
  {
    if nrows > 0 {
      var below: nat := (nrows - 1) * ncols;
      MulSucc(nrows - 1, ncols);
      assert nrows * ncols == ncols + below;
      if |cells| >= ncols {
        ReshapeSome(cells[ncols..], nrows - 1, ncols);
        assert |cells[ncols..]| == |cells| - ncols;
      }
    }
  }

  /** The test of part 1 at lines 78-83: one row ".#" gains an empty column. */
  lemma {:induction false} ExpansionExample()
    ensures Expanded([['.', '#']], 2) == [['.', '.', '#']]
  {
    var rows := [['.', '#']];
    ExampleRows();
    ExampleColumns();
    ExampleDoubledColumns();
    ExampleBack();
  }

  lemma {:induction false} ExampleRows()
    ensures Doubled([['.', '#']]) == [['.', '#']]
  {
    var rows := [['.', '#']];
    assert rows[0][1] == '#';
    assert rows[..0] == [];
  }

  lemma {:induction false} ExampleColumns()
    ensures Transpose([['.', '#']], 2) == [['.'], ['#']]
  {
    var t := Transpose([['.', '#']], 2);
    assert t[0] == ['.'];
    assert t[1] == ['#'];
  }

  lemma {:induction false} ExampleDoubledColumns()
    ensures Doubled([['.'], ['#']]) == [['.'], ['.'], ['#']]
  {
    var cols := [['.'], ['#']];
    assert AllDots(cols[0]);
    assert cols[1][0] == '#';
    assert cols[..1] == [['.']] && [['.']][..0] == [];
  }

  lemma {:induction false} ExampleBack()
    ensures Transpose([['.'], ['.'], ['#']], 1) == [['.', '.', '#']]
  {
    var t := Transpose([['.'], ['.'], ['#']], 1);
    assert t[0] == ['.', '.', '#'];
  }

  /** Doubling the rows leaves every column as empty as it was: the added
      rows are all '.'. */
  lemma {:induction false} ColumnsOfDoubled(rows: seq<Line>, width: nat, j: nat)
    requires Rectangular(rows, width) && j < width
    ensures Rectangular(Doubled(rows), width)
    ensures AllDots(Transpose(Doubled(rows), width)[j]) <==> AllDots(Transpose(rows, width)[j])
  {
    DoubledRectangular(rows, width);
    var tall := Doubled(rows);
    var before := Transpose(rows, width)[j];
    var after := Transpose(tall, width)[j];
    if AllDots(before) {
      forall k | 0 <= k < |after|
        ensures after[k] == '.'
      {
        DoubledLines(rows, tall[k]);
        var i :| 0 <= i < |rows| && rows[i] == tall[k];
        assert after[k] == tall[k][j] == rows[i][j] == before[i];
      }
    }
    if AllDots(after) {
      forall i | 0 <= i < |before|
        ensures before[i] == '.'
      {
        DoubledIndex(rows, i);
        assert before[i] == rows[i][j] == after[i + EmptyCount(rows[..i])];
      }
    }
  }

  /** Lines that are empty at the same positions count the same. */
  lemma {:induction false} EmptyCountSame(a: seq<Line>, b: seq<Line>)
    requires |a| == |b| && forall i | 0 <= i < |a| :: AllDots(a[i]) <==> AllDots(b[i])
    ensures EmptyCount(a) == EmptyCount(b)
  {
    if a != [] {
      var n := |a| - 1;
      assert forall i | 0 <= i < n :: a[..n][i] == a[i] && b[..n][i] == b[i];
      EmptyCountSame(a[..n], b[..n]);
    }
  }

  /** `find_empty_indexes`: the positions of the lines holding only '.'. */
  function EmptyIndexes(lines: seq<Line>): (r: seq<nat>)
    ensures |r| == EmptyCount(lines)
  {
    if lines == [] then []
    else
      var n := |lines| - 1;
      EmptyIndexes(lines[..n]) + (if AllDots(lines[n]) then [n] else [])
  }

  /** The positions listed are exactly those of the lines holding only '.',
      in increasing order. */
  lemma {:induction false} EmptyIndexesMembers(lines: seq<Line>)
    ensures forall k: nat :: k in EmptyIndexes(lines) <==> k < |lines| && AllDots(lines[k])
    ensures forall a, b | 0 <= a < b < |EmptyIndexes(lines)| :: EmptyIndexes(lines)[a] < EmptyIndexes(lines)[b]
  {
    if lines != [] {
      var n := |lines| - 1;
      var init := lines[..n];
      EmptyIndexesMembers(init);
      var prev := EmptyIndexes(init);
      assert forall k: nat | k < n :: init[k] == lines[k];
      assert forall a | 0 <= a < |prev| :: prev[a] < n by {
        forall a | 0 <= a < |prev|
          ensures prev[a] < n
        {
          assert prev[a] in prev;
        }
      }
    }
  }

  /** The two tests of part 2 at lines 83-97, on the columns of two-cell rows. */
  lemma {:induction false} EmptyIndexesExample()
    ensures EmptyIndexes([['.', '#']]) == []
    ensures EmptyIndexes(Transpose([['.', '#']], 2)) == [0]
    ensures EmptyIndexes(Transpose([['.', '#'], ['.', '#']], 2)) == [0]
  {
    var one := [['.', '#']];
    assert one[0][1] == '#';
    assert one[..0] == [];
    ExampleColumns();
    ColumnsExample([['.'], ['#']]);
    TwoRowsColumns();
    ColumnsExample([['.', '.'], ['#', '#']]);
  }

  /** A first column of dots and a second with a galaxy at the top. */
  lemma {:induction false} ColumnsExample(cols: seq<Line>)
    requires |cols| == 2 && AllDots(cols[0]) && |cols[1]| > 0 && cols[1][0] == '#'
    ensures EmptyIndexes(cols) == [0]
  {
    assert cols[..1][..0] == [];
    assert EmptyIndexes(cols[..1]) == [0];
  }

  lemma {:induction false} TwoRowsColumns()
    ensures Transpose([['.', '#'], ['.', '#']], 2) == [['.', '.'], ['#', '#']]
  {
    var t := Transpose([['.', '#'], ['.', '#']], 2);
    assert t[0] == ['.', '.'] && t[1] == ['#', '#'];
  }

  /** How many of the indexes are at most `v` (`filter(|&&n| n <= v).count()`). */
  function CountAtMost(indexes: seq<nat>, v: nat): (n: nat)
    ensures n <= |indexes|
  {
    if indexes == [] then 0
    else CountAtMost(indexes[..|indexes| - 1], v) + (if indexes[|indexes| - 1] <= v then 1 else 0)
  }

  /** Counting one more index. */
  lemma {:induction false} CountAtMostAppend(indexes: seq<nat>, x: nat, v: nat)
    ensures CountAtMost(indexes + [x], v) == CountAtMost(indexes, v) + (if x <= v then 1 else 0)
  {
    assert (indexes + [x])[..|indexes|] == indexes;
  }

  /** When every line is at or before `y`, every empty line counts. */
  lemma {:induction false} CountAtMostAll(lines: seq<Line>, y: nat)
    requires |lines| <= y + 1
    ensures CountAtMost(EmptyIndexes(lines), y) == EmptyCount(lines)
  {
    if lines != [] {
      var n := |lines| - 1;
      CountAtMostAll(lines[..n], y);
      if AllDots(lines[n]) {
        CountAtMostAppend(EmptyIndexes(lines[..n]), n, y);
      } else {
        assert EmptyIndexes(lines) == EmptyIndexes(lines[..n]);
      }
    }
  }

  /** The empty lines at positions up to `y` are the empty lines among the
      first `y + 1`. */
  lemma {:induction false} CountAtMostPrefix(lines: seq<Line>, y: nat)
    requires y + 1 <= |lines|
    ensures CountAtMost(EmptyIndexes(lines), y) == EmptyCount(lines[..y + 1])
  {
    var n := |lines| - 1;
    if n == y {
      CountAtMostAll(lines, y);
      assert lines[..y + 1] == lines;
    } else {
      var init := lines[..n];
      CountAtMostPrefix(init, y);
      assert init[..y + 1] == lines[..y + 1];
      if AllDots(lines[n]) {
        CountAtMostAppend(EmptyIndexes(init), n, y);
      } else {
        assert EmptyIndexes(lines) == EmptyIndexes(init);
      }
    }
  }

  /** Before a line with a galaxy, counting empty lines at positions up to
      it is counting the empty lines strictly before it. */
  lemma {:induction false} CountBeforeGalaxy(lines: seq<Line>, y: nat)
    requires y < |lines| && !AllDots(lines[y])
    ensures CountAtMost(EmptyIndexes(lines), y) == EmptyCount(lines[..y])
  {
    CountAtMostPrefix(lines, y);
    assert lines[..y + 1][..y] == lines[..y];
  }

  /** `coordinate as usize`: an `isize` is kept when it is not negative and
      read modulo 2^64 (two's complement) when it is. */
  function AsUsize(v: int): (u: nat)
    ensures v >= 0 ==> u == v
  {
    if v >= 0 then v else v % 0x1_0000_0000_0000_0000
  }

  /** `expand_coordinate`: `x` moves right by `factor` for every empty column
      at or before it, `y` down by `factor` for every empty row at or before
      it. */
  function ExpandCoordinate(c: Coordinate, emptyRows: seq<nat>, emptyColumns: seq<nat>, factor: nat): (e: Coordinate)
    ensures e.x >= c.x && e.y >= c.y
    ensures emptyRows == [] && emptyColumns == [] ==> e == c
  {
    Coordinate(c.x + CountAtMost(emptyColumns, AsUsize(c.x)) * factor,
               c.y + CountAtMost(emptyRows, AsUsize(c.y)) * factor)
  }

  /** The tests of part 2 at lines 131-143. */
  lemma {:induction false} ExpandCoordinateExample()
    ensures ExpandCoordinate(Coordinate(1, 1), [0], [], 1) == Coordinate(1, 2)
    ensures ExpandCoordinate(Coordinate(1, 1), [], [0], 1) == Coordinate(2, 1)
  {
    assert [0][..0] == [];
  }

  /** Counting the indexes at most `v` never decreases as `v` grows. */
  lemma {:induction false} CountAtMostMonotone(indexes: seq<nat>, u: nat, v: nat)
    requires u <= v
    ensures CountAtMost(indexes, u) <= CountAtMost(indexes, v)
  {
    if indexes != [] {
      CountAtMostMonotone(indexes[..|indexes| - 1], u, v);
    }
  }

  /** `expand_coordinate` keeps the order of non-negative coordinates on each
      axis strictly: galaxies never swap places or land on each other. */
  lemma {:induction false} ExpandKeepsOrder(a: Coordinate, b: Coordinate, emptyRows: seq<nat>, emptyColumns: seq<nat>, factor: nat)
    ensures 0 <= a.x < b.x ==>
      ExpandCoordinate(a, emptyRows, emptyColumns, factor).x < ExpandCoordinate(b, emptyRows, emptyColumns, factor).x
    ensures 0 <= a.y < b.y ==>
      ExpandCoordinate(a, emptyRows, emptyColumns, factor).y < ExpandCoordinate(b, emptyRows, emptyColumns, factor).y
  {
    if 0 <= a.x < b.x {
      CountAtMostMonotone(emptyColumns, a.x, b.x);
      MulMonotone(CountAtMost(emptyColumns, a.x), CountAtMost(emptyColumns, b.x), factor);
    }
    if 0 <= a.y < b.y {
      CountAtMostMonotone(emptyRows, a.y, b.y);
      MulMonotone(CountAtMost(emptyRows, a.y), CountAtMost(emptyRows, b.y), factor);
    }
  }

  lemma {:induction false} MulMonotone(m: nat, n: nat, factor: nat)
    requires m <= n
    ensures m * factor <= n * factor
  {
    assert n * factor == m * factor + (n - m) * factor;
  }

  /** Cell `(r, c)` of the grid reappears in the expanded grid shifted down
      by the empty rows above it and right by the empty columns left of it. */
  lemma {:induction false} InExpanded(rows: seq<Line>, width: nat, r: nat, c: nat, i: nat, j: nat)
    requires Rectangular(rows, width) && r < |rows| && c < width
    requires i == r + EmptyCount(rows[..r]) && j == c + EmptyCount(Transpose(rows, width)[..c])
    ensures i < |Expanded(rows, width)| && j < |Expanded(rows, width)[i]| && Expanded(rows, width)[i][j] == rows[r][c]
  {
    DoubledIndex(rows, r);
    var column := ExpandedColumn(rows, width, c, j);
    ColumnCell(rows, width, r, c, i, column);
    ExpandedAt(rows, width, i, j, column);
  }

  /** Cell `i` of column `c` of the grid stretched by its empty rows is
      cell `(r, c)` of the grid. */
  lemma {:induction false} ColumnCell(rows: seq<Line>, width: nat, r: nat, c: nat, i: nat, column: Line)
    requires Rectangular(rows, width) && Rectangular(Doubled(rows), width) && r < |rows| && c < width
    requires i < |Doubled(rows)| && Doubled(rows)[i] == rows[r]
    requires column == Transpose(Doubled(rows), width)[c]
    ensures i < |column| && column[i] == rows[r][c]
  {
  }

  /** Column `c` of the grid, stretched by the empty rows, is column `j` of
      the expanded grid. */
  lemma {:induction false} ExpandedColumn(rows: seq<Line>, width: nat, c: nat, j: nat) returns (column: Line)
    requires Rectangular(rows, width) && c < width
    requires j == c + EmptyCount(Transpose(rows, width)[..c])
    ensures Rectangular(Doubled(rows), width)
    ensures column == Transpose(Doubled(rows), width)[c]
    ensures var d := Doubled(Transpose(Doubled(rows), width)); j < |d| && d[j] == column
  {
    DoubledRectangular(rows, width);
    var t := Transpose(Doubled(rows), width);
    ShiftedPrefix(rows, width, c);
    DoubledIndex(t, c);
    column := t[c];
  }

  /** The cell at `(i, j)` of the expanded grid is cell `i` of its column `j`. */
  lemma {:induction false} ExpandedAt(rows: seq<Line>, width: nat, i: nat, j: nat, column: Line)
    requires Rectangular(rows, width) && Rectangular(Doubled(rows), width)
    requires var d := Doubled(Transpose(Doubled(rows), width)); j < |d| && d[j] == column
    requires i < |column|
    ensures i < |Expanded(rows, width)| && j < |Expanded(rows, width)[i]| && Expanded(rows, width)[i][j] == column[i]
  {
    var tall := Doubled(rows);
    var t := Transpose(tall, width);
    DoubledRectangular(t, |tall|);
    var d := Doubled(t);
    var e := Transpose(d, |tall|);
    assert Expanded(rows, width) == e;
    assert e[i][j] == d[j][i];
  }

  /** A galaxy at row `r`, column `c` of the grid sits in the expanded grid
      of part 1 exactly where part 2's `expand_coordinate` with factor 1
      puts it: the two parts agree on where the galaxies go. */
  lemma {:induction false} GalaxyMoves(rows: seq<Line>, width: nat, r: nat, c: nat)
    requires Rectangular(rows, width) && r < |rows| && c < width && rows[r][c] == '#'
    ensures var e := ExpandCoordinate(Coordinate(c, r), EmptyIndexes(rows), EmptyIndexes(Transpose(rows, width)), 1);
      0 <= e.y < |Expanded(rows, width)| && 0 <= e.x < |Expanded(rows, width)[e.y]|
      && Expanded(rows, width)[e.y][e.x] == '#'
  {
    var dr := EmptyCount(rows[..r]);
    var dc := EmptyCount(Transpose(rows, width)[..c]);
    RowShift(rows, width, r, c);
    ColumnShift(rows, width, r, c);
    var e := ExpandCoordinate(Coordinate(c, r), EmptyIndexes(rows), EmptyIndexes(Transpose(rows, width)), 1);
    assert e.y == r + dr && e.x == c + dc;
    InExpanded(rows, width, r, c, e.y, e.x);
  }

  /** The row shift of a galaxy is the number of empty rows above it. */
  lemma {:induction false} RowShift(rows: seq<Line>, width: nat, r: nat, c: nat)
    requires Rectangular(rows, width) && r < |rows| && c < width && rows[r][c] == '#'
    ensures CountAtMost(EmptyIndexes(rows), AsUsize(r)) == EmptyCount(rows[..r])
  {
    assert !AllDots(rows[r]);
    CountBeforeGalaxy(rows, r);
  }

  /** The column shift of a galaxy is the number of empty columns left of it. */
  lemma {:induction false} ColumnShift(rows: seq<Line>, width: nat, r: nat, c: nat)
    requires Rectangular(rows, width) && r < |rows| && c < width && rows[r][c] == '#'
    ensures CountAtMost(EmptyIndexes(Transpose(rows, width)), AsUsize(c)) == EmptyCount(Transpose(rows, width)[..c])
  {
    var cols := Transpose(rows, width);
    assert cols[c][r] == '#';
    CountBeforeGalaxy(cols, c);
  }

  /** The columns before column `c` are as empty after doubling the rows as
      before. */
  lemma {:induction false} ShiftedPrefix(rows: seq<Line>, width: nat, c: nat)
    requires Rectangular(rows, width) && c <= width
    ensures Rectangular(Doubled(rows), width)
    ensures EmptyCount(Transpose(Doubled(rows), width)[..c]) == EmptyCount(Transpose(rows, width)[..c])
  {
    DoubledRectangular(rows, width);
    var a := Transpose(Doubled(rows), width)[..c];
    var b := Transpose(rows, width)[..c];
    forall j | 0 <= j < c
      ensures AllDots(a[j]) <==> AllDots(b[j])
    {
      ColumnsOfDoubled(rows, width, j);
    }
    EmptyCountSame(a, b);
  }

  /** The distance between two galaxies.  The `manhattan_distance` of the
      day's coordinate module is not part of this model; it is read here as
      its name says. */
  function Manhattan(a: Coordinate, b: Coordinate): (d: nat)
    ensures d == 0 <==> a == b
  {
    (if a.x >= b.x then a.x - b.x else b.x - a.x) + (if a.y >= b.y then a.y - b.y else b.y - a.y)
  }

  /** `combinations(2)`: every pair `(ps[i], ps[j])` with `i < j`, in order. */
  function Pairs(ps: seq<Coordinate>): seq<(Coordinate, Coordinate)> {
    if ps == [] then []
    else seq(|ps| - 1, k requires 0 <= k < |ps| - 1 => (ps[0], ps[k + 1])) + Pairs(ps[1..])
  }

  /** There are `n (n - 1) / 2` pairs of `n` galaxies. */
  lemma {:induction false} PairsCount(ps: seq<Coordinate>)
    ensures 2 * |Pairs(ps)| == |ps| * (|ps| - 1)
  {
    if ps != [] {
      PairsCount(ps[1..]);
      var m := |ps| - 1;
      assert 2 * m + m * (m - 1) == (m + 1) * m;
    }
  }

  /** Every pair of distinct positions is listed, first position first. */
  lemma {:induction false} PairsMembers(ps: seq<Coordinate>, i: nat, j: nat)
    requires i < j < |ps|
    ensures (ps[i], ps[j]) in Pairs(ps)
  {
    var head := seq(|ps| - 1, k requires 0 <= k < |ps| - 1 => (ps[0], ps[k + 1]));
    if i == 0 {
      assert head[j - 1] == (ps[0], ps[j]);
    } else {
      PairsMembers(ps[1..], i - 1, j - 1);
    }
  }

  /** The sum of the distances of a list of pairs. */
  function DistanceSum(pairs: seq<(Coordinate, Coordinate)>): nat {
    if pairs == [] then 0 else Manhattan(pairs[0].0, pairs[0].1) + DistanceSum(pairs[1..])
  }

  /** The answer: the distances of all pairs of galaxies added up. */
  function PairSum(ps: seq<Coordinate>): nat {
    DistanceSum(Pairs(ps))
  }

  /** A coordinate with its axes exchanged. */
  function Swap(c: Coordinate): Coordinate {
    Coordinate(c.y, c.x)
  }

  function SwapAll(ps: seq<Coordinate>): (r: seq<Coordinate>)
    ensures |r| == |ps| && forall i | 0 <= i < |ps| :: r[i] == Swap(ps[i])
  {
    seq(|ps|, i requires 0 <= i < |ps| => Swap(ps[i]))
  }

  lemma {:induction false} DistanceSumSwapped(pairs: seq<(Coordinate, Coordinate)>, swapped: seq<(Coordinate, Coordinate)>)
    requires |swapped| == |pairs|
    requires forall i | 0 <= i < |pairs| :: swapped[i] == (Swap(pairs[i].0), Swap(pairs[i].1))
    ensures DistanceSum(swapped) == DistanceSum(pairs)
  {
    if pairs != [] {
      DistanceSumSwapped(pairs[1..], swapped[1..]);
    }
  }

  lemma {:induction false} PairsSwapped(ps: seq<Coordinate>)
    ensures |Pairs(SwapAll(ps))| == |Pairs(ps)|
    ensures forall i | 0 <= i < |Pairs(ps)| :: Pairs(SwapAll(ps))[i] == (Swap(Pairs(ps)[i].0), Swap(Pairs(ps)[i].1))
  {
    if ps != [] {
      assert SwapAll(ps)[1..] == SwapAll(ps[1..]);
      PairsSwapped(ps[1..]);
    }
  }

  /** Part 1 reads a galaxy as (row, column), part 2 as (column, row); the
      sum of the distances does not depend on which. */
  lemma {:induction false} PairSumSwapped(ps: seq<Coordinate>)
    ensures PairSum(SwapAll(ps)) == PairSum(ps)
  {
    PairsSwapped(ps);
    DistanceSumSwapped(Pairs(ps), Pairs(SwapAll(ps)));
  }

  /** Part 1's coordinates: `x` the row, `y` the column. */
  function RowColumn(cells: seq<(nat, nat)>): (ps: seq<Coordinate>)
    ensures |ps| == |cells| && forall i | 0 <= i < |cells| :: ps[i] == Coordinate(cells[i].0, cells[i].1)
  {
    seq(|cells|, i requires 0 <= i < |cells| => Coordinate(cells[i].0, cells[i].1))
  }

  /** The galaxies of a grid, as (row, column) in row-major order
      (`indexed_iter` filtered on '#'). */
  function GalaxyCells(rows: seq<Line>): seq<(nat, nat)> {
    MarkedCells(rows, '#')
  }

  /** A galaxy cell lies inside the grid and holds '#'. */
  lemma {:induction false} GalaxyCellsInside(rows: seq<Line>, width: nat)
    requires Rectangular(rows, width)
    ensures forall k | 0 <= k < |GalaxyCells(rows)| ::
      GalaxyCells(rows)[k].0 < |rows| && GalaxyCells(rows)[k].1 < width
      && rows[GalaxyCells(rows)[k].0][GalaxyCells(rows)[k].1] == '#'
  {
    forall k | 0 <= k < |GalaxyCells(rows)|
      ensures GalaxyCells(rows)[k].0 < |rows| && GalaxyCells(rows)[k].1 < width
      ensures rows[GalaxyCells(rows)[k].0][GalaxyCells(rows)[k].1] == '#'
    {
      MarkedCellsMembers(rows, '#', GalaxyCells(rows)[k]);
    }
  }

  /** Where part 1's expanded grid shows the cell `p`: down by the empty
      rows above it, right by the empty columns to its left. */
  function Moved(rows: seq<Line>, width: nat, p: (nat, nat)): (nat, nat)
    requires Rectangular(rows, width) && p.0 < |rows| && p.1 < width
  {
    (p.0 + EmptyCount(rows[..p.0]), p.1 + EmptyCount(Transpose(rows, width)[..p.1]))
  }

  /** The galaxies of the image, each where the expanded grid shows it. */
  function MovedCells(rows: seq<Line>, width: nat): (cells: seq<(nat, nat)>)
    requires Rectangular(rows, width)
    ensures |cells| == |GalaxyCells(rows)|
  {
    GalaxyCellsInside(rows, width);
    var g := GalaxyCells(rows);
    seq(|g|, k requires 0 <= k < |g| => Moved(rows, width, g[k]))
  }

  /** Fewer lines before a position means no more empty ones. */
  lemma {:induction false} EmptyCountPrefix(lines: seq<Line>, a: nat, b: nat)
    requires a <= b <= |lines|
    ensures EmptyCount(lines[..a]) <= EmptyCount(lines[..b])
    decreases b
  {
    if a < b {
      assert lines[..b][..b - 1] == lines[..b - 1];
      EmptyCountPrefix(lines, a, b - 1);
    }
  }

  /** Moving keeps the row-major order of cells strictly. */
  lemma {:induction false} MovedKeepsOrder(rows: seq<Line>, width: nat, p: (nat, nat), q: (nat, nat))
    requires Rectangular(rows, width) && p.0 < |rows| && p.1 < width && q.0 < |rows| && q.1 < width
    requires Before(p, q)
    ensures Before(Moved(rows, width, p), Moved(rows, width, q))
  {
    if p.0 < q.0 {
      EmptyCountPrefix(rows, p.0, q.0);
    } else {
      EmptyCountPrefix(Transpose(rows, width), p.1, q.1);
    }
  }

  /** Each line of a doubled list is a line of the input; one that is not
      empty sits at its own position plus the number of empty lines before
      it. */
  lemma {:induction false} DoubledSource(lines: seq<Line>, k: nat) returns (i: nat)
    requires k < |Doubled(lines)|
    ensures i < |lines| && Doubled(lines)[k] == lines[i]
    ensures !AllDots(lines[i]) ==> k == i + EmptyCount(lines[..i])
  {
    var n := |lines| - 1;
    var init := lines[..n];
    if k < |Doubled(init)| {
      i := DoubledSource(init, k);
      assert init[..i] == lines[..i];
    } else {
      i := n;
      assert lines[..n] == init;
    }
  }

  /** Every galaxy of the expanded grid is a galaxy of the image, moved. */
  lemma {:induction false} ExpandedSource(rows: seq<Line>, width: nat, i: nat, j: nat) returns (r: nat, c: nat)
    requires Rectangular(rows, width)
    requires i < |Expanded(rows, width)| && j < |Expanded(rows, width)[i]| && Expanded(rows, width)[i][j] == '#'
    ensures r < |rows| && c < width && rows[r][c] == '#'
    ensures i == r + EmptyCount(rows[..r]) && j == c + EmptyCount(Transpose(rows, width)[..c])
  {
    ExpandedCell(rows, width, i, j);
    r, c := DoubledColumnsSource(rows, width, i, j);
  }

  /** A galaxy at cell `i` of line `j` of the doubled columns comes from
      the image, moved. */
  lemma {:induction false} DoubledColumnsSource(rows: seq<Line>, width: nat, i: nat, j: nat) returns (r: nat, c: nat)
    requires Rectangular(rows, width) && Rectangular(Doubled(rows), width)
    requires var d := Doubled(Transpose(Doubled(rows), width)); j < |d| && i < |d[j]| && d[j][i] == '#'
    ensures r < |rows| && c < width && rows[r][c] == '#'
    ensures i == r + EmptyCount(rows[..r]) && j == c + EmptyCount(Transpose(rows, width)[..c])
  {
    c := ColumnSource(Doubled(rows), width, i, j);
    r := TallSource(rows, width, i, c);
    ShiftedPrefix(rows, width, c);
    assert j == c + EmptyCount(Transpose(rows, width)[..c]);
  }

  /** A galaxy at cell `i` of line `j` of a grid's doubled columns is cell
      `(i, c)` of the grid, for the column `c` that lands at `j`. */
  lemma {:induction false} ColumnSource(tall: seq<Line>, width: nat, i: nat, j: nat) returns (c: nat)
    requires Rectangular(tall, width)
    requires var d := Doubled(Transpose(tall, width)); j < |d| && i < |d[j]| && d[j][i] == '#'
    ensures c < width && i < |tall| && tall[i][c] == '#'
    ensures j == c + EmptyCount(Transpose(tall, width)[..c])
  {
    var t := Transpose(tall, width);
    c := DoubledSource(t, j);
    assert t[c][i] == '#';
  }

  /** Cell `(i, j)` of the expanded grid is cell `i` of line `j` of the
      doubled columns. */
  lemma {:induction false} ExpandedCell(rows: seq<Line>, width: nat, i: nat, j: nat)
    requires Rectangular(rows, width)
    requires i < |Expanded(rows, width)| && j < |Expanded(rows, width)[i]|
    ensures Rectangular(Doubled(rows), width)
    ensures var d := Doubled(Transpose(Doubled(rows), width));
      j < |d| && i < |d[j]| && d[j][i] == Expanded(rows, width)[i][j]
  {
    var tall := Doubled(rows);
    DoubledRectangular(rows, width);
    var t := Transpose(tall, width);
    DoubledRectangular(t, |tall|);
    var d := Doubled(t);
    assert Expanded(rows, width) == Transpose(d, |tall|);
  }

  /** A galaxy in row `i` of the grid with doubled rows comes from row `r`
      of the image, which sits `i` lines down once the empty rows above it
      are doubled. */
  lemma {:induction false} TallSource(rows: seq<Line>, width: nat, i: nat, c: nat) returns (r: nat)
    requires Rectangular(rows, width) && Rectangular(Doubled(rows), width) && c < width
    requires i < |Doubled(rows)| && Doubled(rows)[i][c] == '#'
    ensures r < |rows| && rows[r][c] == '#' && i == r + EmptyCount(rows[..r])
  {
    r := DoubledSource(rows, i);
    assert rows[r][c] == '#';
  }

  /** The galaxies of part 1's expanded grid are exactly the galaxies of the
      image, each moved, and in the same order. */
  lemma {:induction false} ExpandedGalaxyCells(rows: seq<Line>, width: nat)
    requires Rectangular(rows, width)
    ensures GalaxyCells(Expanded(rows, width)) == MovedCells(rows, width)
    ensures |GalaxyCells(Expanded(rows, width))| == |GalaxyCells(rows)|
  {
    var cells := GalaxyCells(Expanded(rows, width));
    var moved := MovedCells(rows, width);
    MarkedCellsRowMajor(Expanded(rows, width), '#');
    MovedRowMajor(rows, width);
    forall p
      ensures p in cells <==> p in moved
    {
      if p in moved {
        var k :| 0 <= k < |moved| && moved[k] == p;
        MovedInExpanded(rows, width, k);
      }
      if p in cells {
        ExpandedInMoved(rows, width, p);
      }
    }
    RowMajorUnique(cells, moved);
  }

  /** The moved galaxies keep the image's row-major order. */
  lemma {:induction false} MovedRowMajor(rows: seq<Line>, width: nat)
    requires Rectangular(rows, width)
    ensures RowMajor(MovedCells(rows, width))
  {
    var g := GalaxyCells(rows);
    var moved := MovedCells(rows, width);
    GalaxyCellsInside(rows, width);
    MarkedCellsRowMajor(rows, '#');
    forall a, b | 0 <= a < b < |moved|
      ensures Before(moved[a], moved[b])
    {
      MovedKeepsOrder(rows, width, g[a], g[b]);
    }
  }

  /** Each moved galaxy is a galaxy of the expanded grid. */
  lemma {:induction false} MovedInExpanded(rows: seq<Line>, width: nat, k: nat)
    requires Rectangular(rows, width) && k < |MovedCells(rows, width)|
    ensures MovedCells(rows, width)[k] in GalaxyCells(Expanded(rows, width))
  {
    var g := GalaxyCells(rows);
    GalaxyCellsInside(rows, width);
    var p := MovedCells(rows, width)[k];
    InExpanded(rows, width, g[k].0, g[k].1, p.0, p.1);
    MarkedCellsMembers(Expanded(rows, width), '#', p);
  }

  /** Each galaxy of the expanded grid is a moved galaxy. */
  lemma {:induction false} ExpandedInMoved(rows: seq<Line>, width: nat, p: (nat, nat))
    requires Rectangular(rows, width) && p in GalaxyCells(Expanded(rows, width))
    ensures p in MovedCells(rows, width)
  {
    MarkedCellsMembers(Expanded(rows, width), '#', p);
    var r, c := ExpandedSource(rows, width, p.0, p.1);
    MovedAt(rows, width, r, c, p.0, p.1);
  }

  /** A galaxy of the image, moved, is listed among the moved galaxies. */
  lemma {:induction false} MovedAt(rows: seq<Line>, width: nat, r: nat, c: nat, i: nat, j: nat)
    requires Rectangular(rows, width) && r < |rows| && c < width && rows[r][c] == '#'
    requires i == r + EmptyCount(rows[..r]) && j == c + EmptyCount(Transpose(rows, width)[..c])
    ensures (i, j) in MovedCells(rows, width)
  {
    var g := GalaxyCells(rows);
    MarkedCellsMembers(rows, '#', (r, c));
    var k :| 0 <= k < |g| && g[k] == (r, c);
    assert MovedCells(rows, width)[k] == Moved(rows, width, (r, c));
  }

  /** With factor 1, part 2's coordinates are the moved galaxies with their
      axes exchanged. */
  lemma {:induction false} FactorOneMoves(rows: seq<Line>, width: nat)
    requires Rectangular(rows, width)
    ensures SwapAll(ExpandedGalaxies(rows, width, 1)) == RowColumn(MovedCells(rows, width))
  {
    var g := GalaxyCells(rows);
    GalaxyCellsInside(rows, width);
    forall k | 0 <= k < |g|
      ensures Swap(ExpandedGalaxies(rows, width, 1)[k]) == RowColumn(MovedCells(rows, width))[k]
    {
      RowShift(rows, width, g[k].0, g[k].1);
      ColumnShift(rows, width, g[k].0, g[k].1);
    }
  }

  /** Part 1 and part 2 with factor 1 give the same answer: the sum over
      the expanded grid's galaxies is the sum over the moved coordinates. */
  lemma {:induction false} PartsAgree(rows: seq<Line>, width: nat)
    requires Rectangular(rows, width)
    ensures PairSum(RowColumn(GalaxyCells(Expanded(rows, width)))) == PairSum(ExpandedGalaxies(rows, width, 1))
  {
    ExpandedGalaxyCells(rows, width);
    FactorOneMoves(rows, width);
    PairSumSwapped(ExpandedGalaxies(rows, width, 1));
  }

  /** Part 1 (main.rs lines 8-31): expand the 140 by 140 image, then add up
      the distances between all pairs of galaxies; `None` when the input
      does not fill the image. */
  method SumOfShortestPaths(lines: seq<string>) returns (r: Option<nat>)
    ensures r.Some? <==> |Concat(NonEmpty(lines))| == Side * Side
    ensures r.Some? ==> ReadImage(lines, Side, Side).Some? && r.value == PairSum(RowColumn(GalaxyCells(Expanded(ReadImage(lines, Side, Side).value, Side))))
  {
    ReshapeSome(Concat(NonEmpty(lines)), Side, Side);
    var image := ReadImage(lines, Side, Side);
    if image.None? {
      return None;
    }
    var expanded := ExpandMatrix(image.value, Side);
    r := Some(PairSum(RowColumn(GalaxyCells(expanded.value))));
  }

  /** Part 2's galaxies: (column, row) of the original image, each moved by
      `expand_coordinate`. */
  function ExpandedGalaxies(rows: seq<Line>, width: nat, factor: nat): (ps: seq<Coordinate>)
    requires Rectangular(rows, width)
    ensures |ps| == |GalaxyCells(rows)|
  {
    var cells := GalaxyCells(rows);
    var emptyRows := EmptyIndexes(rows);
    var emptyColumns := EmptyIndexes(Transpose(rows, width));
    seq(|cells|, i requires 0 <= i < |cells| =>
      ExpandCoordinate(Coordinate(cells[i].1, cells[i].0), emptyRows, emptyColumns, factor))
  }

  /** The expansion factor of part 2: every empty line stands for a million. */
  const Factor: nat := 999_999

  /** Part 2 (main.rs lines 8-32). */
  function SumOfExpandedPaths(lines: seq<string>): (r: Option<nat>)
    ensures r.Some? <==> |Concat(NonEmpty(lines))| == Side * Side
  {
    ReshapeSome(Concat(NonEmpty(lines)), Side, Side);
    match ReadImage(lines, Side, Side)
    case None => None
    case Some(rows) => Some(PairSum(ExpandedGalaxies(rows, Side, Factor)))
  }

  /** With factor 0 no galaxy moves: part 2 then measures the image as it is. */
  lemma {:induction false} FactorZero(rows: seq<Line>, width: nat)
    requires Rectangular(rows, width)
    ensures ExpandedGalaxies(rows, width, 0) == SwapAll(RowColumn(GalaxyCells(rows)))
  {
  }
}
