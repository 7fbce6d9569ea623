/** The pipe-maze loop tracer (day_10/part_1/src/main.rs): compass directions,
    the glyph table of pipe openings, the step that leaves a pipe through the
    opening it did not enter by, and the walk from the start cell `S` around
    the loop back to `S`. */
module PipeMaze {
  import opened Wrappers
  import opened Coordinates

  datatype Direction = North | East | South | West

  /** One cell north, east, south or west. */
  predicate IsUnitStep(d: Offset) {
    (d.dx == 0 && (d.dy == 1 || d.dy == -1)) || (d.dy == 0 && (d.dx == 1 || d.dx == -1))
  }

  /** `CardinalDirection::value`: the unit offset of a direction (y grows southward). */
  function Value(dir: Direction): (d: Offset)
    ensures IsUnitStep(d)
  {
    match dir
    case North => Offset(0, -1)
    case East => Offset(1, 0)
    case South => Offset(0, 1)
    case West => Offset(-1, 0)
  }

  /** `CardinalDirection::from_value`, which panics (here `None`) on any offset
      that is not one of the four unit steps. */
  function FromValue(d: Offset): (r: Option<Direction>)
    ensures r.Some? <==> IsUnitStep(d)
    ensures r.Some? ==> Value(r.value) == d
  {
    if d == Offset(0, -1) then Some(North)
    else if d == Offset(1, 0) then Some(East)
    else if d == Offset(0, 1) then Some(South)
    else if d == Offset(-1, 0) then Some(West)
    else None
  }

  /** `CardinalDirection::invert`: the opposite direction. */
  function Invert(dir: Direction): (r: Direction)
    ensures r != dir
    ensures Value(r) == Offset(-Value(dir).dx, -Value(dir).dy)
  {
    match dir
    case North => South
    case South => North
    case East => West
    case West => East
  }

  lemma InvertInvolution(dir: Direction)
    ensures Invert(Invert(dir)) == dir
  {
  }

  lemma FromValueOfValue(dir: Direction)
    ensures FromValue(Value(dir)) == Some(dir)
  {
  }

  /** `PIPES`: the two openings of each pipe glyph. */
  const Pipes: map<char, (Direction, Direction)> := map[
    '|' := (North, South),
    '-' := (East, West),
    'L' := (North, East),
    'J' := (North, West),
    '7' := (South, West),
    'F' := (South, East)]

  /** Exactly the six glyphs `| - L J 7 F` are pipes, and each opens in two
      different directions. */
  lemma PipesTable(glyph: char)
    ensures glyph in Pipes <==> glyph in "|-LJ7F"
    ensures glyph in Pipes ==> Pipes[glyph].0 != Pipes[glyph].1
  {
  }

  /** The two cells a pipe glyph at `c` connects to. */
  function Openings(glyph: char, c: Coordinate): (cells: set<Coordinate>)
    requires glyph in Pipes
    ensures |cells| == 2
    ensures forall n | n in cells :: IsUnitStep(RelativeTo(n, c))
  {
    var (a, b) := Pipes[glyph];
    RelativeToMoved(c, Value(a));
    RelativeToMoved(c, Value(b));
    assert MoveTo(c, Value(a)) != MoveTo(c, Value(b));
    {MoveTo(c, Value(a)), MoveTo(c, Value(b))}
  }

  /** The fatal conditions of the tracer, each a panic in the program. */
  datatype TraceError =
    | NoHistory       // `history.last()` on an empty history
    | NotUnitOffset   // `from_value` of an offset that is no unit step
    | UnknownGlyph    // a glyph missing from `PIPES`
    | Disconnected    // the entering direction is neither opening of the pipe
    | NoStart         // the grid holds no `S`
    | OutOfGrid       // `map.get` outside the grid
    | StepLimit       // the walk did not close within the step bound

  /** `get_entering_direction`: the side of `current` through which the walker
      came in, i.e. the direction from `current` to the last cell of `history`. */
  function EnteringDirection(current: Coordinate, history: seq<Coordinate>): (r: Result<Direction, TraceError>)
    ensures history == [] ==> r == Err(NoHistory)
    ensures history != [] ==> (r.Ok? <==> IsUnitStep(RelativeTo(current, history[|history| - 1])))
    ensures r.Ok? ==> MoveTo(current, Value(r.value)) == history[|history| - 1]
  {
    if history == [] then Err(NoHistory)
    else
      MoveToRelative(current, history[|history| - 1]);
      match FromValue(RelativeTo(current, history[|history| - 1]))
      case None => Err(NotUnitOffset)
      case Some(d) => Ok(Invert(d))
  }

  /** `get_next_coordinate_change_from_char`: the cell reached by leaving the
      pipe `glyph` at `current` through the opening it was not entered by.  On
      success the pipe's two openings are exactly the previous cell and the
      returned one, so the walker never turns back. */
  function NextCoordinate(glyph: char, current: Coordinate, history: seq<Coordinate>): (r: Result<Coordinate, TraceError>)
    ensures EnteringDirection(current, history).Err? ==> r == Err(EnteringDirection(current, history).error)
    ensures EnteringDirection(current, history).Ok? && glyph !in Pipes ==> r == Err(UnknownGlyph)
    ensures EnteringDirection(current, history).Ok? && glyph in Pipes ==>
      (r == Err(Disconnected) <==> history[|history| - 1] !in Openings(glyph, current))
    ensures r.Ok? ==> history != [] && glyph in Pipes
    ensures r.Ok? ==> Openings(glyph, current) == {history[|history| - 1], r.value}
    ensures r.Ok? ==> r.value != history[|history| - 1]
  {
    match EnteringDirection(current, history)
    case Err(e) => Err(e)
    case Ok(entering) =>
      if glyph !in Pipes then Err(UnknownGlyph)
      else
        var (a, b) := Pipes[glyph];
        ValueInjective(current, entering, a);
        ValueInjective(current, entering, b);
        if entering == a then Ok(MoveTo(current, Value(b)))
        else if entering == b then Ok(MoveTo(current, Value(a)))
        else Err(Disconnected)
  }

  /** Distinct directions lead from one cell to distinct cells. */
  lemma ValueInjective(c: Coordinate, d1: Direction, d2: Direction)
    ensures MoveTo(c, Value(d1)) == MoveTo(c, Value(d2)) <==> d1 == d2
  {
  }

  /** The puzzle grid, row by row; `grid[y][x]` is the glyph at `(x, y)`. */
  type Grid = seq<string>

  /** `map.get((y, x))`, which is `None` outside the grid. */
  function GlyphAt(grid: Grid, c: Coordinate): Option<char> {
    if 0 <= c.y < |grid| && 0 <= c.x < |grid[c.y]| then Some(grid[c.y][c.x]) else None
  }

  function IndexOf(s: string, c: char): (i: nat)
    requires c in s
    ensures i < |s| && s[i] == c
    ensures forall k | 0 <= k < i :: s[k] != c
  {
    if s[0] == c then 0 else 1 + IndexOf(s[1..], c)
  }

  /** The first `S` at or below row `row`, in row-major order. */
  function FindStartFrom(grid: Grid, row: nat): (r: Option<Coordinate>)
    requires row <= |grid|
    ensures r.Some? ==> row <= r.value.y && GlyphAt(grid, r.value) == Some('S')
    ensures r.Some? ==> forall y, x | row <= y < |grid| && 0 <= x < |grid[y]| && (y < r.value.y || (y == r.value.y && x < r.value.x)) :: grid[y][x] != 'S'
    ensures r.None? ==> forall y, x | row <= y < |grid| && 0 <= x < |grid[y]| :: grid[y][x] != 'S'
    decreases |grid| - row
  {
    if row == |grid| then None
    else if 'S' in grid[row] then Some(Coordinate(IndexOf(grid[row], 'S'), row))
    else FindStartFrom(grid, row + 1)
  }

  /** The start search of `main` (`indexed_iter().find_map`): the first `S` in
      row-major order, or `None` (a panic) when the grid has none. */
  function FindStart(grid: Grid): (r: Option<Coordinate>)
    ensures r.Some? ==> GlyphAt(grid, r.value) == Some('S')
    ensures r.Some? ==> forall y, x | 0 <= y < |grid| && 0 <= x < |grid[y]| && (y < r.value.y || (y == r.value.y && x < r.value.x)) :: grid[y][x] != 'S'
    ensures r.None? ==> forall y, x | 0 <= y < |grid| && 0 <= x < |grid[y]| :: grid[y][x] != 'S'
  {
    FindStartFrom(grid, 0)
  }

  /** One step of the walk loop of `main`: the glyph under `current`
      (`map.get`, out of the grid a panic) and the cell after it. */
  function Step(grid: Grid, history: seq<Coordinate>, current: Coordinate): Result<Coordinate, TraceError> {
    match GlyphAt(grid, current)
    case None => Err(OutOfGrid)
    case Some(glyph) => NextCoordinate(glyph, current, history)
  }

  /** The walk loop of `main`, as a function: from `history` and the current
      cell, step until the next cell is the first history entry.  `fuel` bounds
      the number of steps. */
  function Trace(grid: Grid, history: seq<Coordinate>, current: Coordinate, fuel: nat): Result<seq<Coordinate>, TraceError>
    requires history != []
    decreases fuel
  {
    if fuel == 0 then Err(StepLimit)
    else
      match Step(grid, history, current)
      case Err(e) => Err(e)
      case Ok(next) =>
        if next == history[0] then Ok(history + [current])
        else Trace(grid, history + [current], next, fuel - 1)
  }

  /** The walk only appends, one cell per step: a traced loop starts with
      the history it was given, followed by the cell the walk was standing
      on, and is at most `fuel` cells longer than that history. */
  lemma {:induction false} TraceExtends(grid: Grid, history: seq<Coordinate>, current: Coordinate, fuel: nat)
    requires history != []
    requires Trace(grid, history, current, fuel).Ok?
    ensures var loop := Trace(grid, history, current, fuel).value;
      |history| < |loop| <= |history| + fuel && loop[..|history|] == history && loop[|history|] == current
    decreases fuel
  {
    var next := Step(grid, history, current).value;
    if next != history[0] {
      var loop := Trace(grid, history, current, fuel).value;
      TraceExtends(grid, history + [current], next, fuel - 1);
      assert loop[..|history|] == loop[..|history| + 1][..|history|];
    }
  }

  /** The whole traversal: history seeded with `S`, first step one cell east. */
  function TraceFromStart(grid: Grid, fuel: nat): Result<seq<Coordinate>, TraceError> {
    match FindStart(grid)
    case None => Err(NoStart)
    case Some(start) => Trace(grid, [start], MoveTo(start, Value(East)), fuel)
  }

  /** The successor of entry `i` of a loop: the next entry, or the first after the last. */
  function Succ(h: seq<Coordinate>, i: nat, current: Coordinate): Coordinate
    requires i < |h|
  {
    if i + 1 < |h| then h[i + 1] else current
  }

  /** Entry `i` of `h` holds a pipe whose two openings are its neighbours in the walk. */
  predicate Connects(grid: Grid, h: seq<Coordinate>, i: nat, next: Coordinate)
    requires 1 <= i < |h|
  {
    && GlyphAt(grid, h[i]).Some?
    && GlyphAt(grid, h[i]).value in Pipes
    && Openings(GlyphAt(grid, h[i]).value, h[i]) == {h[i - 1], Succ(h, i, next)}
  }

  /** The walk so far: it starts on `S`, leaves it eastward, and every cell after
      the start is a pipe connecting its predecessor to its successor
      (`current` follows the last entry). */
  predicate WalkSoFar(grid: Grid, h: seq<Coordinate>, current: Coordinate) {
    && |h| >= 1
    && GlyphAt(grid, h[0]) == Some('S')
    && Succ(h, 0, current) == MoveTo(h[0], Value(East))
    && (forall i | 1 <= i < |h| :: Connects(grid, h, i, current))
    && (forall i | 1 <= i < |h| :: h[i] != h[0])
  }

  /** A closed loop through `S`: the walk so far whose last cell leads back to
      the start, which it visits only once. */
  predicate IsLoop(grid: Grid, h: seq<Coordinate>) {
    |h| >= 2 && WalkSoFar(grid, h, h[0])
  }

  /** One step of the tracer extends the walk: the current cell joins the
      history, and the pipe there connects its predecessor to the next cell. */
  lemma WalkExtends(grid: Grid, h: seq<Coordinate>, current: Coordinate, glyph: char, next: Coordinate)
    requires WalkSoFar(grid, h, current) && current != h[0]
    requires GlyphAt(grid, current) == Some(glyph)
    requires NextCoordinate(glyph, current, h) == Ok(next)
    ensures WalkSoFar(grid, h + [current], next)
  {
    var h' := h + [current];
    assert Connects(grid, h', |h'| - 1, next);
    forall i | 1 <= i < |h|
      ensures Connects(grid, h', i, next)
    {
      assert Connects(grid, h, i, current);
      assert Succ(h', i, next) == Succ(h, i, current);
    }
    assert Succ(h', 0, next) == Succ(h, 0, current);
  }

  /** One unfolding of `Trace` after a successful step. */
  lemma TraceStep(grid: Grid, h: seq<Coordinate>, current: Coordinate, fuel: nat, next: Coordinate)
    requires h != [] && fuel > 0
    requires Step(grid, h, current) == Ok(next)
    ensures next == h[0] ==> Trace(grid, h, current, fuel) == Ok(h + [current])
    ensures next != h[0] ==> Trace(grid, h, current, fuel) == Trace(grid, h + [current], next, fuel - 1)
  {
  }

  /** Whatever the walk returns is a closed loop through `S` that visits `S`
      once: the walk stops at the first return to the start. */
  lemma {:induction false} TraceSound(grid: Grid, h: seq<Coordinate>, current: Coordinate, fuel: nat)
    requires WalkSoFar(grid, h, current) && current != h[0]
    ensures Trace(grid, h, current, fuel).Ok? ==> IsLoop(grid, Trace(grid, h, current, fuel).value)
    decreases fuel
  {
    if fuel > 0 && Step(grid, h, current).Ok? {
      var next := Step(grid, h, current).value;
      WalkExtends(grid, h, current, GlyphAt(grid, current).value, next);
      TraceStep(grid, h, current, fuel, next);
      if next != h[0] {
        TraceSound(grid, h + [current], next, fuel - 1);
      }
    }
  }

  /** Entering a pipe from one of its openings, the step leaves through the
      other one. */
  lemma StepThroughPipe(grid: Grid, h: seq<Coordinate>, current: Coordinate, next: Coordinate)
    requires h != [] && GlyphAt(grid, current).Some? && GlyphAt(grid, current).value in Pipes
    requires Openings(GlyphAt(grid, current).value, current) == {h[|h| - 1], next}
    ensures Step(grid, h, current) == Ok(next)
  {
    var glyph := GlyphAt(grid, current).value;
    var cells := Openings(glyph, current);
    assert h[|h| - 1] in cells;
    RelativeToAntisymmetric(current, h[|h| - 1]);
    assert EnteringDirection(current, h).Ok?;
    var r := NextCoordinate(glyph, current, h);
    assert r.Ok?;
    assert r.value in cells && r.value != h[|h| - 1];
  }

  /** Inside a closed loop through `S`, the step from cell `k` goes on to the
      loop's next cell, which is `S` only after the last one. */
  lemma LoopStep(grid: Grid, loop: seq<Coordinate>, k: nat)
    requires IsLoop(grid, loop) && 1 <= k < |loop|
    ensures Step(grid, loop[..k], loop[k]) == Ok(Succ(loop, k, loop[0]))
    ensures k + 1 < |loop| ==> loop[k + 1] != loop[..k][0]
  {
    assert Connects(grid, loop, k, loop[0]);
    StepThroughPipe(grid, loop[..k], loop[k], Succ(loop, k, loop[0]));
  }

  /** The walk is determined by the grid: started inside a closed loop through
      `S`, with fuel for the cells still to visit, it returns exactly that loop. */
  lemma {:induction false} TraceFollowsLoop(grid: Grid, loop: seq<Coordinate>, k: nat, fuel: nat)
    requires IsLoop(grid, loop) && 1 <= k < |loop| && |loop| - k <= fuel
    ensures Trace(grid, loop[..k], loop[k], fuel) == Ok(loop)
    decreases |loop| - k
  {
    var next := Succ(loop, k, loop[0]);
    LoopStep(grid, loop, k);
    TraceStep(grid, loop[..k], loop[k], fuel, next);
    assert loop[..k] + [loop[k]] == loop[..k + 1];
    if k + 1 < |loop| {
      TraceFollowsLoop(grid, loop, k + 1, fuel - 1);
    } else {
      assert loop[..k + 1] == loop;
    }
  }

  /** Completeness of the tracer: a closed loop through the first `S` that
      leaves it eastward is what the walk finds, given fuel for its length. */
  lemma TraceFindsLoop(grid: Grid, loop: seq<Coordinate>, fuel: nat)
    requires IsLoop(grid, loop) && FindStart(grid) == Some(loop[0]) && |loop| - 1 <= fuel
    ensures TraceFromStart(grid, fuel) == Ok(loop)
  {
    assert loop[..1] == [loop[0]];
    TraceFollowsLoop(grid, loop, 1, fuel);
  }

  /** The walk loop of `main` (lines 44-57): append the current cell to the
      history and move on until the next cell is the first history entry, at
      most `fuel` times. */
  method Walk(grid: Grid, start: seq<Coordinate>, first: Coordinate, fuel: nat) returns (r: Result<seq<Coordinate>, TraceError>)
    requires start != []
    ensures r == Trace(grid, start, first, fuel)
  {
    var history := start;
    var current := first;
    var left := fuel;
    while true
      invariant history != []
      invariant Trace(grid, history, current, left) == Trace(grid, start, first, fuel)
      decreases left
    {
      if left == 0 {
        return Err(StepLimit);
      }
      var next := Step(grid, history, current);
      if next.Err? {
        return Err(next.error);
      }
      TraceStep(grid, history, current, left, next.value);
      if next.value == history[0] {
        return Ok(history + [current]);
      }
      ghost var before := Trace(grid, history, current, left);
      history, current, left := history + [current], next.value, left - 1;
      assert Trace(grid, history, current, left) == before;
    }
  }

  /** The tracer of `main` (lines 29-58): find `S`, seed the history with it,
      start one cell east of it, and walk.  The result is the loop length, the
      number of cells in the history. */
  method TraceLoop(grid: Grid, fuel: nat) returns (r: Result<nat, TraceError>, history: seq<Coordinate>)
    ensures TraceFromStart(grid, fuel).Err? ==> r == Err(TraceFromStart(grid, fuel).error) && history == []
    ensures TraceFromStart(grid, fuel).Ok? ==> r == Ok(|history|) && history == TraceFromStart(grid, fuel).value
    ensures r.Ok? ==> IsLoop(grid, history)
  {
    var start := FindStart(grid);
    if start.None? {
      return Err(NoStart), [];
    }
    var walked := Walk(grid, [start.value], MoveTo(start.value, Value(East)), fuel);
    TraceSound(grid, [start.value], MoveTo(start.value, Value(East)), fuel);
    if walked.Err? {
      return Err(walked.error), [];
    }
    return Ok(|walked.value|), walked.value;
  }

  /** Two cells one unit step apart. */
  predicate Adjacent(a: Coordinate, b: Coordinate) {
    IsUnitStep(RelativeTo(a, b))
  }

  /** Consecutive cells of a loop, and its last and first cells, are one unit
      step apart. */
  lemma LoopSteps(grid: Grid, h: seq<Coordinate>)
    requires IsLoop(grid, h)
    ensures forall i | 0 <= i < |h| - 1 :: Adjacent(h[i + 1], h[i])
    ensures Adjacent(h[0], h[|h| - 1])
  {
    forall i | 1 <= i < |h|
      ensures Adjacent(h[i - 1], h[i]) && Adjacent(Succ(h, i, h[0]), h[i])
    {
      assert Connects(grid, h, i, h[0]);
      var cells := Openings(GlyphAt(grid, h[i]).value, h[i]);
      assert h[i - 1] in cells && Succ(h, i, h[0]) in cells;
    }
    assert Succ(h, |h| - 1, h[0]) == h[0];
  }

  /** The colour of a cell on a chequerboard. */
  function Parity(c: Coordinate): (p: int)
    ensures p == 0 || p == 1
  {
    (c.x + c.y) % 2
  }

  /** Along a path of unit steps the chequerboard colour alternates. */
  lemma {:induction false} ParityAlongPath(h: seq<Coordinate>)
    requires forall i | 0 <= i < |h| - 1 :: Adjacent(h[i + 1], h[i])
    ensures forall i | 0 <= i < |h| :: Parity(h[i]) == (Parity(h[0]) + i) % 2
  {
    if |h| > 1 {
      var front := h[..|h| - 1];
      assert forall i | 0 <= i < |front| - 1 :: Adjacent(front[i + 1], front[i]) by {
        forall i | 0 <= i < |front| - 1
          ensures Adjacent(front[i + 1], front[i])
        {
          assert front[i + 1] == h[i + 1] && front[i] == h[i];
        }
      }
      ParityAlongPath(front);
      assert Adjacent(h[|h| - 1], h[|h| - 2]);
      assert Parity(h[|h| - 2]) == (Parity(h[0]) + |h| - 2) % 2 by {
        assert front[|front| - 1] == h[|h| - 2];
      }
      forall i | 0 <= i < |h|
        ensures Parity(h[i]) == (Parity(h[0]) + i) % 2
      {
        if i < |h| - 1 {
          assert front[i] == h[i];
        }
      }
    }
  }

  /** A closed loop of unit steps alternates colours all the way round, so it
      has an even number of cells. */
  lemma LoopLengthEven(grid: Grid, h: seq<Coordinate>)
    requires IsLoop(grid, h)
    ensures |h| % 2 == 0
  {
    LoopSteps(grid, h);
    ParityAlongPath(h);
    AdjacentParity(h[0], h[|h| - 1]);
    assert Parity(h[|h| - 1]) == (Parity(h[0]) + |h| - 1) % 2;
  }

  /** Neighbouring cells have different colours. */
  lemma AdjacentParity(a: Coordinate, b: Coordinate)
    requires Adjacent(a, b)
    ensures Parity(a) != Parity(b)
  {
  }

  /** A loop has at least four cells: a two-cell "loop" would need a pipe whose
      two openings lead to the same cell. */
  lemma LoopAtLeastFour(grid: Grid, h: seq<Coordinate>)
    requires IsLoop(grid, h)
    ensures |h| >= 4
  {
    LoopLengthEven(grid, h);
    assert Connects(grid, h, 1, h[0]);
    assert Succ(h, 1, h[0]) != h[0];
  }

  /** A walker whose previous cell lies in direction `dir` entered through `dir`. */
  lemma EnteredFrom(current: Coordinate, history: seq<Coordinate>, dir: Direction)
    requires history != [] && history[|history| - 1] == MoveTo(current, Value(dir))
    ensures EnteringDirection(current, history) == Ok(dir)
  {
    assert RelativeTo(current, history[|history| - 1]) == Value(Invert(dir));
  }

  /** A pipe entered through one of its openings is left through the other:
      never back the way the walker came. */
  lemma ExitsThroughOtherOpening(glyph: char, current: Coordinate, history: seq<Coordinate>, dir: Direction)
    requires glyph in Pipes && dir in {Pipes[glyph].0, Pipes[glyph].1}
    requires history != [] && history[|history| - 1] == MoveTo(current, Value(dir))
    ensures dir == Pipes[glyph].0 ==> NextCoordinate(glyph, current, history) == Ok(MoveTo(current, Value(Pipes[glyph].1)))
    ensures dir == Pipes[glyph].1 ==> NextCoordinate(glyph, current, history) == Ok(MoveTo(current, Value(Pipes[glyph].0)))
  {
    EnteredFrom(current, history, dir);
    PipesTable(glyph);
  }
}
