/** The desert map (day_8): a line of left/right instructions and a table of
    nodes, each naming its left and right neighbour.  A walk follows the
    instructions over and over from a start node until it reaches a goal.
    `usize` counts are unbounded natural numbers here. */
module Wasteland {
  import opened Wrappers
  import opened Text

  /** One line of the node table: "AAA = (BBB, CCC)". */
  datatype Node = Node(name: string, left: string, right: string)

  /** The characters `trim_matches` strips from each neighbour. */
  const Brackets: set<char> := {'(', ')', ' '}

  /** `parse_line`: the name is the trimmed text before '=', the neighbours
      the two comma-separated parts after it with brackets and spaces
      stripped; `None` where `parts[1]` or `directions[1]` is out of range. */
  function ParseLine(line: string): (r: Option<Node>)
    ensures r.Some? ==> '=' !in r.value.name && ',' !in r.value.left && ',' !in r.value.right
    ensures r.Some? && r.value.left != [] ==> r.value.left[0] !in Brackets && r.value.left[|r.value.left| - 1] !in Brackets
    ensures r.Some? && r.value.right != [] ==> r.value.right[0] !in Brackets && r.value.right[|r.value.right| - 1] !in Brackets
  {
    var parts := Split(line, {'='});
    if |parts| < 2 then None
    else
      var neighbours := Split(parts[1], {','});
      if |neighbours| < 2 then None
      else Some(Node(Trim(parts[0]), TrimMatches(neighbours[0], Brackets), TrimMatches(neighbours[1], Brackets)))
  }

  /** A line without '=' cannot be parsed: indexing `parts[1]` panics. */
  lemma {:induction false} ParseLineNeedsEquals(line: string)
    requires '=' !in line
    ensures ParseLine(line) == None
  {
    SplitWithoutSeparator(line, {'='});
  }

  /** Characters allowed in the node names of the puzzle input. */
  predicate IsNameChar(c: char) {
    'A' <= c <= 'Z' || 'a' <= c <= 'z' || '0' <= c <= '9'
  }

  predicate IsName(s: string) {
    s != [] && forall i | 0 <= i < |s| :: IsNameChar(s[i])
  }

  /** The inverse of `parse_line`: a node written out as a table line. */
  function Format(n: Node): string {
    n.name + " = (" + n.left + ", " + n.right + ")"
  }

  /** The neighbour part of a formatted line. */
  function Neighbours(left: string, right: string): string {
    " (" + left + ", " + right + ")"
  }

  /** A formatted line splits at '=' into the padded name and the neighbours. */
  lemma {:induction false} SplitFormat(n: Node)
    requires IsName(n.name) && IsName(n.left) && IsName(n.right)
    ensures Split(Format(n), {'='}) == [n.name + " ", Neighbours(n.left, n.right)]
  {
    var before := n.name + " ";
    var after := Neighbours(n.left, n.right);
    assert Format(n) == before + ['='] + after;
    assert forall i | 0 <= i < |before| :: before[i] != '=' by {
      forall i | 0 <= i < |before|
        ensures before[i] != '='
      {
        if i < |n.name| {
          assert before[i] == n.name[i];
        }
      }
    }
    SplitAtSeparator(before, '=', after, {'='});
    assert forall i | 0 <= i < |after| :: after[i] != '=' by {
      forall i | 0 <= i < |after|
        ensures after[i] != '='
      {
        if 2 <= i < 2 + |n.left| {
          assert after[i] == n.left[i - 2];
        } else if 4 + |n.left| <= i < 4 + |n.left| + |n.right| {
          assert after[i] == n.right[i - 4 - |n.left|];
        }
      }
    }
    SplitWithoutSeparator(after, {'='});
  }

  /** The neighbours split at ',' into the two padded names. */
  lemma {:induction false} SplitNeighbours(left: string, right: string)
    requires IsName(left) && IsName(right)
    ensures Split(Neighbours(left, right), {','}) == [" (" + left, " " + right + ")"]
  {
    var first := " (" + left;
    var second := " " + right + ")";
    assert Neighbours(left, right) == first + [','] + second;
    assert forall i | 0 <= i < |first| :: first[i] != ',' by {
      forall i | 0 <= i < |first|
        ensures first[i] != ','
      {
        if 2 <= i {
          assert first[i] == left[i - 2];
        }
      }
    }
    SplitAtSeparator(first, ',', second, {','});
    assert forall i | 0 <= i < |second| :: second[i] != ',' by {
      forall i | 0 <= i < |second|
        ensures second[i] != ','
      {
        if 1 <= i < 1 + |right| {
          assert second[i] == right[i - 1];
        }
      }
    }
    SplitWithoutSeparator(second, {','});
  }

  /** Trimming the space after a name gives the name. */
  lemma {:induction false} TrimName(name: string)
    requires IsName(name)
    ensures Trim(name + " ") == name
  {
    var padded := name + " ";
    var ws := set c: char | c in padded && IsWhitespace(c);
    assert ' ' in ws by {
      assert padded[|name|] == ' ';
    }
    assert name[0] !in ws && name[|name| - 1] !in ws by {
      assert IsNameChar(name[0]) && IsNameChar(name[|name| - 1]);
    }
    assert padded == [] + name + " ";
    TrimMatchesFrame([], name, " ", ws);
  }

  /** Stripping the brackets and spaces around a neighbour gives its name. */
  lemma {:induction false} TrimNeighbour(name: string)
    requires IsName(name)
    ensures TrimMatches(" (" + name, Brackets) == name
    ensures TrimMatches(" " + name + ")", Brackets) == name
  {
    assert name[0] !in Brackets && name[|name| - 1] !in Brackets by {
      assert IsNameChar(name[0]) && IsNameChar(name[|name| - 1]);
    }
    assert " (" + name == " (" + name + [];
    TrimMatchesFrame(" (", name, [], Brackets);
    TrimMatchesFrame(" ", name, ")", Brackets);
  }

  /** Parsing a formatted node gives the node back. */
  lemma {:induction false} ParseFormat(n: Node)
    requires IsName(n.name) && IsName(n.left) && IsName(n.right)
    ensures ParseLine(Format(n)) == Some(n)
  {
    SplitFormat(n);
    SplitNeighbours(n.left, n.right);
    TrimName(n.name);
    TrimNeighbour(n.left);
    TrimNeighbour(n.right);
  }

  /** `parse_line` on the first line of the puzzle's example. */
  lemma {:induction false} ParseLineExample()
    ensures ParseLine("AAA = (BBB, CCC)") == Some(Node("AAA", "BBB", "CCC"))
  {
    ParseFormat(Node("AAA", "BBB", "CCC"));
    assert Format(Node("AAA", "BBB", "CCC")) == "AAA = (BBB, CCC)";
  }

  /** Every line parsed; `None` as soon as one line does not parse. */
  function ParseAll(lines: seq<string>): (r: Option<seq<Node>>)
    ensures r.Some? <==> forall i | 0 <= i < |lines| :: ParseLine(lines[i]).Some?
    ensures r.Some? ==> |r.value| == |lines|
    ensures r.Some? ==> forall i | 0 <= i < |lines| :: r.value[i] == ParseLine(lines[i]).value
  {
    if lines == [] then Some([])
    else
      match ParseLine(lines[0])
      case None => None
      case Some(n) =>
        match ParseAll(lines[1..])
        case None =>
          assert forall j | 0 <= j < |lines| - 1 :: lines[1..][j] == lines[j + 1];
          None
        case Some(rest) => Some([n] + rest)
  }

  /** The node table built by inserting the lines in order (`HashMap::insert`). */
  function NodeMap(entries: seq<Node>): (m: map<string, (string, string)>)
    ensures forall k :: k in m <==> exists i | 0 <= i < |entries| :: entries[i].name == k
  {
    if entries == [] then map[]
    else
      var last := entries[|entries| - 1];
      var m := NodeMap(entries[..|entries| - 1])[last.name := (last.left, last.right)];
      assert forall i | 0 <= i < |entries| - 1 :: entries[..|entries| - 1][i] == entries[i];
      m
  }

  /** A name defined more than once keeps its last definition. */
  lemma {:induction false} NodeMapLast(entries: seq<Node>, i: nat)
    requires i < |entries|
    requires forall j | i < j < |entries| :: entries[j].name != entries[i].name
    ensures NodeMap(entries)[entries[i].name] == (entries[i].left, entries[i].right)
  {
    if i < |entries| - 1 {
      var init := entries[..|entries| - 1];
      assert init[i] == entries[i];
      assert forall j | i < j < |init| :: init[j] == entries[j];
      NodeMapLast(init, i);
    }
  }

  /** The instruction line with whitespace removed. */
  function NonBlank(s: string): (r: string)
    ensures forall c :: c in r <==> c in s && !IsWhitespace(c)
    ensures |r| <= |s|
  {
    if s == [] then []
    else
      assert s == [s[0]] + s[1..];
      (if IsWhitespace(s[0]) then [] else [s[0]]) + NonBlank(s[1..])
  }

  /** An instruction line without whitespace is kept as it is. */
  lemma {:induction false} NonBlankKeeps(s: string)
    requires forall i | 0 <= i < |s| :: !IsWhitespace(s[i])
    ensures NonBlank(s) == s
  {
    if s != [] {
      NonBlankKeeps(s[1..]);
      assert s == [s[0]] + s[1..];
    }
  }

  /** Where a walk stops: at one name, or at any name ending in a character. */
  datatype Goal = Exactly(target: string) | EndsWith(last: char)

  /** Whether a node is a goal; `None` where `chars().last().unwrap()` panics
      on an empty name. */
  function AtGoal(goal: Goal, node: string): (r: Option<bool>)
    ensures r.None? <==> goal.EndsWith? && node == []
    ensures r == Some(true) ==> goal.Exactly? ==> node == goal.target
  {
    match goal
    case Exactly(target) => Some(node == target)
    case EndsWith(c) => if node == [] then None else Some(node[|node| - 1] == c)
  }

  /** The node after `k` steps from `start`; the `k`-th step follows the
      instruction at position `(k - 1) mod |dirs|`, 'L' to the left and
      anything else to the right.  `None` once a step leaves from a name the
      table does not hold. */
  function NodeAfter(nodes: map<string, (string, string)>, dirs: string, start: string, k: nat): (r: Option<string>)
    requires dirs != []
    ensures k == 0 ==> r == Some(start)
  {
    if k == 0 then Some(start)
    else
      match NodeAfter(nodes, dirs, start, k - 1)
      case None => None
      case Some(node) =>
        if node !in nodes then None
        else if dirs[(k - 1) % |dirs|] == 'L' then Some(nodes[node].0)
        else Some(nodes[node].1)
  }

  /** What the walk learns at step `k`: whether the node reached is a goal,
      or `None` when that step panics. */
  function Arrival(nodes: map<string, (string, string)>, dirs: string, start: string, goal: Goal, k: nat): Option<bool>
    requires dirs != []
  {
    match NodeAfter(nodes, dirs, start, k)
    case None => None
    case Some(node) => AtGoal(goal, node)
  }

  /** None of steps `1..n - 1` reaches a goal or panics. */
  predicate NoGoalBefore(nodes: map<string, (string, string)>, dirs: string, start: string, goal: Goal, n: nat)
    requires dirs != []
  {
    forall k | 1 <= k < n :: Arrival(nodes, dirs, start, goal, k) == Some(false)
  }

  /** `n` is the number of steps the walk takes: the first step that lands on
      a goal (the start itself is never examined); with no instructions the
      cycle is empty and the walk takes none. */
  predicate FirstGoal(nodes: map<string, (string, string)>, dirs: string, start: string, goal: Goal, n: nat) {
    if dirs == [] then n == 0
    else n >= 1 && Arrival(nodes, dirs, start, goal, n) == Some(true) && NoGoalBefore(nodes, dirs, start, goal, n)
  }

  /** The step count of a walk is determined by its start. */
  lemma {:induction false} FirstGoalUnique(nodes: map<string, (string, string)>, dirs: string, start: string, goal: Goal, n1: nat, n2: nat)
    requires FirstGoal(nodes, dirs, start, goal, n1) && FirstGoal(nodes, dirs, start, goal, n2)
    ensures n1 == n2
  {
    if dirs != [] {
      var first := if n1 < n2 then n1 else n2;
      assert Arrival(nodes, dirs, start, goal, first) == Some(true);
    }
  }

  /** The walk reaches a goal within `fuel` steps. */
  predicate Finishes(nodes: map<string, (string, string)>, dirs: string, start: string, goal: Goal, fuel: nat) {
    exists n: nat | n <= fuel :: FirstGoal(nodes, dirs, start, goal, n)
  }

  /** The walk panics within `fuel` steps, before reaching any goal. */
  predicate Panics(nodes: map<string, (string, string)>, dirs: string, start: string, goal: Goal, fuel: nat) {
    dirs != [] && exists k: nat | 1 <= k <= fuel ::
      Arrival(nodes, dirs, start, goal, k).None? && NoGoalBefore(nodes, dirs, start, goal, k)
  }

  /** The walk neither reaches a goal nor panics in its first `fuel` steps. */
  predicate Stalls(nodes: map<string, (string, string)>, dirs: string, start: string, goal: Goal, fuel: nat) {
    dirs != [] && NoGoalBefore(nodes, dirs, start, goal, fuel + 1)
  }

  /** A walk ends in at most one way. */
  lemma {:induction false} WalkEndsOnce(nodes: map<string, (string, string)>, dirs: string, start: string, goal: Goal, fuel: nat)
    ensures !(Finishes(nodes, dirs, start, goal, fuel) && Panics(nodes, dirs, start, goal, fuel))
    ensures !(Finishes(nodes, dirs, start, goal, fuel) && Stalls(nodes, dirs, start, goal, fuel))
    ensures !(Panics(nodes, dirs, start, goal, fuel) && Stalls(nodes, dirs, start, goal, fuel))
  {
    if Panics(nodes, dirs, start, goal, fuel) && Finishes(nodes, dirs, start, goal, fuel) {
      var k: nat :| 1 <= k <= fuel && Arrival(nodes, dirs, start, goal, k).None? && NoGoalBefore(nodes, dirs, start, goal, k);
      var n: nat :| n <= fuel && FirstGoal(nodes, dirs, start, goal, n);
      assert false;
    }
  }

  /** The end of one walk: the goal reached after `steps`, a panic at step
      `step`, or no goal within the fuel. */
  datatype Walk = Reached(steps: nat) | PanicAt(step: nat) | Exhausted

  /** The loop over `directions.iter().cycle()`: one step per instruction,
      counting steps, until the node stepped to is a goal.  The source loops
      for ever when no goal is reachable; `fuel` bounds the number of steps. */
  method WalkFrom(nodes: map<string, (string, string)>, dirs: string, start: string, goal: Goal, fuel: nat) returns (w: Walk)
    ensures w.Reached? ==> FirstGoal(nodes, dirs, start, goal, w.steps) && w.steps <= fuel
    ensures w.PanicAt? ==> dirs != [] && 1 <= w.step <= fuel && Arrival(nodes, dirs, start, goal, w.step).None?
                           && NoGoalBefore(nodes, dirs, start, goal, w.step)
    ensures w.Exhausted? ==> dirs != [] && NoGoalBefore(nodes, dirs, start, goal, fuel + 1)
  {
    if dirs == [] {
      return Reached(0);
    }
    var node := start;
    var n: nat := 0;
    while n < fuel
      invariant n <= fuel
      invariant NodeAfter(nodes, dirs, start, n) == Some(node)
      invariant NoGoalBefore(nodes, dirs, start, goal, n + 1)
    {
      if node !in nodes {
        return PanicAt(n + 1);
      }
      if dirs[n % |dirs|] == 'L' {
        node := nodes[node].0;
      } else {
        node := nodes[node].1;
      }
      n := n + 1;
      var arrived := AtGoal(goal, node);
      if arrived.None? {
        return PanicAt(n);
      }
      if arrived.value {
        return Reached(n);
      }
    }
    return Exhausted;
  }

  /** The instructions and node table read from the non-empty input lines. */
  datatype Puzzle = Puzzle(dirs: string, nodes: map<string, (string, string)>)

  /** The node lines as part 1 takes them: after the instruction line it
      drops one more line, meant to be the blank separator; blank lines are
      already gone, so the first node definition is lost. */
  function NodeLinesAsWritten(kept: seq<string>): (r: seq<string>)
    requires kept != []
    ensures |kept| >= 2 ==> r == kept[2..]
  {
    if |kept| >= 2 then kept[2..] else []
  }

  /** The node lines: every non-empty line after the instruction line. */
  function NodeLines(kept: seq<string>): (r: seq<string>)
    requires kept != []
    ensures |r| == |kept| - 1 && forall i | 0 <= i < |r| :: r[i] == kept[i + 1]
  {
    kept[1..]
  }

  /** The input as part 1 reads it. */
  function ReadPuzzleAsWritten(lines: seq<string>): (r: Option<Puzzle>)
    ensures r.Some? ==> NonEmpty(lines) != []
  {
    var kept := NonEmpty(lines);
    if kept == [] then None
    else
      match ParseAll(NodeLinesAsWritten(kept))
      case None => None
      case Some(entries) => Some(Puzzle(NonBlank(kept[0]), NodeMap(entries)))
  }

  /** The input as both parts mean to read it: instructions from the first
      non-empty line (`pop_front().unwrap()` panics when there is none) and a
      node for every later non-empty line; every node defined there is in
      the table. */
  function ReadPuzzle(lines: seq<string>): (r: Option<Puzzle>)
    ensures r.Some? ==> NonEmpty(lines) != []
  {
    var kept := NonEmpty(lines);
    if kept == [] then None
    else
      match ParseAll(NodeLines(kept))
      case None => None
      case Some(entries) => Some(Puzzle(NonBlank(kept[0]), NodeMap(entries)))
  }

  /** Read as intended, the table holds every node the input defines. */
  lemma {:induction false} ReadPuzzleHoldsEveryNode(lines: seq<string>, i: nat)
    requires ReadPuzzle(lines).Some? && 1 <= i < |NonEmpty(lines)|
    ensures ParseLine(NonEmpty(lines)[i]).Some?
    ensures ParseLine(NonEmpty(lines)[i]).value.name in ReadPuzzle(lines).value.nodes
  {
    var kept := NonEmpty(lines);
    var entries := ParseAll(NodeLines(kept)).value;
    assert NodeLines(kept)[i - 1] == kept[i];
    assert entries[i - 1].name == ParseLine(kept[i]).value.name;
  }

  /** A walk from a node the table lacks panics on its first step. */
  lemma {:induction false} MissingStartPanics(p: Puzzle, start: string, goal: Goal)
    requires p.dirs != [] && start !in p.nodes
    ensures Arrival(p.nodes, p.dirs, start, goal, 1).None?
  {
    assert NodeAfter(p.nodes, p.dirs, start, 0) == Some(start);
  }

  /** Input whose every line after the instructions parses is read. */
  lemma {:induction false} ReadPuzzleSome(lines: seq<string>)
    requires NonEmpty(lines) != []
    requires forall i | 1 <= i < |NonEmpty(lines)| :: ParseLine(NonEmpty(lines)[i]).Some?
    ensures ReadPuzzle(lines).Some?
  {
    var kept := NonEmpty(lines);
    assert forall i | 0 <= i < |NodeLines(kept)| :: NodeLines(kept)[i] == kept[i + 1];
  }

  /** Part 1 as written loses the first node definition: a table read from
      input whose first node is not defined again lacks that node (so a
      walk from it panics, `MissingStartPanics`); read as intended, the node
      is there. */
  lemma {:induction false} FirstNodeLost(lines: seq<string>)
    requires |NonEmpty(lines)| >= 2
    requires forall i | 1 <= i < |NonEmpty(lines)| :: ParseLine(NonEmpty(lines)[i]).Some?
    requires forall i | 2 <= i < |NonEmpty(lines)| ::
      ParseLine(NonEmpty(lines)[i]).value.name != ParseLine(NonEmpty(lines)[1]).value.name
    ensures ReadPuzzleAsWritten(lines).Some? && ReadPuzzle(lines).Some?
    ensures ParseLine(NonEmpty(lines)[1]).value.name !in ReadPuzzleAsWritten(lines).value.nodes
    ensures ParseLine(NonEmpty(lines)[1]).value.name in ReadPuzzle(lines).value.nodes
  {
    var kept := NonEmpty(lines);
    var name := ParseLine(kept[1]).value.name;
    var later := NodeLinesAsWritten(kept);
    assert forall i | 0 <= i < |later| :: later[i] == kept[i + 2];
    var entries := ParseAll(later).value;
    assert forall i | 0 <= i < |entries| :: entries[i].name != name;
    ReadPuzzleSome(lines);
    ReadPuzzleHoldsEveryNode(lines, 1);
  }

  /** The names whose last character is 'A', in the table's key order;
      `None` where an empty name makes `chars().last().unwrap()` panic. */
  function StartNodes(keys: seq<string>): (r: Option<seq<string>>)
    ensures r.Some? <==> forall i | 0 <= i < |keys| :: keys[i] != []
    ensures r.Some? ==> forall s :: s in r.value <==> s in keys && s[|s| - 1] == 'A'
  {
    if keys == [] then Some([])
    else if keys[0] == [] then None
    else
      match StartNodes(keys[1..])
      case None => None
      case Some(rest) =>
        assert keys == [keys[0]] + keys[1..];
        Some((if keys[0][|keys[0]| - 1] == 'A' then [keys[0]] else []) + rest)
  }

  /** `gcd_of_two_numbers`: Euclid's algorithm. */
  function Gcd(a: nat, b: nat): (g: nat)
    ensures g == 0 <==> a == 0 && b == 0
    decreases b
  {
    if b == 0 then a else Gcd(b, a % b)
  }

  /** `d * k`, named so that divisibility can quantify over it. */
  function Multiple(d: int, k: int): int {
    d * k
  }

  /** `d` divides `n`. */
  ghost predicate Divides(d: int, n: int) {
    exists k :: Multiple(d, k) == n
  }

  /** A divisor of two numbers divides `q * x + y`. */
  lemma {:induction false} DividesCombination(g: int, x: int, y: int, q: int)
    requires Divides(g, x) && Divides(g, y)
    ensures Divides(g, q * x + y)
  {
    var s :| Multiple(g, s) == x;
    var t :| Multiple(g, t) == y;
    assert q * (g * s) + g * t == g * (q * s + t);
    assert Multiple(g, q * s + t) == q * x + y;
  }

  /** Divisibility is transitive. */
  lemma {:induction false} DividesTransitive(a: int, b: int, c: int)
    requires Divides(a, b) && Divides(b, c)
    ensures Divides(a, c)
  {
    var s :| Multiple(a, s) == b;
    var t :| Multiple(b, t) == c;
    assert (a * s) * t == a * (s * t);
    assert Multiple(a, s * t) == c;
  }

  /** The result of `gcd_of_two_numbers` divides both arguments. */
  lemma {:induction false} GcdDivides(a: nat, b: nat)
    ensures Divides(Gcd(a, b), a) && Divides(Gcd(a, b), b)
    decreases b
  {
    var g := Gcd(a, b);
    if b == 0 {
      assert Multiple(a, 1) == a;
      assert Multiple(a, 0) == 0;
    } else {
      GcdDivides(b, a % b);
      assert a == (a / b) * b + a % b;
      DividesCombination(g, b, a % b, a / b);
    }
  }

  /** Every common divisor of the two arguments divides the result. */
  lemma {:induction false} GcdGreatest(a: nat, b: nat, c: int)
    requires Divides(c, a) && Divides(c, b)
    ensures Divides(c, Gcd(a, b))
    decreases b
  {
    if b != 0 {
      assert a % b == -(a / b) * b + a;
      DividesCombination(c, b, a, -(a / b));
      GcdGreatest(b, a % b, c);
    }
  }

  /** `lcm`: `None` for an empty slice, where `nums[0]` panics, and where
      the greatest common divisor is zero and the division panics. */
  function Lcm(nums: seq<nat>): (r: Option<nat>)
    ensures nums == [] ==> r.None?
  {
    if nums == [] then None
    else if |nums| == 1 then Some(nums[0])
    else
      match Lcm(nums[1..])
      case None => None
      case Some(b) =>
        var g := Gcd(nums[0], b);
        if g == 0 then None else Some(nums[0] * b / g)
  }

  /** `a * b / g` is `a` times `b / g` when `g` divides `b`. */
  lemma {:induction false} DivideProduct(a: nat, b: nat, g: nat, t: int)
    requires g > 0 && Multiple(g, t) == b
    ensures a * b / g == a * t
  {
    assert a * b == g * (a * t);
    var q := a * b / g;
    var r := a * b % g;
    assert g * (a * t) == g * q + r;
    assert g * (a * t - q) == r;
    MulBounds(g, a * t - q);
  }

  /** A positive factor keeps a non-zero multiplier's product at least that
      factor away from zero. */
  lemma {:induction false} MulBounds(g: int, x: int)
    requires g > 0
    ensures x >= 1 ==> g * x >= g
    ensures x <= -1 ==> g * x <= -g
  {
  }

  /** The least common multiple of two numbers is a multiple of both. */
  lemma {:induction false} PairMultiple(a: nat, b: nat)
    requires Gcd(a, b) > 0
    ensures Divides(a, a * b / Gcd(a, b)) && Divides(b, a * b / Gcd(a, b))
  {
    var g := Gcd(a, b);
    GcdDivides(a, b);
    var s :| Multiple(g, s) == a;
    var t :| Multiple(g, t) == b;
    DivideProduct(a, b, g, t);
    assert Multiple(a, t) == a * b / g;
    DivideProduct(b, a, g, s);
    assert a * b == b * a;
    assert Multiple(b, s) == a * b / g;
  }

  /** Every number of the slice divides its `lcm`. */
  lemma {:induction false} LcmCommonMultiple(nums: seq<nat>, i: nat)
    requires Lcm(nums).Some? && i < |nums|
    ensures Divides(nums[i], Lcm(nums).value)
  {
    if |nums| == 1 {
      assert Multiple(nums[0], 1) == nums[0];
    } else {
      var b := Lcm(nums[1..]).value;
      PairMultiple(nums[0], b);
      if i > 0 {
        LcmCommonMultiple(nums[1..], i - 1);
        DividesTransitive(nums[i], b, Lcm(nums).value);
      }
    }
  }

  /** Positive step counts always have an `lcm`, and it is positive. */
  lemma {:induction false} LcmPositive(nums: seq<nat>)
    requires nums != [] && forall i | 0 <= i < |nums| :: nums[i] > 0
    ensures Lcm(nums).Some? && Lcm(nums).value > 0
  {
    if |nums| > 1 {
      LcmPositive(nums[1..]);
      var b := Lcm(nums[1..]).value;
      var g := Gcd(nums[0], b);
      GcdDivides(nums[0], b);
      var t :| Multiple(g, t) == b;
      DivideProduct(nums[0], b, g, t);
      assert g * t > 0;
      assert t > 0;
      assert nums[0] * t > 0;
    }
  }

  lemma {:induction false} LcmExamples()
    ensures Gcd(12, 18) == 6
    ensures Lcm([2, 3, 4]) == Some(12)
    ensures Lcm([0, 0]) == None
  {
    assert Gcd(12, 18) == Gcd(18, 12) == Gcd(12, 6) == Gcd(6, 0) == 6;
    assert Lcm([4]) == Some(4);
    assert Gcd(3, 4) == Gcd(4, 3) == Gcd(3, 1) == Gcd(1, 0) == 1;
    assert [2, 3, 4][1..] == [3, 4] && [3, 4][1..] == [4];
    assert Lcm([3, 4]) == Some(12);
    assert Gcd(2, 12) == Gcd(12, 2) == Gcd(2, 0) == 2;
    assert 2 * 12 / 2 == 12;
    assert [0, 0][1..] == [0];
    assert Gcd(0, 0) == 0;
  }

  /** How a whole run of either part ends: with the printed answer, with a
      panic, or with a walk still short of its goal when the fuel ran out. */
  datatype Run = Answer(value: nat) | Panicked | OutOfFuel

  /** Part 1: the number of steps from "AAA" to the first arrival at "ZZZ";
      the puzzle is `ReadPuzzle` of the input lines.  The run ends exactly
      as the walk does. */
  method StepsToZZZ(p: Puzzle, fuel: nat) returns (r: Run)
    ensures r.Answer? ==> FirstGoal(p.nodes, p.dirs, "AAA", Exactly("ZZZ"), r.value)
    ensures r.Answer? <==> Finishes(p.nodes, p.dirs, "AAA", Exactly("ZZZ"), fuel)
    ensures r.Panicked? <==> Panics(p.nodes, p.dirs, "AAA", Exactly("ZZZ"), fuel)
    ensures r.OutOfFuel? <==> Stalls(p.nodes, p.dirs, "AAA", Exactly("ZZZ"), fuel)
  {
    var w := WalkFrom(p.nodes, p.dirs, "AAA", Exactly("ZZZ"), fuel);
    WalkEndsOnce(p.nodes, p.dirs, "AAA", Exactly("ZZZ"), fuel);
    match w
    case Reached(n) => r := Answer(n);
    case PanicAt(_) => r := Panicked;
    case Exhausted => r := OutOfFuel;
  }

  /** Part 2: one walk from every start node to a name ending in 'Z', and
      the `lcm` of their step counts.  `order` is the table's key order
      (`HashMap::keys`), which the source leaves unspecified.  `counts`
      holds the walks that finished, in order; the first start without a
      count decides how the run ends, and when every walk finishes the
      `lcm` does. */
  method StepsToAllZ(p: Puzzle, order: seq<string>, fuel: nat) returns (r: Run, counts: seq<nat>)
    requires forall k :: k in order <==> k in p.nodes
    ensures StartNodes(order).None? ==> r.Panicked?
    ensures r.Answer? ==> StartNodes(order).Some? && |counts| == |StartNodes(order).value|
    ensures StartNodes(order).Some? ==> |counts| <= |StartNodes(order).value|
    ensures StartNodes(order).Some? ==> forall i | 0 <= i < |counts| ::
      counts[i] <= fuel && FirstGoal(p.nodes, p.dirs, StartNodes(order).value[i], EndsWith('Z'), counts[i])
    ensures StartNodes(order).Some? && |counts| < |StartNodes(order).value| ==>
      var s := StartNodes(order).value[|counts|];
      !Finishes(p.nodes, p.dirs, s, EndsWith('Z'), fuel)
      && (r.Panicked? <==> Panics(p.nodes, p.dirs, s, EndsWith('Z'), fuel))
      && (r.OutOfFuel? <==> Stalls(p.nodes, p.dirs, s, EndsWith('Z'), fuel))
    ensures StartNodes(order).Some? && |counts| == |StartNodes(order).value| ==>
      r == if Lcm(counts).None? then Panicked else Answer(Lcm(counts).value)
  {
    counts := [];
    var starts := StartNodes(order);
    if starts.None? {
      return Panicked, counts;
    }
    var i := 0;
    while i < |starts.value|
      invariant i <= |starts.value| && |counts| == i
      invariant forall j | 0 <= j < i ::
        counts[j] <= fuel && FirstGoal(p.nodes, p.dirs, starts.value[j], EndsWith('Z'), counts[j])
    {
      var w := WalkFrom(p.nodes, p.dirs, starts.value[i], EndsWith('Z'), fuel);
      if w.PanicAt? {
        WalkEndsOnce(p.nodes, p.dirs, starts.value[i], EndsWith('Z'), fuel);
        assert Panics(p.nodes, p.dirs, starts.value[i], EndsWith('Z'), fuel);
        return Panicked, counts;
      } else if w.Exhausted? {
        WalkEndsOnce(p.nodes, p.dirs, starts.value[i], EndsWith('Z'), fuel);
        assert Stalls(p.nodes, p.dirs, starts.value[i], EndsWith('Z'), fuel);
        return OutOfFuel, counts;
      }
      counts := counts + [w.steps];
      i := i + 1;
    }
    assert |counts| == |StartNodes(order).value|;
    var m := Lcm(counts);
    if m.None? {
      return Panicked, counts;
    }
    r := Answer(m.value);
  }
}
