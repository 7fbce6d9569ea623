/** Cells of a two-dimensional grid that carry a given mark, listed the way
    `indexed_iter` visits them: row by row, left to right. */
module Grids {
  /** The marked cells of one row `r`, as (row, column) in column order. */
  function RowMarks<T(==)>(line: seq<T>, r: nat, mark: T): seq<(nat, nat)> {
    if line == [] then []
    else
      var c := |line| - 1;
      RowMarks(line[..c], r, mark) + (if line[c] == mark then [(r, c)] else [])
  }

  /** The marked cells of a grid in row-major order. */
  function MarkedCells<T(==)>(rows: seq<seq<T>>, mark: T): seq<(nat, nat)> {
    if rows == [] then []
    else
      var r := |rows| - 1;
      MarkedCells(rows[..r], mark) + RowMarks(rows[r], r, mark)
  }

  lemma {:induction false} RowMarksMembers<T>(line: seq<T>, r: nat, mark: T, p: (nat, nat))
    ensures p in RowMarks(line, r, mark) <==> p.0 == r && p.1 < |line| && line[p.1] == mark
  {
    if line != [] {
      var c := |line| - 1;
      RowMarksMembers(line[..c], r, mark, p);
    }
  }

  /** The listed cells are exactly the marked ones. */
  lemma {:induction false} MarkedCellsMembers<T>(rows: seq<seq<T>>, mark: T, p: (nat, nat))
    ensures p in MarkedCells(rows, mark) <==> p.0 < |rows| && p.1 < |rows[p.0]| && rows[p.0][p.1] == mark
  {
    if rows != [] {
      var r := |rows| - 1;
      MarkedCellsMembers(rows[..r], mark, p);
      RowMarksMembers(rows[r], r, mark, p);
      if p.0 < r {
        assert rows[..r][p.0] == rows[p.0];
      }
    }
  }

  /** Row-major order: a cell listed before another lies in an earlier row,
      or in the same row further left. */
  lemma {:induction false} MarkedCellsOrdered<T>(rows: seq<seq<T>>, mark: T, a: nat, b: nat)
    requires a < b < |MarkedCells(rows, mark)|
    ensures MarkedCells(rows, mark)[a].0 < MarkedCells(rows, mark)[b].0
         || (MarkedCells(rows, mark)[a].0 == MarkedCells(rows, mark)[b].0 && MarkedCells(rows, mark)[a].1 < MarkedCells(rows, mark)[b].1)
  {
    var r := |rows| - 1;
    var before := MarkedCells(rows[..r], mark);
    var last := RowMarks(rows[r], r, mark);
    if b < |before| {
      MarkedCellsOrdered(rows[..r], mark, a, b);
    } else if a < |before| {
      MarkedCellsBelow(rows[..r], mark, before[a]);
      RowMarksOrdered(rows[r], r, mark, b - |before|, b - |before|);
    } else {
      RowMarksOrdered(rows[r], r, mark, a - |before|, a - |before|);
      RowMarksOrdered(rows[r], r, mark, a - |before|, b - |before|);
    }
  }

  lemma {:induction false} MarkedCellsBelow<T>(rows: seq<seq<T>>, mark: T, p: (nat, nat))
    requires p in MarkedCells(rows, mark)
    ensures p.0 < |rows|
  {
    MarkedCellsMembers(rows, mark, p);
  }

  lemma {:induction false} RowMarksOrdered<T>(line: seq<T>, r: nat, mark: T, a: nat, b: nat)
    requires a <= b < |RowMarks(line, r, mark)|
    ensures RowMarks(line, r, mark)[b].0 == r
    ensures a < b ==> RowMarks(line, r, mark)[a].1 < RowMarks(line, r, mark)[b].1
  {
    var c := |line| - 1;
    var before := RowMarks(line[..c], r, mark);
    if b < |before| {
      RowMarksOrdered(line[..c], r, mark, a, b);
    } else {
      if a < b {
        RowMarksMembers(line[..c], r, mark, before[a]);
      }
    }
  }

  /** `p` comes before `q` in row-major order. */
  predicate Before(p: (nat, nat), q: (nat, nat)) {
    p.0 < q.0 || (p.0 == q.0 && p.1 < q.1)
  }

  /** The cells are listed in strictly increasing row-major order. */
  predicate RowMajor(cells: seq<(nat, nat)>) {
    forall a, b | 0 <= a < b < |cells| :: Before(cells[a], cells[b])
  }

  /** `indexed_iter` lists the marked cells in strictly increasing row-major order. */
  lemma MarkedCellsRowMajor<T>(rows: seq<seq<T>>, mark: T)
    ensures RowMajor(MarkedCells(rows, mark))
  {
    forall a, b | 0 <= a < b < |MarkedCells(rows, mark)|
      ensures Before(MarkedCells(rows, mark)[a], MarkedCells(rows, mark)[b])
    {
      MarkedCellsOrdered(rows, mark, a, b);
    }
  }

  /** Two lists in strictly increasing row-major order that hold the same
      cells are the same list. */
  lemma {:induction false} RowMajorUnique(s: seq<(nat, nat)>, t: seq<(nat, nat)>)
    requires RowMajor(s) && RowMajor(t)
    requires forall p :: p in s <==> p in t
    ensures s == t
  {
    assert t != [] ==> t[0] in s;
    if s != [] {
      assert s[0] in t;
      assert s[0] == t[0];
      forall p
        ensures p in s[1..] <==> p in t[1..]
      {
        RowMajorTail(s, p);
        RowMajorTail(t, p);
      }
      RowMajorUnique(s[1..], t[1..]);
    }
  }

  /** In a strictly ordered list, the cells after the first are the others. */
  lemma {:induction false} RowMajorTail(s: seq<(nat, nat)>, p: (nat, nat))
    requires RowMajor(s) && s != []
    ensures RowMajor(s[1..])
    ensures p in s[1..] <==> p in s && p != s[0]
  {
    if p in s[1..] {
      var k :| 0 <= k < |s[1..]| && s[1..][k] == p;
      assert Before(s[0], s[k + 1]);
    }
    if p in s && p != s[0] {
      var k :| 0 <= k < |s| && s[k] == p;
      assert s[1..][k - 1] == p;
    }
    forall a, b | 0 <= a < b < |s[1..]|
      ensures Before(s[1..][a], s[1..][b])
    {
      assert s[1..][a] == s[a + 1] && s[1..][b] == s[b + 1];
    }
  }
}
