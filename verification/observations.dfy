/** Extrapolating a series of readings by repeated differences
    (day_9/part_1/src/observations.rs forward, day_9/part_2/src/observations.rs
    backward).  `isize` values are unbounded integers here. */
module Observations {
  import opened Wrappers
  import opened Text

  /** `from_line`: the line split on single spaces, each token trimmed and
      parsed; `None` where `unwrap` panics. */
  function FromLine(line: string): (r: Option<seq<int>>)
    ensures r.Some? ==> r.value != [] && |r.value| == |Split(line, {' '})|
  {
    ParseTokens(Split(line, {' '}))
  }

  function ParseTokens(tokens: seq<string>): (r: Option<seq<int>>)
    ensures r.Some? <==> forall i | 0 <= i < |tokens| :: ParseInt(Trim(tokens[i])).Some?
    ensures r.Some? ==> |r.value| == |tokens|
    ensures r.Some? ==> forall i | 0 <= i < |tokens| :: ParseInt(Trim(tokens[i])) == Some(r.value[i])
  {
    if tokens == [] then Some([])
    else
      match ParseInt(Trim(tokens[0]))
      case None => None
      case Some(v) =>
        match ParseTokens(tokens[1..])
        case None => None
        case Some(rest) =>
          assert forall i | 1 <= i < |tokens| :: tokens[i] == tokens[1..][i - 1];
          Some([v] + rest)
  }

  /** A line always yields at least one reading when it parses. */
  lemma {:induction false} FromLineNonEmpty(line: string)
    ensures FromLine(line).Some? ==> FromLine(line).value != []
  {
  }

  /** `reduce_series`: the differences of neighbouring readings
      (`windows(2).map(|w| w[1] - w[0])`). */
  function ReduceSeries(v: seq<int>): (r: seq<int>)
    ensures |r| == if |v| == 0 then 0 else |v| - 1
  {
    if |v| < 2 then [] else [v[1] - v[0]] + ReduceSeries(v[1..])
  }

  /** Element `i` of the differences is reading `i + 1` minus reading `i`. */
  lemma {:induction false} ReduceSeriesAt(v: seq<int>, i: nat)
    requires i + 1 < |v|
    ensures ReduceSeries(v)[i] == v[i + 1] - v[i]
  {
    if i > 0 {
      ReduceSeriesAt(v[1..], i - 1);
    }
  }

  predicate AllZero(v: seq<int>) {
    forall i | 0 <= i < |v| :: v[i] == 0
  }

  /** The last element of every difference level before the first all-zero one. */
  function Lasts(v: seq<int>): seq<int>
    decreases |v|
  {
    var d := ReduceSeries(v);
    if AllZero(d) then [] else [d[|d| - 1]] + Lasts(d)
  }

  /** The first element of every difference level before the first all-zero one. */
  function Firsts(v: seq<int>): seq<int>
    decreases |v|
  {
    var d := ReduceSeries(v);
    if AllZero(d) then [] else [d[0]] + Firsts(d)
  }

  function Sum(s: seq<int>): int {
    if s == [] then 0 else s[0] + Sum(s[1..])
  }

  /** Part 1: the next reading, the last reading plus the last elements of
      the difference levels; `None` for no readings. */
  function Next(v: seq<int>): (r: Option<int>)
    ensures r.None? <==> v == []
    ensures v != [] && AllZero(ReduceSeries(v)) ==> r == Some(v[|v| - 1])
  {
    if v == [] then None else Some(v[|v| - 1] + Sum(Lasts(v)))
  }

  /** `extrapolate` of part 1 (lines 16-29): the loop collects the last element
      of each level until a level is all zero.  It stops because every level
      is one shorter than the one before, and a level of fewer than two
      readings has no differences. */
  method ExtrapolateForward(observed: seq<int>) returns (r: Option<int>)
    ensures r == Next(observed)
  {
    var lastDigits: seq<int> := [];
    var level := observed;
    while true
      invariant lastDigits + Lasts(level) == Lasts(observed)
      decreases |level|
    {
      var recent := ReduceSeries(level);
      if AllZero(recent) {
        assert lastDigits + [] == lastDigits;
        break;
      }
      assert Lasts(level) == [recent[|recent| - 1]] + Lasts(recent);
      assert lastDigits + [recent[|recent| - 1]] + Lasts(recent) == lastDigits + ([recent[|recent| - 1]] + Lasts(recent));
      lastDigits := lastDigits + [recent[|recent| - 1]];
      level := recent;
    }
    if observed == [] {
      return None;
    }
    r := Some(observed[|observed| - 1] + Sum(lastDigits));
  }

  /** The differences of an all-zero series are all zero. */
  lemma {:induction false} ReduceZero(d: seq<int>)
    requires AllZero(d)
    ensures AllZero(ReduceSeries(d))
  {
    forall i | 0 <= i < |ReduceSeries(d)|
      ensures ReduceSeries(d)[i] == 0
    {
      ReduceSeriesAt(d, i);
    }
  }

  /** One more reading adds one more difference at the end. */
  lemma {:induction false} ReduceAppend(v: seq<int>, x: int)
    requires v != []
    ensures ReduceSeries(v + [x]) == ReduceSeries(v) + [x - v[|v| - 1]]
  {
    if |v| == 1 {
      assert (v + [x])[1..] == [x];
    } else {
      assert (v + [x])[1..] == v[1..] + [x];
      ReduceAppend(v[1..], x);
    }
  }

  /** The extrapolated reading extends the series consistently: the differences
      of the extended series are the differences extended by their own
      extrapolation. */
  lemma {:induction false} NextExtendsDifferences(v: seq<int>)
    requires |v| >= 2
    ensures ReduceSeries(v + [Next(v).value]) == ReduceSeries(v) + [Next(ReduceSeries(v)).value]
  {
    var d := ReduceSeries(v);
    ReduceAppend(v, Next(v).value);
    if AllZero(d) {
      ReduceZero(d);
      assert Lasts(d) == [];
    }
  }

  /** The differences of a series growing by a fixed step are that step. */
  lemma {:induction false} ArithmeticDifferences(v: seq<int>, step: int)
    requires forall i | 0 <= i < |v| :: v[i] == v[0] + i * step
    ensures forall i | 0 <= i < |ReduceSeries(v)| :: ReduceSeries(v)[i] == step
  {
    forall i | 0 <= i < |ReduceSeries(v)|
      ensures ReduceSeries(v)[i] == step
    {
      ReduceSeriesAt(v, i);
      assert v[i + 1] == v[0] + i * step + step;
    }
  }

  /** A series that grows by the same non-zero step each time continues with that step. */
  lemma {:induction false} NextArithmetic(v: seq<int>, step: int)
    requires |v| >= 2 && step != 0
    requires forall i | 0 <= i < |v| :: v[i] == v[0] + i * step
    ensures Next(v) == Some(v[0] + |v| * step)
  {
    var d := ReduceSeries(v);
    ArithmeticDifferences(v, step);
    assert !AllZero(d) by {
      assert d[0] == step;
    }
    ArithmeticDifferences(d, 0);
    assert AllZero(ReduceSeries(d));
    assert Lasts(v) == [step] + Lasts(d);
    assert Lasts(d) == [];
    assert Sum([step]) == step;
    assert v[|v| - 1] == v[0] + (|v| - 1) * step;
  }

  /** A constant series continues with its value. */
  lemma {:induction false} NextConstant(v: seq<int>)
    requires v != [] && AllZero(ReduceSeries(v))
    ensures Next(v) == Some(v[|v| - 1])
  {
  }

  /** The difference levels of "10 13 16 21 30 45", the series of the tests. */
  lemma {:induction false} ExampleLevels()
    ensures ReduceSeries([10, 13, 16, 21, 30, 45]) == [3, 3, 5, 9, 15]
    ensures ReduceSeries([3, 3, 5, 9, 15]) == [0, 2, 4, 6]
    ensures ReduceSeries([0, 2, 4, 6]) == [2, 2, 2]
    ensures ReduceSeries([2, 2, 2]) == [0, 0]
  {
    assert ReduceSeries([0, 2, 4, 6]) == [2, 2, 2];
    assert ReduceSeries([3, 3, 5, 9, 15]) == [0, 2, 4, 6];
  }

  /** The first elements of the difference levels of the same series. */
  lemma {:induction false} ExampleFirsts()
    ensures Firsts([10, 13, 16, 21, 30, 45]) == [3, 0, 2]
  {
    ExampleLevels();
    assert Firsts([2, 2, 2]) == [];
    assert Firsts([0, 2, 4, 6]) == [2];
    assert Firsts([3, 3, 5, 9, 15]) == [0, 2];
  }

  /** "10 13 16 21 30 45" continues with 68. */
  lemma {:induction false} NextExample()
    ensures Next([10, 13, 16, 21, 30, 45]) == Some(68)
  {
    ExampleLevels();
    assert Lasts([2, 2, 2]) == [];
    assert Lasts([0, 2, 4, 6]) == [2];
    assert Lasts([3, 3, 5, 9, 15]) == [6, 2];
    assert Lasts([10, 13, 16, 21, 30, 45]) == [15, 6, 2];
  }

  /** `rev().reduce(|a, b| b - a)`: `None` for an empty list. */
  function ReduceBack(xs: seq<int>): Option<int> {
    if xs == [] then None else Some(Fold(xs[0], xs[1..]))
  }

  /** The fold behind `reduce`: each next element minus the running value. */
  function Fold(acc: int, xs: seq<int>): int
    decreases xs
  {
    if xs == [] then acc else Fold(xs[0] - acc, xs[1..])
  }

  /** `f1 - (f2 - (… - fk))`, zero for no elements. */
  function Alternating(f: seq<int>): int {
    if f == [] then 0 else f[0] - Alternating(f[1..])
  }

  /** Folding one more element at the end subtracts the running value from it. */
  lemma {:induction false} FoldAppend(acc: int, xs: seq<int>, y: int)
    ensures Fold(acc, xs + [y]) == y - Fold(acc, xs)
    decreases xs
  {
    if xs != [] {
      assert (xs + [y])[1..] == xs[1..] + [y];
      FoldAppend(xs[0] - acc, xs[1..], y);
    }
  }

  /** The reversed reduce computes the alternating difference of a non-empty list. */
  lemma {:induction false} ReduceBackAlternating(f: seq<int>)
    requires f != []
    ensures ReduceBack(Reversed(f)) == Some(Alternating(f))
  {
    if |f| == 1 {
      assert Reversed(f) == [f[0]];
    } else {
      ReduceBackAlternating(f[1..]);
      var r := Reversed(f[1..]);
      assert Reversed(f) == r + [f[0]];
      assert (r + [f[0]])[1..] == r[1..] + [f[0]];
      FoldAppend(r[0], r[1..], f[0]);
      assert Alternating(f[1..][1..]) == Alternating(f[2..]);
      assert Alternating(f[1..]) == f[1] - Alternating(f[2..]);
    }
  }

  /** `extrapolate` of part 2 as written: the first reading minus the reversed
      reduce of the first elements.  `None` for no readings, and also when the
      first difference level is already all zero: `reduce` over no elements
      gives `None` and `unwrap` panics. */
  function PreviousAsWritten(v: seq<int>): Option<int> {
    if v == [] then None
    else
      match ReduceBack(Reversed(Firsts(v)))
      case None => None
      case Some(a) => Some(v[0] - a)
  }

  /** The loop of part 2 (lines 16-35): collect the first element of each
      level, then subtract their reversed reduce from the first reading. */
  method ExtrapolateBackward(observed: seq<int>) returns (r: Option<int>)
    ensures r == PreviousAsWritten(observed)
  {
    var firstDigits: seq<int> := [];
    var level := observed;
    while true
      invariant firstDigits + Firsts(level) == Firsts(observed)
      decreases |level|
    {
      var recent := ReduceSeries(level);
      if AllZero(recent) {
        assert firstDigits + [] == firstDigits;
        break;
      }
      assert Firsts(level) == [recent[0]] + Firsts(recent);
      assert firstDigits + [recent[0]] + Firsts(recent) == firstDigits + ([recent[0]] + Firsts(recent));
      firstDigits := firstDigits + [recent[0]];
      level := recent;
    }
    assert firstDigits == Firsts(observed);
    if observed == [] {
      return None;
    }
    var reduced := ReduceBack(Reversed(firstDigits));
    if reduced.None? {
      return None;
    }
    r := Some(observed[0] - reduced.value);
  }

  /** The constant series "5 5 5" makes part 2 panic, though its previous
      reading is plainly 5. */
  lemma {:induction false} ConstantSeriesPanics()
    ensures PreviousAsWritten([5, 5, 5]) == None
    ensures Previous([5, 5, 5]) == Some(5)
  {
    assert ReduceSeries([5, 5, 5]) == [0, 0];
    assert Firsts([5, 5, 5]) == [];
  }

  /** The previous reading, with an empty list of first elements contributing
      nothing. */
  function Previous(v: seq<int>): (r: Option<int>)
    ensures r.None? <==> v == []
    ensures v != [] && AllZero(ReduceSeries(v)) ==> r == Some(v[0])
  {
    if v == [] then None else Some(v[0] - Alternating(Firsts(v)))
  }

  /** Where the program does not panic it computes `Previous`. */
  lemma {:induction false} PreviousAgrees(v: seq<int>)
    requires PreviousAsWritten(v).Some?
    ensures PreviousAsWritten(v) == Previous(v)
  {
    if Firsts(v) != [] {
      ReduceBackAlternating(Firsts(v));
    }
  }

  function Negate(v: seq<int>): (r: seq<int>)
    ensures |r| == |v|
    ensures forall i | 0 <= i < |v| :: r[i] == -v[i]
  {
    if v == [] then [] else [-v[0]] + Negate(v[1..])
  }

  /** The differences of the reversed series are the reversed differences,
      negated. */
  lemma {:induction false} ReduceReverse(v: seq<int>)
    ensures ReduceSeries(Reversed(v)) == Negate(Reversed(ReduceSeries(v)))
  {
    var rv := Reversed(v);
    var d := ReduceSeries(v);
    var rd := Reversed(d);
    var l := ReduceSeries(rv);
    var r := Negate(rd);
    forall i | 0 <= i < |l|
      ensures l[i] == r[i]
    {
      var n := |v|;
      ReduceSeriesAt(rv, i);
      ReduceSeriesAt(v, n - 2 - i);
      assert rv[i + 1] == v[n - 2 - i] && rv[i] == v[n - 1 - i];
      assert rd[i] == d[n - 2 - i];
    }
  }

  /** The differences of the negated series are the differences, negated. */
  lemma {:induction false} ReduceNegate(v: seq<int>)
    ensures ReduceSeries(Negate(v)) == Negate(ReduceSeries(v))
  {
    var l := ReduceSeries(Negate(v));
    var r := Negate(ReduceSeries(v));
    forall i | 0 <= i < |l|
      ensures l[i] == r[i]
    {
      ReduceSeriesAt(Negate(v), i);
      ReduceSeriesAt(v, i);
    }
  }

  /** Negating and reversing keep a series all zero or not. */
  lemma {:induction false} AllZeroNegateReverse(d: seq<int>)
    ensures AllZero(Negate(d)) <==> AllZero(d)
    ensures AllZero(Negate(Reversed(d))) <==> AllZero(d)
  {
    var e := Negate(Reversed(d));
    if !AllZero(d) {
      var i :| 0 <= i < |d| && d[i] != 0;
      assert Negate(d)[i] == -d[i];
      assert e[|d| - 1 - i] == -d[i];
    }
    if !AllZero(e) {
      var i :| 0 <= i < |e| && e[i] != 0;
      assert e[i] == -d[|d| - 1 - i];
    }
  }

  /** Going forward over the negated series adds the negated amount. */
  lemma {:induction false} SumLastsNegate(v: seq<int>)
    ensures Sum(Lasts(Negate(v))) == -Sum(Lasts(v))
    decreases |v|
  {
    var d := ReduceSeries(v);
    ReduceNegate(v);
    AllZeroNegateReverse(d);
    if AllZero(d) {
      assert Lasts(v) == [];
      assert Lasts(Negate(v)) == [];
    } else {
      SumLastsNegate(d);
      SumLastsStep(v, d);
      SumLastsStep(Negate(v), Negate(d));
    }
  }

  /** Going forward over the reversed series adds up the first elements of
      the difference levels with alternating signs, negated. */
  lemma {:induction false} SumLastsReverse(v: seq<int>)
    ensures Sum(Lasts(Reversed(v))) == -Alternating(Firsts(v))
    decreases |v|
  {
    var d := ReduceSeries(v);
    var r := Reversed(v);
    ReduceReverse(v);
    var dr := ReduceSeries(r);
    AllZeroNegateReverse(d);
    if AllZero(d) {
      assert Lasts(r) == [];
      assert Firsts(v) == [];
    } else {
      SumLastsStep(r, dr);
      assert dr[|dr| - 1] == -d[0];
      SumLastsNegate(Reversed(d));
      SumLastsReverse(d);
      AlternatingFirstsStep(v);
    }
  }

  /** Going forward adds the last difference to what the next level adds. */
  lemma {:induction false} SumLastsStep(w: seq<int>, dw: seq<int>)
    requires ReduceSeries(w) == dw && !AllZero(dw)
    ensures Sum(Lasts(w)) == dw[|dw| - 1] + Sum(Lasts(dw))
  {
    assert Lasts(w) == [dw[|dw| - 1]] + Lasts(dw);
    assert ([dw[|dw| - 1]] + Lasts(dw))[1..] == Lasts(dw);
  }

  /** Going back subtracts the next level's result from the first difference. */
  lemma {:induction false} AlternatingFirstsStep(v: seq<int>)
    requires !AllZero(ReduceSeries(v))
    ensures Alternating(Firsts(v)) == ReduceSeries(v)[0] - Alternating(Firsts(ReduceSeries(v)))
  {
    var d := ReduceSeries(v);
    assert Firsts(v) == [d[0]] + Firsts(d);
    assert ([d[0]] + Firsts(d))[1..] == Firsts(d);
  }

  /** A series growing by a non-zero step was preceded by its first reading
      less that step, and the program does not panic on it. */
  lemma {:induction false} PreviousArithmetic(v: seq<int>, step: int)
    requires |v| >= 2 && step != 0
    requires forall i | 0 <= i < |v| :: v[i] == v[0] + i * step
    ensures PreviousAsWritten(v) == Some(v[0] - step)
  {
    var d := ReduceSeries(v);
    ArithmeticDifferences(v, step);
    assert !AllZero(d) by {
      assert d[0] == step;
    }
    ArithmeticDifferences(d, 0);
    assert AllZero(ReduceSeries(d));
    assert Firsts(v) == [step] + Firsts(d);
    assert Firsts(d) == [];
    assert Reversed([step]) == [step];
  }

  /** The straight-line series of the tests of part 1. */
  lemma {:induction false} ArithmeticExamples()
    ensures Next([1, 2, 3, 4]) == Some(5)
    ensures Next([1, 3, 5, 7]) == Some(9)
  {
    NextArithmetic([1, 2, 3, 4], 1);
    NextArithmetic([1, 3, 5, 7], 2);
  }

  /** The straight-line series of the tests of part 2. */
  lemma {:induction false} PreviousArithmeticExamples()
    ensures PreviousAsWritten([1, 2, 3, 4]) == Some(0)
    ensures PreviousAsWritten([1, 3, 5, 7]) == Some(-1)
    ensures PreviousAsWritten([0, 3, 6, 9, 12, 15]) == Some(-3)
  {
    PreviousStepOne();
    PreviousStepTwo();
    PreviousStepThree();
  }

  /** "1 2 3 4", one step at a time. */
  lemma {:induction false} PreviousStepOne()
    ensures PreviousAsWritten([1, 2, 3, 4]) == Some(0)
  {
    PreviousArithmetic([1, 2, 3, 4], 1);
  }

  /** "1 3 5 7", one step at a time. */
  lemma {:induction false} PreviousStepTwo()
    ensures PreviousAsWritten([1, 3, 5, 7]) == Some(-1)
  {
    PreviousArithmetic([1, 3, 5, 7], 2);
  }

  /** "0 3 6 9 12 15", one step at a time. */
  lemma {:induction false} PreviousStepThree()
    ensures PreviousAsWritten([0, 3, 6, 9, 12, 15]) == Some(-3)
  {
    PreviousArithmetic([0, 3, 6, 9, 12, 15], 3);
  }

  /** Looking back is looking forward over the reversed series. */
  lemma {:induction false} PreviousIsNextOfReverse(v: seq<int>)
    ensures Previous(v) == Next(Reversed(v))
  {
    if v != [] {
      SumLastsReverse(v);
    }
  }

  /** "10 13 16 21 30 45" was preceded by 5. */
  lemma {:induction false} PreviousExample()
    ensures PreviousAsWritten([10, 13, 16, 21, 30, 45]) == Some(5)
  {
    ExampleFirsts();
    ReduceBackAlternating([3, 0, 2]);
    assert Alternating([3, 0, 2]) == 5;
  }

  /** The difference levels of "1 3 6 10 15 21", the other series of the
      tests. */
  lemma {:induction false} TriangleLevels()
    ensures ReduceSeries([1, 3, 6, 10, 15, 21]) == [2, 3, 4, 5, 6]
    ensures ReduceSeries([2, 3, 4, 5, 6]) == [1, 1, 1, 1]
    ensures ReduceSeries([1, 1, 1, 1]) == [0, 0, 0]
  {
    assert ReduceSeries([1, 1, 1, 1]) == [0, 0, 0];
    assert ReduceSeries([2, 3, 4, 5, 6]) == [1, 1, 1, 1];
  }

  /** "1 3 6 10 15 21" continues with 28 and was preceded by 0 (part 1 test
      at lines 54-59, part 2 test at lines 67-72). */
  lemma {:induction false} TriangleExample()
    ensures Next([1, 3, 6, 10, 15, 21]) == Some(28)
    ensures PreviousAsWritten([1, 3, 6, 10, 15, 21]) == Some(0)
  {
    TriangleLevels();
    assert Lasts([1, 1, 1, 1]) == [];
    assert Lasts([2, 3, 4, 5, 6]) == [1];
    assert Lasts([1, 3, 6, 10, 15, 21]) == [6, 1];
    assert Firsts([1, 1, 1, 1]) == [];
    assert Firsts([2, 3, 4, 5, 6]) == [1];
    assert Firsts([1, 3, 6, 10, 15, 21]) == [2, 1];
    ReduceBackAlternating([2, 1]);
  }
}
