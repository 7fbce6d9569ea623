/** Toy boat races (day_6): holding the button for `b` milliseconds of a
    `time`-millisecond race gives speed `b` for the remaining `time - b`
    milliseconds; a strategy wins when it beats the record distance.
    `usize` values are unbounded natural numbers here. */
module BoatRace {
  import opened Wrappers
  import opened Text

  datatype RaceStrategy = RaceStrategy(buttonTime: nat, winningDistance: nat, raceTime: nat)

  /** `calculate_distance`: `None` when the button is held longer than the
      race, where the unsigned subtraction overflows and panics. */
  function CalculateDistance(r: RaceStrategy): (d: Option<nat>)
    ensures d.Some? <==> r.buttonTime <= r.raceTime
  {
    if r.buttonTime > r.raceTime then None
    else Some((r.raceTime - r.buttonTime) * r.buttonTime)
  }

  /** `wins_race`: strictly farther than the record. */
  function WinsRace(r: RaceStrategy): (w: Option<bool>)
    ensures w.Some? <==> r.buttonTime <= r.raceTime
    ensures w.Some? ==> (w.value <==> CalculateDistance(r).value > r.winningDistance)
  {
    match CalculateDistance(r)
    case None => None
    case Some(d) => Some(d > r.winningDistance)
  }

  /** Holding the button for `b` goes as far as holding it for `time - b`;
      holding it for none or all of the race goes nowhere. */
  lemma {:induction false} DistanceSymmetric(b: nat, time: nat, record: nat)
    requires b <= time
    ensures CalculateDistance(RaceStrategy(b, record, time)) == CalculateDistance(RaceStrategy(time - b, record, time))
    ensures CalculateDistance(RaceStrategy(0, record, time)) == Some(0)
    ensures CalculateDistance(RaceStrategy(time, record, time)) == Some(0)
  {
    assert (time - b) * b == b * (time - b);
  }

  /** No strategy goes farther than half the race squared: four times the
      distance is at most the square of the race time. */
  lemma {:induction false} DistanceAtMostSquare(b: nat, time: nat, record: nat)
    requires b <= time
    ensures 4 * CalculateDistance(RaceStrategy(b, record, time)).value <= time * time
  {
    var x: int := time - 2 * b;
    assert (time - b) * b == time * b - b * b;
    assert x * x == time * time - 4 * (time * b) + 4 * (b * b);
    assert x * x >= 0;
  }

  /** The tests of race.rs. */
  lemma {:induction false} RaceExamples()
    ensures WinsRace(RaceStrategy(1, 7, 7)) == Some(false)
    ensures WinsRace(RaceStrategy(1, 7, 8)) == Some(false)
    ensures WinsRace(RaceStrategy(1, 7, 9)) == Some(true)
    ensures WinsRace(RaceStrategy(3, 9, 7)) == Some(true)
    ensures WinsRace(RaceStrategy(6, 9, 7)) == Some(false)
    ensures CalculateDistance(RaceStrategy(0, 10, 10)) == Some(0)
    ensures CalculateDistance(RaceStrategy(10, 10, 10)) == Some(0)
    ensures CalculateDistance(RaceStrategy(1, 10, 10)) == Some(9)
    ensures CalculateDistance(RaceStrategy(2, 10, 10)) == Some(16)
  {
  }

  /** Whether button time `b` of a race wins; `b` never exceeds the race. */
  predicate Wins(b: nat, time: nat, record: nat)
    requires b <= time
  {
    WinsRace(RaceStrategy(b, record, time)).value
  }

  /** The winning button times `1..n` of `(1..time)`, in increasing order. */
  function WinnersBelow(time: nat, record: nat, n: nat): (r: seq<nat>)
    requires n <= time
    ensures |r| <= if n == 0 then 0 else n - 1
    ensures forall i | 0 <= i < |r| :: 1 <= r[i] < n && Wins(r[i], time, record)
    ensures forall i, j | 0 <= i < j < |r| :: r[i] < r[j]
  {
    if n <= 1 then []
    else WinnersBelow(time, record, n - 1) + (if Wins(n - 1, time, record) then [n - 1] else [])
  }

  /** A button time is listed exactly when it lies strictly inside the range
      and wins. */
  lemma {:induction false} WinnersBelowMembers(time: nat, record: nat, n: nat, b: nat)
    requires n <= time
    ensures b in WinnersBelow(time, record, n) <==> 1 <= b < n && Wins(b, time, record)
  {
    if n > 1 {
      WinnersBelowMembers(time, record, n - 1, b);
    }
  }

  /** The winning strategies of one race: button times `1..time - 1`
      (`(1..time)`) that beat the record. */
  function Winners(time: nat, record: nat): seq<nat> {
    WinnersBelow(time, record, time)
  }

  /** The number of ways to win one race, never more than `time - 1`. */
  function WinningCount(time: nat, record: nat): (c: nat)
    ensures c <= if time == 0 then 0 else time - 1
  {
    |Winners(time, record)|
  }

  /** The winners are symmetric: if `b` wins, so does `time - b`. */
  lemma {:induction false} WinnersSymmetric(time: nat, record: nat, b: nat)
    requires b in Winners(time, record)
    ensures time - b in Winners(time, record)
  {
    WinnersBelowMembers(time, record, time, b);
    DistanceSymmetric(b, time, record);
    WinnersBelowMembers(time, record, time, time - b);
  }

  /** A race whose record is beaten by nobody has no winner; with a record
      below the distance of holding for one millisecond, that time wins. */
  lemma {:induction false} WinnersBounds(time: nat, record: nat)
    ensures 4 * record >= time * time ==> Winners(time, record) == []
    ensures time >= 2 && record < time - 1 ==> 1 in Winners(time, record)
  {
    if 4 * record >= time * time && Winners(time, record) != [] {
      var b := Winners(time, record)[0];
      WinnersBelowMembers(time, record, time, b);
      DistanceAtMostSquare(b, time, record);
    }
    if time >= 2 && record < time - 1 {
      WinnersBelowMembers(time, record, time, 1);
    }
  }

  /** The numbers among the single-space-separated tokens, as `usize`;
      tokens that do not parse are dropped (`filter_map`). */
  function NatTokens(tokens: seq<string>): (r: seq<nat>)
    ensures |r| <= |tokens|
    ensures (forall i | 0 <= i < |tokens| :: ParseNat(tokens[i]).Some?) ==>
      |r| == |tokens| && forall i | 0 <= i < |tokens| :: r[i] == ParseNat(tokens[i]).value
    ensures (forall i | 0 <= i < |tokens| :: ParseNat(tokens[i]).None?) ==> r == []
  {
    if tokens == [] then []
    else
      match ParseNat(tokens[0])
      case None => NatTokens(tokens[1..])
      case Some(v) => [v] + NatTokens(tokens[1..])
  }

  /** The text after the last ':' of a line (`split(':').last()`). */
  function AfterColon(line: string): string {
    var parts := Split(line, {':'});
    parts[|parts| - 1]
  }

  /** The numbers of a line of part 1. */
  function Numbers(line: string): seq<nat> {
    NatTokens(Split(AfterColon(line), {' '}))
  }

  /** `zip`: pairs by position; the longer list's surplus is dropped. */
  function Zip(xs: seq<nat>, ys: seq<nat>): (r: seq<(nat, nat)>)
    ensures |r| == if |xs| <= |ys| then |xs| else |ys|
    ensures forall i | 0 <= i < |r| :: r[i] == (xs[i], ys[i])
  {
    if xs == [] || ys == [] then [] else [(xs[0], ys[0])] + Zip(xs[1..], ys[1..])
  }

  /** The product of the winning counts of the races. */
  function Product(races: seq<(nat, nat)>): nat {
    if races == [] then 1 else WinningCount(races[0].0, races[0].1) * Product(races[1..])
  }

  /** The product is zero exactly when some race cannot be won. */
  lemma {:induction false} ProductZero(races: seq<(nat, nat)>)
    ensures Product(races) == 0 <==> exists i | 0 <= i < |races| :: WinningCount(races[i].0, races[i].1) == 0
  {
    if races != [] {
      ProductZero(races[1..]);
      var c := WinningCount(races[0].0, races[0].1);
      assert Product(races) == c * Product(races[1..]);
      if exists i | 0 <= i < |races[1..]| :: WinningCount(races[1..][i].0, races[1..][i].1) == 0 {
        var i :| 0 <= i < |races[1..]| && WinningCount(races[1..][i].0, races[1..][i].1) == 0;
        assert races[i + 1] == races[1..][i];
      }
      if exists i | 0 <= i < |races| :: WinningCount(races[i].0, races[i].1) == 0 {
        var i :| 0 <= i < |races| && WinningCount(races[i].0, races[i].1) == 0;
        if i > 0 {
          assert races[1..][i - 1] == races[i];
        }
      }
    }
  }

  /** Some race has no hold time that beats its record. */
  predicate SomeRaceLost(races: seq<(nat, nat)>) {
    exists i | 0 <= i < |races| :: Winners(races[i].0, races[i].1) == []
  }

  /** `ProductZero` in terms of the winning hold times themselves. */
  lemma {:induction false} ProductZeroWinners(races: seq<(nat, nat)>)
    ensures Product(races) == 0 <==> SomeRaceLost(races)
  {
    ProductZero(races);
    if Product(races) == 0 {
      var i :| 0 <= i < |races| && WinningCount(races[i].0, races[i].1) == 0;
      assert Winners(races[i].0, races[i].1) == [];
    }
    if exists i | 0 <= i < |races| :: Winners(races[i].0, races[i].1) == [] {
      var i :| 0 <= i < |races| && Winners(races[i].0, races[i].1) == [];
      assert WinningCount(races[i].0, races[i].1) == 0;
    }
  }

  /** Part 1 (main.rs lines 7-31): times from the first non-empty line,
      records from the last, paired by position; `None` for no lines, where
      `first().unwrap()` panics. */
  function MultiplyWays(lines: seq<string>): (r: Option<nat>)
    ensures r.None? <==> NonEmpty(lines) == []
  {
    var kept := NonEmpty(lines);
    if kept == [] then None
    else
      Some(Product(Zip(Numbers(kept[0]), Numbers(kept[|kept| - 1]))))
  }

  /** Part 1 prints 0 exactly when one of the races read from the first and
      last kept lines cannot be won at all. */
  lemma {:induction false} MultiplyWaysZero(lines: seq<string>, races: seq<(nat, nat)>)
    requires NonEmpty(lines) != []
    requires races == Zip(Numbers(NonEmpty(lines)[0]), Numbers(NonEmpty(lines)[|NonEmpty(lines)| - 1]))
    ensures MultiplyWays(lines) == Some(Product(races))
    ensures MultiplyWays(lines).value == 0 <==> SomeRaceLost(races)
  {
    ProductZeroWinners(races);
  }

  /** Every token trimmed and all glued together: the spaces between the
      digit groups vanish (`map(|s| s.trim()).collect::<String>()`). */
  function Squash(tokens: seq<string>): string {
    if tokens == [] then [] else Trim(tokens[0]) + Squash(tokens[1..])
  }

  /** The one number of a line of part 2; `None` where `parse().unwrap()` panics. */
  function KerningNumber(line: string): Option<nat> {
    ParseNat(Squash(Split(AfterColon(line), {' '})))
  }

  /** Part 2 once the two lines are chosen: one race, its time read from
      `first` and its record from `last`; `None` where either
      `parse().unwrap()` panics. */
  function RaceWays(first: string, last: string): (r: Option<nat>)
    ensures r.Some? <==> KerningNumber(first).Some? && KerningNumber(last).Some?
    ensures r.Some? ==>
      r.value == WinningCount(KerningNumber(first).value, KerningNumber(last).value) &&
      r.value <= KerningNumber(first).value
  {
    match KerningNumber(first)
    case None => None
    case Some(time) =>
      match KerningNumber(last)
      case None => None
      case Some(record) => Some(WinningCount(time, record))
  }

  /** Part 2 (main.rs lines 7-26): one race, with the time read from the
      first non-empty line and the record from the last. */
  function CountWays(lines: seq<string>): (r: Option<nat>)
    ensures NonEmpty(lines) == [] ==> r.None?
    ensures NonEmpty(lines) != [] ==>
      r == RaceWays(NonEmpty(lines)[0], NonEmpty(lines)[|NonEmpty(lines)| - 1])
  {
    var kept := NonEmpty(lines);
    if kept == [] then None else RaceWays(kept[0], kept[|kept| - 1])
  }

  /** " 7  15   30" reads as the single number 71530. */
  lemma {:induction false} KerningExample()
    ensures KerningNumber("Time: 7  15   30") == Some(71530)
  {
    AfterColonExample();
    TokensExample();
    SquashExample();
    DigitsExample();
  }

  lemma {:induction false} AfterColonExample()
    ensures AfterColon("Time: 7  15   30") == " 7  15   30"
  {
    var parts := ["Time", " 7  15   30"];
    assert Join(parts, ':') == "Time: 7  15   30";
    JoinSplit(parts, ':', {':'});
  }

  lemma {:induction false} TokensExample()
    ensures Split(" 7  15   30", {' '}) == ["", "7", "", "15", "", "", "30"]
  {
    var tokens := ["", "7", "", "15", "", "", "30"];
    assert Join(tokens, ' ') == " 7  15   30";
    JoinSplit(tokens, ' ', {' '});
  }

  lemma {:induction false} DigitsExample()
    ensures ParseNat("71530") == Some(71530)
  {
    assert DigitsValue("7") == 7;
    assert "71"[..1] == "7";
    assert DigitsValue("71") == 71;
    assert "715"[..2] == "71";
    assert DigitsValue("715") == 715;
    assert "7153"[..3] == "715";
    assert DigitsValue("7153") == 7153;
    assert "71530"[..4] == "7153";
    assert DigitsValue("71530") == 71530;
  }

  lemma {:induction false} SquashExample()
    ensures Squash(["", "7", "", "15", "", "", "30"]) == "71530"
  {
    var tokens := ["", "7", "", "15", "", "", "30"];
    TrimPlain("7");
    TrimPlain("15");
    TrimPlain("30");
    TrimPlain("");
    assert Squash(tokens[6..]) == "30";
    assert Squash(tokens[5..]) == "30";
    assert Squash(tokens[4..]) == "30";
    assert Squash(tokens[3..]) == "1530";
    assert Squash(tokens[2..]) == "1530";
    assert Squash(tokens[1..]) == "71530";
  }
}
