/** The almanac's range maps (day_5/part_1/src/ratio.rs): a `Ratio` sends the
    half-open source interval `[sourceStart, sourceStart + rangeLength)` onto
    the interval of the same length at `destinationStart`.  Integers are
    unbounded here where the program uses `isize`. */
module RangeMaps {
  import opened Wrappers
  import opened Text

  datatype Ratio = Ratio(destinationStart: int, sourceStart: int, rangeLength: int)

  /** `RatioError`; `ParseIntError` carries the token that did not parse. */
  datatype RatioError = LessThanThreeParts | ParseIntError(token: string) | CannotMapValue

  /** `in_range`: the lower bound is included, the upper one is not. */
  function InRange(r: Ratio, value: int): (b: bool)
    ensures r.rangeLength <= 0 ==> !b
    ensures b ==> 0 <= value - r.sourceStart < r.rangeLength
  {
    value >= r.sourceStart && value < r.sourceStart + r.rangeLength
  }

  function Abs(n: int): nat {
    if n < 0 then -n else n
  }

  /** `map_value`: an error exactly outside the range; inside it the value keeps
      its distance from the start of the interval. */
  function MapValue(r: Ratio, value: int): (res: Result<int, RatioError>)
    ensures res.Err? <==> !InRange(r, value)
    ensures res.Err? ==> res.error == CannotMapValue
    ensures res.Ok? ==> res.value - r.destinationStart == value - r.sourceStart
  {
    if !InRange(r, value) then Err(CannotMapValue)
    else Ok(r.destinationStart + Abs(r.sourceStart - value))
  }

  /** The `k`-th value of the source interval goes to the `k`-th value of the
      destination interval. */
  lemma MapValueOffset(r: Ratio, k: int)
    requires 0 <= k < r.rangeLength
    ensures MapValue(r, r.sourceStart + k) == Ok(r.destinationStart + k)
  {
  }

  /** Two values a ratio maps to the same place are the same value. */
  lemma MapValueInjective(r: Ratio, v: int, w: int)
    requires MapValue(r, v).Ok? && MapValue(r, w).Ok?
    requires MapValue(r, v) == MapValue(r, w)
    ensures v == w
  {
  }

  /** The tokens parsed as `isize` in order; the first one that does not parse
      is the error (`collect` into a `Result` stops there). */
  function ParseAll(tokens: seq<string>): Result<seq<int>, RatioError> {
    if tokens == [] then Ok([])
    else
      match ParseInt(tokens[0])
      case None => Err(ParseIntError(tokens[0]))
      case Some(v) =>
        match ParseAll(tokens[1..])
        case Err(e) => Err(e)
        case Ok(rest) => Ok([v] + rest)
  }

  /** Collecting succeeds exactly when every token parses; it then holds each
      token's value in order, and otherwise reports a token that does not parse. */
  lemma {:induction false} ParseAllFacts(tokens: seq<string>)
    ensures ParseAll(tokens).Ok? <==> forall i | 0 <= i < |tokens| :: ParseInt(tokens[i]).Some?
    ensures ParseAll(tokens).Ok? ==> |ParseAll(tokens).value| == |tokens|
    ensures ParseAll(tokens).Ok? ==>
      forall i | 0 <= i < |tokens| :: ParseInt(tokens[i]) == Some(ParseAll(tokens).value[i])
    ensures ParseAll(tokens).Err? ==>
      exists i | 0 <= i < |tokens| :: ParseInt(tokens[i]).None? && ParseAll(tokens).error == ParseIntError(tokens[i])
  {
    if tokens != [] {
      ParseAllFacts(tokens[1..]);
      assert forall i | 1 <= i < |tokens| :: tokens[i] == tokens[1..][i - 1];
      if ParseInt(tokens[0]).Some? && ParseAll(tokens[1..]).Err? {
        var i :| 0 <= i < |tokens[1..]| && ParseInt(tokens[1..][i]).None? && ParseAll(tokens[1..]).error == ParseIntError(tokens[1..][i]);
        assert tokens[i + 1] == tokens[1..][i];
      }
    }
  }

  /** `from_string`: whitespace-separated integers, the first three taken as
      destination, source and length. */
  function FromString(input: string): (r: Result<Ratio, RatioError>)
    ensures r.Ok? ==> var t := SplitWhitespace(input);
      |t| >= 3 &&
      ParseInt(t[0]) == Some(r.value.destinationStart) &&
      ParseInt(t[1]) == Some(r.value.sourceStart) &&
      ParseInt(t[2]) == Some(r.value.rangeLength)
    ensures r == Err(LessThanThreeParts) ==> |SplitWhitespace(input)| < 3
  {
    ParseAllFacts(SplitWhitespace(input));
    match ParseAll(SplitWhitespace(input))
    case Err(e) => Err(e)
    case Ok(parts) =>
      if |parts| < 3 then Err(LessThanThreeParts)
      else Ok(Ratio(parts[0], parts[1], parts[2]))
  }

  /** A ratio is read exactly when every token is an integer and there are at
      least three; parse errors are reported before the count; the ratio is
      the first three integers, further tokens ignored. */
  lemma FromStringFacts(input: string)
    ensures FromString(input).Ok? <==> ParseAll(SplitWhitespace(input)).Ok? && |SplitWhitespace(input)| >= 3
    ensures FromString(input) == Err(LessThanThreeParts) <==>
      ParseAll(SplitWhitespace(input)).Ok? && |SplitWhitespace(input)| < 3
    ensures FromString(input).Ok? ==> var t := SplitWhitespace(input);
      ParseInt(t[0]) == Some(FromString(input).value.destinationStart) &&
      ParseInt(t[1]) == Some(FromString(input).value.sourceStart) &&
      ParseInt(t[2]) == Some(FromString(input).value.rangeLength)
  {
    ParseAllFacts(SplitWhitespace(input));
  }

  /** The boundary cases of `in_range` (tests of ratio.rs). */
  lemma InRangeExamples()
    ensures InRange(Ratio(50, 98, 2), 98) && InRange(Ratio(50, 98, 2), 99) && !InRange(Ratio(50, 98, 2), 100)
    ensures InRange(Ratio(50, 98, 20), 110) && !InRange(Ratio(50, 98, 20), 1) && !InRange(Ratio(50, 98, 20), 1000)
  {
  }

  /** Values inside a range move with the interval: the cases of the
      in-range `map_value` tests of ratio.rs. */
  lemma MapValueExamples()
    ensures MapValue(Ratio(50, 98, 2), 98) == Ok(50)
    ensures MapValue(Ratio(50, 98, 2), 99) == Ok(51)
    ensures MapValue(Ratio(52, 50, 48), 53) == Ok(55)
  {
  }

  /** "50 98 2" reads as destination 50, source 98, length 2. */
  lemma FromStringExample()
    ensures FromString("50 98 2") == Ok(Ratio(50, 98, 2))
  {
    assert Join(["50", "98", "2"], ' ') == "50 98 2";
    SplitWhitespaceJoin(["50", "98", "2"]);
    assert ParseInt("50") == Some(50) && ParseInt("98") == Some(98) && ParseInt("2") == Some(2) by {
      assert DigitsValue("50") == 50 && DigitsValue("98") == 98 && DigitsValue("2") == 2;
    }
    FromStringFacts("50 98 2");
  }
}
