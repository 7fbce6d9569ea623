/** The seed-to-location program (day_5/part_2/src/main.rs): read the seed
    ranges, load seven tables of range maps, push every seed through the seven
    stages and keep the lowest location.  The panics of the program are the
    errors of `LocationError`. */
module SeedLocations {
  import opened Wrappers
  import opened Text
  import opened RangeMaps

  datatype LocationError =
    | NoLines              // no first line to read the seeds from
    | MissingLine          // input ran out before a table's closing blank line
    | BadSeed(token: string)
    | NoSeeds              // `min` of no seeds

  /** `split(':').last()`: the text after the last colon. */
  function AfterLastColon(line: string): (r: string)
    ensures forall k | 0 <= k < |r| :: r[k] != ':'
  {
    var parts := Split(line, {':'});
    parts[|parts| - 1]
  }

  /** The seed tokens: split on single spaces, empty tokens dropped. */
  function SeedTokens(line: string): seq<string> {
    NonEmpty(Split(AfterLastColon(line), {' '}))
  }

  /** Each token trimmed and parsed as `isize`; the first failure is the error. */
  function ParseSeeds(tokens: seq<string>): Result<seq<int>, LocationError> {
    if tokens == [] then Ok([])
    else
      match ParseInt(Trim(tokens[0]))
      case None => Err(BadSeed(tokens[0]))
      case Some(v) =>
        match ParseSeeds(tokens[1..])
        case Err(e) => Err(e)
        case Ok(rest) => Ok([v] + rest)
  }

  /** The seeds parse exactly when every token does, and then hold their
      values in order; a token that does not parse makes the program panic. */
  lemma {:induction false} ParseSeedsFacts(tokens: seq<string>)
    ensures ParseSeeds(tokens).Ok? <==> forall i | 0 <= i < |tokens| :: ParseInt(Trim(tokens[i])).Some?
    ensures ParseSeeds(tokens).Ok? ==> |ParseSeeds(tokens).value| == |tokens|
    ensures ParseSeeds(tokens).Ok? ==>
      forall i | 0 <= i < |tokens| :: ParseInt(Trim(tokens[i])) == Some(ParseSeeds(tokens).value[i])
  {
    if tokens != [] {
      var rest := tokens[1..];
      ParseSeedsFacts(rest);
      assert forall i | 1 <= i < |tokens| :: tokens[i] == rest[i - 1];
      match ParseInt(Trim(tokens[0]))
      case None =>
      case Some(v) =>
        if ParseSeeds(rest).Ok? {
          assert ParseSeeds(tokens) == Ok([v] + ParseSeeds(rest).value);
        }
    }
  }

  /** `batching` into `(start, length)` pairs: a trailing unpaired number is dropped. */
  function Pairs(nums: seq<int>): (r: seq<(int, int)>)
    ensures |r| == |nums| / 2
    ensures forall i | 0 <= i < |r| :: r[i] == (nums[2 * i], nums[2 * i + 1])
  {
    if |nums| < 2 then []
    else
      var rest := Pairs(nums[2..]);
      assert forall i | 1 <= i < |rest| + 1 :: nums[2 * i] == nums[2..][2 * (i - 1)];
      [(nums[0], nums[1])] + rest
  }

  /** The range `a..a+len`, empty when `len` is not positive. */
  function Span(a: int, len: int): (r: seq<int>)
    ensures |r| == if len > 0 then len else 0
    ensures forall i | 0 <= i < |r| :: r[i] == a + i
    decreases len
  {
    if len <= 0 then [] else Span(a, len - 1) + [a + len - 1]
  }

  /** `flat_map(|(a, b)| a..(a + b))`. */
  function Expand(pairs: seq<(int, int)>): seq<int> {
    if pairs == [] then [] else Span(pairs[0].0, pairs[0].1) + Expand(pairs[1..])
  }

  /** A seed is expanded exactly when it lies in one of the pairs' ranges. */
  lemma {:induction false} ExpandContains(pairs: seq<(int, int)>, v: int)
    ensures v in Expand(pairs) <==> exists i | 0 <= i < |pairs| :: pairs[i].0 <= v < pairs[i].0 + pairs[i].1
  {
    if pairs != [] {
      ExpandContains(pairs[1..], v);
      var span := Span(pairs[0].0, pairs[0].1);
      assert v in span <==> pairs[0].0 <= v < pairs[0].0 + pairs[0].1 by {
        if pairs[0].0 <= v < pairs[0].0 + pairs[0].1 {
          assert span[v - pairs[0].0] == v;
        }
      }
      if exists i | 0 <= i < |pairs| :: pairs[i].0 <= v < pairs[i].0 + pairs[i].1 {
        var i :| 0 <= i < |pairs| && pairs[i].0 <= v < pairs[i].0 + pairs[i].1;
        if i > 0 {
          assert pairs[1..][i - 1] == pairs[i];
        }
      }
      if exists i | 0 <= i < |pairs[1..]| :: pairs[1..][i].0 <= v < pairs[1..][i].0 + pairs[1..][i].1 {
        var i :| 0 <= i < |pairs[1..]| && pairs[1..][i].0 <= v < pairs[1..][i].0 + pairs[1..][i].1;
        assert pairs[i + 1] == pairs[1..][i];
      }
    }
  }

  /** `map(map_value).filter_map(ok)`: the images of `v` under the ratios that
      hold it, in table order. */
  function Images(ratios: seq<Ratio>, v: int): (r: seq<int>)
    ensures |r| <= |ratios|
  {
    if ratios == [] then []
    else
      (match MapValue(ratios[0], v) case Ok(w) => [w] case Err(_) => []) + Images(ratios[1..], v)
  }

  /** Every image of `v` is where one of the ratios holding it sends it. */
  lemma {:induction false} ImagesFrom(ratios: seq<Ratio>, v: int, k: nat)
    requires k < |Images(ratios, v)|
    ensures exists j | 0 <= j < |ratios| ::
      InRange(ratios[j], v) && Images(ratios, v)[k] == ratios[j].destinationStart + (v - ratios[j].sourceStart)
  {
    var first := match MapValue(ratios[0], v) case Ok(w) => [w] case Err(_) => [];
    assert Images(ratios, v) == first + Images(ratios[1..], v);
    if k < |first| {
      assert InRange(ratios[0], v);
    } else {
      ImagesFrom(ratios[1..], v, k - |first|);
      var j :| 0 <= j < |ratios[1..]| && InRange(ratios[1..][j], v) &&
        Images(ratios[1..], v)[k - |first|] == ratios[1..][j].destinationStart + (v - ratios[1..][j].sourceStart);
      assert ratios[j + 1] == ratios[1..][j];
    }
  }

  /** One stage (lines 74-130): the last image, or the value itself when no
      ratio holds it.  Either way the result is `v` or where some ratio
      holding `v` sends it. */
  function Stage(ratios: seq<Ratio>, v: int): (r: int)
    ensures r == v || exists j | 0 <= j < |ratios| ::
      InRange(ratios[j], v) && r == ratios[j].destinationStart + (v - ratios[j].sourceStart)
  {
    var images := Images(ratios, v);
    if images == [] then v
    else
      ImagesFrom(ratios, v, |images| - 1);
      images[|images| - 1]
  }

  /** No ratio holding the value: no images. */
  lemma {:induction false} ImagesNone(ratios: seq<Ratio>, v: int)
    requires forall j | 0 <= j < |ratios| :: !InRange(ratios[j], v)
    ensures Images(ratios, v) == []
  {
    if ratios != [] {
      ImagesNone(ratios[1..], v);
    }
  }

  /** The last image comes from the last ratio holding the value. */
  lemma {:induction false} ImagesLast(ratios: seq<Ratio>, v: int, k: nat)
    requires k < |ratios| && InRange(ratios[k], v)
    requires forall j | k < j < |ratios| :: !InRange(ratios[j], v)
    ensures Images(ratios, v) != []
    ensures Images(ratios, v)[|Images(ratios, v)| - 1] == ratios[k].destinationStart + (v - ratios[k].sourceStart)
  {
    if k == 0 {
      ImagesNone(ratios[1..], v);
    } else {
      ImagesLast(ratios[1..], v, k - 1);
    }
  }

  /** A stage maps a value by the last ratio whose range holds it... */
  lemma StageLastMatch(ratios: seq<Ratio>, v: int, k: nat)
    requires k < |ratios| && InRange(ratios[k], v)
    requires forall j | k < j < |ratios| :: !InRange(ratios[j], v)
    ensures Stage(ratios, v) == ratios[k].destinationStart + (v - ratios[k].sourceStart)
  {
    ImagesLast(ratios, v, k);
  }

  /** ... and leaves it alone when none does. */
  lemma StageNoMatch(ratios: seq<Ratio>, v: int)
    requires forall j | 0 <= j < |ratios| :: !InRange(ratios[j], v)
    ensures Stage(ratios, v) == v
  {
    ImagesNone(ratios, v);
  }

  /** A seed pushed through the stages in order. */
  function Location(stages: seq<seq<Ratio>>, v: int): int {
    if stages == [] then v else Location(stages[1..], Stage(stages[0], v))
  }

  function Locations(stages: seq<seq<Ratio>>, seeds: seq<int>): (r: seq<int>)
    ensures |r| == |seeds|
    ensures forall i | 0 <= i < |seeds| :: r[i] == Location(stages, seeds[i])
  {
    if seeds == [] then [] else [Location(stages, seeds[0])] + Locations(stages, seeds[1..])
  }

  /** `min`: a member no greater than any member. */
  function Min(s: seq<int>): (m: int)
    requires s != []
    ensures m in s && forall x | x in s :: m <= x
  {
    if |s| == 1 then s[0]
    else
      var rest := Min(s[1..]);
      assert forall x | x in s :: x == s[0] || x in s[1..];
      if s[0] <= rest then s[0] else rest
  }

  /** A blank or whitespace-only line ends a table. */
  predicate Blank(line: string) {
    |Trim(line)| == 0
  }

  /** The ratio a line holds, if it parses as one; map headers do not. */
  function Kept(line: string): seq<Ratio> {
    match FromString(line)
    case Ok(r) => [r]
    case Err(_) => []
  }

  /** What reading one or more tables yields: the items read and the lines
      left over. */
  datatype Loaded<T> = Loaded(items: seq<T>, rest: seq<string>)

  /** Items `xs` followed by those of a later read, or that read's error. */
  function Prepend<T>(xs: seq<T>, t: Result<Loaded<T>, LocationError>): Result<Loaded<T>, LocationError> {
    match t
    case Err(e) => Err(e)
    case Ok(l) => Ok(Loaded(xs + l.items, l.rest))
  }

  lemma PrependNothing<T>(t: Result<Loaded<T>, LocationError>)
    ensures Prepend([], t) == t
  {
    if t.Ok? {
      assert [] + t.value.items == t.value.items;
    }
  }

  lemma PrependTwice<T>(xs: seq<T>, ys: seq<T>, t: Result<Loaded<T>, LocationError>)
    ensures Prepend(xs, Prepend(ys, t)) == Prepend(xs + ys, t)
  {
    if t.Ok? {
      assert xs + (ys + t.value.items) == xs + ys + t.value.items;
    }
  }

  /** `make_ratios` as a function: the ratios up to the first blank line, and
      the lines after it. */
  function Table(lines: seq<string>): Result<Loaded<Ratio>, LocationError> {
    if lines == [] then Err(MissingLine)
    else if Blank(lines[0]) then Ok(Loaded([], lines[1..]))
    else Prepend(Kept(lines[0]), Table(lines[1..]))
  }

  /** The ratios of the lines `lines`, in order, skipping lines that do not parse. */
  function KeptAll(lines: seq<string>): seq<Ratio> {
    if lines == [] then [] else Kept(lines[0]) + KeptAll(lines[1..])
  }

  /** A table ends at the first blank line: it holds the ratios of the lines
      before it, in order, and the lines after it remain. */
  lemma {:induction false} TableAtFirstBlank(lines: seq<string>, k: nat)
    requires k < |lines| && Blank(lines[k])
    requires forall i | 0 <= i < k :: !Blank(lines[i])
    ensures Table(lines) == Ok(Loaded(KeptAll(lines[..k]), lines[k + 1..]))
  {
    if k > 0 {
      TableAtFirstBlank(lines[1..], k - 1);
      assert lines[1..][..k - 1] == lines[..k][1..];
      assert lines[1..][k..] == lines[k + 1..];
    }
  }

  /** Without a blank line the input runs out: `make_ratios` panics. */
  lemma {:induction false} TableWithoutBlank(lines: seq<string>)
    requires forall i | 0 <= i < |lines| :: !Blank(lines[i])
    ensures Table(lines) == Err(MissingLine)
  {
    if lines != [] {
      TableWithoutBlank(lines[1..]);
    }
  }

  /** `make_ratios` (lines 136-154): pop lines until a blank one, keeping the
      ratios that parse. */
  method MakeRatios(lines: seq<string>) returns (r: Result<Loaded<Ratio>, LocationError>)
    ensures r == Table(lines)
  {
    var rest := lines;
    var ratios: seq<Ratio> := [];
    PrependNothing(Table(lines));
    while true
      invariant Table(lines) == Prepend(ratios, Table(rest))
      decreases |rest|
    {
      if rest == [] {
        return Err(MissingLine);
      }
      var line := rest[0];
      TableStep(rest);
      rest := rest[1..];
      if Blank(line) {
        assert ratios + [] == ratios;
        return Ok(Loaded(ratios, rest));
      }
      PrependTwice(ratios, Kept(line), Table(rest));
      match FromString(line) {
        case Ok(ratio) =>
          assert Kept(line) == [ratio];
          ratios := ratios + [ratio];
        case Err(_) =>
          assert ratios + Kept(line) == ratios;
      }
    }
  }

  /** One line of a table read. */
  lemma TableStep(lines: seq<string>)
    requires lines != []
    ensures Blank(lines[0]) ==> Table(lines) == Ok(Loaded([], lines[1..]))
    ensures !Blank(lines[0]) ==> Table(lines) == Prepend(Kept(lines[0]), Table(lines[1..]))
  {
  }

  /** `count` tables read one after the other. */
  function Tables(lines: seq<string>, count: nat): (r: Result<Loaded<seq<Ratio>>, LocationError>)
    ensures r.Ok? ==> |r.value.items| == count
    decreases count
  {
    if count == 0 then Ok(Loaded([], lines))
    else
      match Table(lines)
      case Err(e) => Err(e)
      case Ok(table) => Prepend([table.items], Tables(table.rest, count - 1))
  }

  /** The number of stages, seed-to-soil through humidity-to-location. */
  const StageCount: nat := 7

  /** The whole program on the input lines.  The seed numbers are parsed lazily
      when the minimum is taken, after the tables are read, so a table error
      comes first. */
  function LowestLocation(lines: seq<string>): Result<int, LocationError> {
    if lines == [] then Err(NoLines)
    else
      var rest := if |lines| >= 2 then lines[2..] else [];
      match Tables(rest, StageCount)
      case Err(e) => Err(e)
      case Ok(loaded) =>
        var stages := loaded.items;
        match ParseSeeds(SeedTokens(lines[0]))
        case Err(e) => Err(e)
        case Ok(nums) =>
          var seeds := Expand(Pairs(nums));
          if seeds == [] then Err(NoSeeds) else Ok(Min(Locations(stages, seeds)))
  }

  /** The answer is the location of one of the seeds, and no seed has a lower one. */
  lemma LowestOverSeeds(stages: seq<seq<Ratio>>, seeds: seq<int>)
    requires seeds != []
    ensures exists v | v in seeds :: Min(Locations(stages, seeds)) == Location(stages, v)
    ensures forall v | v in seeds :: Min(Locations(stages, seeds)) <= Location(stages, v)
  {
    var locs := Locations(stages, seeds);
    var m := Min(locs);
    var i :| 0 <= i < |locs| && locs[i] == m;
    assert seeds[i] in seeds && m == Location(stages, seeds[i]);
    forall v | v in seeds
      ensures m <= Location(stages, v)
    {
      var j :| 0 <= j < |seeds| && seeds[j] == v;
      assert locs[j] in locs;
    }
  }

  /** The seven `make_ratios` calls of `main` (lines 41-72), one after the other. */
  method LoadTables(lines: seq<string>, count: nat) returns (r: Result<Loaded<seq<Ratio>>, LocationError>)
    ensures r == Tables(lines, count)
  {
    var rest := lines;
    var stages: seq<seq<Ratio>> := [];
    PrependNothing(Tables(lines, count));
    for n := 0 to count
      invariant Tables(lines, count) == Prepend(stages, Tables(rest, count - n))
    {
      var table := MakeRatios(rest);
      if table.Err? {
        return Err(table.error);
      }
      PrependTwice(stages, [table.value.items], Tables(table.value.rest, count - n - 1));
      stages, rest := stages + [table.value.items], table.value.rest;
    }
    assert stages + [] == stages;
    r := Ok(Loaded(stages, rest));
  }

  /** `main` from line 9 on: seeds from the first line, the second line popped,
      seven tables loaded, and the lowest location over all expanded seeds. */
  method Lowest(lines: seq<string>) returns (r: Result<int, LocationError>)
    ensures r == LowestLocation(lines)
  {
    if lines == [] {
      return Err(NoLines);
    }
    var rest := if |lines| >= 2 then lines[2..] else [];
    var tables := LoadTables(rest, StageCount);
    if tables.Err? {
      return Err(tables.error);
    }
    var nums := ParseSeeds(SeedTokens(lines[0]));
    if nums.Err? {
      return Err(nums.error);
    }
    var seeds := Expand(Pairs(nums.value));
    if seeds == [] {
      return Err(NoSeeds);
    }
    r := Ok(Min(Locations(tables.value.items, seeds)));
  }
}
