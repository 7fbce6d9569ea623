# Advent of Code 2023 puzzle solvers, modelled in Dafny

This project models the puzzle solvers of the Rust repository
`advent-of-code-2023-rust` and proves properties of them. The solvers are
the days 1 to 12: each reads its puzzle input as lines of text, parses
them, and prints one number. The longest is day 10's loop tracer.

Modules and what they model:

- `Wrappers`: `Option` and `Result`. A Rust panic (`unwrap`, `expect`,
  an index out of range, `panic!`) is a `None` or an `Err` value.
- `Text`: the string operations of the Rust standard library that the
  solvers use:
  - `split` on characters, `split_whitespace`, `trim` and `trim_matches`;
  - `parse::<usize>` and `parse::<isize>`;
  - the `filter(|l| l.len() > 0)` applied to the input lines.
- `Grids`: the cells of a character grid that hold a given mark, in
  row-major order.
- `Coordinates` and `PipeMaze` (day 10):
  - the coordinate arithmetic and the compass directions;
  - the pipe glyph table and the step through a pipe;
  - the walk from `S` around the loop.
- `CamelCards`, `JokerCards` and `CamelWinnings` (day 7):
  - hand classification, with and without jokers;
  - the hand ordering;
  - the sort and the winnings total.
- `RangeMaps` and `SeedLocations` (day 5): the almanac's range maps, the
  seven mapping stages, and the lowest location over the seed ranges.
- `Observations` (day 9): extrapolating a series forward and backward
  through its difference levels.
- `ScratchCards` (day 4): card parsing, card worth, and the count of card
  copies won.
- `BoatRace` (day 6): race distances and the number of winning button
  times.
- `Wasteland` (day 8):
  - the node network and the walk from `AAA` to `ZZZ`;
  - the per-start walks of part 2 and their least common multiple.
- `Galaxies` (day 11): expanding the empty rows and columns of the image,
  and the sum of the distances between pairs of galaxies.
- `Engine` (day 3):
  - the part numbers next to a symbol in the engine schematic;
  - the gear ratios of stars touching exactly two part numbers.
- `Calibration` and `SpelledDigits` (day 1): the calibration values from
  the digits of a line, and from digits or spelled-out digit words.
- `CubeGame` (day 2):
  - the colour counts a game line records;
  - the power of a game;
  - the sum of the ids of the games the bag allows.
- `SpringRecords` (day 12): reading a record of spring states and
  damaged-group sizes.

How the model is written:

- Code that loops and updates variables becomes a `method` with a loop.
  Each such method is proved equal to a function that specifies it.
- Expression-style code becomes a function. Properties are proved about
  these functions as lemmas.
- Machine integers are unbounded (`nat` or `int`).
- Reading standard input becomes a parameter holding the input lines.
- Printing becomes the returned value.

## Model

| member | source | states |
|---|---|---|
| Wrappers.AllSome | day_12/part_1/src/arrangement.rs:38-42 | `map` with `expect` and `collect`: a result exactly when every value is present, then all of them in order |
| Text.Split | day_7/part_1/src/main.rs:13 | `split` returns at least one part, and no part contains a separator |
| Text.SplitJoin | day_7/part_1/src/main.rs:13 | joining the parts of a single-character split with that character gives the input back |
| Text.JoinSplit | day_7/part_1/src/main.rs:13 | parts that contain no separator, joined with one, split back into exactly those parts |
| Text.SplitWithoutSeparator | day_8/part_1/src/main.rs:47 | text containing no separator splits into itself alone |
| Text.SplitAtSeparator | day_8/part_1/src/main.rs:47 | a separator after a run that contains none ends the first part |
| Text.NonEmpty | day_7/part_1/src/main.rs:10 | the lines that are kept are non-empty, and there are no more of them than lines |
| Text.NonEmptyAppend | day_3/part_1/src/main.rs:9 | the filter works piece by piece: filtering a concatenation concatenates the filtered pieces |
| Text.NonEmptySingle | day_3/part_1/src/main.rs:9 | one line is kept exactly when it is not empty |
| Text.NonEmptyMembers | day_7/part_1/src/main.rs:10 | a line is kept exactly when it is one of the input lines and is not empty |
| Text.NonEmptyKeeps | day_7/part_1/src/main.rs:10 | the filter keeps a list that contains no empty line unchanged |
| Text.SplitWhitespaceJoin | day_5/part_1/src/ratio.rs:39 | `split_whitespace` on words joined by single spaces returns those words |
| Text.TrimMatches | day_8/part_1/src/main.rs:51 | the result is no longer than the input, contains only the input's characters, and has no trimmed character at either end |
| Text.TrimMatchesFrame | day_8/part_1/src/main.rs:51 | text whose ends are kept, padded on both sides with trimmed characters, trims back to that text |
| Text.TrimPlain | day_7/part_1/src/main.rs:14 | `trim` leaves a token without whitespace unchanged |
| Text.ParseNat | day_7/part_1/src/main.rs:20-23 | `parse::<usize>` succeeds exactly on a non-empty run of ASCII digits, optionally after one `+`, and its value is the decimal value of the digits; empty text is an error |
| Text.ParseInt | day_9/part_1/src/observations.rs:9 | `parse::<isize>` agrees with the unsigned parse on text that does not start with `-`; text starting with `-` parses exactly when digits follow it, to their negated value |
| Coordinates.MoveToRelative | day_10/part_1/src/coordinate.rs:11-19 | moving from `b` by `a.relative_to(b)` arrives at `a` |
| Coordinates.RelativeTo | day_10/part_1/src/coordinate.rs:11-13 | moving the second cell by the offset reaches the first, and the offset is zero exactly when the cells are equal |
| Coordinates.RelativeToMoved | day_10/part_1/src/coordinate.rs:11-19 | a cell moved by an offset, measured from where it started, gives the offset back |
| Coordinates.RelativeToSelf | day_10/part_1/src/coordinate.rs:26-31 | a cell relative to itself is `(0, 0)` |
| Coordinates.RelativeToAntisymmetric | day_10/part_1/src/coordinate.rs:33-59 | swapping the two cells negates the offset; the four direction tests are instances |
| PipeMaze.Value | day_10/part_1/src/main.rs:70-77 | every direction is one unit step |
| PipeMaze.FromValue | day_10/part_1/src/main.rs:78-86 | succeeds exactly on the four unit steps (other offsets panic), and inverts `value` |
| PipeMaze.FromValueOfValue | day_10/part_1/src/main.rs:70-86 | `from_value(value(d)) == d` for every direction |
| PipeMaze.ValueInjective | day_10/part_1/src/main.rs:70-77 | two directions lead from a cell to the same cell only if they are the same direction |
| PipeMaze.Invert | day_10/part_1/src/main.rs:87-94 | the inverted direction differs from the original, and its offset is the negated offset |
| PipeMaze.InvertInvolution | day_10/part_1/src/main.rs:87-94 | inverting twice gives the direction back |
| PipeMaze.PipesTable | day_10/part_1/src/main.rs:9-16 | exactly the glyphs `\| - L J 7 F` are pipes, and each opens in two different directions |
| PipeMaze.Openings | day_10/part_1/src/main.rs:9-16 | a pipe connects its cell to exactly two cells, each one unit step away |
| PipeMaze.EnteringDirection | day_10/part_1/src/main.rs:116-129 | an empty history is an error; otherwise it succeeds exactly when the last cell is one unit step away, and the direction found leads back to that cell |
| PipeMaze.EnteredFrom | day_10/part_1/src/main.rs:137-167 | a walker whose previous cell lies in direction `d` entered through `d`; the four entering-direction tests are instances |
| PipeMaze.NextCoordinate | day_10/part_1/src/main.rs:97-114 | errors come from the entering direction first, then from an unknown glyph; on success the pipe's two openings are exactly the previous cell and the returned cell, so the walker never turns back |
| PipeMaze.ExitsThroughOtherOpening | day_10/part_1/src/main.rs:106-113 | a pipe entered through one opening is left through the other; the four next-coordinate tests (lines 169-203) are instances |
| PipeMaze.FindStartFrom | day_10/part_1/src/main.rs:30-41 | the `S` found from a given row on is an `S`, and no `S` precedes it in row-major order; `None` means that part of the grid contains no `S` |
| PipeMaze.FindStart | day_10/part_1/src/main.rs:30-41 | `find_map` over `indexed_iter` returns the first `S` in row-major order, or panics when the grid contains none |
| PipeMaze.WalkExtends | day_10/part_1/src/main.rs:44-57 | one step of the loop keeps the history a walk: the pipe under the current cell connects its predecessor and the next cell |
| PipeMaze.TraceStep | day_10/part_1/src/main.rs:51-56 | the loop stops when the next cell is the first history entry, and otherwise continues from the next cell |
| PipeMaze.TraceExtends | day_10/part_1/src/main.rs:44-57 | the returned history extends the history the walk started with by the current cell and at most `fuel` more cells; what it holds is `TraceSound`, and `TraceFindsLoop` gives completeness |
| PipeMaze.TraceSound | day_10/part_1/src/main.rs:44-57 | every history the walk returns is a closed loop through `S` that visits `S` only once |
| PipeMaze.StepThroughPipe | day_10/part_1/src/main.rs:45-50 | entering a pipe through one of its openings, the step leaves through the other one |
| PipeMaze.LoopStep | day_10/part_1/src/main.rs:45-56 | inside a closed loop through `S`, the step from a cell goes to the loop's next cell, which is `S` only after the last cell |
| PipeMaze.TraceFollowsLoop | day_10/part_1/src/main.rs:44-57 | started inside a closed loop through `S` with fuel for the rest of it, the walk returns exactly that loop |
| PipeMaze.TraceFindsLoop | day_10/part_1/src/main.rs:29-57 | completeness: a closed loop through the first `S` that leaves it eastward is exactly what the walk returns, given fuel for its length |
| PipeMaze.Walk | day_10/part_1/src/main.rs:44-57 | the loop's history, or its panic, is the one the reference walk gives |
| PipeMaze.TraceLoop | day_10/part_1/src/main.rs:29-58 | the printed length is the length of the history the walk returns, and that history is a closed loop through `S`; panics pass through |
| PipeMaze.LoopSteps | day_10/part_1/src/main.rs:44-57 | consecutive cells of the loop, and its last and first cells, are one unit step apart |
| PipeMaze.ParityAlongPath | day_10/part_1/src/main.rs:44-57 | along a path of unit steps the chequerboard colour alternates |
| PipeMaze.AdjacentParity | day_10/part_1/src/main.rs:44-57 | neighbouring cells have different chequerboard colours |
| PipeMaze.LoopLengthEven | day_10/part_1/src/main.rs:58 | the printed loop length is even |
| PipeMaze.LoopAtLeastFour | day_10/part_1/src/main.rs:58 | the printed loop length is at least 4 |
| Grids.MarkedCellsMembers | day_11/part_1/src/main.rs:19-28 | the listed cells are exactly the cells that hold the mark |
| Grids.MarkedCellsOrdered | day_11/part_1/src/main.rs:19-28 | cells are listed in row-major order |
| Grids.MarkedCellsRowMajor | day_11/part_1/src/main.rs:19-28 | the listed cells strictly increase in row-major order |
| Grids.RowMajorUnique | day_11/part_1/src/main.rs:19-28 | two lists of cells in strictly increasing row-major order with the same members are equal, so the listing is determined by the set of marked cells |
| Grids.RowMajorTail | day_11/part_1/src/main.rs:19-28 | after the first cell of a row-major list come exactly the other cells, still in row-major order |
| CamelCards.CompareNat | day_7/part_1/src/hand.rs:89-93 | `usize::cmp` is `Less`, `Equal` or `Greater` exactly as the numbers compare |
| CamelCards.CompareTypes | day_7/part_1/src/hand.rs:21-30 | the derived order of hand types is `Equal` only for equal types |
| CamelCards.CardRanks | day_7/part_1/src/hand.rs:5-19 | `CARDS` ranks 2, 3, …, 9, T, J, Q, K, A as 1 to 13 |
| CamelCards.CardsAscending | day_7/part_1/src/hand.rs:5-19 | `CARDS` holds exactly those thirteen cards, with ranks strictly ascending in that order |
| CamelCards.BinsOfAppend | day_7/part_1/src/hand.rs:42-44 | one more card adds one to its bin, and creates the bin if it is missing |
| CamelCards.CountBins | day_7/part_1/src/hand.rs:41-44 | the counting loop gives every card of the hand its number of occurrences |
| CamelCards.CountsSumToLength | day_7/part_1/src/hand.rs:41-44 | the bins add up to the number of cards, whatever order the keys are visited in |
| CamelCards.GetHandType | day_7/part_1/src/hand.rs:54-76 | one kind is five of a kind, two kinds four of a kind or a full house, three kinds three of a kind or two pair, four kinds one pair, and anything else high card; four of a kind exactly when two kinds include a bin of 4, three of a kind exactly when three kinds include a bin of 3 (the split is pinned down by `TwoKindsType` and `ThreeKindsType`) |
| CamelCards.TwoKindsType | day_7/part_1/src/hand.rs:57-63 | two kinds of card: a largest bin of 4 is four of a kind, otherwise a full house |
| CamelCards.ThreeKindsType | day_7/part_1/src/hand.rs:64-69 | three kinds of card: a largest bin of 3 is three of a kind, otherwise two pair |
| CamelCards.GetHandTypeExamples | day_7/part_1/src/hand.rs:157-204 | the seven classification tests |
| CamelCards.FiveCardExtremes | day_7/part_1/src/hand.rs:54-76 | for five cards: five of a kind exactly when all cards are equal, high card exactly when all differ |
| CamelCards.NewHand | day_7/part_1/src/hand.rs:40-52 | the hand keeps its cards, their bins and the type of those bins |
| CamelCards.Compare | day_7/part_1/src/hand.rs:79-103 | the early-returning loop computes the comparison: by type, then by the first card whose rank differs, the higher rank comparing `Less` |
| CamelCards.CompareHands | day_7/part_1/src/hand.rs:79-103 | hands of different types never compare equal, and the weaker type is the lesser hand; an `Equal` verdict implies equal types (the card-by-card tie break is `CompareHandsFacts`, and transitivity is `CompareHandsTransitive`) |
| CamelCards.CompareExamples | day_7/part_1/src/hand.rs:117-155 | the five comparison tests |
| CamelCards.CompareCardsFacts | day_7/part_1/src/hand.rs:83-98 | on hands of equal length with known cards, the tie-break never panics, is antisymmetric, and is `Equal` exactly when every rank agrees |
| CamelCards.CompareHandsFacts | day_7/part_1/src/hand.rs:79-103 | `cmp` never panics on such hands, is antisymmetric, and is `Equal` exactly when the types and all ranks agree |
| CamelCards.CompareCardsTransitive | day_7/part_1/src/hand.rs:83-98 | the tie-break is transitive |
| CamelCards.CompareHandsTransitive | day_7/part_1/src/hand.rs:79-103 | `cmp` is a total preorder: "not `Greater`" chains, and one strict step makes the chain strict |
| JokerCards.JokerRanks | day_7/part_2/src/hand.rs:6-20 | part 2's `CARDS` ranks J, 2, …, 9, T, Q, K, A as 0 to 12 |
| JokerCards.JokerTableAscending | day_7/part_2/src/hand.rs:6-20 | the table holds exactly those thirteen cards, with ranks strictly ascending |
| JokerCards.JokerIsWeakest | day_7/part_2/src/hand.rs:6-20 | the joker ranks below every other card in tie-breaks |
| JokerCards.Stronger | day_7/part_2/src/hand.rs:77-78 | `min` over candidate types returns one of them, at least as strong as each |
| JokerCards.GetHandTypeWithJokers | day_7/part_2/src/hand.rs:56-105 | the type panics exactly when there are one, two or four jokers and no other card kind to spend them on (`NoJokers`, `JokersNeverWeaken`, `ThreeJokers`, `TwoJokers` and `OnlyJokers` pin down the type otherwise) |
| JokerCards.HandTypeWithJokers | day_7/part_2/src/hand.rs:56-105 | the loops compute the joker classification, including its panics |
| JokerCards.BestSpread | day_7/part_2/src/hand.rs:62-80 | the one- and four-joker branch keeps the strongest type over every spread of the jokers onto every card |
| JokerCards.BestSplit | day_7/part_2/src/hand.rs:85-96 | the two-joker branch keeps the strongest type of the three splits `(n1, 2 - n1)` |
| JokerCards.KeyOrderSize | day_7/part_2/src/hand.rs:85-86 | the key order lists each key of the bins once |
| JokerCards.SumOverAtLeast | day_7/part_2/src/hand.rs:85-96 | cards present at least once each add at least one per key |
| JokerCards.SumOverAgree | day_7/part_2/src/hand.rs:85-96 | the sum over keys depends only on the counts of those keys |
| JokerCards.TwoJokerSplits | day_7/part_2/src/hand.rs:85-96 | three other cards of one, two or three kinds make five of a kind, four of a kind or three of a kind, in every key order |
| JokerCards.SplitsOneKind | day_7/part_2/src/hand.rs:85-96 | one other kind: the splits give five of a kind |
| JokerCards.SplitsTwoKinds | day_7/part_2/src/hand.rs:85-96 | two other kinds: the splits give four of a kind, whichever kind comes first |
| JokerCards.TwoKindsSplitTypes | day_7/part_2/src/hand.rs:85-96 | with two other kinds, the split that brings the single card to four is four of a kind, and the other two splits are full houses |
| JokerCards.SplitsThreeKinds | day_7/part_2/src/hand.rs:85-96 | three other kinds: the splits give three of a kind |
| JokerCards.OtherCardsSumToThree | day_7/part_2/src/hand.rs:85-96 | a five-card hand with two jokers has three other cards, each kind present at least once |
| JokerCards.JokerBin | day_7/part_2/src/hand.rs:85-96 | removing the joker key removes one kind |
| JokerCards.TwoJokers | day_7/part_2/src/hand.rs:85-96 | two jokers in a five-card hand: five, four or three of a kind for one, two or three other kinds, never weaker than the plain classification |
| JokerCards.TwoJokersAnyOrder | day_7/part_2/src/hand.rs:85-96 | the two-joker result does not depend on the `HashMap` key order |
| JokerCards.BestOfKeysIsStrongest | day_7/part_2/src/hand.rs:63-79 | for a fixed number of jokers spent, the best candidate exists exactly when there is a card, and is at least as strong as each card's candidate |
| JokerCards.BestOfKeysIsCandidate | day_7/part_2/src/hand.rs:63-79 | the best candidate is the candidate of one of the cards |
| JokerCards.BestBelowIsMinimum | day_7/part_2/src/hand.rs:62-80 | over every spread, the best exists exactly when a card and a spread do, and beats or ties every candidate, so `HashMap` key order does not change it |
| JokerCards.BestBelowIsCandidate | day_7/part_2/src/hand.rs:62-80 | the best over every spread is itself one of the candidates |
| JokerCards.NoJokers | day_7/part_2/src/hand.rs:83-84 | without a joker the type is the plain classification |
| JokerCards.JokersNeverWeaken | day_7/part_2/src/hand.rs:62-80 | with one or four jokers and another card, the result never panics and is never weaker than the plain classification |
| JokerCards.ThreeJokers | day_7/part_2/src/hand.rs:97-104 | three jokers: five of a kind with at most one other kind of card, otherwise four of a kind, never weaker than the plain classification |
| JokerCards.OnlyJokers | day_7/part_2/src/hand.rs:62-96 | five jokers are five of a kind; one, two or four jokers and no other card panic |
| JokerCards.OneJokerFourAces | day_7/part_2/src/hand.rs:225-229 | the test: four aces and a joker make five of a kind |
| JokerCards.TwoJokersThreeAces | day_7/part_2/src/hand.rs:232-236 | the test: three aces and two jokers make five of a kind |
| JokerCards.FiveJokers | day_7/part_2/src/hand.rs:239-243 | the test: five jokers make five of a kind |
| JokerCards.OneJokerTwoPairs | day_7/part_2/src/hand.rs:253-257 | the test: two pairs and a joker make a full house |
| JokerCards.OneJokerOnePair | day_7/part_2/src/hand.rs:267-271 | the test: a pair, two singles and a joker make three of a kind |
| JokerCards.ThreeJokersTwoKinds | day_7/part_2/src/hand.rs:274-278 | the test: three jokers with two other kinds make four of a kind |
| JokerCards.NewJokerHand | day_7/part_2/src/hand.rs:42-54 | the hand keeps its cards and bins and takes the joker classification, or panics where that does |
| CamelWinnings.ParseWellFormedLine | day_7/part_1/src/main.rs:12-25 | the line `<cards> <digits>` reads as those cards and the value of those digits |
| CamelWinnings.ParseLines | day_7/part_1/src/main.rs:11-26 | every line parses, or the first bid that fails to parse panics; the plays are in line order |
| CamelWinnings.Entries | day_7/part_1/src/main.rs:19 | each play becomes a hand built with `Hand::new`, keeping its bid, in line order |
| CamelWinnings.CompareEntriesAntisymmetric | day_7/part_1/src/main.rs:27 | the `(Hand, usize)` comparison never panics on well-formed entries, and swapping them reverses it |
| CamelWinnings.CompareEntriesTransitive | day_7/part_1/src/main.rs:27 | "not `Greater`" between entries chains |
| CamelWinnings.Insert | day_7/part_1/src/main.rs:27 | inserting adds exactly the one entry |
| CamelWinnings.InsertSorted | day_7/part_1/src/main.rs:27 | inserting into a sorted sequence keeps it sorted |
| CamelWinnings.Sort | day_7/part_1/src/main.rs:27 | `sort_by` gives a permutation of its input |
| CamelWinnings.SortSorted | day_7/part_1/src/main.rs:27 | `sort_by` gives a sequence in ascending order, strongest hand first |
| Text.Reversed | day_7/part_1/src/main.rs:28 | `reverse` puts element `i` at position `n - 1 - i` |
| CamelWinnings.ReversedMultiset | day_7/part_1/src/main.rs:28 | reversing keeps the entries |
| CamelWinnings.ReversedDescending | day_7/part_1/src/main.rs:28 | reversing a sorted sequence orders it weakest first |
| CamelWinnings.RankedWeakestFirst | day_7/part_1/src/main.rs:27-28 | after sort and reverse: the input's entries, with no entry comparing `Less` than a later one |
| CamelWinnings.SumWinnings | day_7/part_1/src/main.rs:29-32 | the loop adds bid times rank, with position `i` at rank `i + 1` |
| CamelWinnings.TotalWinnings | day_7/part_1/src/main.rs:27-32 | the total is the score of the sorted, reversed entries |
| CamelWinnings.SingleHand | day_7/part_1/src/main.rs:27-32 | a single hand wins its bid |
| CamelWinnings.ScoreAtLeastBids | day_7/part_1/src/main.rs:29-32 | the winnings are at least the sum of the bids |
| CamelWinnings.Winnings | day_7/part_1/src/main.rs:6-33 | the printed total over the non-empty lines, or the panic of a bid that fails to parse |
| RangeMaps.InRange | day_5/part_1/src/ratio.rs:55-57 | the lower bound is included and the upper is not; a range of length 0 or less holds nothing |
| RangeMaps.MapValue | day_5/part_1/src/ratio.rs:29-36 | an error exactly outside the range; inside it, the value keeps its distance from the start of the interval |
| RangeMaps.MapValueOffset | day_5/part_1/src/ratio.rs:29-36 | the `k`-th value of the source interval maps to the `k`-th value of the destination interval |
| RangeMaps.MapValueInjective | day_5/part_1/src/ratio.rs:29-36 | two values one ratio maps to the same place are equal |
| RangeMaps.ParseAllFacts | day_5/part_1/src/ratio.rs:38-43 | collecting succeeds exactly when every token parses, giving the values in order; otherwise the error names a token that does not parse |
| RangeMaps.FromString | day_5/part_1/src/ratio.rs:37-54 | a ratio is read from the first three whitespace-separated tokens, destination, source and length in that order, and `LessThanThreeParts` is returned only for fewer than three tokens (`FromStringFacts` states every outcome) |
| RangeMaps.FromStringFacts | day_5/part_1/src/ratio.rs:37-54 | a ratio is read exactly when every token is an integer and there are at least three; parse errors are reported before the count; the ratio is the first three integers |
| RangeMaps.InRangeExamples | day_5/part_1/src/ratio.rs:91-131 | the six `in_range` boundary tests |
| RangeMaps.MapValueExamples | day_5/part_1/src/ratio.rs:64-82 | under "50 98 2", 98 and 99 map to 50 and 51; under "52 50 48", 53 maps to 55 |
| RangeMaps.FromStringExample | day_5/part_1/src/ratio.rs:133-137 | the `from_string` test: "50 98 2" is destination 50, source 98, length 2 |
| SeedLocations.AfterLastColon | day_5/part_2/src/main.rs:15-18 | `split(':').last()` contains no colon |
| SeedLocations.ParseSeedsFacts | day_5/part_2/src/main.rs:19-25 | the seeds parse exactly when every token does, giving their values in order; otherwise `expect` panics |
| SeedLocations.Pairs | day_5/part_2/src/main.rs:26-33 | `batching` pairs neighbouring numbers and drops an unpaired last one |
| SeedLocations.Span | day_5/part_2/src/main.rs:34 | `a..a+b` holds `a`, `a + 1`, …, and is empty when `b` is not positive |
| SeedLocations.ExpandContains | day_5/part_2/src/main.rs:26-34 | a seed is produced exactly when it lies in one of the pairs' ranges |
| SeedLocations.Images | day_5/part_2/src/main.rs:77-79 | a value has at most as many images as the table has ratios |
| SeedLocations.ImagesNone | day_5/part_2/src/main.rs:77-79 | a value no ratio holds has no image |
| SeedLocations.ImagesLast | day_5/part_2/src/main.rs:77-80 | the last image comes from the last ratio that holds the value |
| SeedLocations.ImagesFrom | day_5/part_2/src/main.rs:77-79 | every image collected for a value comes from a ratio whose range holds the value, shifted by that ratio's offset |
| SeedLocations.Stage | day_5/part_2/src/main.rs:75-82 | a stage either keeps the value or moves it by the offset of a ratio whose range holds it (which ratio wins is `StageLastMatch`) |
| SeedLocations.StageLastMatch | day_5/part_2/src/main.rs:75-82 | a stage maps a value by the last ratio whose range holds it |
| SeedLocations.StageNoMatch | day_5/part_2/src/main.rs:81 | a stage leaves a value that no ratio holds unchanged |
| SeedLocations.Locations | day_5/part_2/src/main.rs:74-130 | every seed is pushed through all the stages in order |
| SeedLocations.Min | day_5/part_2/src/main.rs:131 | `min` returns a member that is no greater than any member |
| SeedLocations.LowestOverSeeds | day_5/part_2/src/main.rs:74-132 | the answer is the location of one of the seeds, and no seed has a lower location |
| SeedLocations.TableStep | day_5/part_2/src/main.rs:138-151 | a blank line ends a table, and any other line adds the ratio it holds, if any |
| SeedLocations.TableAtFirstBlank | day_5/part_2/src/main.rs:136-154 | a table holds, in order, the ratios of the lines before the first blank line, and the lines after the blank line remain |
| SeedLocations.TableWithoutBlank | day_5/part_2/src/main.rs:139 | input with no blank line runs out, and `expect` panics |
| SeedLocations.MakeRatios | day_5/part_2/src/main.rs:136-154 | the popping loop reads the table its specification describes |
| SeedLocations.Tables | day_5/part_2/src/main.rs:41-72 | reading `count` tables successfully gives `count` stages |
| SeedLocations.LoadTables | day_5/part_2/src/main.rs:41-72 | the seven `make_ratios` calls read the tables one after the other |
| SeedLocations.Lowest | day_5/part_2/src/main.rs:8-133 | the program prints the lowest location, or panics where it does |
| Observations.ParseTokens | day_9/part_1/src/observations.rs:7-10 | parsing succeeds exactly when every trimmed token parses, giving one value per token in order |
| Observations.FromLine | day_9/part_1/src/observations.rs:6-14 | a parsed line gives a non-empty history with one value per space-separated token |
| Observations.FromLineNonEmpty | day_9/part_1/src/observations.rs:6-14 | a line that parses holds at least one reading |
| Observations.ReduceSeries | day_9/part_1/src/observations.rs:31-33 | the differences are one fewer than the readings |
| Observations.ReduceSeriesAt | day_9/part_1/src/observations.rs:31-33 | difference `i` is reading `i + 1` minus reading `i` |
| Observations.ReduceZero | day_9/part_1/src/observations.rs:31-33 | the differences of an all-zero series are all zero |
| Observations.ReduceAppend | day_9/part_1/src/observations.rs:31-33 | one more reading adds one more difference at the end |
| Observations.ExtrapolateForward | day_9/part_1/src/observations.rs:16-29 | the loop terminates and returns the last reading plus the last element of each difference level |
| Observations.Next | day_9/part_1/src/observations.rs:16-29 | the prediction panics exactly on an empty history, and a history whose differences are all zero predicts its last value again (`NextExtendsDifferences` and `NextArithmetic` give the general case) |
| Observations.NextExtendsDifferences | day_9/part_1/src/observations.rs:16-29 | the extrapolated reading extends the series consistently: the new last difference is the extrapolation of the differences |
| Observations.ArithmeticDifferences | day_9/part_1/src/observations.rs:31-33 | a series growing by a fixed step has that step as every difference |
| Observations.NextArithmetic | day_9/part_1/src/observations.rs:16-29 | a series growing by a fixed non-zero step continues with that step |
| Observations.NextConstant | day_9/part_1/src/observations.rs:16-29 | a constant series continues with its value |
| Observations.ExampleLevels | day_9/part_1/src/observations.rs:61-66 | the difference levels of the test series "10 13 16 21 30 45" |
| Observations.NextExample | day_9/part_1/src/observations.rs:61-66 | the test: "10 13 16 21 30 45" continues with 68 |
| Observations.ArithmeticExamples | day_9/part_1/src/observations.rs:40-52 | the straight-line tests of part 1: "1 2 3 4" continues with 5 and "1 3 5 7" with 9 |
| Observations.PreviousArithmeticExamples | day_9/part_2/src/observations.rs:45-65 | the straight-line tests of part 2: "1 2 3 4" was preceded by 0, "1 3 5 7" by -1 and "0 3 6 9 12 15" by -3 |
| Observations.ReduceBackAlternating | day_9/part_2/src/observations.rs:29-34 | `rev().reduce(\|a, b\| b - a)` of a non-empty list is its alternating difference |
| Observations.ExtrapolateBackward | day_9/part_2/src/observations.rs:16-35 | the loop of part 2, as written, including its panic |
| Observations.Previous | day_9/part_2/src/observations.rs:16-35 | the backward prediction panics exactly on an empty history, and a history whose differences are all zero predicts its first value again (`PreviousAgrees` and `PreviousIsNextOfReverse` give the general case) |
| Observations.ConstantSeriesPanics | day_9/part_2/src/observations.rs:19-34 | part 2 panics on "5 5 5", although the previous reading is 5 (see Findings) |
| Observations.PreviousAgrees | day_9/part_2/src/observations.rs:16-35 | where part 2 does not panic, it computes the corrected `Previous` |
| Observations.PreviousIsNextOfReverse | day_9/part_2/src/observations.rs:16-35 | looking back is looking forward over the reversed series, so part 2 is part 1 mirrored |
| Observations.ReduceReverse | day_9/part_2/src/observations.rs:37-39 | the differences of the reversed series are the reversed differences, negated |
| Observations.ReduceNegate | day_9/part_2/src/observations.rs:37-39 | the differences of the negated series are the negated differences |
| Observations.SumLastsReverse | day_9/part_2/src/observations.rs:16-35 | going forward over the reversed series adds the negated alternating sum of the first elements |
| Observations.PreviousArithmetic | day_9/part_2/src/observations.rs:16-35 | a series growing by a fixed non-zero step was preceded by its first reading less that step, and part 2 does not panic on it |
| Observations.PreviousExample | day_9/part_2/src/observations.rs:74-79 | the test: "10 13 16 21 30 45" was preceded by 5 |
| Observations.TriangleLevels | day_9/part_1/src/observations.rs:54-59 | the difference levels of "1 3 6 10 15 21" reach zero at the third level |
| Observations.TriangleExample | day_9/part_1/src/observations.rs:54-59 | "1 3 6 10 15 21" continues with 28 and, read by part 2 (day_9/part_2/src/observations.rs:67-72), was preceded by 0 |
| ScratchCards.Parsed | day_4/part_2/src/ticket.rs:40-45 | `filter_map` over `parse().ok()` keeps at most one number per token |
| ScratchCards.ParsedMembers | day_4/part_2/src/ticket.rs:40-45 | a value is collected exactly when some token parses to it |
| ScratchCards.ParsedExample | day_4/part_2/src/ticket.rs:40-45 | the tokens "Card" and "12" give just 12 |
| ScratchCards.GetNumbersExample | day_4/part_2/src/ticket.rs:40-45 | "Card 12" holds the single number 12, because the word is dropped |
| ScratchCards.FromString | day_4/part_1/src/ticket.rs:25-31 | reading succeeds exactly when splitting on ':' and '\|' gives at least three parts; with fewer, the index panics |
| ScratchCards.CardFromString | day_4/part_2/src/ticket.rs:30-37 | reading also needs a number before ':' for the id (otherwise `unwrap` panics), and the numbers are part 1's |
| ScratchCards.WinningNumbers | day_4/part_2/src/ticket.rs:27-29 | the winning own numbers are no more than the own numbers |
| ScratchCards.WinningNumbersCount | day_4/part_2/src/ticket.rs:27-29 | each winning number occurs as often as among the own numbers, and no other number occurs |
| ScratchCards.CalculateWorth | day_4/part_1/src/ticket.rs:13-24 | the counting loop returns 0 without a match, and otherwise 2 to the power of one less than the number of matches; part 2 (day_4/part_2/src/ticket.rs lines 15-26) is the same code |
| ScratchCards.Worth | day_4/part_1/src/ticket.rs:13-24 | a card is worth nothing exactly when none of its numbers wins, and otherwise twice its worth is 2 to the number of matches (`WorthShape`) |
| ScratchCards.WorthShape | day_4/part_1/src/ticket.rs:13-24 | the worth is 0 exactly when there is no match, and otherwise a power of two |
| ScratchCards.WorthOfOneMore | day_4/part_1/src/ticket.rs:13-24 | one more matching own number doubles a non-zero worth, and turns a zero worth into 1 |
| ScratchCards.WorthOfMiss | day_4/part_1/src/ticket.rs:13-24 | an own number that is not winning leaves the worth unchanged |
| ScratchCards.WorthExamples | day_4/part_2/src/ticket.rs:51-84 | the five worth tests |
| ScratchCards.ParseCards | day_4/part_2/src/main.rs:8-12 | the lines read as cards exactly when each one does, in order; otherwise `from_string` panics |
| ScratchCards.Table | day_4/part_2/src/main.rs:8-13 | every key of the table is the id of some card |
| ScratchCards.TableHoldsLast | day_4/part_2/src/main.rs:8-13 | every card's id is a key, holding the last card with that id |
| ScratchCards.Copies | day_4/part_2/src/main.rs:16-22 | every card present accounts for at least its own instance |
| ScratchCards.PendingConcat | day_4/part_2/src/main.rs:14-22 | the instances a queue accounts for are the sum over its two halves |
| ScratchCards.PendingPermutation | day_4/part_2/src/main.rs:14 | the count does not depend on the queue's order, which is `HashMap` order |
| ScratchCards.PendingRemove | day_4/part_2/src/main.rs:17 | popping an entry takes away exactly what it accounts for |
| ScratchCards.PendingAtLeastLength | day_4/part_2/src/main.rs:14-22 | every queued card is counted at least once |
| ScratchCards.PushWins | day_4/part_2/src/main.rs:19-21 | the inner loop pushes the won ids after the queue, and panics exactly when one is missing; when it succeeds, the pending count changes by the popped card's copies less one |
| ScratchCards.PopRound | day_4/part_2/src/main.rs:17-21 | one round pops the last card, keeps the rest of the queue in place, and panics exactly when a card it wins is missing; otherwise the pending count drops by one |
| ScratchCards.CountInstances | day_4/part_2/src/main.rs:14-23 | the printed count is the number of instances the starting queue accounts for; with every card queued, it panics exactly when some won card is missing |
| BoatRace.CalculateDistance | day_6/part_1/src/race.rs:20-24 | a button held longer than the race underflows and panics; otherwise the distance is defined |
| BoatRace.WinsRace | day_6/part_1/src/race.rs:15-18 | a strategy wins exactly when it goes strictly farther than the record |
| BoatRace.DistanceSymmetric | day_6/part_1/src/race.rs:20-24 | holding for `b` goes as far as holding for `time - b`; holding for none or all of the race goes nowhere |
| BoatRace.DistanceAtMostSquare | day_6/part_1/src/race.rs:20-24 | four times any distance is at most the race time squared |
| BoatRace.RaceExamples | day_6/part_1/src/race.rs:31-92 | the nine tests of `wins_race` and `calculate_distance` |
| BoatRace.WinnersBelow | day_6/part_1/src/main.rs:27-29 | the listed button times lie in `1..n`, each wins, and they strictly increase, so there are at most `n - 1` of them |
| BoatRace.WinnersBelowMembers | day_6/part_1/src/main.rs:27-29 | a button time is listed exactly when it lies in `1..n` and wins |
| BoatRace.WinningCount | day_6/part_1/src/main.rs:26-31 | a race has at most `time - 1` winning button times |
| BoatRace.WinnersSymmetric | day_6/part_1/src/main.rs:27-29 | if `b` wins, so does `time - b` |
| BoatRace.WinnersBounds | day_6/part_1/src/main.rs:27-29 | no strategy wins when four times the record is at least the time squared; holding for 1 wins when the record is below `time - 1` |
| BoatRace.NatTokens | day_6/part_1/src/main.rs:14-15 | `filter_map` over the parse keeps at most one number per token; when every token parses it keeps all of them, in order, with their values, and when none parses it keeps nothing |
| BoatRace.Zip | day_6/part_1/src/main.rs:24 | `zip` pairs by position up to the shorter list |
| BoatRace.ProductZero | day_6/part_1/src/main.rs:25-31 | the product is 0 exactly when some race cannot be won |
| BoatRace.ProductZeroWinners | day_6/part_1/src/main.rs:25-31 | the product is 0 exactly when some race has no winning button time at all |
| BoatRace.MultiplyWays | day_6/part_1/src/main.rs:7-31 | the program panics exactly when no non-empty line is read |
| BoatRace.MultiplyWaysZero | day_6/part_1/src/main.rs:7-31 | with a non-empty line, the answer is the product over the races zipped from the first and last non-empty lines, and it is 0 exactly when one of those races has no winning button time |
| BoatRace.RaceWays | day_6/part_2/src/main.rs:8-26 | an answer exists exactly when both the time and the record lines read as one number each; it is then the number of winning button times of that race, at most the time |
| BoatRace.CountWays | day_6/part_2/src/main.rs:7-28 | no non-empty line panics; otherwise the answer is that of the race whose time is read from the first non-empty line and whose record from the last |
| BoatRace.KerningExample | day_6/part_2/src/main.rs:8-14 | "Time: 7  15   30" reads as the single number 71530 |
| Wasteland.ParseLine | day_8/part_1/src/main.rs:46-54 | a parsed name contains no '='; the neighbours contain no ',' and do not start or end with a bracket or a space |
| Wasteland.ParseLineNeedsEquals | day_8/part_1/src/main.rs:47-49 | a line without '=' panics on `parts[1]` |
| Wasteland.SplitFormat | day_8/part_1/src/main.rs:47 | a node line splits at '=' into the padded name and the neighbours |
| Wasteland.SplitNeighbours | day_8/part_1/src/main.rs:49-50 | the neighbours split at ',' into the two padded names |
| Wasteland.TrimName | day_8/part_1/src/main.rs:48 | trimming the name part gives the name |
| Wasteland.TrimNeighbour | day_8/part_1/src/main.rs:51 | stripping brackets and spaces gives each neighbour's name |
| Wasteland.ParseFormat | day_8/part_1/src/main.rs:46-54 | a node line written as "NAME = (LEFT, RIGHT)" parses back to that node |
| Wasteland.ParseLineExample | day_8/part_1/src/main.rs:46-54 | "AAA = (BBB, CCC)" parses as node AAA with neighbours BBB and CCC |
| Wasteland.ParseAll | day_8/part_1/src/main.rs:22-25 | every node line parses, in order, or the first line that does not panics |
| Wasteland.NodeMap | day_8/part_1/src/main.rs:21-25 | the keys of the table are exactly the parsed names |
| Wasteland.NodeMapLast | day_8/part_1/src/main.rs:24 | a name defined more than once keeps its last definition |
| Wasteland.NonBlank | day_8/part_1/src/main.rs:13-15 | the instructions are the characters of the first line that are not whitespace |
| Wasteland.NonBlankKeeps | day_8/part_1/src/main.rs:13-15 | an instruction line without whitespace is kept as it is |
| Wasteland.AtGoal | day_8/part_2/src/main.rs:42 | `chars().last().unwrap()` panics only on an empty name; part 1's goal is exactly "ZZZ" (day_8/part_1/src/main.rs line 39) |
| Wasteland.NodeAfter | day_8/part_1/src/main.rs:29-37 | after zero steps the walk is at its start |
| Wasteland.FirstGoalUnique | day_8/part_1/src/main.rs:29-42 | the step count of a walk is determined by its start |
| Wasteland.WalkFrom | day_8/part_1/src/main.rs:29-42 | the loop over `cycle()` returns the first step that lands on a goal, or panics on the first missing node, and never passes a goal |
| Wasteland.NodeLinesAsWritten | day_8/part_1/src/main.rs:17-18 | part 1 as written drops the first line after the instructions (see Findings) |
| Wasteland.NodeLines | day_8/part_2/src/main.rs:19-22 | every non-empty line after the instructions is a node line |
| Wasteland.ReadPuzzleAsWritten | day_8/part_1/src/main.rs:5-25 | a puzzle is read only from input with a non-empty line |
| Wasteland.ReadPuzzle | day_8/part_2/src/main.rs:5-22 | a puzzle is read only from input with a non-empty line |
| Wasteland.ReadPuzzleSome | day_8/part_2/src/main.rs:5-22 | input whose node lines all parse is read |
| Wasteland.ReadPuzzleHoldsEveryNode | day_8/part_2/src/main.rs:19-22 | the table holds every node the input defines |
| Wasteland.FirstNodeLost | day_8/part_1/src/main.rs:17-25 | with the first node defined only once, part 1 as written lacks it, and the corrected reading has it |
| Wasteland.MissingStartPanics | day_8/part_1/src/main.rs:30-32 | a walk from a node that is not in the table panics on its first step |
| Wasteland.StepsToZZZ | day_8/part_1/src/main.rs:27-43 | the printed count is the first step that reaches "ZZZ", and is printed exactly when the walk reaches it within the fuel; it panics exactly when a missing node comes first, and runs out of fuel exactly when neither happens |
| Wasteland.WalkEndsOnce | day_8/part_1/src/main.rs:29-42 | a walk ends in at most one way: reaching the goal, panicking on a missing node, or running out of fuel |
| Wasteland.StartNodes | day_8/part_2/src/main.rs:24-28 | the start nodes are exactly the names ending in 'A', and the filter panics on an empty name |
| Wasteland.StepsToAllZ | day_8/part_2/src/main.rs:24-50 | each start's count is its first arrival at a name ending in 'Z'; the first start that gets no count never arrives, and the run panics or runs out of fuel exactly as that start's walk does; when every start arrives, the printed answer is their `lcm`, or the `lcm` panic |
| Wasteland.Gcd | day_8/part_2/src/main.rs:62-67 | the result is 0 only when both arguments are 0 |
| Wasteland.GcdDivides | day_8/part_2/src/main.rs:62-67 | the result divides both arguments |
| Wasteland.GcdGreatest | day_8/part_2/src/main.rs:62-67 | every common divisor divides the result |
| Wasteland.Lcm | day_8/part_2/src/main.rs:53-60 | an empty slice panics on `nums[0]` |
| Wasteland.PairMultiple | day_8/part_2/src/main.rs:59 | `a * b / gcd(a, b)` is a multiple of both `a` and `b` |
| Wasteland.LcmCommonMultiple | day_8/part_2/src/main.rs:53-60 | every number of the slice divides the result |
| Wasteland.LcmPositive | day_8/part_2/src/main.rs:53-60 | positive step counts always have a positive `lcm` |
| Wasteland.LcmExamples | day_8/part_2/src/main.rs:53-67 | gcd(12, 18) is 6; the lcm of 2, 3 and 4 is 12; the lcm of 0 and 0 divides by zero |
| Galaxies.Doubled | day_11/part_1/src/main.rs:37-45 | the lines are the input's lines plus one more for each line that holds only '.' |
| Galaxies.DuplicateEmpty | day_11/part_1/src/main.rs:37-45 | the pushing loop over rows, and the same loop over columns (lines 52-59), give each line, with a second copy of each line that holds only '.' |
| Galaxies.DoubledAppend | day_11/part_1/src/main.rs:37-45 | doubling works line by line |
| Galaxies.DoubledIndex | day_11/part_1/src/main.rs:37-45 | line `i` lands at `i` plus the number of empty lines before it, and an empty line's copy follows it at once |
| Galaxies.DoubledLines | day_11/part_1/src/main.rs:37-45 | doubling adds no line that was not in the input |
| Galaxies.DoubledRectangular | day_11/part_1/src/main.rs:47-49 | doubling keeps every row the image's width, so `from_shape_vec` succeeds |
| Galaxies.Transpose | day_11/part_1/src/main.rs:53 | `t().outer_iter()` gives the columns: cell `(j, i)` is cell `(i, j)` |
| Galaxies.TransposeTwice | day_11/part_1/src/main.rs:53 | transposing twice gives the grid back |
| Galaxies.Reshape | day_11/part_1/src/main.rs:15-16 | `from_shape_vec` cuts the cells into rows of the given width and loses none |
| Galaxies.ReshapeSome | day_11/part_1/src/main.rs:15-16 | cutting succeeds exactly when the number of cells fits the shape; otherwise `expect` panics |
| Galaxies.ReshapeConcat | day_11/part_1/src/main.rs:47-49 | cutting the concatenation of equal rows gives the rows back |
| Galaxies.FlattenColumns | day_11/part_1/src/main.rs:66-71 | `flatten_columns_correctly` panics exactly on an empty list of columns |
| Galaxies.FlattenFromIndex | day_11/part_1/src/main.rs:66-71 | cell `(i, j)` of the output is cell `i` of column `j` |
| Galaxies.FlattenFromRows | day_11/part_1/src/main.rs:60-63 | cut into rows, the flattened columns are the transposed grid, so the result is in row-major order |
| Galaxies.ExpandMatrix | day_11/part_1/src/main.rs:34-64 | `expand_matrix` doubles the empty rows, then the empty columns of the result; a grid without columns panics |
| Galaxies.ColumnsOfDoubled | day_11/part_1/src/main.rs:47-59 | doubling the rows leaves every column exactly as empty as it was |
| Galaxies.InExpanded | day_11/part_1/src/main.rs:34-64 | cell `(r, c)` reappears shifted down by the empty rows above it and right by the empty columns to its left |
| Galaxies.ExpansionExample | day_11/part_1/src/main.rs:78-83 | the test: the row ".#" becomes "..#" |
| Galaxies.EmptyIndexes | day_11/part_2/src/main.rs:35-47 | there is one index per line that holds only '.' |
| Galaxies.EmptyIndexesMembers | day_11/part_2/src/main.rs:35-47 | the indexes are exactly the positions of the lines holding only '.', in increasing order |
| Galaxies.EmptyIndexesExample | day_11/part_2/src/main.rs:83-97 | the two tests on rows of two cells: no empty row in ".#", and column 0 empty |
| Galaxies.CountAtMost | day_11/part_2/src/main.rs:61-70 | `filter(n <= v).count()` is at most the number of indexes |
| Galaxies.CountAtMostPrefix | day_11/part_2/src/main.rs:61-70 | the empty lines up to position `y` are the empty lines among the first `y + 1` |
| Galaxies.CountBeforeGalaxy | day_11/part_2/src/main.rs:61-70 | at a line holding a galaxy, the count is the number of empty lines strictly before it |
| Galaxies.AsUsize | day_11/part_2/src/main.rs:63 | `as usize` keeps a non-negative `isize` unchanged |
| Galaxies.ExpandCoordinate | day_11/part_2/src/main.rs:55-75 | a galaxy only moves right and down, and with no empty line it stays put |
| Galaxies.ExpandKeepsOrder | day_11/part_2/src/main.rs:55-75 | expansion keeps the strict order of non-negative coordinates, column by column and row by row |
| Galaxies.CountAtMostMonotone | day_11/part_2/src/main.rs:61-70 | the number of empty lines at or before a position never decreases as the position grows |
| Galaxies.MulMonotone | day_11/part_2/src/main.rs:65 | multiplying by the expansion factor keeps the order |
| Galaxies.ExpandCoordinateExample | day_11/part_2/src/main.rs:131-143 | the two `expand_coordinate` tests |
| Galaxies.GalaxyMoves | day_11/part_2/src/main.rs:55-75 | with factor 1, part 2 moves each galaxy onto a galaxy of part 1's expanded grid |
| Galaxies.GalaxyCellsInside | day_11/part_1/src/main.rs:19-28 | every listed galaxy is a cell of the image that holds '#' |
| Galaxies.MovedCells | day_11/part_1/src/main.rs:34-64 | one moved cell per galaxy |
| Galaxies.EmptyCountPrefix | day_11/part_1/src/main.rs:37-45 | a longer prefix has at least as many empty lines |
| Galaxies.MovedKeepsOrder | day_11/part_1/src/main.rs:34-64 | moving the galaxies keeps their row-major order |
| Galaxies.DoubledSource | day_11/part_1/src/main.rs:37-45 | each line of the doubled image copies an input line, and a non-empty line sits after the empty lines before it have been doubled |
| Galaxies.ExpandedSource | day_11/part_1/src/main.rs:34-64 | every '#' of the expanded image comes from a galaxy, moved down by the empty rows above it and right by the empty columns to its left |
| Galaxies.ExpandedCell | day_11/part_1/src/main.rs:47-63 | a cell of the expanded image is the transposed cell of the doubled columns of the doubled rows |
| Galaxies.DoubledColumnsSource | day_11/part_1/src/main.rs:47-59 | every '#' after both doublings comes from a galaxy, moved by the empty rows above and the empty columns to its left |
| Galaxies.ColumnSource | day_11/part_1/src/main.rs:52-59 | every '#' after doubling the columns comes from a '#' of the same row, moved right by the empty columns to its left |
| Galaxies.TallSource | day_11/part_1/src/main.rs:37-45 | every '#' after doubling the rows comes from a galaxy of the same column, moved down by the empty rows above it |
| Galaxies.MovedAt | day_11/part_1/src/main.rs:34-64 | a galaxy moved by the empty lines before it is one of the moved cells |
| Galaxies.MovedRowMajor | day_11/part_1/src/main.rs:34-64 | the moved cells are in strictly increasing row-major order |
| Galaxies.MovedInExpanded | day_11/part_1/src/main.rs:34-64 | every moved galaxy holds '#' in the expanded image |
| Galaxies.ExpandedInMoved | day_11/part_1/src/main.rs:34-64 | every '#' of the expanded image is a moved galaxy |
| Galaxies.ExpandedGalaxyCells | day_11/part_1/src/main.rs:19-64 | the galaxies of the expanded image are exactly the moved galaxies, in the same order, so expansion keeps their number |
| Galaxies.FactorOneMoves | day_11/part_2/src/main.rs:19-29 | with factor 1, part 2's coordinates are part 1's moved galaxies, in the same order, as (column, row) |
| Galaxies.PartsAgree | day_11/part_2/src/main.rs:19-31 | with factor 1, part 2's sum of distances equals part 1's |
| Galaxies.RowShift | day_11/part_2/src/main.rs:61-65 | a galaxy's row shift is the number of empty rows above it |
| Galaxies.ColumnShift | day_11/part_2/src/main.rs:66-70 | a galaxy's column shift is the number of empty columns to its left |
| Galaxies.Manhattan | day_11/part_1/src/main.rs:30 | the distance is 0 exactly between equal coordinates |
| Galaxies.PairsCount | day_11/part_1/src/main.rs:29 | `combinations(2)` of `n` galaxies gives `n (n - 1) / 2` pairs |
| Galaxies.PairsMembers | day_11/part_1/src/main.rs:29 | every pair of distinct positions is listed, the first position first |
| Galaxies.PairSumSwapped | day_11/part_2/src/main.rs:19-31 | the sum of distances does not depend on whether a galaxy is read as (row, column), as in part 1, or (column, row), as in part 2 |
| Galaxies.RowColumn | day_11/part_1/src/main.rs:19-28 | part 1 reads the galaxy at row `r`, column `c` as `Coordinate::new(r, c)` |
| Galaxies.SumOfShortestPaths | day_11/part_1/src/main.rs:8-31 | part 1 prints exactly when the input fills the 140 by 140 image, and prints the sum of distances over all pairs of galaxies of the expanded image |
| Galaxies.ExpandedGalaxies | day_11/part_2/src/main.rs:19-29 | there is one moved coordinate per galaxy |
| Galaxies.SumOfExpandedPaths | day_11/part_2/src/main.rs:8-32 | part 2 prints exactly when the input fills the 140 by 140 image |
| Galaxies.FactorZero | day_11/part_2/src/main.rs:55-75 | with factor 0 no galaxy moves |
| Engine.GetMatrices | day_3/part_1/src/main.rs:56-72 | one digit cell and one symbol flag per character. No cell is both a digit and a symbol. In part 1 a cell is one or the other exactly when it is not '.' (part 2's version is at day_3/part_2/src/main.rs:88-107) |
| Engine.MatricesExamples | day_3/part_1/src/main.rs:101-141 | the `get_matrices` tests on ".", "1", "#", "$" and "1$2" |
| Engine.DigitRow | day_3/part_1/src/main.rs:59-70 | the row holds, cell by cell, the digit of the character or nothing |
| Engine.SymbolGrid | day_3/part_1/src/main.rs:17-24 | the grid has the shape of the lines, and a cell is marked exactly when its character is a symbol |
| Engine.NearCells | day_3/part_1/src/main.rs:25 | a cell is near a symbol exactly when one of the nine cells of its 3 by 3 block is marked |
| Engine.SpreadAboveBelow | day_3/part_1/src/main.rs:74-83 | a new array of the same shape, in which a cell is valid exactly when it or the cell above or below it was valid; a neighbour off the grid counts as invalid |
| Engine.SpreadLeftRight | day_3/part_1/src/main.rs:85-94 | the same along the row, with the cells to the left and to the right |
| Engine.RunEnd | day_3/part_1/src/main.rs:32-47 | the digit run from `s` ends at the first empty cell or at the row end, and every cell before that end holds a digit |
| Engine.Runs | day_3/part_1/src/main.rs:32-51 | the runs start no earlier than the scan, lie within the row, and hold only digits |
| Engine.RunsIncreasing | day_3/part_1/src/main.rs:32-51 | the runs are listed left to right, each ending before the next begins, so none is added twice |
| Engine.RunsMembers | day_3/part_1/src/main.rs:32-51 | the runs listed are exactly the maximal digit runs |
| Engine.ScanClosed | day_3/part_1/src/main.rs:40-45 | an empty cell closes the current run: the run adds its number when one of its cells is valid, and the scan restarts after the empty cell |
| Engine.RunAtEnd | day_3/part_1/src/main.rs:49-51 | a run that reaches the row end adds its number when one of its cells is valid |
| Engine.ScanRow | day_3/part_1/src/main.rs:28-51 | one row of the scan adds each maximal digit run exactly once, when one of its cells is valid |
| Engine.NearRow | day_3/part_1/src/main.rs:25 | part 1's validity row: a cell is valid exactly when a symbol lies in its 3 by 3 block |
| Engine.ScanRows | day_3/part_1/src/main.rs:27-52 | the total is the sum of what each row adds with its own validity row |
| Engine.ReadSchematic | day_3/part_1/src/main.rs:12-24 | the arrays take the shape of the first line; reading succeeds exactly when every line has that length or length 1, the `assign` broadcast; then the numbers hold the digit row of each broadcast line and the symbol array marks exactly its symbols (part 2's version is at day_3/part_2/src/main.rs:17-29) |
| Engine.Broadcast | day_3/part_1/src/main.rs:20-23 | `assign` repeats a one-cell row across the whole row, and keeps a row of any other length |
| Engine.Widened | day_3/part_1/src/main.rs:17-24 | each line is broadcast to the width of the first line |
| Engine.WidenedFits | day_3/part_1/src/main.rs:12-24 | when every line fits, the broadcast lines all have the first line's length, and the first line is unchanged |
| Engine.BroadcastRow | day_3/part_1/src/main.rs:18-23 | broadcasting the digit and symbol rows of a line gives the rows of the broadcast line |
| Engine.AssignRow | day_3/part_1/src/main.rs:23 | `slice_mut(s![i, ..]).assign` sets row `i` to the flags and leaves every other row unchanged |
| Engine.BlankLinesIgnored | day_3/part_1/src/main.rs:9 | an empty line anywhere in the input changes neither part's answer |
| Engine.RaggedLines | day_3/part_1/src/main.rs:12-24 | a one-character second line is repeated across the row; a second line of any other wrong length makes both parts panic |
| Engine.SpreadIsNear | day_3/part_1/src/main.rs:25 | after both passes, a cell is valid exactly when a symbol lies in the 3 by 3 block around it |
| Engine.SumPartNumbers | day_3/part_1/src/main.rs:5-52 | the empty lines are dropped; a panic exactly when no line is left or a line has neither the first line's length nor length 1; otherwise the sum of the maximal digit runs next to a symbol in the broadcast schematic |
| Engine.PartNumbers | day_3/part_1/src/main.rs:5-52 | the answer is missing (the program panics) exactly when no non-empty line is read or the lines do not fit the first line's width; blank lines do not change it (`BlankLinesIgnored`, `RaggedLines`) |
| Engine.Places | day_3/part_2/src/main.rs:45 | the places of a run are its cells, left to right |
| Engine.RunPart | day_3/part_2/src/part.rs:1-13 | the part of a run covers one cell per digit |
| Engine.RestParts | day_3/part_2/src/main.rs:41-58 | every part found covers at least one cell |
| Engine.RunInRestParts | day_3/part_2/src/main.rs:41-58 | every maximal digit run becomes one of the parts |
| Engine.RestPartIsRun | day_3/part_2/src/main.rs:41-58 | every part is the part of a maximal digit run |
| Engine.PartsClosed | day_3/part_2/src/main.rs:47-53 | an empty cell turns a non-empty buffer into the next part, with the buffer's number and places |
| Engine.PartsAtEnd | day_3/part_2/src/main.rs:56-58 | at the row end a non-empty buffer becomes the last part of the row |
| Engine.PartsOf | day_3/part_2/src/main.rs:36-59 | every part of the schematic covers at least one cell |
| Engine.RunIsPart | day_3/part_2/src/main.rs:36-59 | every maximal digit run of every row, including one at the row end, is a part with its number and its cells |
| Engine.ScanParts | day_3/part_2/src/main.rs:37-59 | one row's loop finds exactly the parts of that row's runs, left to right |
| Engine.CollectParts | day_3/part_2/src/main.rs:36-59 | the loop over all rows finds exactly the parts of the schematic, row by row |
| Engine.DigitRows | day_3/part_2/src/main.rs:22-29 | one digit row per line, holding only digits or nothing |
| Engine.CloseIsNeighbour | day_3/part_2/src/main.rs:71 | a distance of at most 1.5 to the star is a squared distance of at most 2, which holds exactly for the cells of the 3 by 3 block around the star |
| Engine.MinDist | day_3/part_2/src/main.rs:65-70 | the minimum is at most the distance of every cell of the part, and is the distance of one of them |
| Engine.TouchesNeighbour | day_3/part_2/src/main.rs:65-73 | a part is next to a star exactly when one of its cells is in the star's 3 by 3 block |
| Engine.Adjacent | day_3/part_2/src/main.rs:64-74 | no more numbers are collected than there are parts |
| Engine.AdjacentMembers | day_3/part_2/src/main.rs:64-74 | a number is collected exactly when a part with that number is next to the star |
| Engine.GearRatio | day_3/part_2/src/main.rs:75-77 | a star with exactly two numbers next to it adds their product |
| Engine.GearSumFromGears | day_3/part_2/src/main.rs:61-79 | the sum is positive only if some star has exactly two parts next to it |
| Engine.SumGearRatios | day_3/part_2/src/main.rs:61-79 | the star loop computes the sum of the gear ratios over the stars |
| Engine.StarsListed | day_3/part_2/src/main.rs:31-34 | the stars listed are exactly the '*' cells |
| Engine.SumGearRatiosOf | day_3/part_2/src/main.rs:10-82 | the empty lines are dropped; a panic exactly when no line is left or a line has neither the first line's length nor length 1; otherwise the sum of the gear ratios of the stars of the broadcast schematic |
| Engine.GearRatios | day_3/part_2/src/main.rs:10-82 | the answer is missing (the program panics) exactly when no non-empty line is read or the lines do not fit the first line's width; blank lines do not change it (`BlankLinesIgnored`, `RaggedLines`) |
| Calibration.DigitChars | day_1/part_1/src/main.rs:10 | there are no more digits than characters |
| Calibration.DigitCharsDigits | day_1/part_1/src/main.rs:7-10 | only digits are collected by `[0-9]` |
| Calibration.DigitCharsAppend | day_1/part_1/src/main.rs:10 | the digits of two pieces put together are the digits of the first, then those of the second |
| Calibration.DigitCharsMembers | day_1/part_1/src/main.rs:10 | a character is collected exactly when it is a digit of the line |
| Calibration.TrimMatchesKeepsDigits | day_1/part_1/src/main.rs:9 | trimming characters that are not digits keeps every digit, in order |
| Calibration.TrimKeepsDigits | day_1/part_1/src/main.rs:9 | `trim` removes no digit |
| Calibration.TwoDigits | day_1/part_1/src/main.rs:12-17 | two digits written side by side parse as ten times the first plus the second |
| Calibration.LineValue | day_1/part_1/src/main.rs:9-18 | a line's value is below 100 |
| Calibration.LineValueDigits | day_1/part_1/src/main.rs:9-18 | a line without a digit adds 0; otherwise it adds ten times its first digit plus its last, and a line with the single digit `d` adds `dd` |
| Calibration.TotalBound | day_1/part_1/src/main.rs:8-19 | the total is at most 99 per line |
| Calibration.SumCalibrationValues | day_1/part_1/src/main.rs:4-21 | the loop's total is the sum of the line values |
| SpelledDigits.Lower | day_1/part_2/src/main.rs:41 | lower-casing keeps the length and lowers each character |
| SpelledDigits.ShiftsDifferNoOverlap | day_1/part_2/src/main.rs:20-28 | a word whose shifted copies differ from it cannot overlap itself |
| SpelledDigits.FindIterMembers | day_1/part_2/src/main.rs:44 | for a pattern that cannot overlap itself, `find_iter` lists exactly the matches that start at or after the search start |
| SpelledDigits.NoMatchInside | day_1/part_2/src/main.rs:44 | a word does not match again inside one of its own matches |
| SpelledDigits.PatternsWellFormed | day_1/part_2/src/main.rs:18-29 | each of the ten patterns is at least one character wide and cannot overlap itself |
| SpelledDigits.WordFacts | day_1/part_2/src/main.rs:30-40 | each word is at least three lower-case letters long, cannot overlap itself, and `number_map` takes it to its own digit |
| SpelledDigits.FindAllMembers | day_1/part_2/src/main.rs:42-45 | the `flat_map` lists a match exactly when it is a match of one of the patterns |
| SpelledDigits.HeadEarliest | day_1/part_2/src/main.rs:46-50 | the first of the sorted matches starts no later than any of them |
| SpelledDigits.ConsOrdered | day_1/part_2/src/main.rs:46 | a match that starts no later than every match of a sorted list may go in front of it |
| SpelledDigits.Insert | day_1/part_2/src/main.rs:46 | inserting keeps the list sorted by start and adds exactly that one match |
| SpelledDigits.SortByStart | day_1/part_2/src/main.rs:46 | `sort_by` the start returns the same matches, sorted by where they start |
| SpelledDigits.WordAt | day_1/part_2/src/main.rs:20-40 | a word spelled at a position stands for a digit from 1 to 9 |
| SpelledDigits.SpelledAt | day_1/part_2/src/main.rs:18-40 | what is written or spelled at a position is a digit from 0 to 9 |
| SpelledDigits.FirstFrom | day_1/part_2/src/main.rs:50 | the first position from `k` on where a digit is written or spelled. With none, there is no such position |
| SpelledDigits.LastBefore | day_1/part_2/src/main.rs:51 | the last position before `k` where a digit is written or spelled. With none, there is no such position |
| SpelledDigits.SpelledValue | day_1/part_2/src/main.rs:41-62 | a line's value is below 100 |
| SpelledDigits.WordsDistinct | day_1/part_2/src/main.rs:20-28 | any two words differ in their first two letters, so at most one is spelled at any position |
| SpelledDigits.WordAtFinds | day_1/part_2/src/main.rs:20-28 | a word that matches at a position is the word found there |
| SpelledDigits.WordAtMatches | day_1/part_2/src/main.rs:20-28 | the word found at a position matches there |
| SpelledDigits.FoundIsSpelled | day_1/part_2/src/main.rs:42-57 | every match found maps to one digit, which is the digit written or spelled where it starts |
| SpelledDigits.DigitNotWord | day_1/part_2/src/main.rs:54 | a one-character match is no key of `number_map`, so a digit stays as it is |
| SpelledDigits.WordMatch | day_1/part_2/src/main.rs:54-55 | a word's match maps to the digit that word spells |
| SpelledDigits.SpelledIsFound | day_1/part_2/src/main.rs:42-45 | wherever a digit is written or spelled, some match starts |
| SpelledDigits.SortedEnds | day_1/part_2/src/main.rs:46-52 | the first and last of the sorted matches are found matches, and start the earliest and the latest |
| SpelledDigits.EndsSpelled | day_1/part_2/src/main.rs:46-57 | the first and last sorted matches start at the first and last position where a digit is written or spelled, and map to those digits |
| SpelledDigits.NothingSpelled | day_1/part_2/src/main.rs:48-62 | without a match, no digit is written or spelled anywhere in the line |
| SpelledDigits.ParseTwoDigits | day_1/part_2/src/main.rs:58-60 | two one-digit texts side by side parse as ten times the first plus the second |
| SpelledDigits.MapToDigits | day_1/part_2/src/main.rs:53-57 | each of the two matched texts that is a number word is replaced by its digit, and any other text is kept |
| SpelledDigits.ExtractNumbersFromLine | day_1/part_2/src/main.rs:17-63 | the value of a line is ten times the first digit written or spelled in it plus the last, or 0 when there is none |
| SpelledDigits.SumSpelledValues | day_1/part_2/src/main.rs:6-15 | the loop's total is the sum of the line values |
| SpelledDigits.NothingAt | day_1/part_2/src/main.rs:18-29 | no digit is written or spelled at a non-digit too close to the end for a word, or one that cannot start a word |
| SpelledDigits.TwoNumbersExample | day_1/part_2/src/main.rs:68-72 | "f96xhv" is worth 96 |
| SpelledDigits.SpelledFirstExample | day_1/part_2/src/main.rs:80-84 | "six97" is worth 67 |
| SpelledDigits.OneNumberExample | day_1/part_2/src/main.rs:86-90 | "d6" is worth 66 |
| SpelledDigits.OverlappingLastExample | day_1/part_2/src/main.rs:99-103 | "1twone" is worth 11: the overlapping word "one" is the last digit |
| CubeGame.FromStrUpperName | day_2/part_2/src/game.rs:59 | upper-casing a colour word gives the name its `Colour` variant is read from |
| CubeGame.FromStr | day_2/part_2/src/game.rs:11-16 | a name is accepted only when it is the upper-case form of the colour's word |
| CubeGame.UpperNames | day_2/part_2/src/game.rs:59 | `to_uppercase` turns "blue", "green" and "red" into the variant names `BLUE`, `GREEN` and `RED` |
| CubeGame.NameLetters | day_2/part_2/src/game.rs:54 | the colour words hold no digit and no space |
| CubeGame.DigitRunEnd | day_2/part_2/src/game.rs:54 | the greedy `\d+` ends at the first non-digit, and every character before it is a digit |
| CubeGame.ColourAt | day_2/part_2/src/game.rs:54 | the colour found at a position has its word written there |
| CubeGame.AfterDigits | day_2/part_2/src/game.rs:54 | a match ends after the space and a whole colour word |
| CubeGame.MatchEnd | day_2/part_2/src/game.rs:54 | a match ends after its start and within the text |
| CubeGame.FindIter | day_2/part_2/src/game.rs:56 | every match reported is a match of the pattern, and the matches do not overlap and come left to right |
| CubeGame.NoMatchInside | day_2/part_2/src/game.rs:56 | a match ends with a letter, and no other match starts inside it |
| CubeGame.FindIterMembers | day_2/part_2/src/game.rs:56 | `find_iter` reports a match at exactly the positions where a draw is written |
| CubeGame.FindIterMatched | day_2/part_2/src/game.rs:56 | the step of the search where a match starts at the search position |
| CubeGame.FindIterUnmatched | day_2/part_2/src/game.rs:56 | the step of the search where no match starts at the search position |
| CubeGame.DrawsMembers | day_2/part_2/src/game.rs:53-63 | a draw is returned exactly when it is written somewhere in the trimmed text |
| CubeGame.ReadMatch | day_2/part_2/src/game.rs:57-59 | a match splits at its space into two parts: a number that parses, and a word whose upper-case form names the colour, so the loop body never panics |
| CubeGame.GetNumbersAndColours | day_2/part_2/src/game.rs:53-63 | the loop returns the draws of the trimmed text, left to right |
| CubeGame.TrimEnds | day_2/part_2/src/game.rs:56 | text that neither starts nor ends with whitespace is kept whole by `trim` |
| CubeGame.DrawsExampleOne | day_2/part_2/src/game.rs:73-77 | "5 blue" reads as the single draw (5, blue) |
| CubeGame.FindIterExampleTwo | day_2/part_2/src/game.rs:79-83 | "5 blue, 3 green" holds exactly two matches, at 0-6 and 8-15 |
| CubeGame.DrawAtExampleTwo | day_2/part_2/src/game.rs:79-83 | those two matches read as (5, blue) and (3, green) |
| CubeGame.DrawsExampleTwo | day_2/part_2/src/game.rs:79-83 | "5 blue, 3 green" reads as (5, blue) then (3, green) |
| CubeGame.MaxCountIsMaximum | day_2/part_2/src/game.rs:39-49 | the running maximum of a colour is at least every count drawn of it, and is one of those counts, or 0 when the colour is never drawn |
| CubeGame.ParseGame | day_2/part_2/src/game.rs:28-51 | a line gives a game exactly when the last space-separated word of the trimmed text before the first ':' parses as a number, and that number is the game's id (the colour maxima are `ParseGameKnown`) |
| CubeGame.ParseGameKnown | day_2/part_2/src/game.rs:28-51 | what a game knows of a colour is the largest count of it written in the line, whatever the ';' and ',' grouping, and 0 when no draw names it |
| CubeGame.GameFromLine | day_2/part_2/src/game.rs:28-51 | the method returns the game the line describes, or a panic where the id does not parse |
| CubeGame.LargestOfEach | day_2/part_2/src/game.rs:39-50 | the loop leaves the running maximum of each colour over the draws |
| CubeGame.GameOfExample | day_2/part_2/src/game.rs:85-94 | the draws of "Game 1: 3 blue, 4 red; 1 red, 2 green, 6 blue; 2 green" give id 1, 4 red, 2 green and 6 blue |
| CubeGame.Power | day_2/part_2/src/game.rs:64-66 | the power is 0 exactly when one of the three maxima is 0 |
| CubeGame.ProductOfThree | day_2/part_2/src/game.rs:65 | a product of three numbers is 0 exactly when one of them is |
| CubeGame.PowerZero | day_2/part_2/src/game.rs:64-66 | a game's power is 0 exactly when some colour never shows a cube in its draws |
| CubeGame.MaxCountZero | day_2/part_2/src/game.rs:39-49 | a colour's maximum is 0 exactly when no draw of it counts a cube |
| CubeGame.PossibleIffDrawsFit | day_2/part_1/src/main.rs:9-16 | a game is possible exactly when no single draw asks for more cubes of a colour than 12 red, 13 green or 14 blue, limits included. A game without draws is always possible |
| CubeGame.PossibleTotalSome | day_2/part_1/src/main.rs:13-19 | the total exists exactly when every line parses. It is at most the sum of all ids, and equals that sum when every game is possible |
| CubeGame.PossibleTotalStops | day_2/part_1/src/main.rs:8 | a game that panics ends the total |
| CubeGame.PossibleTotalStep | day_2/part_1/src/main.rs:14-17 | each game adds its id exactly when it is possible |
| CubeGame.ParseGames | day_2/part_1/src/main.rs:8 | one game per line, in order |
| CubeGame.SumPossibleIds | day_2/part_1/src/main.rs:13-19 | the loop's total is the sum of the ids of the possible games, and it prints exactly the running totals, one per possible game, up to the first game that panics. The printed totals never decrease, and the last one printed is the total |
| CubeGame.PrintedStep | day_2/part_1/src/main.rs:14-18 | a possible game appends the new running total to what was printed, and any other game appends nothing |
| CubeGame.PrintedPanics | day_2/part_1/src/main.rs:8 | a game that panics ends the printing: only the totals of the games before it are printed |
| CubeGame.PrintedStops | day_2/part_1/src/main.rs:8 | after the total stops, nothing more is printed |
| SpringRecords.StateOf | day_12/part_1/src/arrangement.rs:25-32 | exactly '#', '.' and '?' read as a state; any other character panics |
| SpringRecords.StateOfSymbol | day_12/part_1/src/arrangement.rs:25-32 | '#' reads as damaged, '.' as operational and '?' as unknown, and each state is read from its one character only |
| SpringRecords.States | day_12/part_1/src/arrangement.rs:21-33 | the states are read exactly when every character of the token is a state character; there is then one state per character, in order |
| SpringRecords.Sizes | day_12/part_1/src/arrangement.rs:34-42 | the sizes are read exactly when every comma-separated piece parses; there is then one size per piece, in order |
| SpringRecords.FromTokensReads | day_12/part_1/src/arrangement.rs:21-43 | the states token and the sizes token read exactly when every character of the first is a state character and every comma-separated piece of the last parses; the arrangement then holds those states and numbers, in order |
| SpringRecords.FromLine | day_12/part_1/src/arrangement.rs:19-44 | `from_line` reads the states from the first space-separated token and the sizes from the last: an arrangement has one state per character of the first token and one size per comma-separated piece of the last (what each is, and when the line panics, is `FromTokensReads`) |
| SpringRecords.NoSpaceSameToken | day_12/part_1/src/arrangement.rs:20-22 | a line without a space is its own first and last token, and such a line always panics |
| SpringRecords.Show | day_12/part_1/src/arrangement.rs:39 | a number is written as a non-empty run of digits |
| SpringRecords.ParseShow | day_12/part_1/src/arrangement.rs:39 | parsing a number's digits gives the number back |
| SpringRecords.Symbols | day_12/part_1/src/arrangement.rs:25-32 | one character per state, each the character the state is read from |
| SpringRecords.ShowAll | day_12/part_1/src/arrangement.rs:37-41 | one digit text per size |
| SpringRecords.FromLineRender | day_12/part_1/src/arrangement.rs:19-44 | `from_line` of a record written as its states, a space and its comma-separated sizes gives the arrangement back |
| SpringRecords.JoinNoSpace | day_12/part_1/src/arrangement.rs:20 | pieces without spaces joined by commas hold no space, so the sizes stay one token |
| SpringRecords.FromLineOneRecord | day_12/part_1/src/arrangement.rs:55-60 | "# 1" reads as one damaged spring and the single size 1 |
| SpringRecords.FromLineTwoRecords | day_12/part_1/src/arrangement.rs:62-67 | "## 2" reads as two damaged springs and the single size 2 |
| SpringRecords.FromLineTwoGroups | day_12/part_1/src/arrangement.rs:69-74 | "#.# 1,1" reads as damaged, operational, damaged with sizes 1 and 1 |
| SpringRecords.FromLineOneUnknown | day_12/part_1/src/arrangement.rs:76-82 | "#?# 1,1" reads as three springs whose middle one is unknown, with sizes 1 and 1 |
| SpringRecords.ResolveMissingRecords | day_12/part_1/src/arrangement.rs:45-47 | the arrangement is left as read |

## Left out

- Reading standard input and printing are not modelled. The input lines
  are a parameter, and the printed number is the returned value. The
  filter that drops empty lines is `Text.NonEmpty`. Lines that fail to
  decode (`filter_map(|l| l.ok())`) cannot occur, because a line is
  already a string.
- The `ndarray` reshapes to a fixed 140 by 140 shape are not modelled as
  such. Day 10 takes the grid as a sequence of rows. Day 11 keeps the side
  `Galaxies.Side = 140` and checks the cell count against it.
- The iteration order of a `HashMap` is a parameter, because the code
  relies on an order it does not control:
  - the keys of the two-joker branch of day 7 (`JokerCards.KeyOrder`);
  - the starting queue of day 4 (`ScratchCards.CountInstances`);
  - the start nodes of day 8 part 2 (`Wasteland.StepsToAllZ`).
- A walk that never ends is not modelled. Such walks are the day 10 loop
  on a malformed grid and the day 8 walks with no reachable goal. Each walk
  takes a `fuel` bound on its steps. Running out of fuel is the error
  `StepLimit` (day 10) or `OutOfFuel` (day 8), not divergence.
- Machine integers are unbounded, so the following are not modelled:
  - the overflow of `usize`, `isize` and `i32`;
  - the wrap-around of `as` casts;
  - the overflow of `2_i32.pow` in day 4.
- Day 3's `f64` distance is not modelled. `euclid_distance(...) <= 1.5`
  becomes the integer test that the squared distance is at most 2. On
  integer cells the two tests agree.
- The regex crate is not modelled. A pattern is a literal search at every
  start position, and `\d` means the ASCII digits. None of the nine
  number words overlaps itself, so this finds what `find_iter` finds.
  `to_lowercase` and `to_uppercase` act on ASCII letters only.
- The library sort of day 7 is a stable insertion sort (`CamelWinnings.Sort`).
  Day 7's winnings require entries that the comparison can order
  (`CamelWinnings.ValidEntries`). The panic on an unknown card, or on
  hands of unequal length, inside the sort is not modelled.
- The day 11 `coordinate` module, with its `manhattan_distance`, is not
  part of this model. `Galaxies.Manhattan` stands in for it as
  `|dx| + |dy|`. The symmetry that the pair sum relies on is proved of it.
- The day 5 part 2 `ratio` module is not part of this model. It is modelled
  after `day_5/part_1/src/ratio.rs`.
- The day 2 part 1 `game` module is not part of this model. It is modelled
  after `day_2/part_2/src/game.rs`, and the lazy map over the input lines
  is the list of games passed in.
- The `main` functions of day 2 part 2, day 4 part 1 and day 9 part 1 only
  add the per-line values and print the sum. These sums are not modelled.
  The per-line operations are: `CubeGame.Power`, `ScratchCards.CalculateWorth`
  and `Observations.ExtrapolateForward`.
- `day_3/part_2/src/part.rs` is only a struct. It is `Engine.Part`.
- Day 3's `min_by` over a part's places, with its `unwrap`, is
  `Engine.MinDist`. Every part covers at least one cell
  (`Engine.RestParts`), so the `unwrap` never panics.
- `Text.IsWhitespace` is the ASCII whitespace only. Rust's `trim` and
  `split_whitespace` also drop the other Unicode `White_Space` characters.
- Day 3 reads each line with `as_bytes`. The model takes one cell per
  character, so a non-ASCII character, which is several bytes in UTF-8,
  is one cell here instead of several.
- Galaxies.ExpandKeepsOrder: is stated for non-negative coordinates only,
  because `as usize` of a negative `isize` wraps around, and that
  wrap-around is not modelled.
- Some tests assert behaviour that the code does not have, and are not
  restated:
  - `day_12/part_1/src/arrangement.rs:84-89` expects `resolve_missing_records`
    to resolve a `?`, but its body is empty;
  - `day_5/part_1/src/ratio.rs:65-89` call `map_value` with another
    signature. The last of them expects 10 for a value outside the range,
    where the code returns `CannotMapValue`. `RangeMaps.MapValueExamples`
    states only the in-range cases.
- `SpringRecords.Render` and `SpringRecords.Show` are not in the source.
  They are the inverse that the round trip of `from_line` is stated
  against.
- The day 10 unit tests are instances of general lemmas rather than
  statements of their own. The lemmas are `PipeMaze.EnteredFrom`,
  `PipeMaze.ExitsThroughOtherOpening` and `Coordinates.RelativeToAntisymmetric`.
- The day 11 tests (part 1 lines 78-100, part 2 lines 83-143) are not
  restated. They are instances of the expansion and coordinate lemmas.
- SpelledDigits: two tests are not restated:
  - "5seven7slxxbsjqktseven" gives 57 (`day_1/part_2/src/main.rs:74-78`);
  - "jtwonetwothree5znqsvfour5czgsqvvtgg" gives 25 (lines 92-97).

  Evaluating the model on these long literal lines is beyond the
  verifier's resource bound. The general lemmas state this behaviour:
  the first and last matches, and their order by start position.
  `SpelledDigits.OverlappingLastExample` covers the overlapping words.
- Wasteland.Lcm: is proved to be a common multiple of the step counts,
  but not the least one.

## Findings

| source | as written | input that shows it | evidently intended | confidence | as-written member | corrected member |
|---|---|---|---|---|---|---|
| day_9/part_2/src/observations.rs:21-34 | when the first difference level is already all zero, the list of first elements is empty, and `reduce(...).unwrap()` panics | the series "5 5 5" | the series extends backwards to 5 | not executed | Observations.PreviousAsWritten, Observations.ConstantSeriesPanics | Observations.Previous, Observations.PreviousIsNextOfReverse |
| day_8/part_1/src/main.rs:8, 17-18 | empty lines are already filtered out, so the second `pop_front` removes the first node definition rather than a blank line | a direction line followed by "AAA = (BBB, CCC)" as the first node line | every node line is kept, as day 8 part 2 does | not executed | Wasteland.NodeLinesAsWritten, Wasteland.ReadPuzzleAsWritten, Wasteland.FirstNodeLost | Wasteland.NodeLines, Wasteland.ReadPuzzle, Wasteland.ReadPuzzleHoldsEveryNode |
