/** Camel Cards hands (day_7/part_1/src/hand.rs, shared with day_7/part_2):
    card counting, classification of a hand into a type, and the ordering of
    hands, strongest first.  The card-rank table is a parameter so that both
    the plain table and the joker table use the same comparison. */
module CamelCards {
  import opened Wrappers

  /** `std::cmp::Ordering`. */
  datatype Ordering = Less | Equal | Greater

  function Reverse(o: Ordering): Ordering {
    match o
    case Less => Greater
    case Equal => Equal
    case Greater => Less
  }

  /** `usize::cmp`. */
  function CompareNat(a: nat, b: nat): (o: Ordering)
    ensures o == Less <==> a < b
    ensures o == Equal <==> a == b
    ensures o == Greater <==> a > b
  {
    if a < b then Less else if a == b then Equal else Greater
  }

  /** `HandType`, in declaration order: the derived ordering puts `FiveKind`
      first, so a stronger type compares `Less`. */
  datatype HandType = FiveKind | FourKind | FullHouse | ThreeKind | TwoPair | OnePair | HighCard

  /** The declaration index of a hand type, which the derived `Ord` compares. */
  function Position(t: HandType): nat {
    match t
    case FiveKind => 0
    case FourKind => 1
    case FullHouse => 2
    case ThreeKind => 3
    case TwoPair => 4
    case OnePair => 5
    case HighCard => 6
  }

  /** The derived `Ord` of `HandType`. */
  function CompareTypes(s: HandType, t: HandType): (o: Ordering)
    ensures o == Equal <==> s == t
  {
    CompareNat(Position(s), Position(t))
  }

  /** A card-rank table such as `CARDS`. */
  type CardTable = map<char, nat>

  /** `CARDS` of part 1: `2` lowest, then `3` … `9`, `T`, `J`, `Q`, `K`, `A`. */
  const Cards: CardTable := map[
    '2' := 1, '3' := 2, '4' := 3, '5' := 4, '6' := 5, '7' := 6, '8' := 7, '9' := 8,
    'J' := 10, 'T' := 9, 'Q' := 11, 'K' := 12, 'A' := 13]

  /** The thirteen cards from weakest to strongest. */
  const CardOrder: string := "23456789TJQKA"

  /** `CARDS` ranks the `i`-th card of 2, 3, …, 9, T, J, Q, K, A as `i + 1`. */
  lemma CardRanks()
    ensures forall i | 0 <= i < |CardOrder| :: CardOrder[i] in Cards && Cards[CardOrder[i]] == i + 1
  {
  }

  /** `CARDS` knows exactly the thirteen cards, and ranks them in ascending order. */
  lemma CardsAscending()
    ensures forall c | c in Cards :: c in CardOrder
    ensures forall i, j | 0 <= i < j < |CardOrder| :: Cards[CardOrder[i]] < Cards[CardOrder[j]]
  {
    CardRanks();
  }

  /** How often each card occurs in a hand (`card_bins`). */
  type Bins = map<char, nat>

  /** The bins of a hand: every card of the hand, with its number of occurrences. */
  function BinsOf(s: string): Bins {
    map c | c in s :: multiset(s)[c]
  }

  /** Appending a card adds one to its bin, creating the bin if needed. */
  lemma BinsOfAppend(s: string, c: char)
    ensures BinsOf(s + [c]) == BinsOf(s)[c := (if c in BinsOf(s) then BinsOf(s)[c] else 0) + 1]
  {
    assert multiset(s + [c]) == multiset(s) + multiset{c};
    assert forall x :: x in s + [c] <==> x in s || x == c;
  }

  /** The counting loop of `Hand::new` (lines 41-44): one `entry(..).or_insert(0) += 1` per card. */
  method CountBins(s: string) returns (bins: Bins)
    ensures bins == BinsOf(s)
  {
    bins := map[];
    for i := 0 to |s|
      invariant bins == BinsOf(s[..i])
    {
      var c := s[i];
      BinsOfAppend(s[..i], c);
      assert s[..i + 1] == s[..i] + [c];
      if c in bins {
        bins := bins[c := bins[c] + 1];
      } else {
        bins := bins[c := 1];
      }
    }
    assert s[..|s|] == s;
  }

  /** The sum of the bins listed in `keys`. */
  function SumOver(bins: Bins, keys: seq<char>): nat
    requires forall i | 0 <= i < |keys| :: keys[i] in bins
  {
    if keys == [] then 0 else bins[keys[0]] + SumOver(bins, keys[1..])
  }

  /** The number of cards of `s` that lie in `ks`. */
  function CountIn(s: string, ks: set<char>): nat {
    if s == [] then 0 else (if s[0] in ks then 1 else 0) + CountIn(s[1..], ks)
  }

  lemma {:induction false} CountInAdd(s: string, ks: set<char>, k: char)
    requires k !in ks
    ensures CountIn(s, ks + {k}) == multiset(s)[k] + CountIn(s, ks)
  {
    if s != [] {
      CountInAdd(s[1..], ks, k);
      assert s == [s[0]] + s[1..];
      assert multiset(s) == multiset{s[0]} + multiset(s[1..]);
    }
  }

  lemma {:induction false} CountInNone(s: string)
    ensures CountIn(s, {}) == 0
  {
    if s != [] {
      CountInNone(s[1..]);
    }
  }

  lemma {:induction false} CountInAll(s: string, ks: set<char>)
    requires forall i | 0 <= i < |s| :: s[i] in ks
    ensures CountIn(s, ks) == |s|
  {
    if s != [] {
      CountInAll(s[1..], ks);
    }
  }

  lemma {:induction false} SumOverCounts(s: string, keys: seq<char>)
    requires forall i | 0 <= i < |keys| :: keys[i] in s
    requires forall i, j | 0 <= i < j < |keys| :: keys[i] != keys[j]
    ensures SumOver(BinsOf(s), keys) == CountIn(s, set k | k in keys)
  {
    if keys != [] {
      SumOverCounts(s, keys[1..]);
      assert BinsOf(s)[keys[0]] == multiset(s)[keys[0]];
      var rest := set k | k in keys[1..];
      assert keys[0] !in rest;
      assert (set k | k in keys) == rest + {keys[0]};
      CountInAdd(s, rest, keys[0]);
    } else {
      assert (set k | k in keys) == {};
      CountInNone(s);
    }
  }

  /** The bins of a hand sum to its length, whatever order the keys are visited in. */
  lemma CountsSumToLength(s: string, keys: seq<char>)
    requires forall i | 0 <= i < |keys| :: keys[i] in BinsOf(s)
    requires forall i, j | 0 <= i < j < |keys| :: keys[i] != keys[j]
    requires forall c | c in BinsOf(s) :: c in keys
    ensures SumOver(BinsOf(s), keys) == |s|
  {
    SumOverCounts(s, keys);
    assert forall i | 0 <= i < |s| :: s[i] in BinsOf(s);
    CountInAll(s, set k | k in keys);
  }

  /** `m` is the largest bin (`values().max() == m`). */
  predicate MaxIs(bins: Bins, m: nat) {
    m in bins.Values && forall c | c in bins :: bins[c] <= m
  }

  /** `get_hand_type`: the type follows from the number of distinct cards and,
      for two or three distinct cards, the largest bin. */
  function GetHandType(bins: Bins): (r: HandType)
    ensures r == FiveKind <==> |bins| == 1
    ensures r == FourKind || r == FullHouse <==> |bins| == 2
    ensures r == ThreeKind || r == TwoPair <==> |bins| == 3
    ensures r == OnePair <==> |bins| == 4
    ensures r == HighCard <==> |bins| == 0 || |bins| >= 5
    ensures r == FourKind <==> |bins| == 2 && MaxIs(bins, 4)
    ensures r == ThreeKind <==> |bins| == 3 && MaxIs(bins, 3)
  {
    if |bins| == 1 then FiveKind
    else if |bins| == 2 then (if MaxIs(bins, 4) then FourKind else FullHouse)
    else if |bins| == 3 then (if MaxIs(bins, 3) then ThreeKind else TwoPair)
    else if |bins| == 4 then OnePair
    else HighCard
  }

  /** The type of a hand of two kinds of card follows from its larger bin. */
  lemma TwoKindsType(a: char, b: char, x: nat, y: nat)
    requires a != b
    ensures GetHandType(map[a := x, b := y]) == if (if x >= y then x else y) == 4 then FourKind else FullHouse
  {
    var m := map[a := x, b := y];
    assert m.Keys == {a, b};
    assert m.Values == {x, y};
  }

  /** The type of a hand of three kinds of card follows from its largest bin. */
  lemma ThreeKindsType(a: char, b: char, c: char, x: nat, y: nat, z: nat)
    requires a != b && a != c && b != c
    ensures var top := if x >= y && x >= z then x else if y >= z then y else z;
      GetHandType(map[a := x, b := y, c := z]) == if top == 3 then ThreeKind else TwoPair
  {
    var m := map[a := x, b := y, c := z];
    assert m.Keys == {a, b, c};
    assert m.Values == {x, y, z};
  }

  /** The classification tests of part 1. */
  lemma GetHandTypeExamples()
    ensures GetHandType(map['A' := 5]) == FiveKind
    ensures GetHandType(map['A' := 4, '2' := 1]) == FourKind
    ensures GetHandType(map['A' := 3, '2' := 2]) == FullHouse
    ensures GetHandType(map['A' := 3, '2' := 1, '3' := 1]) == ThreeKind
    ensures GetHandType(map['A' := 2, '2' := 2, '3' := 1]) == TwoPair
    ensures GetHandType(map['A' := 2, '2' := 1, '3' := 1, '4' := 1]) == OnePair
    ensures GetHandType(map['A' := 1, '2' := 1, '3' := 1, '4' := 1, '5' := 1]) == HighCard
  {
    assert map['A' := 5].Keys == {'A'};
    TwoKindsType('A', '2', 4, 1);
    TwoKindsType('A', '2', 3, 2);
    ThreeKindsType('A', '2', '3', 3, 1, 1);
    ThreeKindsType('A', '2', '3', 2, 2, 1);
    assert map['A' := 2, '2' := 1, '3' := 1, '4' := 1].Keys == {'A', '2', '3', '4'};
    assert map['A' := 1, '2' := 1, '3' := 1, '4' := 1, '5' := 1].Keys == {'A', '2', '3', '4', '5'};
  }

  /** The distinct cards of a hand. */
  function CardSet(s: string): set<char> {
    set c | c in s
  }

  /** No card of `s` occurs twice. */
  predicate AllDistinct(s: string) {
    forall i, j | 0 <= i < j < |s| :: s[i] != s[j]
  }

  /** A hand has at most as many distinct cards as cards, and exactly as many
      when no card repeats. */
  lemma {:induction false} CardSetSize(s: string)
    ensures |CardSet(s)| <= |s|
    ensures |CardSet(s)| == |s| <==> AllDistinct(s)
  {
    if s != [] {
      var t := s[1..];
      CardSetSize(t);
      assert CardSet(s) == {s[0]} + CardSet(t) by {
        assert forall c :: c in s <==> c == s[0] || c in t;
      }
      if s[0] in t {
        assert CardSet(s) == CardSet(t);
        assert !AllDistinct(s) by {
          var k :| 0 <= k < |t| && t[k] == s[0];
          assert s[k + 1] == s[0];
        }
      } else {
        assert AllDistinct(s) <==> AllDistinct(t) by {
          if AllDistinct(t) {
            forall i, j | 0 <= i < j < |s|
              ensures s[i] != s[j]
            {
              if i > 0 {
                assert s[i] == t[i - 1] && s[j] == t[j - 1];
              } else {
                assert s[j] in t;
              }
            }
          }
          if AllDistinct(s) {
            forall i, j | 0 <= i < j < |t|
              ensures t[i] != t[j]
            {
              assert t[i] == s[i + 1] && t[j] == s[j + 1];
            }
          }
        }
      }
    }
  }

  /** For a hand of five cards the type agrees with the rules of the game at
      both ends: five of a kind exactly when every card is the same, high card
      exactly when all five are different. */
  lemma FiveCardExtremes(s: string)
    requires |s| == 5
    ensures GetHandType(BinsOf(s)) == FiveKind <==> forall i | 0 <= i < 5 :: s[i] == s[0]
    ensures GetHandType(BinsOf(s)) == HighCard <==> AllDistinct(s)
  {
    var bins := BinsOf(s);
    assert bins.Keys == CardSet(s);
    assert |bins| == |CardSet(s)|;
    CardSetSize(s);
    assert s[0] in CardSet(s);
    if forall i | 0 <= i < 5 :: s[i] == s[0] {
      assert CardSet(s) == {s[0]};
    }
    if |CardSet(s)| == 1 {
      forall i | 0 <= i < 5
        ensures s[i] == s[0]
      {
        assert s[i] in CardSet(s);
        assert CardSet(s) == {s[0]} by {
          var other := CardSet(s) - {s[0]};
          assert |other| == 0;
        }
      }
    }
  }

  /** `Hand`: the cards in order, their bins, and the type. */
  datatype Hand = Hand(cards: string, bins: Bins, handType: HandType)

  /** `Hand::new` of part 1. */
  method NewHand(s: string) returns (h: Hand)
    ensures h == Hand(s, BinsOf(s), GetHandType(BinsOf(s)))
  {
    var bins := CountBins(s);
    h := Hand(s, bins, GetHandType(bins));
  }

  /** The panics of `cmp`: a card missing from the table, or a position the
      other hand does not have. */
  datatype CompareError = UnknownCard(card: char) | MissingPosition(index: nat)

  /** The tie-break loop of `cmp` from position `i` on: the first position
      whose ranks differ decides, the higher rank comparing `Less`.  Cards
      are looked up in the order the loop does: this hand's card, the other
      hand's position, the other hand's card. */
  function CompareCards(table: CardTable, a: string, b: string, i: nat): Result<Ordering, CompareError>
    requires i <= |a|
    decreases |a| - i
  {
    if i == |a| then Ok(Equal)
    else if a[i] !in table then Err(UnknownCard(a[i]))
    else if i >= |b| then Err(MissingPosition(i))
    else if b[i] !in table then Err(UnknownCard(b[i]))
    else if table[a[i]] != table[b[i]] then Ok(Reverse(CompareNat(table[a[i]], table[b[i]])))
    else CompareCards(table, a, b, i + 1)
  }

  /** `Ord::cmp` for `Hand`: by type, and for equal types by the cards. */
  function CompareHands(table: CardTable, x: Hand, y: Hand): (r: Result<Ordering, CompareError>)
    ensures x.handType != y.handType ==>
      r.Ok? && (r.value == Less <==> Position(x.handType) < Position(y.handType)) && r.value != Equal
    ensures r == Ok(Equal) ==> x.handType == y.handType
  {
    if x.handType != y.handType then Ok(CompareTypes(x.handType, y.handType))
    else CompareCards(table, x.cards, y.cards, 0)
  }

  /** `Ord::cmp` for `Hand` (lines 79-103), with its early-returning loop. */
  method Compare(table: CardTable, x: Hand, y: Hand) returns (r: Result<Ordering, CompareError>)
    ensures r == CompareHands(table, x, y)
  {
    var typeOrder := CompareTypes(x.handType, y.handType);
    if typeOrder != Equal {
      return Ok(typeOrder);
    }
    var i := 0;
    while i < |x.cards|
      invariant i <= |x.cards|
      invariant CompareCards(table, x.cards, y.cards, i) == CompareHands(table, x, y)
    {
      if x.cards[i] !in table {
        return Err(UnknownCard(x.cards[i]));
      }
      if i >= |y.cards| {
        return Err(MissingPosition(i));
      }
      if y.cards[i] !in table {
        return Err(UnknownCard(y.cards[i]));
      }
      var cardOrder := CompareNat(table[x.cards[i]], table[y.cards[i]]);
      if cardOrder != Equal {
        return Ok(Reverse(cardOrder));
      }
      i := i + 1;
    }
    return Ok(Equal);
  }

  /** The comparison tests of part 1: a weaker type compares `Greater`, and
      between hands of one type the first higher card compares `Less`. */
  lemma CompareExamples()
    ensures CompareTypes(HighCard, FiveKind) == Greater
    ensures CompareTypes(FourKind, FiveKind) == Greater
    ensures CompareCards(Cards, "64567", "34567", 0) == Ok(Less)
    ensures CompareCards(Cards, "34567", "34569", 0) == Ok(Greater)
    ensures CompareCards(Cards, "44457", "44467", 0) == Ok(Greater)
  {
  }

  /** Two hands `cmp` can compare without panicking: cards known to the table,
      and equally many of them. */
  predicate Comparable(table: CardTable, x: Hand, y: Hand) {
    && |x.cards| == |y.cards|
    && (forall i | 0 <= i < |x.cards| :: x.cards[i] in table)
    && (forall i | 0 <= i < |y.cards| :: y.cards[i] in table)
  }

  /** The rank of every position from `i` on is the same in both hands. */
  predicate SameRanksFrom(table: CardTable, a: string, b: string, i: nat)
    requires |a| == |b|
    requires forall k | 0 <= k < |a| :: a[k] in table && b[k] in table
  {
    forall k | i <= k < |a| :: table[a[k]] == table[b[k]]
  }

  /** On comparable hands the tie-break is total, it is `Equal` exactly when
      every rank agrees, and swapping the hands reverses it. */
  lemma {:induction false} CompareCardsFacts(table: CardTable, a: string, b: string, i: nat)
    requires |a| == |b| && i <= |a|
    requires forall k | 0 <= k < |a| :: a[k] in table && b[k] in table
    ensures CompareCards(table, a, b, i).Ok? && CompareCards(table, b, a, i).Ok?
    ensures CompareCards(table, a, b, i).value == Reverse(CompareCards(table, b, a, i).value)
    ensures CompareCards(table, a, b, i).value == Equal <==> SameRanksFrom(table, a, b, i)
    decreases |a| - i
  {
    if i < |a| {
      if table[a[i]] == table[b[i]] {
        CompareCardsFacts(table, a, b, i + 1);
        assert SameRanksFrom(table, a, b, i) <==> SameRanksFrom(table, a, b, i + 1);
      } else {
        assert !SameRanksFrom(table, a, b, i);
      }
    }
  }

  /** `cmp` never panics on comparable hands, is antisymmetric, and is `Equal`
      exactly when the types match and every position has the same rank. */
  lemma CompareHandsFacts(table: CardTable, x: Hand, y: Hand)
    requires Comparable(table, x, y)
    ensures CompareHands(table, x, y).Ok? && CompareHands(table, y, x).Ok?
    ensures CompareHands(table, x, y).value == Reverse(CompareHands(table, y, x).value)
    ensures CompareHands(table, x, y).value == Equal <==>
      x.handType == y.handType && SameRanksFrom(table, x.cards, y.cards, 0)
  {
    CompareCardsFacts(table, x.cards, y.cards, 0);
  }

  /** The tie-break is transitive: `Less` followed by not-`Greater`, or
      not-`Greater` followed by `Less`, gives `Less`, and not-`Greater` chains. */
  lemma {:induction false} CompareCardsTransitive(table: CardTable, a: string, b: string, c: string, i: nat)
    requires |a| == |b| == |c| && i <= |a|
    requires forall k | 0 <= k < |a| :: a[k] in table && b[k] in table && c[k] in table
    ensures
      var ab, bc, ac := CompareCards(table, a, b, i), CompareCards(table, b, c, i), CompareCards(table, a, c, i);
      ab.Ok? && bc.Ok? && ac.Ok? &&
      (ab.value != Greater && bc.value != Greater ==> ac.value != Greater) &&
      (ab.value == Less && bc.value != Greater ==> ac.value == Less) &&
      (ab.value != Greater && bc.value == Less ==> ac.value == Less)
    decreases |a| - i
  {
    if i < |a| && table[a[i]] == table[b[i]] && table[b[i]] == table[c[i]] {
      CompareCardsTransitive(table, a, b, c, i + 1);
    } else if i < |a| {
      CompareCardsFacts(table, a, b, i + 1);
      CompareCardsFacts(table, b, c, i + 1);
      CompareCardsFacts(table, a, c, i + 1);
    }
  }

  /** `cmp` is a total preorder on comparable hands: "not `Greater`" chains,
      and a strict step anywhere makes the chain strict. */
  lemma CompareHandsTransitive(table: CardTable, x: Hand, y: Hand, z: Hand)
    requires Comparable(table, x, y) && Comparable(table, y, z)
    ensures
      var xy, yz, xz := CompareHands(table, x, y), CompareHands(table, y, z), CompareHands(table, x, z);
      xy.Ok? && yz.Ok? && xz.Ok? &&
      (xy.value != Greater && yz.value != Greater ==> xz.value != Greater) &&
      (xy.value == Less && yz.value != Greater ==> xz.value == Less) &&
      (xy.value != Greater && yz.value == Less ==> xz.value == Less)
  {
    CompareHandsFacts(table, x, y);
    CompareHandsFacts(table, y, z);
    CompareHandsFacts(table, x, z);
    CompareCardsTransitive(table, x.cards, y.cards, z.cards, 0);
  }
}
