/** Camel Cards with jokers (day_7/part_2/src/hand.rs): `J` is the weakest
    card in tie-breaks, and it joins whichever other card gives the strongest
    hand type.  Counting, plain classification and comparison are shared with
    the part-1 model; only the card table and the joker classification differ. */
module JokerCards {
  import opened Wrappers
  import opened CamelCards

  /** `CARDS` of part 2: `J` lowest, then `2` … `9`, `T`, `Q`, `K`, `A`. */
  const JokerTable: CardTable := map[
    'J' := 0, '2' := 1, '3' := 2, '4' := 3, '5' := 4, '6' := 5, '7' := 6, '8' := 7,
    '9' := 8, 'T' := 9, 'Q' := 10, 'K' := 11, 'A' := 12]

  /** The thirteen cards from weakest to strongest, joker first. */
  const JokerOrder: string := "J23456789TQKA"

  /** The joker table ranks the `i`-th card of J, 2, 3, …, 9, T, Q, K, A as `i`. */
  lemma JokerRanks()
    ensures forall i | 0 <= i < |JokerOrder| :: JokerOrder[i] in JokerTable && JokerTable[JokerOrder[i]] == i
  {
  }

  /** The joker table knows exactly the thirteen cards, and ranks them in
      ascending order. */
  lemma JokerTableAscending()
    ensures forall c | c in JokerTable :: c in JokerOrder
    ensures forall i, j | 0 <= i < j < |JokerOrder| :: JokerTable[JokerOrder[i]] < JokerTable[JokerOrder[j]]
  {
    JokerRanks();
  }

  /** `s` is at least as strong a type as `t` (compares `Less` or `Equal`). */
  predicate AtLeastAsStrong(s: HandType, t: HandType) {
    Position(s) <= Position(t)
  }

  /** `Iterator::min` of two optional candidates: the stronger type, with
      `None` standing for "no candidate yet". */
  function Stronger(a: Option<HandType>, b: Option<HandType>): (r: Option<HandType>)
    ensures r == a || r == b
    ensures r.None? <==> a.None? && b.None?
    ensures r.Some? && a.Some? ==> AtLeastAsStrong(r.value, a.value)
    ensures r.Some? && b.Some? ==> AtLeastAsStrong(r.value, b.value)
  {
    if a.None? then b
    else if b.None? then a
    else if AtLeastAsStrong(a.value, b.value) then a else b
  }

  /** The number of jokers (`get(&'J').unwrap_or(&0)`). */
  function Jokers(bins: Bins): nat {
    if 'J' in bins then bins['J'] else 0
  }

  /** `order` lists every key of `bins` once: the iteration order of a `HashMap`. */
  predicate KeyOrder(bins: Bins, order: seq<char>) {
    && (forall i | 0 <= i < |order| :: order[i] in bins)
    && (forall i, j | 0 <= i < j < |order| :: order[i] != order[j])
    && (forall k | k in bins :: k in order)
  }

  /** A candidate of the one- and four-joker branch: `i` jokers join card `k`,
      and the other `j - i` stay jokers. */
  function Spread(rest: Bins, k: char, i: nat, j: nat): Bins
    requires k in rest && i <= j
  {
    var n := rest[k := rest[k] + i];
    if j - i > 0 then n['J' := j - i] else n
  }

  /** The strongest type among the candidates for `i` jokers, over the first
      `|keys|` keys. */
  function BestOfKeys(rest: Bins, keys: seq<char>, i: nat, j: nat): Option<HandType>
    requires forall n | 0 <= n < |keys| :: keys[n] in rest
    requires i <= j
  {
    if keys == [] then None
    else Stronger(BestOfKeys(rest, keys[..|keys| - 1], i, j),
                  Some(GetHandType(Spread(rest, keys[|keys| - 1], i, j))))
  }

  /** The strongest type among the candidates for `0 … i - 1` jokers. */
  function BestBelow(rest: Bins, keys: seq<char>, i: nat, j: nat): Option<HandType>
    requires forall n | 0 <= n < |keys| :: keys[n] in rest
    requires i <= j + 1
  {
    if i == 0 then None
    else Stronger(BestBelow(rest, keys, i - 1, j), BestOfKeys(rest, keys, i - 1, j))
  }

  /** The candidate of the two-joker branch for the split `(n1, 2 - n1)`:
      `n1` jokers join the first key and, when there are two keys, the rest
      join the second.  The jokers do not stay in the bins. */
  function Split(rest: Bins, order: seq<char>, n1: nat): Bins
    requires KeyOrder(rest, order) && order != [] && n1 <= 2
  {
    var b := rest[order[0] := rest[order[0]] + n1];
    if |b| >= 2 then
      assert order[1] in rest by {
        assert rest.Keys != {order[0]} by {
          assert |rest.Keys| >= 2;
        }
        var k :| k in rest && k != order[0];
        var n :| 0 <= n < |order| && order[n] == k;
      }
      b[order[1] := b[order[1]] + (2 - n1)]
    else b
  }

  /** The strongest type among the two-joker splits `(0, 2) … (i - 1, 3 - i)`. */
  function BestSplitBelow(rest: Bins, order: seq<char>, i: nat): Option<HandType>
    requires KeyOrder(rest, order) && order != [] && i <= 3
  {
    if i == 0 then None
    else Stronger(BestSplitBelow(rest, order, i - 1), Some(GetHandType(Split(rest, order, i - 1))))
  }

  /** `get_hand_type_with_jokers`; `None` where the program panics (no card
      other than jokers in the one-, two- and four-joker branches). */
  function GetHandTypeWithJokers(bins: Bins, order: seq<char>): (r: Option<HandType>)
    requires KeyOrder(bins - {'J'}, order)
    ensures r.None? <==> (Jokers(bins) == 1 || Jokers(bins) == 2 || Jokers(bins) == 4) && order == []
  {
    var j := Jokers(bins);
    var rest := bins - {'J'};
    if j == 1 || j == 4 then
      BestBelowIsMinimum(rest, order, j + 1, j);
      BestBelow(rest, order, j + 1, j)
    else if j == 5 then Some(FiveKind)
    else if j == 0 then Some(GetHandType(rest))
    else if j == 2 then (if order == [] then None else BestSplitBelow(rest, order, 3))
    else if |rest| >= 2 then Some(FourKind)
    else Some(FiveKind)
  }

  /** `get_hand_type_with_jokers` (lines 56-105), building and scanning the
      candidates with loops as the program does. */
  method HandTypeWithJokers(bins: Bins, order: seq<char>) returns (r: Option<HandType>)
    requires KeyOrder(bins - {'J'}, order)
    ensures r == GetHandTypeWithJokers(bins, order)
  {
    var j := if 'J' in bins then bins['J'] else 0;
    var rest := bins - {'J'};
    if j == 1 || j == 4 {
      r := BestSpread(rest, order, j);
    } else if j == 5 {
      r := Some(FiveKind);
    } else if j == 0 {
      r := Some(GetHandType(rest));
    } else if j == 2 {
      if order == [] {
        return None;
      }
      r := BestSplit(rest, order);
    } else if |rest| >= 2 {
      r := Some(FourKind);
    } else {
      r := Some(FiveKind);
    }
  }

  /** The one- and four-joker branch (lines 62-80): every spread of `0 … j`
      jokers onto every key, keeping the strongest type. */
  method BestSpread(rest: Bins, order: seq<char>, j: nat) returns (r: Option<HandType>)
    requires forall n | 0 <= n < |order| :: order[n] in rest
    ensures r == BestBelow(rest, order, j + 1, j)
  {
    r := None;
    for i := 0 to j + 1
      invariant r == BestBelow(rest, order, i, j)
    {
      var best := None;
      for n := 0 to |order|
        invariant best == BestOfKeys(rest, order[..n], i, j)
      {
        assert order[..n + 1][..n] == order[..n];
        best := Stronger(best, Some(GetHandType(Spread(rest, order[n], i, j))));
      }
      assert order[..|order|] == order;
      r := Stronger(r, best);
    }
  }

  /** The two-joker branch (lines 85-96): the three splits `(n1, 2 - n1)`,
      keeping the strongest type. */
  method BestSplit(rest: Bins, order: seq<char>) returns (r: Option<HandType>)
    requires KeyOrder(rest, order) && order != []
    ensures r == BestSplitBelow(rest, order, 3)
  {
    r := None;
    for n1 := 0 to 3
      invariant r == BestSplitBelow(rest, order, n1)
    {
      r := Stronger(r, Some(GetHandType(Split(rest, order, n1))));
    }
  }

  /** Over the keys listed, the best candidate exists exactly when a key does,
      and is at least as strong as the candidate of each key. */
  lemma {:induction false} BestOfKeysIsStrongest(rest: Bins, keys: seq<char>, i: nat, j: nat)
    requires forall n | 0 <= n < |keys| :: keys[n] in rest
    requires i <= j
    ensures BestOfKeys(rest, keys, i, j).Some? <==> keys != []
    ensures forall n | 0 <= n < |keys| ::
      AtLeastAsStrong(BestOfKeys(rest, keys, i, j).value, GetHandType(Spread(rest, keys[n], i, j)))
  {
    if keys != [] {
      var front := keys[..|keys| - 1];
      BestOfKeysIsStrongest(rest, front, i, j);
      var r := BestOfKeys(rest, keys, i, j);
      forall n | 0 <= n < |keys|
        ensures AtLeastAsStrong(r.value, GetHandType(Spread(rest, keys[n], i, j)))
      {
        if n < |front| {
          assert keys[n] == front[n];
        }
      }
    }
  }

  /** Over the keys listed, the best candidate is the candidate of one of them. */
  lemma {:induction false} BestOfKeysIsCandidate(rest: Bins, keys: seq<char>, i: nat, j: nat)
    requires forall n | 0 <= n < |keys| :: keys[n] in rest
    requires i <= j
    ensures BestOfKeys(rest, keys, i, j).Some? ==>
      exists n | 0 <= n < |keys| :: BestOfKeys(rest, keys, i, j).value == GetHandType(Spread(rest, keys[n], i, j))
  {
    if keys != [] {
      var front := keys[..|keys| - 1];
      var r := BestOfKeys(rest, keys, i, j);
      if r != Some(GetHandType(Spread(rest, keys[|keys| - 1], i, j))) {
        BestOfKeysIsCandidate(rest, front, i, j);
        var n :| 0 <= n < |front| && r.value == GetHandType(Spread(rest, front[n], i, j));
        assert keys[n] == front[n];
      }
    }
  }

  /** Over all spreads `0 … i - 1`, the best candidate exists exactly when a
      key and a spread do, and is at least as strong as every candidate; so
      the one- and four-joker result does not depend on the order the keys
      are visited in. */
  lemma {:induction false} BestBelowIsMinimum(rest: Bins, keys: seq<char>, i: nat, j: nat)
    requires forall n | 0 <= n < |keys| :: keys[n] in rest
    requires i <= j + 1
    ensures BestBelow(rest, keys, i, j).Some? <==> keys != [] && i > 0
    ensures forall m, n | 0 <= m < i && 0 <= n < |keys| ::
      AtLeastAsStrong(BestBelow(rest, keys, i, j).value, GetHandType(Spread(rest, keys[n], m, j)))
  {
    if i > 0 {
      BestBelowIsMinimum(rest, keys, i - 1, j);
      BestOfKeysIsStrongest(rest, keys, i - 1, j);
      var prev := BestBelow(rest, keys, i - 1, j);
      var here := BestOfKeys(rest, keys, i - 1, j);
      var r := BestBelow(rest, keys, i, j);
      assert r == Stronger(prev, here);
      forall m, n | 0 <= m < i - 1 && 0 <= n < |keys|
        ensures AtLeastAsStrong(r.value, GetHandType(Spread(rest, keys[n], m, j)))
      {
      }
      forall n | 0 <= n < |keys|
        ensures AtLeastAsStrong(r.value, GetHandType(Spread(rest, keys[n], i - 1, j)))
      {
      }
    }
  }

  /** The best candidate over all spreads is one of the candidates. */
  lemma {:induction false} BestBelowIsCandidate(rest: Bins, keys: seq<char>, i: nat, j: nat)
    requires forall n | 0 <= n < |keys| :: keys[n] in rest
    requires i <= j + 1
    ensures BestBelow(rest, keys, i, j).Some? ==>
      exists m, n | 0 <= m < i && 0 <= n < |keys| ::
        BestBelow(rest, keys, i, j).value == GetHandType(Spread(rest, keys[n], m, j))
  {
    if i > 0 {
      var r := BestBelow(rest, keys, i, j);
      if r.Some? {
        if r == BestOfKeys(rest, keys, i - 1, j) {
          BestOfKeysIsCandidate(rest, keys, i - 1, j);
          var n :| 0 <= n < |keys| && r.value == GetHandType(Spread(rest, keys[n], i - 1, j));
        } else {
          BestBelowIsCandidate(rest, keys, i - 1, j);
          var m, n :| 0 <= m < i - 1 && 0 <= n < |keys| && r.value == GetHandType(Spread(rest, keys[n], m, j));
        }
      }
    }
  }

  /** With no joker the type is the plain classification of the bins. */
  lemma NoJokers(bins: Bins, order: seq<char>)
    requires KeyOrder(bins - {'J'}, order)
    requires 'J' !in bins
    ensures GetHandTypeWithJokers(bins, order) == Some(GetHandType(bins))
  {
    assert bins - {'J'} == bins;
  }

  /** Keeping every joker is one of the one- and four-joker candidates, so
      with one or four jokers and another card the result is never weaker
      than the plain classification. */
  lemma JokersNeverWeaken(bins: Bins, order: seq<char>)
    requires KeyOrder(bins - {'J'}, order)
    requires Jokers(bins) == 1 || Jokers(bins) == 4
    requires order != []
    ensures GetHandTypeWithJokers(bins, order).Some?
    ensures AtLeastAsStrong(GetHandTypeWithJokers(bins, order).value, GetHandType(bins))
  {
    var j := Jokers(bins);
    var rest := bins - {'J'};
    assert GetHandTypeWithJokers(bins, order) == BestBelow(rest, order, j + 1, j);
    BestBelowIsMinimum(rest, order, j + 1, j);
    KeepingJokers(bins, order[0]);
    assert AtLeastAsStrong(BestBelow(rest, order, j + 1, j).value, GetHandType(Spread(rest, order[0], 0, j)));
  }

  /** The candidate that adds no joker to any card is the hand itself. */
  lemma KeepingJokers(bins: Bins, k: char)
    requires Jokers(bins) > 0 && k in bins && k != 'J'
    ensures Spread(bins - {'J'}, k, 0, Jokers(bins)) == bins
  {
    var rest := bins - {'J'};
    var kept := Spread(rest, k, 0, Jokers(bins));
    assert kept == rest['J' := bins['J']];
    assert kept.Keys == bins.Keys;
  }

  /** Three jokers with at most one other kind of card make five of a kind;
      with two or more other kinds, four of a kind, which still beats the
      plain classification. */
  lemma ThreeJokers(bins: Bins, order: seq<char>)
    requires KeyOrder(bins - {'J'}, order)
    requires Jokers(bins) == 3
    ensures GetHandTypeWithJokers(bins, order) ==
      if |bins| >= 3 then Some(FourKind) else Some(FiveKind)
    ensures AtLeastAsStrong(GetHandTypeWithJokers(bins, order).value, GetHandType(bins))
  {
    assert bins == (bins - {'J'})['J' := 3];
  }

  /** A key order lists as many keys as the bins hold. */
  lemma {:induction false} KeyOrderSize(bins: Bins, order: seq<char>)
    requires KeyOrder(bins, order)
    ensures |bins| == |order|
  {
    CardSetSize(order);
    assert bins.Keys == CardSet(order);
  }

  /** Bins of at least one card each sum to at least their number. */
  lemma {:induction false} SumOverAtLeast(bins: Bins, keys: seq<char>)
    requires forall i | 0 <= i < |keys| :: keys[i] in bins && bins[keys[i]] >= 1
    ensures SumOver(bins, keys) >= |keys|
  {
    if keys != [] {
      SumOverAtLeast(bins, keys[1..]);
    }
  }

  /** The sum over keys that two bins agree on is the same in both. */
  lemma {:induction false} SumOverAgree(a: Bins, b: Bins, keys: seq<char>)
    requires forall i | 0 <= i < |keys| :: keys[i] in a && keys[i] in b && a[keys[i]] == b[keys[i]]
    ensures SumOver(a, keys) == SumOver(b, keys)
  {
    if keys != [] {
      SumOverAgree(a, b, keys[1..]);
    }
  }

  /** The two-joker branch on three other cards: whichever two keys come
      first, the best split is five of a kind with one other kind of card,
      four of a kind with two, and three of a kind with three. */
  lemma {:induction false} TwoJokerSplits(rest: Bins, order: seq<char>)
    requires KeyOrder(rest, order) && order != []
    requires forall k | k in rest :: rest[k] >= 1
    requires SumOver(rest, order) == 3
    ensures BestSplitBelow(rest, order, 3) ==
      Some(if |rest| == 1 then FiveKind else if |rest| == 2 then FourKind else ThreeKind)
  {
    KeyOrderSize(rest, order);
    SumOverAtLeast(rest, order);
    var a := order[0];
    if |order| == 1 {
      SplitsOneKind(rest, order);
    } else if |order| == 2 {
      var tail := order[1..];
      assert tail[1..] == [];
      assert SumOver(rest, tail) == rest[tail[0]] + SumOver(rest, []);
      SplitsTwoKinds(rest, order);
    } else {
      var tail := order[1..];
      var last := tail[1..];
      assert last[1..] == [];
      assert SumOver(rest, last) == rest[last[0]] + SumOver(rest, []);
      assert SumOver(rest, tail) == rest[tail[0]] + SumOver(rest, last);
      SplitsThreeKinds(rest, order);
    }
  }

  lemma {:induction false} SplitsOneKind(rest: Bins, order: seq<char>)
    requires KeyOrder(rest, order) && |order| == 1 && |rest| == 1
    ensures BestSplitBelow(rest, order, 3) == Some(FiveKind)
  {
    var a := order[0];
    assert rest.Keys == {a};
    forall n1 | 0 <= n1 <= 2
      ensures GetHandType(Split(rest, order, n1)) == FiveKind
    {
      assert Split(rest, order, n1).Keys == {a};
    }
  }

  lemma {:induction false} SplitsTwoKinds(rest: Bins, order: seq<char>)
    requires KeyOrder(rest, order) && |order| == 2 && |rest| == 2
    requires rest[order[0]] >= 1 && rest[order[1]] >= 1 && rest[order[0]] + rest[order[1]] == 3
    ensures BestSplitBelow(rest, order, 3) == Some(FourKind)
  {
    TwoKindsSplitTypes(rest, order);
    if rest[order[0]] == 1 {
      assert BestSplitBelow(rest, order, 1) == Some(FourKind);
    } else {
      assert BestSplitBelow(rest, order, 1) == Some(FullHouse);
      assert BestSplitBelow(rest, order, 2) == Some(FullHouse);
    }
  }

  /** With two other kinds, the split that brings the single card to four is
      four of a kind, and the others are full houses. */
  lemma TwoKindsSplitTypes(rest: Bins, order: seq<char>)
    requires KeyOrder(rest, order) && |order| == 2 && |rest| == 2
    requires rest[order[0]] >= 1 && rest[order[1]] >= 1 && rest[order[0]] + rest[order[1]] == 3
    ensures rest[order[0]] == 1 ==>
      (GetHandType(Split(rest, order, 0)) == FourKind
       && GetHandType(Split(rest, order, 1)) == FullHouse && GetHandType(Split(rest, order, 2)) == FullHouse)
    ensures rest[order[0]] == 2 ==>
      (GetHandType(Split(rest, order, 0)) == FullHouse
       && GetHandType(Split(rest, order, 1)) == FullHouse && GetHandType(Split(rest, order, 2)) == FourKind)
  {
    var a, b := order[0], order[1];
    var x, y := rest[a], rest[b];
    assert rest == map[a := x, b := y];
    assert Split(rest, order, 0) == map[a := x, b := 2 + y];
    assert Split(rest, order, 1) == map[a := x + 1, b := 1 + y];
    assert Split(rest, order, 2) == map[a := x + 2, b := y];
    TwoKindsType(a, b, x, 2 + y);
    TwoKindsType(a, b, x + 1, 1 + y);
    TwoKindsType(a, b, x + 2, y);
  }


  lemma {:induction false} SplitsThreeKinds(rest: Bins, order: seq<char>)
    requires KeyOrder(rest, order) && |order| == 3 && |rest| == 3
    requires rest[order[0]] == 1 && rest[order[1]] == 1 && rest[order[2]] == 1
    ensures BestSplitBelow(rest, order, 3) == Some(ThreeKind)
  {
    var a, b, c := order[0], order[1], order[2];
    assert rest == map[a := 1, b := 1, c := 1];
    assert Split(rest, order, 0) == map[a := 1, b := 3, c := 1];
    assert Split(rest, order, 1) == map[a := 2, b := 2, c := 1];
    assert Split(rest, order, 2) == map[a := 3, b := 1, c := 1];
    ThreeKindsType(a, b, c, 1, 3, 1);
    ThreeKindsType(a, b, c, 2, 2, 1);
    ThreeKindsType(a, b, c, 3, 1, 1);
    assert BestSplitBelow(rest, order, 1) == Some(ThreeKind);
    assert BestSplitBelow(rest, order, 2) == Some(ThreeKind);
  }

  /** A five-card hand with two jokers: the type follows from the number of
      other kinds of card alone, so no key order changes it, and it is
      never weaker than the plain classification. */
  lemma {:induction false} TwoJokers(s: string, order: seq<char>)
    requires |s| == 5 && Jokers(BinsOf(s)) == 2
    requires KeyOrder(BinsOf(s) - {'J'}, order)
    ensures GetHandTypeWithJokers(BinsOf(s), order) ==
      var kinds := |BinsOf(s)| - 1;
      Some(if kinds == 1 then FiveKind else if kinds == 2 then FourKind else ThreeKind)
    ensures AtLeastAsStrong(GetHandTypeWithJokers(BinsOf(s), order).value, GetHandType(BinsOf(s)))
  {
    var bins := BinsOf(s);
    var rest := bins - {'J'};
    JokerBin(bins);
    OtherCardsSumToThree(s, order);
    assert order != [];
    TwoJokerSplits(rest, order);
    assert GetHandTypeWithJokers(bins, order) == BestSplitBelow(rest, order, 3);
  }

  /** Beside two jokers a five-card hand holds three other cards. */
  lemma {:induction false} OtherCardsSumToThree(s: string, order: seq<char>)
    requires |s| == 5 && Jokers(BinsOf(s)) == 2
    requires KeyOrder(BinsOf(s) - {'J'}, order)
    ensures SumOver(BinsOf(s) - {'J'}, order) == 3
    ensures forall k | k in BinsOf(s) - {'J'} :: (BinsOf(s) - {'J'})[k] >= 1
  {
    var bins := BinsOf(s);
    var rest := bins - {'J'};
    var keys := ['J'] + order;
    assert forall i | 1 <= i < |keys| :: keys[i] == order[i - 1];
    CountsSumToLength(s, keys);
    assert keys[1..] == order;
    SumOverAgree(bins, rest, order);
  }

  /** Taking out the jokers leaves one bin fewer. */
  lemma {:induction false} JokerBin(bins: Bins)
    requires 'J' in bins
    ensures |bins| == |bins - {'J'}| + 1
  {
    assert bins.Keys == (bins - {'J'}).Keys + {'J'};
  }

  /** With two jokers in a five-card hand any two key orders give the same type. */
  lemma {:induction false} TwoJokersAnyOrder(s: string, o1: seq<char>, o2: seq<char>)
    requires |s| == 5 && Jokers(BinsOf(s)) == 2
    requires KeyOrder(BinsOf(s) - {'J'}, o1) && KeyOrder(BinsOf(s) - {'J'}, o2)
    ensures GetHandTypeWithJokers(BinsOf(s), o1) == GetHandTypeWithJokers(BinsOf(s), o2)
  {
    TwoJokers(s, o1);
    TwoJokers(s, o2);
  }

  /** Five jokers always make five of a kind; one or four jokers and nothing
      else is the program's panic. */
  lemma OnlyJokers(bins: Bins, order: seq<char>)
    requires KeyOrder(bins - {'J'}, order)
    requires order == []
    ensures Jokers(bins) == 5 ==> GetHandTypeWithJokers(bins, order) == Some(FiveKind)
    ensures Jokers(bins) in {1, 2, 4} ==> GetHandTypeWithJokers(bins, order).None?
  {
    if Jokers(bins) == 1 || Jokers(bins) == 4 {
      BestBelowIsMinimum(bins - {'J'}, order, Jokers(bins) + 1, Jokers(bins));
    }
  }

  /** Five jokers make five of a kind (test at line 239). */
  lemma FiveJokers()
    ensures GetHandTypeWithJokers(map['J' := 5], "") == Some(FiveKind)
  {
    assert map['J' := 5] - {'J'} == map[];
  }

  /** One joker with four aces makes five of a kind (test at line 225). */
  lemma OneJokerFourAces()
    ensures GetHandTypeWithJokers(map['A' := 4, 'J' := 1], "A") == Some(FiveKind)
  {
    var rest := map['A' := 4];
    assert map['A' := 4, 'J' := 1] - {'J'} == rest;
    assert BestOfKeys(rest, "A", 0, 1) == Some(FourKind) by {
      assert Spread(rest, 'A', 0, 1) == map['A' := 4, 'J' := 1];
      TwoKindsType('A', 'J', 4, 1);
      assert "A"[..0] == [];
    }
    assert BestOfKeys(rest, "A", 1, 1) == Some(FiveKind) by {
      assert Spread(rest, 'A', 1, 1) == map['A' := 5];
      assert map['A' := 5].Keys == {'A'};
      assert "A"[..0] == [];
    }
  }

  /** Two jokers with three aces make five of a kind (test at line 232). */
  lemma TwoJokersThreeAces()
    ensures GetHandTypeWithJokers(map['A' := 3, 'J' := 2], "A") == Some(FiveKind)
  {
    var rest := map['A' := 3];
    assert map['A' := 3, 'J' := 2] - {'J'} == rest;
    assert Split(rest, "A", 0) == map['A' := 3] && map['A' := 3].Keys == {'A'};
    assert Split(rest, "A", 1) == map['A' := 4] && map['A' := 4].Keys == {'A'};
    assert Split(rest, "A", 2) == map['A' := 5] && map['A' := 5].Keys == {'A'};
  }

  /** Three jokers with two other kinds make four of a kind (test at line 274). */
  lemma ThreeJokersTwoKinds()
    ensures GetHandTypeWithJokers(map['A' := 1, '2' := 1, 'J' := 3], "A2") == Some(FourKind)
  {
    var rest := map['A' := 1, '2' := 1, 'J' := 3] - {'J'};
    assert rest == map['A' := 1, '2' := 1] && rest.Keys == {'A', '2'};
  }

  /** The one-joker test with two pairs: the joker joins either pair and makes
      a full house. */
  lemma OneJokerTwoPairs()
    ensures GetHandTypeWithJokers(map['A' := 2, '2' := 2, 'J' := 1], "A2") == Some(FullHouse)
  {
    var rest := map['A' := 2, '2' := 2];
    assert map['A' := 2, '2' := 2, 'J' := 1] - {'J'} == rest;
    TwoPairsKeepingJoker();
    TwoPairsSpendingJoker();
  }

  lemma TwoPairsKeepingJoker()
    ensures BestOfKeys(map['A' := 2, '2' := 2], "A2", 0, 1) == Some(TwoPair)
  {
    var rest := map['A' := 2, '2' := 2];
    var kept := map['A' := 2, '2' := 2, 'J' := 1];
    assert Spread(rest, 'A', 0, 1) == kept && Spread(rest, '2', 0, 1) == kept;
    ThreeKindsType('A', '2', 'J', 2, 2, 1);
    assert "A2"[..1] == "A";
  }

  lemma TwoPairsSpendingJoker()
    ensures BestOfKeys(map['A' := 2, '2' := 2], "A2", 1, 1) == Some(FullHouse)
  {
    var rest := map['A' := 2, '2' := 2];
    assert Spread(rest, 'A', 1, 1) == map['A' := 3, '2' := 2];
    assert Spread(rest, '2', 1, 1) == map['A' := 2, '2' := 3];
    TwoKindsType('A', '2', 3, 2);
    TwoKindsType('A', '2', 2, 3);
    assert "A2"[..1] == "A";
  }

  /** The one-joker test with one pair: the joker joins the pair and makes
      three of a kind. */
  lemma OneJokerOnePair()
    ensures GetHandTypeWithJokers(map['A' := 2, '2' := 1, '3' := 1, 'J' := 1], "A23") == Some(ThreeKind)
  {
    var rest := map['A' := 2, '2' := 1, '3' := 1];
    assert map['A' := 2, '2' := 1, '3' := 1, 'J' := 1] - {'J'} == rest;
    OnePairKeepingJoker();
    OnePairSpendingJoker();
  }

  lemma OnePairKeepingJoker()
    ensures BestOfKeys(map['A' := 2, '2' := 1, '3' := 1], "A23", 0, 1) == Some(OnePair)
  {
    var rest := map['A' := 2, '2' := 1, '3' := 1];
    var kept := map['A' := 2, '2' := 1, '3' := 1, 'J' := 1];
    assert Spread(rest, 'A', 0, 1) == kept && Spread(rest, '2', 0, 1) == kept && Spread(rest, '3', 0, 1) == kept;
    assert GetHandType(kept) == OnePair by {
      assert kept.Keys == {'A', '2', '3', 'J'};
    }
    assert "A23"[..2] == "A2" && "A23"[..2][..1] == "A";
  }

  lemma OnePairSpendingJoker()
    ensures BestOfKeys(map['A' := 2, '2' := 1, '3' := 1], "A23", 1, 1) == Some(ThreeKind)
  {
    var rest := map['A' := 2, '2' := 1, '3' := 1];
    assert GetHandType(Spread(rest, 'A', 1, 1)) == ThreeKind by {
      assert Spread(rest, 'A', 1, 1) == map['A' := 3, '2' := 1, '3' := 1];
      ThreeKindsType('A', '2', '3', 3, 1, 1);
    }
    assert GetHandType(Spread(rest, '2', 1, 1)) == TwoPair by {
      assert Spread(rest, '2', 1, 1) == map['A' := 2, '2' := 2, '3' := 1];
      ThreeKindsType('A', '2', '3', 2, 2, 1);
    }
    assert GetHandType(Spread(rest, '3', 1, 1)) == TwoPair by {
      assert Spread(rest, '3', 1, 1) == map['A' := 2, '2' := 1, '3' := 2];
      ThreeKindsType('A', '2', '3', 2, 1, 2);
    }
    assert "A23"[..2] == "A2" && "A23"[..2][..1] == "A";
  }

  /** `Hand::new` of part 2; `None` where the joker classification panics. */
  method NewJokerHand(s: string, order: seq<char>) returns (h: Option<Hand>)
    requires KeyOrder(BinsOf(s) - {'J'}, order)
    ensures GetHandTypeWithJokers(BinsOf(s), order).None? ==> h.None?
    ensures GetHandTypeWithJokers(BinsOf(s), order).Some? ==>
      h == Some(Hand(s, BinsOf(s), GetHandTypeWithJokers(BinsOf(s), order).value))
  {
    var bins := CountBins(s);
    var t := HandTypeWithJokers(bins, order);
    if t.None? {
      return None;
    }
    h := Some(Hand(s, bins, t.value));
  }

  /** In tie-breaks the joker ranks below every other card. */
  lemma JokerIsWeakest(c: char)
    requires c in JokerTable && c != 'J'
    ensures JokerTable['J'] < JokerTable[c]
  {
  }
}
