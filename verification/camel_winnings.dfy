/** Camel Cards winnings (day_7/part_1/src/main.rs): each line holds a hand
    and a bid; the hands are sorted with their bids, strongest first, the
    order is reversed, and every bid is weighted by its rank, the weakest
    hand having rank 1. */
module CamelWinnings {
  import opened Wrappers
  import opened Text
  import opened CamelCards

  /** One parsed line: the hand's cards and the bid. */
  datatype Play = Play(cards: string, bid: nat)

  /** A hand with its bid, the element type of the vector that is sorted. */
  datatype Entry = Entry(hand: Hand, bid: nat)

  /** One line: split on ' ', every piece trimmed, the first piece the hand and
      the last piece the bid; `None` where parsing the bid panics. */
  function ParseLine(line: string): (r: Option<Play>)
  {
    var parts := Split(line, {' '});
    match ParseNat(Trim(parts[|parts| - 1]))
    case None => None
    case Some(bid) => Some(Play(Trim(parts[0]), bid))
  }

  /** Text without whitespace is left alone by `trim`. */
  lemma TrimWithoutWhitespace(s: string)
    requires forall i | 0 <= i < |s| :: !IsWhitespace(s[i])
    ensures Trim(s) == s
  {
    assert (set c: char | c in s && IsWhitespace(c)) == {};
  }

  /** A well-formed line "<cards> <digits>" parses to those cards and the
      value of those digits. */
  lemma ParseWellFormedLine(cards: string, digits: string)
    requires forall i | 0 <= i < |cards| :: !IsWhitespace(cards[i])
    requires digits != [] && AllDigits(digits)
    ensures ParseLine(cards + " " + digits) == Some(Play(cards, DigitsValue(digits)))
  {
    SplitWithoutSeparator(digits, {' '});
    SplitAtSeparator(cards, ' ', digits, {' '});
    TrimWithoutWhitespace(cards);
    TrimWithoutWhitespace(digits);
  }

  /** Every line parsed, or `None` at the first bid that does not parse. */
  function ParseLines(lines: seq<string>): (r: Option<seq<Play>>)
    ensures r.Some? ==> |r.value| == |lines|
    ensures r.Some? <==> forall i | 0 <= i < |lines| :: ParseLine(lines[i]).Some?
    ensures r.Some? ==> forall i | 0 <= i < |lines| :: r.value[i] == ParseLine(lines[i]).value
  {
    var parsed := seq(|lines|, i requires 0 <= i < |lines| => ParseLine(lines[i]));
    assert forall i | 0 <= i < |lines| :: parsed[i] == ParseLine(lines[i]);
    AllSome(parsed)
  }


  /** An entry whose hand has `n` cards, all known to the table. */
  predicate WellFormed(table: CardTable, n: nat, e: Entry) {
    |e.hand.cards| == n && forall k | 0 <= k < n :: e.hand.cards[k] in table
  }

  /** Entries the comparison can order without panicking: hands of one length
      `n`, all cards known to the table. */
  predicate ValidEntries(table: CardTable, n: nat, s: seq<Entry>) {
    forall e | e in s :: WellFormed(table, n, e)
  }

  /** The derived `Ord` of the `(Hand, usize)` pairs: by hand, then by bid;
      an error where comparing the hands panics. */
  function CompareEntries(table: CardTable, x: Entry, y: Entry): Result<Ordering, CompareError> {
    match CompareHands(table, x.hand, y.hand)
    case Err(e) => Err(e)
    case Ok(byHand) => if byHand != Equal then Ok(byHand) else Ok(CompareNat(x.bid, y.bid))
  }

  /** Well-formed entries always compare, and swapping them reverses the result. */
  lemma CompareEntriesAntisymmetric(table: CardTable, n: nat, x: Entry, y: Entry)
    requires WellFormed(table, n, x) && WellFormed(table, n, y)
    ensures CompareEntries(table, x, y).Ok? && CompareEntries(table, y, x).Ok?
    ensures CompareEntries(table, x, y).value == Reverse(CompareEntries(table, y, x).value)
  {
    CompareHandsFacts(table, x.hand, y.hand);
  }

  /** "Not `Greater`" between well-formed entries chains. */
  lemma CompareEntriesTransitive(table: CardTable, n: nat, x: Entry, y: Entry, z: Entry)
    requires WellFormed(table, n, x) && WellFormed(table, n, y) && WellFormed(table, n, z)
    requires CompareEntries(table, x, y) != Ok(Greater) && CompareEntries(table, y, z) != Ok(Greater)
    ensures CompareEntries(table, x, z) != Ok(Greater)
  {
    CompareHandsTransitive(table, x.hand, y.hand, z.hand);
  }

  /** Ascending under the comparison: strongest hand first. */
  predicate Sorted(table: CardTable, s: seq<Entry>) {
    forall i, j | 0 <= i < j < |s| :: CompareEntries(table, s[i], s[j]) != Ok(Greater)
  }

  /** One step of a stable insertion sort: `x` goes before the first entry it
      is not greater than. */
  function Insert(table: CardTable, x: Entry, s: seq<Entry>): (r: seq<Entry>)
    ensures |r| == |s| + 1
    ensures multiset(r) == multiset(s) + multiset{x}
  {
    if s == [] then [x]
    else if CompareEntries(table, x, s[0]) == Ok(Greater) then
      assert s == [s[0]] + s[1..];
      [s[0]] + Insert(table, x, s[1..])
    else [x] + s
  }

  /** `sort_by`: a stable sort under the comparison. */
  function Sort(table: CardTable, s: seq<Entry>): (r: seq<Entry>)
    ensures |r| == |s|
    ensures multiset(r) == multiset(s)
  {
    if s == [] then []
    else
      assert s == [s[0]] + s[1..];
      Insert(table, s[0], Sort(table, s[1..]))
  }

  /** Entries drawn from valid ones are valid. */
  lemma ValidBySameEntries(table: CardTable, n: nat, s: seq<Entry>, t: seq<Entry>)
    requires ValidEntries(table, n, s)
    requires multiset(t) <= multiset(s)
    ensures ValidEntries(table, n, t)
  {
    forall e | e in t
      ensures WellFormed(table, n, e)
    {
      assert e in multiset(t);
    }
  }

  /** Inserting into a sorted sequence of valid entries keeps it sorted. */
  lemma {:induction false} InsertSorted(table: CardTable, n: nat, x: Entry, s: seq<Entry>)
    requires WellFormed(table, n, x) && ValidEntries(table, n, s)
    requires Sorted(table, s)
    ensures Sorted(table, Insert(table, x, s))
  {
    if s != [] {
      if CompareEntries(table, x, s[0]) == Ok(Greater) {
        assert ValidEntries(table, n, s[1..]) && Sorted(table, s[1..]) by {
          assert s == [s[0]] + s[1..];
          ValidBySameEntries(table, n, s, s[1..]);
          assert forall i | 0 <= i < |s[1..]| :: s[1..][i] == s[i + 1];
        }
        InsertSorted(table, n, x, s[1..]);
        InsertBehind(table, n, x, s);
      } else {
        InsertInFront(table, n, x, s);
      }
    }
  }

  /** `x` not greater than the head of a sorted sequence goes in front of it. */
  lemma InsertInFront(table: CardTable, n: nat, x: Entry, s: seq<Entry>)
    requires WellFormed(table, n, x) && ValidEntries(table, n, s)
    requires Sorted(table, s)
    requires s != [] && CompareEntries(table, x, s[0]) != Ok(Greater)
    ensures Sorted(table, [x] + s)
  {
    var r := [x] + s;
    forall i, j | 0 <= i < j < |r|
      ensures CompareEntries(table, r[i], r[j]) != Ok(Greater)
    {
      if i == 0 {
        if j > 1 {
          assert r[j] == s[j - 1] && s[j - 1] in s && s[0] in s;
          CompareEntriesTransitive(table, n, x, s[0], r[j]);
        }
      } else {
        assert r[i] == s[i - 1] && r[j] == s[j - 1];
      }
    }
  }

  /** `x` greater than the head of a sorted sequence goes behind the head,
      into the sorted rest. */
  lemma InsertBehind(table: CardTable, n: nat, x: Entry, s: seq<Entry>)
    requires WellFormed(table, n, x) && ValidEntries(table, n, s)
    requires Sorted(table, s)
    requires s != [] && CompareEntries(table, x, s[0]) == Ok(Greater)
    requires Sorted(table, Insert(table, x, s[1..]))
    ensures Sorted(table, [s[0]] + Insert(table, x, s[1..]))
  {
    var inner := Insert(table, x, s[1..]);
    var r := [s[0]] + inner;
    forall i, j | 0 <= i < j < |r|
      ensures CompareEntries(table, r[i], r[j]) != Ok(Greater)
    {
      if i == 0 {
        assert r[j] in multiset(inner);
        HeadBeforeInserted(table, n, x, s, r[j]);
      } else {
        assert r[i] == inner[i - 1] && r[j] == inner[j - 1];
      }
    }
  }

  /** The head of a sorted sequence is not greater than anything in its rest,
      nor than an `x` greater than it. */
  lemma HeadBeforeInserted(table: CardTable, n: nat, x: Entry, s: seq<Entry>, e: Entry)
    requires WellFormed(table, n, x) && ValidEntries(table, n, s)
    requires Sorted(table, s)
    requires s != [] && CompareEntries(table, x, s[0]) == Ok(Greater)
    requires e in multiset(s[1..]) + multiset{x}
    ensures CompareEntries(table, s[0], e) != Ok(Greater)
  {
    if e == x {
      assert s[0] in s;
      CompareEntriesAntisymmetric(table, n, x, s[0]);
    } else {
      assert e in s[1..];
      var k :| 0 <= k < |s[1..]| && s[1..][k] == e;
      assert s[k + 1] == e;
    }
  }

  /** Sorting valid entries puts them in order. */
  lemma {:induction false} SortSorted(table: CardTable, n: nat, s: seq<Entry>)
    requires ValidEntries(table, n, s)
    ensures Sorted(table, Sort(table, s))
  {
    if s != [] {
      assert s[0] in s && s == [s[0]] + s[1..];
      ValidBySameEntries(table, n, s, s[1..]);
      SortSorted(table, n, s[1..]);
      ValidBySameEntries(table, n, s[1..], Sort(table, s[1..]));
      InsertSorted(table, n, s[0], Sort(table, s[1..]));
    }
  }

  /** The winnings of entries listed weakest first: bid times rank, rank `i + 1`
      for position `i`. */
  function Score(s: seq<Entry>): nat {
    if s == [] then 0 else Score(s[..|s| - 1]) + |s| * s[|s| - 1].bid
  }

  /** The hands with their bids, in line order (`Hand::new` on the first piece). */
  function Entries(plays: seq<Play>): (r: seq<Entry>)
    ensures |r| == |plays|
    ensures forall i | 0 <= i < |plays| ::
      r[i] == Entry(Hand(plays[i].cards, BinsOf(plays[i].cards), GetHandType(BinsOf(plays[i].cards))), plays[i].bid)
  {
    if plays == [] then []
    else
      var p := plays[0];
      [Entry(Hand(p.cards, BinsOf(p.cards), GetHandType(BinsOf(p.cards))), p.bid)] + Entries(plays[1..])
  }

  /** The accumulation loop (lines 29-32) over the reversed order. */
  method SumWinnings(ranked: seq<Entry>) returns (total: nat)
    ensures total == Score(ranked)
  {
    total := 0;
    for i := 0 to |ranked|
      invariant total == Score(ranked[..i])
    {
      assert ranked[..i + 1][..i] == ranked[..i];
      total := total + (i + 1) * ranked[i].bid;
    }
    assert ranked[..|ranked|] == ranked;
  }

  /** Lines 27-32: sort, reverse, and add up bid times rank. */
  method TotalWinnings(table: CardTable, n: nat, entries: seq<Entry>) returns (total: nat)
    requires ValidEntries(table, n, entries)
    ensures total == Score(Reversed(Sort(table, entries)))
  {
    var hands := Sort(table, entries);
    hands := Reversed(hands);
    total := SumWinnings(hands);
  }

  /** After sorting and reversing, the entries are the input's, and they run
      from weakest to strongest: no entry compares `Less` than a later one. */
  lemma RankedWeakestFirst(table: CardTable, n: nat, entries: seq<Entry>)
    requires ValidEntries(table, n, entries)
    ensures multiset(Reversed(Sort(table, entries))) == multiset(entries)
    ensures forall i, j | 0 <= i < j < |entries| ::
      CompareEntries(table, Reversed(Sort(table, entries))[j], Reversed(Sort(table, entries))[i]) != Ok(Greater)
  {
    SortSorted(table, n, entries);
    ReversedMultiset(Sort(table, entries));
    ReversedDescending(table, Sort(table, entries));
  }

  /** Reversing a sorted sequence puts every entry at or above the ones after it. */
  lemma ReversedDescending(table: CardTable, s: seq<Entry>)
    requires Sorted(table, s)
    ensures forall i, j | 0 <= i < j < |s| :: CompareEntries(table, Reversed(s)[j], Reversed(s)[i]) != Ok(Greater)
  {
    var r := Reversed(s);
    forall i, j | 0 <= i < j < |s|
      ensures CompareEntries(table, r[j], r[i]) != Ok(Greater)
    {
      assert r[j] == s[|s| - 1 - j] && r[i] == s[|s| - 1 - i];
    }
  }

  /** Reversing keeps the entries. */
  lemma {:induction false} ReversedMultiset(s: seq<Entry>)
    ensures multiset(Reversed(s)) == multiset(s)
  {
    if s != [] {
      ReversedMultiset(s[1..]);
      assert Reversed(s) == Reversed(s[1..]) + [s[0]];
      assert s == [s[0]] + s[1..];
    }
  }

  /** With a single hand the winnings are its bid. */
  lemma SingleHand(table: CardTable, e: Entry)
    ensures Score(Reversed(Sort(table, [e]))) == e.bid
  {
    assert Sort(table, [e]) == [e] by {
      assert [e][1..] == [];
    }
    assert Reversed([e]) == [e];
    assert [e][..0] == [];
  }

  /** Every rank is at least 1 and bids are not negative, so winnings are at
      least the sum of the bids. */
  lemma {:induction false} ScoreAtLeastBids(s: seq<Entry>)
    ensures Score(s) >= SumBids(s)
  {
    if s != [] {
      ScoreAtLeastBids(s[..|s| - 1]);
    }
  }

  /** The sum of the bids. */
  function SumBids(s: seq<Entry>): nat {
    if s == [] then 0 else SumBids(s[..|s| - 1]) + s[|s| - 1].bid
  }

  /** The program from line 11 on: parse the non-empty lines, build the hands,
      sort, reverse and total.  `None` where a bid does not parse. */
  method Winnings(lines: seq<string>, n: nat) returns (r: Option<nat>)
    requires ParseLines(NonEmpty(lines)).Some? ==>
      ValidEntries(Cards, n, Entries(ParseLines(NonEmpty(lines)).value))
    ensures ParseLines(NonEmpty(lines)).None? ==> r.None?
    ensures ParseLines(NonEmpty(lines)).Some? ==>
      r == Some(Score(Reversed(Sort(Cards, Entries(ParseLines(NonEmpty(lines)).value)))))
  {
    var plays := ParseLines(NonEmpty(lines));
    if plays.None? {
      return None;
    }
    var total := TotalWinnings(Cards, n, Entries(plays.value));
    r := Some(total);
  }
}
