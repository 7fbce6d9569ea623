/** Scratch cards (day_4): a card's own numbers are matched against its
    winning numbers; part 1 scores each card, part 2 counts the copies that
    winning cards hand out.  `i32` values are unbounded integers here. */
module ScratchCards {
  import opened Wrappers
  import opened Text

  /** The numbers of one card, without its id (`Ticket` of part 1). */
  datatype Ticket = Ticket(winningNumbers: seq<int>, allNumbers: seq<int>)

  /** A card of part 2: the id read before ':' and its numbers. */
  datatype Card = Card(ticketId: int, ticket: Ticket)

  /** The tokens that parse as integers, in order; the others are dropped
      (`filter_map` over `parse().ok()`). */
  function Parsed(tokens: seq<string>): (r: seq<int>)
    ensures |r| <= |tokens|
  {
    if tokens == [] then []
    else
      match ParseInt(tokens[0])
      case None => Parsed(tokens[1..])
      case Some(v) => [v] + Parsed(tokens[1..])
  }

  /** A value is collected exactly when some token parses to it. */
  lemma {:induction false} ParsedMembers(tokens: seq<string>, v: int)
    ensures v in Parsed(tokens) <==> exists i | 0 <= i < |tokens| :: ParseInt(tokens[i]) == Some(v)
  {
    if tokens != [] {
      ParsedMembers(tokens[1..], v);
      if exists i | 0 <= i < |tokens| :: ParseInt(tokens[i]) == Some(v) {
        var i :| 0 <= i < |tokens| && ParseInt(tokens[i]) == Some(v);
        if i > 0 {
          assert tokens[1..][i - 1] == tokens[i];
        }
      }
      if exists i | 0 <= i < |tokens[1..]| :: ParseInt(tokens[1..][i]) == Some(v) {
        var i :| 0 <= i < |tokens[1..]| && ParseInt(tokens[1..][i]) == Some(v);
        assert tokens[i + 1] == tokens[1..][i];
      }
    }
  }

  /** `get_numbers`: the integers among the single-space-separated tokens;
      empty tokens from doubled spaces and words such as "Card" are dropped. */
  function GetNumbers(input: string): seq<int> {
    Parsed(Split(input, {' '}))
  }

  /** "Card 12" holds the one number 12: the word is dropped. */
  lemma {:induction false} GetNumbersExample()
    ensures GetNumbers("Card 12") == [12]
  {
    assert Split("Card 12", {' '}) == ["Card", "12"] by {
      assert "Card 12" == "Card" + [' '] + "12";
      SplitAtSeparator("Card", ' ', "12", {' '});
      SplitWithoutSeparator("12", {' '});
    }
    ParsedExample();
  }

  lemma {:induction false} ParsedExample()
    ensures Parsed(["Card", "12"]) == [12]
  {
    assert ParseInt("Card") == None;
    assert ParseInt("12") == Some(12) by {
      assert DigitsValue("12") == 12;
    }
    assert ["Card", "12"][1..] == ["12"];
    assert ["12"][1..] == [];
  }

  /** `from_string` of part 1: split on ':' and '|'; the winning numbers are
      the second part and the own numbers the third; fewer than three parts
      panic on the index. */
  function FromString(input: string): (r: Option<Ticket>)
    ensures r.Some? <==> |Split(input, {':', '|'})| >= 3
  {
    var parts := Split(input, {':', '|'});
    if |parts| < 3 then None
    else Some(Ticket(GetNumbers(parts[1]), GetNumbers(parts[2])))
  }

  /** `from_string` of part 2: as part 1, with the id the first integer before
      ':'; no such integer panics on the `unwrap`. */
  function CardFromString(input: string): (r: Option<Card>)
    ensures r.Some? <==> |Split(input, {':', '|'})| >= 3 && GetNumbers(Split(input, {':', '|'})[0]) != []
    ensures r.Some? ==> Some(r.value.ticket) == FromString(input)
    ensures r.Some? ==> r.value.ticketId == GetNumbers(Split(input, {':', '|'})[0])[0]
  {
    var parts := Split(input, {':', '|'});
    var ids := GetNumbers(parts[0]);
    if ids == [] || |parts| < 3 then None
    else Some(Card(ids[0], Ticket(GetNumbers(parts[1]), GetNumbers(parts[2]))))
  }

  /** `get_winning_numbers`: the own numbers that are winning numbers, in
      order and with repeats. */
  function WinningNumbers(t: Ticket): (r: seq<int>)
    ensures |r| <= |t.allNumbers|
    decreases |t.allNumbers|
  {
    if t.allNumbers == [] then []
    else
      var rest := WinningNumbers(Ticket(t.winningNumbers, t.allNumbers[..|t.allNumbers| - 1]));
      var x := t.allNumbers[|t.allNumbers| - 1];
      if x in t.winningNumbers then rest + [x] else rest
  }

  /** Each winning number occurs as often as among the own numbers, and
      nothing else occurs. */
  lemma {:induction false} WinningNumbersCount(t: Ticket, x: int)
    ensures multiset(WinningNumbers(t))[x] == if x in t.winningNumbers then multiset(t.allNumbers)[x] else 0
    decreases |t.allNumbers|
  {
    if t.allNumbers != [] {
      var all := t.allNumbers;
      var front := all[..|all| - 1];
      WinningNumbersCount(Ticket(t.winningNumbers, front), x);
      assert all == front + [all[|all| - 1]];
    }
  }

  /** The number of matches: own numbers, repeats included, that are winning. */
  function Matches(t: Ticket): nat {
    |WinningNumbers(t)|
  }

  function Pow2(e: nat): (p: nat)
    ensures p >= 1
  {
    if e == 0 then 1 else 2 * Pow2(e - 1)
  }

  /** The score: nothing without a match, else one point doubled for every
      match after the first. */
  function Worth(t: Ticket): (r: nat)
    ensures r == 0 <==> Matches(t) == 0
    ensures Matches(t) > 0 ==> 2 * r == Pow2(Matches(t))
  {
    if Matches(t) == 0 then 0 else Pow2(Matches(t) - 1)
  }

  /** `calculate_worth` (part 1 lines 13-24, part 2 lines 15-26): a counter
      from -1 raised once per own number that is winning, then two to the
      power of the counter, or 0 while it is still negative. */
  method CalculateWorth(t: Ticket) returns (w: int)
    ensures w == Worth(t)
  {
    var n := -1;
    var i := 0;
    while i < |t.allNumbers|
      invariant 0 <= i <= |t.allNumbers|
      invariant n == Matches(Ticket(t.winningNumbers, t.allNumbers[..i])) - 1
    {
      assert t.allNumbers[..i + 1][..i] == t.allNumbers[..i];
      if t.allNumbers[i] in t.winningNumbers {
        n := n + 1;
      }
      i := i + 1;
    }
    assert t.allNumbers[..i] == t.allNumbers;
    if n >= 0 {
      return Pow2(n);
    }
    return 0;
  }

  ghost predicate IsPowerOfTwo(n: nat) {
    exists e: nat :: n == Pow2(e)
  }

  /** The worth is zero exactly without matches, and otherwise a power of two. */
  lemma {:induction false} WorthShape(t: Ticket)
    ensures Worth(t) == 0 <==> Matches(t) == 0
    ensures Worth(t) != 0 ==> IsPowerOfTwo(Worth(t))
  {
    if Matches(t) != 0 {
      assert Worth(t) == Pow2(Matches(t) - 1);
    }
  }

  /** One more matching number doubles a non-zero worth and turns a zero
      worth into one point. */
  lemma {:induction false} WorthOfOneMore(t: Ticket, x: int)
    requires x in t.winningNumbers
    ensures Worth(Ticket(t.winningNumbers, t.allNumbers + [x])) == if Worth(t) == 0 then 1 else 2 * Worth(t)
  {
    var u := Ticket(t.winningNumbers, t.allNumbers + [x]);
    assert u.allNumbers[..|u.allNumbers| - 1] == t.allNumbers;
    assert Matches(u) == Matches(t) + 1;
  }

  /** A number that is not winning changes nothing. */
  lemma {:induction false} WorthOfMiss(t: Ticket, x: int)
    requires x !in t.winningNumbers
    ensures Worth(Ticket(t.winningNumbers, t.allNumbers + [x])) == Worth(t)
  {
    var u := Ticket(t.winningNumbers, t.allNumbers + [x]);
    assert u.allNumbers[..|u.allNumbers| - 1] == t.allNumbers;
  }

  /** The five cases of the tests of ticket.rs: no numbers, no match, one
      match, the same number twice, two different numbers. */
  lemma {:induction false} WorthExamples()
    ensures Worth(Ticket([], [])) == 0
    ensures Worth(Ticket([1], [0])) == 0
    ensures Worth(Ticket([1], [0, 1])) == 1
    ensures Worth(Ticket([1], [0, 1, 1])) == 2
    ensures Worth(Ticket([1, 2], [0, 1, 2])) == 2
  {
    WorthOfMiss(Ticket([1], []), 0);
    assert [] + [0] == [0];
    WorthOfOneMore(Ticket([1], [0]), 1);
    WorthOfOneMore(Ticket([1], [0, 1]), 1);
    assert [0, 1] + [1] == [0, 1, 1];
    WorthOfMiss(Ticket([1, 2], []), 0);
    WorthOfOneMore(Ticket([1, 2], [0]), 1);
    WorthOfOneMore(Ticket([1, 2], [0, 1]), 2);
    assert [0, 1] + [2] == [0, 1, 2];
  }

  // ---------------------------------------------------------------------
  // Part 2: copies of cards (day_4/part_2/src/main.rs)

  /** The cards of the non-empty lines, in order; `None` where a line does
      not read as a card and `from_string` panics. */
  function ParseCards(lines: seq<string>): (r: Option<seq<Card>>)
    ensures r.Some? <==> forall i | 0 <= i < |lines| :: CardFromString(lines[i]).Some?
    ensures r.Some? ==> |r.value| == |lines|
    ensures r.Some? ==> forall i | 0 <= i < |lines| :: Some(r.value[i]) == CardFromString(lines[i])
  {
    if lines == [] then Some([])
    else
      match CardFromString(lines[0])
      case None => None
      case Some(card) =>
        match ParseCards(lines[1..])
        case None => None
        case Some(rest) =>
          assert forall i | 1 <= i < |lines| :: lines[i] == lines[1..][i - 1];
          Some([card] + rest)
  }

  /** The id-keyed table of main.rs lines 8-13, built from
      `ParseCards(NonEmpty(lines))`: cards inserted in input order, so a
      later card with the same id replaces an earlier one. */
  function Table(cards: seq<Card>): (table: map<int, Ticket>)
    ensures forall id | id in table :: exists j | 0 <= j < |cards| :: cards[j].ticketId == id
  {
    if cards == [] then map[]
    else
      var last := cards[|cards| - 1];
      Table(cards[..|cards| - 1])[last.ticketId := last.ticket]
  }

  /** Every card's id is a key, and it holds the last card with that id. */
  lemma {:induction false} TableHoldsLast(cards: seq<Card>, j: nat)
    requires j < |cards|
    requires forall k | j < k < |cards| :: cards[k].ticketId != cards[j].ticketId
    ensures cards[j].ticketId in Table(cards)
    ensures Table(cards)[cards[j].ticketId] == cards[j].ticket
  {
    if j < |cards| - 1 {
      TableHoldsLast(cards[..|cards| - 1], j);
    }
  }

  /** The tickets that processing card `id` pushes: `id + 1` up to its
      number of winning numbers past `id`. */
  function Wins(table: map<int, Ticket>, id: int): nat
    requires id in table
  {
    |WinningNumbers(table[id])|
  }

  /** The card ids above `id`; every pushed id is above the popped one, so
      this set shrinks along the chain of copies. */
  function KeysAbove(table: map<int, Ticket>, id: int): set<int> {
    set k | k in table && k > id
  }

  /** Every card that card `id` hands a copy of is in the table; otherwise
      indexing the table panics. */
  predicate Checked(table: map<int, Ticket>, id: int)
    requires id in table
  {
    forall j | id < j <= id + Wins(table, id) :: j in table
  }

  predicate Complete(table: map<int, Ticket>) {
    forall id | id in table :: Checked(table, id)
  }

  /** The instances that one popped card `id` accounts for: itself and,
      recursively, the copies it wins; an id that is not a card accounts
      for none. */
  function Copies(table: map<int, Ticket>, id: int): (c: nat)
    ensures id in table ==> c >= 1
    decreases KeysAbove(table, id), 1
  {
    if id !in table then 0
    else 1 + CopiesOfRange(table, id, id + 1, id + 1 + Wins(table, id))
  }

  /** The copies accounted for by the cards `i` up to `end` that card `owner`
      wins; ids missing from the table contribute nothing. */
  function CopiesOfRange(table: map<int, Ticket>, owner: int, i: int, end: int): nat
    requires owner < i
    decreases KeysAbove(table, owner), 0, end - i
  {
    if i >= end then 0
    else
      var here := if i in table then
        assert KeysAbove(table, i) < KeysAbove(table, owner) by {
          assert i in KeysAbove(table, owner);
        }
        Copies(table, i)
      else 0;
      here + CopiesOfRange(table, owner, i + 1, end)
  }

  /** The instances still to be counted for the cards on the queue. */
  function Pending(table: map<int, Ticket>, queue: seq<int>): nat {
    if queue == [] then 0
    else Pending(table, queue[..|queue| - 1]) + Copies(table, queue[|queue| - 1])
  }

  /** The pending count of a queue is the sum over its two halves. */
  lemma {:induction false} PendingConcat(table: map<int, Ticket>, p: seq<int>, q: seq<int>)
    ensures Pending(table, p + q) == Pending(table, p) + Pending(table, q)
    decreases |q|
  {
    if q == [] {
      assert p + q == p;
    } else {
      PendingConcat(table, p, q[..|q| - 1]);
      assert (p + q)[..|p + q| - 1] == p + q[..|q| - 1];
      assert (p + q)[|p + q| - 1] == q[|q| - 1];
    }
  }

  /** The count does not depend on the order of the queue: the table's
      values come out of a `HashMap` in no particular order. */
  lemma {:induction false} PendingPermutation(table: map<int, Ticket>, a: seq<int>, b: seq<int>)
    requires multiset(a) == multiset(b)
    ensures Pending(table, a) == Pending(table, b)
    decreases |a|
  {
    if a == [] {
      assert |b| == |multiset(b)| == 0;
    } else {
      var x := a[|a| - 1];
      var a' := a[..|a| - 1];
      assert a == a' + [x];
      assert x in multiset(b);
      var k :| 0 <= k < |b| && b[k] == x;
      var b' := b[..k] + b[k + 1..];
      RemoveMatching(a, b, k);
      PendingPermutation(table, a', b');
      PendingRemove(table, b, k);
    }
  }

  /** Dropping the last entry of one and a matching entry of the other of two
      queues with the same entries leaves queues with the same entries. */
  lemma {:induction false} RemoveMatching(a: seq<int>, b: seq<int>, k: nat)
    requires multiset(a) == multiset(b) && a != []
    requires k < |b| && b[k] == a[|a| - 1]
    ensures multiset(a[..|a| - 1]) == multiset(b[..k] + b[k + 1..])
  {
    var x := b[k];
    assert a == a[..|a| - 1] + [x];
    assert b == b[..k] + [x] + b[k + 1..];
    assert multiset(b) == multiset(b[..k] + b[k + 1..]) + multiset{x};
    assert multiset(a) == multiset(a[..|a| - 1]) + multiset{x};
    var m1, m2 := multiset(a[..|a| - 1]), multiset(b[..k] + b[k + 1..]);
    forall y
      ensures m1[y] == m2[y]
    {
      assert (m1 + multiset{x})[y] == (m2 + multiset{x})[y];
    }
  }

  /** Taking one entry out of a queue takes away what it accounts for. */
  lemma {:induction false} PendingRemove(table: map<int, Ticket>, b: seq<int>, k: nat)
    requires k < |b|
    ensures Pending(table, b) == Pending(table, b[..k] + b[k + 1..]) + Copies(table, b[k])
  {
    var pre, post := b[..k], b[k + 1..];
    assert b == pre + ([b[k]] + post);
    PendingConcat(table, pre, [b[k]] + post);
    PendingConcat(table, [b[k]], post);
    PendingConcat(table, pre, post);
    assert Pending(table, [b[k]]) == Copies(table, b[k]);
  }

  /** Every card is counted at least once. */
  lemma {:induction false} PendingAtLeastLength(table: map<int, Ticket>, queue: seq<int>)
    requires forall j | 0 <= j < |queue| :: queue[j] in table
    ensures Pending(table, queue) >= |queue|
  {
    if queue != [] {
      PendingAtLeastLength(table, queue[..|queue| - 1]);
    }
  }

  /** The inner loop of main.rs lines 19-21: push the ids of the cards that
      card `id` wins, in increasing order.  `ok` is false where a pushed id is
      missing from the table, which panics; otherwise the pushed cards
      account for all the copies card `id` hands out. */
  method PushWins(table: map<int, Ticket>, queue: seq<int>, id: int) returns (q: seq<int>, ok: bool)
    requires id in table
    requires forall j | 0 <= j < |queue| :: queue[j] in table
    ensures ok <==> Checked(table, id)
    ensures forall j | 0 <= j < |q| :: q[j] in table
    ensures |q| >= |queue| && q[..|queue|] == queue
    ensures ok ==> Pending(table, q) + 1 == Pending(table, queue) + Copies(table, id)
  {
    q := queue;
    var i := id + 1;
    var end := id + 1 + Wins(table, id);
    while i < end
      invariant id + 1 <= i <= end
      invariant forall j | 0 <= j < |q| :: q[j] in table
      invariant |q| >= |queue| && q[..|queue|] == queue
      invariant forall j | id < j < i :: j in table
      invariant Pending(table, q) + CopiesOfRange(table, id, i, end)
        == Pending(table, queue) + CopiesOfRange(table, id, id + 1, end)
      decreases end - i
    {
      if i !in table {
        return q, false;
      }
      q := q + [i];
      i := i + 1;
    }
    ok := true;
  }

  /** One round of the loop of main.rs lines 17-21: pop the last card off
      the queue and push the ids of the cards it wins. */
  method PopRound(table: map<int, Ticket>, queue: seq<int>) returns (q: seq<int>, id: int, ok: bool)
    requires queue != []
    requires forall j | 0 <= j < |queue| :: queue[j] in table
    ensures id == queue[|queue| - 1] && (ok <==> Checked(table, id))
    ensures forall j | 0 <= j < |q| :: q[j] in table
    ensures |q| >= |queue| - 1 && forall j | 0 <= j < |queue| - 1 :: q[j] == queue[j]
    ensures ok ==> Pending(table, q) + 1 == Pending(table, queue)
  {
    id := queue[|queue| - 1];
    var rest := queue[..|queue| - 1];
    assert Pending(table, queue) == Pending(table, rest) + Copies(table, id);
    q, ok := PushWins(table, rest, id);
    assert forall j | 0 <= j < |rest| :: q[j] == q[..|rest|][j];
  }

  /** The loop of main.rs lines 14-22: start with one queue entry per card
      (`order` is the order the table hands them out), pop one, count it and
      push the ids of the cards it wins.  `None` where indexing the table
      with a pushed id panics. */
  method CountInstances(table: map<int, Ticket>, order: seq<int>) returns (r: Option<nat>)
    requires forall j | 0 <= j < |order| :: order[j] in table
    ensures r.Some? ==> r.value == Pending(table, order)
    ensures (forall id | id in table :: id in order) ==> (r.Some? <==> Complete(table))
  {
    var queue := order;
    var n := 0;
    ghost var m: nat := |order|;
    while queue != []
      invariant forall j | 0 <= j < |queue| :: queue[j] in table
      invariant n + Pending(table, queue) == Pending(table, order)
      invariant m <= |queue| && m <= |order|
      invariant forall j | 0 <= j < m :: queue[j] == order[j]
      invariant forall j | m <= j < |order| :: Checked(table, order[j])
      decreases Pending(table, queue)
    {
      if m == |queue| {
        m := m - 1;
      }
      var id, ok;
      queue, id, ok := PopRound(table, queue);
      n := n + 1;
      if !ok {
        return None;
      }
    }
    assert forall id | id in order :: Checked(table, id) by {
      forall id | id in order
        ensures Checked(table, id)
      {
        var j :| 0 <= j < |order| && order[j] == id;
      }
    }
    r := Some(n);
  }
}
