/**
 * Camel Cards, 2023/day7/camelpoker.py. A hand is a list of cards and a bid. Its type
 * (five of a kind down to high card) comes from how often each card occurs, and hands
 * compare by type first and then card by card. The hands are sorted weakest first, and
 * each bid is multiplied by its rank.
 *
 * Orders follow the source: a card's order is its position in `AKQJT98765432`, and a
 * hand type's order is its position in the type list. In both cases the smaller order
 * is the stronger one and compares "less".
 */
module CamelCards {
  import opened Wrappers
  import Text
  import Results
  import Sorting

  const IndexError := "IndexError: list index out of range"
  const ValueError := "ValueError: invalid literal for int()"
  const KeyError := "KeyError"

  // ---- cards ----

  datatype Card = Card(symbol: char, order: nat)

  /** The card symbols, strongest first. */
  const Symbols: string := "AKQJT98765432"

  /** The position of a symbol in the table. */
  function OrderOf(c: char): (o: Option<nat>)
    ensures o.Some? ==> o.value < |Symbols| && Symbols[o.value] == c
  {
    match c
    case 'A' => Some(0)
    case 'K' => Some(1)
    case 'Q' => Some(2)
    case 'J' => Some(3)
    case 'T' => Some(4)
    case '9' => Some(5)
    case '8' => Some(6)
    case '7' => Some(7)
    case '6' => Some(8)
    case '5' => Some(9)
    case '4' => Some(10)
    case '3' => Some(11)
    case '2' => Some(12)
    case _ => None
  }

  /** `Card.withSymbol`: the card of the table, or a KeyError for any other character. */
  function WithSymbol(c: char): (r: Result<Card>)
    ensures r.Success? <==> c in Symbols
    ensures r.Success? ==> r.value.symbol == c && r.value.order < |Symbols| && Symbols[r.value.order] == c
    ensures r.Failure? ==> r.error == KeyError
  {
    match OrderOf(c)
    case Some(o) => Success(Card(c, o))
    case None => assert c !in Symbols; Failure(KeyError)
  }

  /** The symbols are distinct, so every card of the table is found at its own position. */
  lemma CardTable(i: nat)
    requires i < |Symbols|
    ensures WithSymbol(Symbols[i]) == Success(Card(Symbols[i], i))
  {
  }

  /** A card of the table: the one `withSymbol` hands out for its symbol. */
  predicate TableCard(c: Card) {
    c.order < |Symbols| && c.symbol == Symbols[c.order]
  }

  /** `Card.__lt__`: by order, so the ace is the least card. */
  predicate CardLess(a: Card, b: Card) {
    a.order < b.order
  }

  /** The ace is less than every other card of the table, the two greater than every other. */
  lemma AceLeast(c: Card)
    requires TableCard(c)
    ensures c.symbol != 'A' ==> CardLess(WithSymbol('A').value, c)
    ensures c.symbol != '2' ==> CardLess(c, WithSymbol('2').value)
  {
    CardTable(0);
    CardTable(12);
  }

  /** `Card.__eq__` as written: its test is inverted, so a card never equals a card. */
  predicate CardEqualsAsWritten(a: Card, b: Card) {
    false
  }

  /** The ace does not equal itself under `Card.__eq__` as written. */
  lemma CardEqualsAsWrittenIrreflexive()
    ensures var ace := WithSymbol('A').value; !CardEqualsAsWritten(ace, ace)
  {
  }

  /** `Card.__eq__` as intended: same symbol and same order. */
  predicate CardEquals(a: Card, b: Card) {
    a.symbol == b.symbol && a.order == b.order
  }

  /** The intended equality is equality of cards, so it is reflexive. */
  lemma CardEqualsIsEquality(a: Card, b: Card)
    ensures CardEquals(a, b) <==> a == b
  {
  }

  // ---- card counts ----

  /** `CardWithCount`; a list of them in insertion order stands for the `counts` dictionary. */
  datatype CardWithCount = CardWithCount(card: Card, count: nat)

  /** `CardWithCount.__lt__`: the higher count first, then the lesser card. */
  predicate CountedLess(a: CardWithCount, b: CardWithCount) {
    if a.count > b.count then true
    else if a.count < b.count then false
    else CardLess(a.card, b.card)
  }

  /** `CardWithCount.__lt__` is a strict order, total on distinct cards' entries. */
  lemma CountedLessOrder(a: CardWithCount, b: CardWithCount, c: CardWithCount)
    ensures !CountedLess(a, a)
    ensures CountedLess(a, b) && CountedLess(b, c) ==> CountedLess(a, c)
    ensures a.card.order != b.card.order ==> CountedLess(a, b) || CountedLess(b, a)
    ensures CountedLess(a, b) <==> a.count > b.count || (a.count == b.count && a.card.order < b.card.order)
  {
  }

  /** `counts.get(card, 0)`. */
  function Lookup(t: seq<CardWithCount>, c: Card): nat
    decreases |t|
  {
    if t == [] then 0 else if CardEquals(t[0].card, c) then t[0].count else Lookup(t[1..], c)
  }

  /** `counts[card] = counts.get(card, 0) + 1`: bump the card's entry, or append one. */
  function Bump(t: seq<CardWithCount>, c: Card): seq<CardWithCount>
    decreases |t|
  {
    if t == [] then [CardWithCount(c, 1)]
    else if CardEquals(t[0].card, c) then [CardWithCount(c, t[0].count + 1)] + t[1..]
    else [t[0]] + Bump(t[1..], c)
  }

  /** The counts of a list of cards, as the loop of `Hand.__init__` builds them. */
  function Tally(cards: seq<Card>): seq<CardWithCount>
    decreases |cards|
  {
    if cards == [] then [] else Bump(Tally(cards[..|cards| - 1]), cards[|cards| - 1])
  }

  /** The sum of the counts. */
  function Total(t: seq<CardWithCount>): nat
    decreases |t|
  {
    if t == [] then 0 else t[0].count + Total(t[1..])
  }

  predicate Keyed(t: seq<CardWithCount>, c: Card) {
    exists i :: 0 <= i < |t| && t[i].card == c
  }

  /** Every card has one entry, with a positive count. */
  predicate WellFormed(t: seq<CardWithCount>) {
    (forall i, j :: 0 <= i < j < |t| ==> t[i].card != t[j].card)
    && forall i :: 0 <= i < |t| ==> t[i].count >= 1
  }

  lemma {:induction false} BumpLookup(t: seq<CardWithCount>, c: Card, d: Card)
    ensures Lookup(Bump(t, c), d) == Lookup(t, d) + (if d == c then 1 else 0)
    decreases |t|
  {
    if t != [] && !CardEquals(t[0].card, c) {
      BumpLookup(t[1..], c, d);
      assert Bump(t, c)[1..] == Bump(t[1..], c);
    }
  }

  lemma {:induction false} BumpTotal(t: seq<CardWithCount>, c: Card)
    ensures Total(Bump(t, c)) == Total(t) + 1
    decreases |t|
  {
    if t != [] {
      if CardEquals(t[0].card, c) {
        assert Bump(t, c)[1..] == t[1..];
      } else {
        BumpTotal(t[1..], c);
        assert Bump(t, c)[1..] == Bump(t[1..], c);
      }
    }
  }

  /** An entry list is keyed by its first entry's card and the rest's cards. */
  lemma KeyedCons(t: seq<CardWithCount>, d: Card)
    requires t != []
    ensures Keyed(t, d) <==> t[0].card == d || Keyed(t[1..], d)
  {
    if Keyed(t, d) && t[0].card != d {
      var i :| 0 <= i < |t| && t[i].card == d;
      assert t[1..][i - 1].card == d;
    }
    if Keyed(t[1..], d) {
      var i :| 0 <= i < |t[1..]| && t[1..][i].card == d;
      assert t[i + 1].card == d;
    }
  }

  /** Bumping adds the card to the keys and nothing else. */
  lemma {:induction false} BumpKeys(t: seq<CardWithCount>, c: Card, d: Card)
    ensures Keyed(Bump(t, c), d) <==> Keyed(t, d) || d == c
    decreases |t|
  {
    var r := Bump(t, c);
    if t == [] {
      assert r[0].card == c;
    } else {
      KeyedCons(t, d);
      KeyedCons(r, d);
      if CardEquals(t[0].card, c) {
        assert r[1..] == t[1..];
      } else {
        BumpKeys(t[1..], c, d);
        assert r[1..] == Bump(t[1..], c);
      }
    }
  }

  /** Bumping keeps one entry per card, each with a positive count. */
  lemma {:induction false} BumpWellFormed(t: seq<CardWithCount>, c: Card)
    requires WellFormed(t)
    ensures WellFormed(Bump(t, c))
    decreases |t|
  {
    var r := Bump(t, c);
    if t != [] && !CardEquals(t[0].card, c) {
      var rest := Bump(t[1..], c);
      BumpWellFormed(t[1..], c);
      assert r == [t[0]] + rest;
      BumpKeys(t[1..], c, t[0].card);
      assert !Keyed(t[1..], t[0].card);
      forall i, j | 0 <= i < j < |r|
        ensures r[i].card != r[j].card
      {
        if i == 0 {
          assert r[j] == rest[j - 1];
        } else {
          assert r[i] == rest[i - 1] && r[j] == rest[j - 1];
        }
      }
    }
  }

  /**
   * The counts record each card's multiplicity, every card of the hand has exactly one
   * entry and no other card has one, and the counts sum to the number of cards.
   */
  lemma {:induction false} TallyCounts(cards: seq<Card>)
    ensures WellFormed(Tally(cards))
    ensures forall c :: Lookup(Tally(cards), c) == multiset(cards)[c]
    ensures forall c :: Keyed(Tally(cards), c) <==> c in cards
    ensures Total(Tally(cards)) == |cards|
    decreases |cards|
  {
    if cards != [] {
      var init, last := cards[..|cards| - 1], cards[|cards| - 1];
      TallyCounts(init);
      assert cards == init + [last];
      BumpWellFormed(Tally(init), last);
      BumpTotal(Tally(init), last);
      forall c
        ensures Keyed(Tally(cards), c) <==> c in cards
      {
        BumpKeys(Tally(init), last, c);
      }
      forall c
        ensures Lookup(Tally(cards), c) == multiset(cards)[c]
      {
        BumpLookup(Tally(init), last, c);
      }
    }
  }

  /** An entry's count is its card's multiplicity in the hand. */
  lemma EntryCount(cards: seq<Card>, i: nat)
    requires i < |Tally(cards)|
    ensures Tally(cards)[i].count == multiset(cards)[Tally(cards)[i].card]
  {
    var t := Tally(cards);
    TallyCounts(cards);
    LookupEntry(t, i);
  }

  lemma {:induction false} LookupEntry(t: seq<CardWithCount>, i: nat)
    requires WellFormed(t) && i < |t|
    ensures Lookup(t, t[i].card) == t[i].count
    decreases i
  {
    if i > 0 {
      assert t[0].card != t[i].card;
      assert WellFormed(t[1..]) by {
        forall a, b | 0 <= a < b < |t[1..]|
          ensures t[1..][a].card != t[1..][b].card
        {
          assert t[a + 1].card != t[b + 1].card;
        }
      }
      LookupEntry(t[1..], i - 1);
    }
  }

  // ---- hand types ----

  datatype HandType = FiveOfAKind | FourOfAKind | FullHouse | ThreeOfAKind | TwoPair | OnePair | HighCard

  /** `_handTypes`, in the order `Hand.__init__` tries them. */
  const Types: seq<HandType> := [FiveOfAKind, FourOfAKind, FullHouse, ThreeOfAKind, TwoPair, OnePair, HighCard]

  /** `HandType.order`: the position in the type list; a smaller order is a stronger type. */
  function TypeOrder(h: HandType): (o: nat)
    ensures o < |Types| && Types[o] == h
  {
    match h
    case FiveOfAKind => 0
    case FourOfAKind => 1
    case FullHouse => 2
    case ThreeOfAKind => 3
    case TwoPair => 4
    case OnePair => 5
    case HighCard => 6
  }

  /** `k in counts.values()`. */
  predicate HasCount(t: seq<CardWithCount>, k: nat) {
    exists i :: 0 <= i < |t| && t[i].count == k
  }

  /** `len([count for count in counts.values() if count == k])`. */
  function CountOf(t: seq<CardWithCount>, k: nat): (n: nat)
    ensures n <= |t|
    ensures n == 0 <==> !HasCount(t, k)
    decreases |t|
  {
    if t == [] then 0
    else
      var rest := CountOf(t[1..], k);
      assert HasCount(t, k) <==> t[0].count == k || HasCount(t[1..], k) by {
        if HasCount(t, k) && t[0].count != k {
          var i :| 0 <= i < |t| && t[i].count == k;
          assert t[1..][i - 1].count == k;
        }
        if HasCount(t[1..], k) {
          var i :| 0 <= i < |t[1..]| && t[1..][i].count == k;
          assert t[i + 1].count == k;
        }
      }
      (if t[0].count == k then 1 else 0) + rest
  }

  /** `HandType.matches`. */
  predicate Matches(h: HandType, t: seq<CardWithCount>) {
    match h
    case FiveOfAKind => HasCount(t, 5)
    case FourOfAKind => HasCount(t, 4)
    case FullHouse => HasCount(t, 3) && HasCount(t, 2)
    case ThreeOfAKind => HasCount(t, 3)
    case TwoPair => CountOf(t, 2) == 2
    case OnePair => CountOf(t, 2) == 1
    case HighCard => true
  }

  /** The first type from position `k` on that matches. */
  function TypeFrom(t: seq<CardWithCount>, k: nat): (h: HandType)
    requires k < |Types|
    ensures Matches(h, t) && k <= TypeOrder(h)
    ensures forall j :: k <= j < TypeOrder(h) ==> !Matches(Types[j], t)
    decreases |Types| - k
  {
    if k == |Types| - 1 || Matches(Types[k], t) then Types[k]
    else TypeFrom(t, k + 1)
  }

  /**
   * `next(filter(lambda type: type.matches(self), _handTypes))`: the first type that
   * matches. HighCard always matches, so there is one.
   */
  function TypeOf(t: seq<CardWithCount>): (h: HandType)
    ensures Matches(h, t)
    ensures forall g :: TypeOrder(g) < TypeOrder(h) ==> !Matches(g, t)
  {
    TypeFrom(t, 0)
  }

  lemma {:induction false} TotalOfTwo(t: seq<CardWithCount>, i: nat, j: nat)
    requires i < j < |t|
    ensures Total(t) >= t[i].count + t[j].count
    decreases |t|
  {
    if i > 0 {
      TotalOfTwo(t[1..], i - 1, j - 1);
    } else {
      TotalOfOne(t[1..], j - 1);
    }
  }

  lemma {:induction false} TotalOfOne(t: seq<CardWithCount>, i: nat)
    requires i < |t|
    ensures Total(t) >= t[i].count
    decreases |t|
  {
    if i > 0 {
      TotalOfOne(t[1..], i - 1);
    }
  }

  /** Counts summing to at most 5 cannot hold a 4 or a 5 beside a 2. */
  lemma NoBigBesidePair(t: seq<CardWithCount>, k: nat)
    requires Total(t) <= 5 && HasCount(t, 2) && k >= 4
    ensures !HasCount(t, k)
  {
    if HasCount(t, k) {
      var i :| 0 <= i < |t| && t[i].count == k;
      var j :| 0 <= j < |t| && t[j].count == 2;
      if i < j {
        TotalOfTwo(t, i, j);
      } else {
        TotalOfTwo(t, j, i);
      }
    }
  }

  /**
   * A hand of five cards with a three and a pair is a full house: FullHouse is tried
   * before ThreeOfAKind, which matches such a hand too.
   */
  lemma FullHouseBeforeThree(cards: seq<Card>)
    requires |cards| == 5
    requires HasCount(Tally(cards), 3) && HasCount(Tally(cards), 2)
    ensures TypeOf(Tally(cards)) == FullHouse
    ensures Matches(ThreeOfAKind, Tally(cards))
  {
    var t := Tally(cards);
    TallyCounts(cards);
    NoBigBesidePair(t, 5);
    NoBigBesidePair(t, 4);
    assert Matches(FullHouse, t);
  }

  /** Five different cards are a high card hand. */
  lemma AllDistinctHighCard(cards: seq<Card>)
    requires forall i, j :: 0 <= i < j < |cards| ==> cards[i] != cards[j]
    ensures TypeOf(Tally(cards)) == HighCard
  {
    var t := Tally(cards);
    forall i | 0 <= i < |t|
      ensures t[i].count == 1
    {
      EntryCount(cards, i);
      TallyCounts(cards);
      assert Keyed(t, t[i].card);
      DistinctOnce(cards, t[i].card);
    }
    forall k | k != 1
      ensures !HasCount(t, k)
    {
    }
  }

  lemma {:induction false} DistinctOnce(cards: seq<Card>, c: Card)
    requires forall i, j :: 0 <= i < j < |cards| ==> cards[i] != cards[j]
    requires c in cards
    ensures multiset(cards)[c] == 1
    decreases |cards|
  {
    var init, last := cards[..|cards| - 1], cards[|cards| - 1];
    assert cards == init + [last];
    if c == last {
      assert c !in init;
    } else {
      DistinctOnce(init, c);
    }
  }

  // ---- hands ----

  /** A hand: its cards, its bid, and the counts and type `Hand.__init__` computes. */
  datatype Hand = Hand(cards: seq<Card>, bid: int, cardCounts: seq<CardWithCount>, handType: HandType)

  /** The hand `Hand(cards, bid)` constructs. */
  function HandOf(cards: seq<Card>, bid: int): Hand {
    Hand(cards, bid, Tally(cards), TypeOf(Tally(cards)))
  }

  /** `Hand.__init__`: count the cards in a loop, then pick the type. */
  method NewHand(cards: seq<Card>, bid: int) returns (h: Hand)
    ensures h == HandOf(cards, bid)
    ensures Total(h.cardCounts) == |cards|
  {
    var counts := [];
    for i := 0 to |cards|
      invariant counts == Tally(cards[..i])
    {
      counts := Bump(counts, cards[i]);
      assert cards[..i + 1][..i] == cards[..i];
    }
    assert cards[..|cards|] == cards;
    TallyCounts(cards);
    h := Hand(cards, bid, counts, TypeOf(counts));
  }

  /** The cards compared in order: the first card that differs decides. */
  predicate CardsLess(x: seq<Card>, y: seq<Card>)
    decreases |x|
  {
    if x == [] || y == [] then false
    else if CardLess(x[0], y[0]) then true
    else if CardLess(y[0], x[0]) then false
    else CardsLess(x[1..], y[1..])
  }

  /** `Hand.__lt__`: the stronger type is less; within a type the cards decide. */
  predicate HandLess(a: Hand, b: Hand) {
    var ta, tb := TypeOrder(a.handType), TypeOrder(b.handType);
    if ta < tb then true
    else if tb < ta then false
    else CardsLess(a.cards, b.cards)
  }

  lemma {:induction false} CardsLessIrreflexive(x: seq<Card>)
    ensures !CardsLess(x, x)
    decreases |x|
  {
    if x != [] {
      CardsLessIrreflexive(x[1..]);
    }
  }

  lemma {:induction false} CardsLessTransitive(x: seq<Card>, y: seq<Card>, z: seq<Card>)
    requires CardsLess(x, y) && CardsLess(y, z)
    ensures CardsLess(x, z)
    decreases |x|
  {
    if !CardLess(x[0], y[0]) && !CardLess(y[0], z[0]) {
      CardsLessTransitive(x[1..], y[1..], z[1..]);
    }
  }

  /** `Hand.__lt__` is a strict order: equal hands compare False, and it is transitive. */
  lemma HandLessStrictOrder()
    ensures Sorting.StrictOrder(HandLess)
  {
    forall a | true
      ensures !HandLess(a, a)
    {
      CardsLessIrreflexive(a.cards);
    }
    forall a, b, c | HandLess(a, b) && HandLess(b, c)
      ensures HandLess(a, c)
    {
      if TypeOrder(a.handType) == TypeOrder(b.handType) == TypeOrder(c.handType) {
        CardsLessTransitive(a.cards, b.cards, c.cards);
      }
    }
  }

  /** The orders of two card lists agree up to `n`. */
  predicate Tie(x: seq<Card>, y: seq<Card>, n: nat)
    requires n <= |x| && n <= |y|
  {
    forall i :: 0 <= i < n ==> x[i].order == y[i].order
  }

  /**
   * `Hand.__lt__` as a loop over the left hand's cards. It reads the right hand's card
   * at the same index, an IndexError when the right hand is shorter and agrees so far.
   */
  method LessThan(a: Hand, b: Hand) returns (r: Result<bool>)
    ensures r.Failure? <==>
      (TypeOrder(a.handType) == TypeOrder(b.handType) && |a.cards| > |b.cards| && Tie(a.cards, b.cards, |b.cards|))
    ensures r.Failure? ==> r.error == IndexError
    ensures r.Success? ==> (r.value <==> HandLess(a, b))
  {
    var ta, tb := TypeOrder(a.handType), TypeOrder(b.handType);
    if ta < tb {
      return Success(true);
    }
    if tb < ta {
      return Success(false);
    }
    for i := 0 to |a.cards|
      invariant i <= |b.cards| && Tie(a.cards, b.cards, i)
      invariant CardsLess(a.cards, b.cards) == CardsLess(a.cards[i..], b.cards[i..])
    {
      if i >= |b.cards| {
        return Failure(IndexError);
      }
      if CardLess(a.cards[i], b.cards[i]) {
        return Success(true);
      }
      if CardLess(b.cards[i], a.cards[i]) {
        return Success(false);
      }
      assert a.cards[i..][1..] == a.cards[i + 1..];
      assert b.cards[i..][1..] == b.cards[i + 1..];
    }
    return Success(false);
  }

  // ---- parsing ----

  /**
   * `Hand.parseFrom`: the first word gives the cards and the second the bid. The bid is
   * read before the cards are looked up.
   */
  function ParseHand(line: string): (r: Result<Hand>)
    ensures r.Success? ==> |Text.Words(line)| >= 2
  {
    var pieces := Text.Words(line);
    if |pieces| < 2 then Failure(IndexError)
    else match Text.ParseInt(pieces[1])
      case None => Failure(ValueError)
      case Some(bid) =>
        match Results.MapAll(WithSymbol, pieces[0])
        case Failure(e) => Failure(e)
        case Success(cards) => Success(HandOf(cards, bid))
  }

  /** The symbols of a list of cards, as `Hand.__str__` joins them. */
  function SymbolsOf(cards: seq<Card>): (s: string)
    ensures |s| == |cards| && forall i :: 0 <= i < |s| ==> s[i] == cards[i].symbol
  {
    seq(|cards|, i requires 0 <= i < |cards| => cards[i].symbol)
  }

  /** A hand written as its symbols, a space and its bid parses back to that hand. */
  lemma ParseHandRoundTrip(cards: seq<Card>, bid: int)
    requires |cards| >= 1 && forall i :: 0 <= i < |cards| ==> TableCard(cards[i])
    ensures ParseHand(SymbolsOf(cards) + " " + Text.IntText(bid)) == Success(HandOf(cards, bid))
  {
    var s := SymbolsOf(cards);
    forall i | 0 <= i < |s|
      ensures WithSymbol(s[i]) == Success(cards[i])
    {
      CardTable(cards[i].order);
    }
    assert ' ' !in s by {
      forall i | 0 <= i < |s|
        ensures s[i] != ' '
      {
        assert s[i] in Symbols;
      }
    }
    Text.WordsOfTwo(s, Text.IntText(bid));
    Text.IntTextRoundTrip(bid);
    Results.MapAllOf(WithSymbol, s, cards);
  }

  // ---- winnings ----

  /** The reverse order `hands.sort(reverse=True)` sorts by: weakest hand first. */
  predicate Weaker(a: Hand, b: Hand) {
    HandLess(b, a)
  }

  /** Each bid times its rank, ranks counted from 1. */
  function Winnings(hands: seq<Hand>): int
    decreases |hands|
  {
    if hands == [] then 0
    else Winnings(hands[..|hands| - 1]) + |hands| * hands[|hands| - 1].bid
  }

  /** The hands in rank order: a permutation in which no hand is weaker than a hand before it. */
  lemma Ranked(hands: seq<Hand>)
    ensures var r := Sorting.Sort(hands, Weaker);
      multiset(r) == multiset(hands)
      && forall i, j :: 0 <= i < j < |r| ==> !HandLess(r[i], r[j])
  {
    HandLessStrictOrder();
    var r := Sorting.Sort(hands, Weaker);
    Sorting.SortSorted(hands, Weaker);
    forall i, j | 0 <= i < j < |r|
      ensures !HandLess(r[i], r[j])
    {
      assert !Weaker(r[j], r[i]);
    }
  }

  /** With one bid for every hand the winnings are the bid times `n(n + 1) / 2`. */
  lemma {:induction false} UniformBids(hands: seq<Hand>, bid: int)
    requires forall i :: 0 <= i < |hands| ==> hands[i].bid == bid
    ensures 2 * Winnings(hands) == bid * |hands| * (|hands| + 1)
    decreases |hands|
  {
    if hands != [] {
      var n := |hands|;
      UniformBids(hands[..n - 1], bid);
      assert 2 * n * bid + bid * (n - 1) * n == bid * n * (n + 1);
    }
  }

  /** The driver: sort weakest first and add up each bid times its rank. */
  method TotalWinnings(hands: seq<Hand>) returns (sum: int)
    ensures sum == Winnings(Sorting.Sort(hands, Weaker))
  {
    var sorted := Sorting.Sort(hands, Weaker);
    sum := 0;
    for i := 0 to |sorted|
      invariant sum == Winnings(sorted[..i])
    {
      var rank := i + 1;
      sum := sum + rank * sorted[i].bid;
      assert sorted[..i + 1][..i] == sorted[..i];
    }
    assert sorted[..|sorted|] == sorted;
  }
}
