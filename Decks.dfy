/**
 * The deck (deck.py): the 52-card build, shuffling to a given arrangement, and
 * dealing from the top, which is the end of the list.
 */
module Decks {
  import opened Wrappers
  import opened Cards
  import opened HandEvaluator

  const Suits: seq<Suit> := ["Corazones", "Diamantes", "Tréboles", "Espadas"]
  const Ranks: seq<Rank> := ["2", "3", "4", "5", "6", "7", "8", "9", "10", "J", "Q", "K", "A"]

  /** The order _build produces: suit by suit, each suit from 2 up to the ace. */
  function FullDeck(): (d: seq<Card>)
    ensures |d| == 52
    ensures forall i :: 0 <= i < 52 ==> d[i] == Card(Suits[i / 13], Ranks[i % 13])
  {
    seq(52, i requires 0 <= i < 52 => Card(Suits[i / 13], Ranks[i % 13]))
  }

  /** The card of suit s and rank r sits at position 13 s + r. */
  lemma FullDeckPosition(s: int, r: int)
    requires 0 <= s < 4 && 0 <= r < 13
    ensures 13 * s + r < 52 && FullDeck()[13 * s + r] == Card(Suits[s], Ranks[r])
  {
    assert (13 * s + r) / 13 == s && (13 * s + r) % 13 == r;
  }

  lemma FullDeckGrows(s: int, r: int)
    requires 0 <= s < 4 && 0 <= r < 13
    ensures 13 * s + r < 52
    ensures FullDeck()[..13 * s + r + 1] == FullDeck()[..13 * s + r] + [Card(Suits[s], Ranks[r])]
  {
    FullDeckPosition(s, r);
    PrefixGrows(FullDeck(), 13 * s + r);
  }

  lemma PrefixGrows(d: seq<Card>, m: int)
    requires 0 <= m < |d|
    ensures d[..m + 1] == d[..m] + [d[m]]
  {
  }

  /** The 52 cards are distinct, and every card of the deck has a rank the evaluator knows. */
  lemma FullDeckProperties()
    ensures forall i, j :: 0 <= i < j < 52 ==> FullDeck()[i] != FullDeck()[j]
    ensures KnownRanks(FullDeck())
    ensures Displayable(FullDeck())
    ensures forall s, r :: s in Suits && r in Ranks ==> Card(s, r) in FullDeck()
  {
    var d := FullDeck();
    forall i, j | 0 <= i < j < 52 ensures d[i] != d[j] {
      if i / 13 == j / 13 {
        assert i % 13 != j % 13;
      }
    }
    forall c | c in d ensures c.rank in RankValues {
      var i :| 0 <= i < 52 && d[i] == c;
      assert Ranks[i % 13] in RankValues;
    }
    FullDeckSuits();
    forall s, r | s in Suits && r in Ranks ensures Card(s, r) in d {
      var a :| 0 <= a < 4 && Suits[a] == s;
      var b :| 0 <= b < 13 && Ranks[b] == r;
      FullDeckPosition(a, b);
    }
  }

  /** Every suit _build uses has a symbol to display. */
  lemma FullDeckSuits()
    ensures Displayable(FullDeck())
  {
    var d := FullDeck();
    forall c | c in d ensures c.suit in SuitSymbols {
      var i :| 0 <= i < 52 && d[i] == c;
      assert Suits[i / 13] in SuitSymbols;
    }
  }

  function Reversed(s: seq<Card>): (r: seq<Card>)
    ensures |r| == |s|
    ensures forall i :: 0 <= i < |s| ==> r[i] == s[|s| - 1 - i]
  {
    if s == [] then [] else [s[|s| - 1]] + Reversed(s[..|s| - 1])
  }

  lemma {:induction false} ReversedMultiset(s: seq<Card>)
    ensures multiset(Reversed(s)) == multiset(s)
    decreases |s|
  {
    if s != [] {
      var n := |s| - 1;
      ReversedMultiset(s[..n]);
      assert s == s[..n] + [s[n]];
    }
  }

  /** ValueError("No hay suficientes cartas ...") */
  datatype DeckError = NotEnoughCards

  /** The cards dealt, in the order popped, and the cards left in the deck. */
  datatype Dealt = Dealt(hand: seq<Card>, rest: seq<Card>)

  /**
   * deal(n): fails when fewer than n cards remain; otherwise pops max(n, 0) cards
   * off the end, so the hand is the top cards last-first and the rest is what is
   * below them, and no card is lost or made.
   */
  function DealFrom(cards: seq<Card>, n: int): (r: Result<Dealt, DeckError>)
    ensures r.Failure? <==> |cards| < n
    ensures r.Success? ==>
      var k := if n < 0 then 0 else n;
      && |r.value.hand| == k
      && r.value.rest == cards[..|cards| - k]
      && (forall i :: 0 <= i < k ==> r.value.hand[i] == cards[|cards| - 1 - i])
      && multiset(r.value.hand) + multiset(r.value.rest) == multiset(cards)
  {
    if |cards| < n then Failure(NotEnoughCards)
    else
      var k := if n < 0 then 0 else n;
      TopSplit(cards, k);
      Success(Dealt(Reversed(cards[|cards| - k..]), cards[..|cards| - k]))
  }

  /** The top k cards, last-first, and the cards below them make up the deck. */
  lemma TopSplit(cards: seq<Card>, k: int)
    requires 0 <= k <= |cards|
    ensures var hand := Reversed(cards[|cards| - k..]);
      && |hand| == k
      && (forall i :: 0 <= i < k ==> hand[i] == cards[|cards| - 1 - i])
      && multiset(hand) + multiset(cards[..|cards| - k]) == multiset(cards)
  {
    var top := cards[|cards| - k..];
    ReversedMultiset(top);
    assert cards == cards[..|cards| - k] + top;
  }

  /** Any hand holding the top cards last-first is the hand deal returns. */
  lemma DealtIs(cards: seq<Card>, n: int, hand: seq<Card>)
    requires |cards| >= n
    requires |hand| == (if n < 0 then 0 else n)
    requires forall j :: 0 <= j < |hand| ==> hand[j] == cards[|cards| - 1 - j]
    ensures DealFrom(cards, n) == Success(Dealt(hand, cards[..|cards| - |hand|]))
  {
    var want := DealFrom(cards, n).value;
    assert |want.hand| == |hand|;
    assert forall j :: 0 <= j < |hand| ==> hand[j] == want.hand[j];
    assert hand == want.hand;
  }

  class Deck {
    var cards: seq<Card>

    /** __init__: an empty list, then _build. */
    constructor()
      ensures cards == FullDeck()
    {
      cards := [];
      new;
      Build();
    }

    /** _build: appends the 52 cards, suit by suit. */
    method Build()
      modifies this
      ensures cards == old(cards) + FullDeck()
    {
      for s := 0 to 4
        invariant cards == old(cards) + FullDeck()[..13 * s]
      {
        for r := 0 to 13
          invariant cards == old(cards) + FullDeck()[..13 * s + r]
        {
          FullDeckGrows(s, r);
          cards := cards + [Card(Suits[s], Ranks[r])];
        }
      }
      assert FullDeck()[..52] == FullDeck();
    }

    /** shuffle: the random arrangement is an input that must be a rearrangement of the deck. */
    method Shuffle(arrangement: seq<Card>)
      requires multiset(arrangement) == multiset(cards)
      modifies this
      ensures cards == arrangement
    {
      cards := arrangement;
    }

    /** deal: pops cards one at a time from the end of the list. */
    method Deal(n: int) returns (r: Result<seq<Card>, DeckError>)
      modifies this
      ensures DealFrom(old(cards), n).Failure? ==> r == Failure(NotEnoughCards) && cards == old(cards)
      ensures DealFrom(old(cards), n).Success? ==>
        r == Success(DealFrom(old(cards), n).value.hand) && cards == DealFrom(old(cards), n).value.rest
    {
      if |cards| < n {
        return Failure(NotEnoughCards);
      }
      var hand := [];
      var i := 0;
      while i < n
        invariant 0 <= i <= (if n < 0 then 0 else n)
        invariant cards == old(cards)[..|old(cards)| - i]
        invariant |hand| == i
        invariant forall j :: 0 <= j < i ==> hand[j] == old(cards)[|old(cards)| - 1 - j]
      {
        hand := hand + [cards[|cards| - 1]];
        cards := cards[..|cards| - 1];
        i := i + 1;
      }
      DealtIs(old(cards), n, hand);
      r := Success(hand);
    }

    /** __len__ */
    function Len(): (n: nat)
      reads this
      ensures n == |cards|
    {
      |cards|
    }
  }
}
