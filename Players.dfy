/**
 * Players (player.py): a player's hand and the computer's discard decision.
 */
module Players {
  import opened Wrappers
  import opened Cards
  import opened HandEvaluator

  // ---------------------------------------------------------------------------
  // Positions to discard when keeping the cards of some values.

  /** The positions, in increasing order, of the values not in `keep`. */
  function Outside(vals: seq<int>, keep: set<int>): (d: seq<int>)
    ensures forall i, j :: 0 <= i < j < |d| ==> d[i] < d[j]
    ensures forall i :: i in d <==> 0 <= i < |vals| && vals[i] !in keep
    decreases |vals|
  {
    if vals == [] then []
    else
      var n := |vals| - 1;
      var front := Outside(vals[..n], keep);
      assert forall k :: 0 <= k < |front| ==> front[k] < n by {
        forall k | 0 <= k < |front| ensures front[k] < n {
          assert front[k] in front;
        }
      }
      assert forall i :: 0 <= i < n ==> vals[..n][i] == vals[i];
      if vals[n] in keep then front else front + [n]
  }

  /** Keeping one value discards every card of another value. */
  lemma {:induction false} OutsideOne(vals: seq<int>, a: int)
    ensures |Outside(vals, {a})| == |vals| - multiset(vals)[a]
    decreases |vals|
  {
    if vals != [] {
      var n := |vals| - 1;
      assert vals == vals[..n] + [vals[n]];
      OutsideOne(vals[..n], a);
    }
  }

  /** Keeping two values discards every card of the other values. */
  lemma {:induction false} OutsideTwo(vals: seq<int>, a: int, b: int)
    requires a != b
    ensures |Outside(vals, {a, b})| == |vals| - multiset(vals)[a] - multiset(vals)[b]
    decreases |vals|
  {
    if vals != [] {
      var n := |vals| - 1;
      assert vals == vals[..n] + [vals[n]];
      OutsideTwo(vals[..n], a, b);
    }
  }

  /** The loop `for i, card in enumerate(self.hand): if ... append(i)`. */
  method CollectOutside(vals: seq<int>, keep: set<int>) returns (d: seq<int>)
    ensures d == Outside(vals, keep)
  {
    d := [];
    for i := 0 to |vals|
      invariant d == Outside(vals[..i], keep)
    {
      assert vals[..i + 1][..i] == vals[..i];
      if vals[i] !in keep {
        d := d + [i];
      }
    }
    assert vals[..|vals|] == vals;
  }

  // ---------------------------------------------------------------------------
  // The three lowest cards, by (value, position).

  /** The tuple (value, position) that the high-card branch sorts. */
  datatype Slot = Slot(value: int, index: int)

  predicate Below(a: Slot, b: Slot) {
    a.value < b.value || (a.value == b.value && a.index < b.index)
  }

  predicate Ascending(s: seq<Slot>) {
    forall i, j :: 0 <= i < j < |s| ==> Below(s[i], s[j])
  }

  function InsertSlot(x: Slot, s: seq<Slot>): (r: seq<Slot>)
    requires Ascending(s) && x !in s
    ensures Ascending(r)
    ensures forall y :: y in r <==> y == x || y in s
    ensures |r| == |s| + 1
  {
    if s == [] || Below(x, s[0]) then
      assert forall y :: y in s ==> y == s[0] || Below(s[0], y);
      [x] + s
    else
      assert s == [s[0]] + s[1..];
      assert forall y :: y in s[1..] ==> Below(s[0], y) by {
        forall y | y in s[1..] ensures Below(s[0], y) {
          var k :| 0 <= k < |s[1..]| && s[1..][k] == y;
          assert s[k + 1] == y;
        }
      }
      var rest := InsertSlot(x, s[1..]);
      assert forall k :: 0 <= k < |rest| ==> rest[k] in rest;
      [s[0]] + rest
  }

  /** `sorted(...)` of distinct (value, position) tuples, ascending. */
  function SortSlots(s: seq<Slot>): (r: seq<Slot>)
    requires forall i, j :: 0 <= i < j < |s| ==> s[i] != s[j]
    ensures Ascending(r)
    ensures forall y :: y in r <==> y in s
    ensures |r| == |s|
  {
    if s == [] then []
    else
      assert s == [s[0]] + s[1..];
      InsertSlot(s[0], SortSlots(s[1..]))
  }

  /** `[(RANK_VALUES[card.rank], i) for i, card in enumerate(self.hand)]` */
  function SlotsOf(vals: seq<int>): (s: seq<Slot>)
    ensures |s| == |vals|
    ensures forall i :: 0 <= i < |vals| ==> s[i] == Slot(vals[i], i)
  {
    seq(|vals|, i requires 0 <= i < |vals| => Slot(vals[i], i))
  }

  function SortedSlots(vals: seq<int>): (r: seq<Slot>)
    ensures Ascending(r) && |r| == |vals|
    ensures forall y :: y in r <==> y in SlotsOf(vals)
  {
    var s := SlotsOf(vals);
    assert forall i, j :: 0 <= i < j < |s| ==> s[i].index != s[j].index;
    SortSlots(s)
  }

  /** The positions of the first three tuples in ascending order. */
  function LowestThree(vals: seq<int>): (r: seq<int>)
    requires |vals| >= 3
    ensures |r| == 3 && forall i :: i in r ==> 0 <= i < |vals|
  {
    var s := SortedSlots(vals);
    assert s[0] in SlotsOf(vals) && s[1] in SlotsOf(vals) && s[2] in SlotsOf(vals);
    [s[0].index, s[1].index, s[2].index]
  }

  /**
   * The three positions chosen are distinct, valid, listed from the lowest up, and
   * every card left in the hand is above each of them by (value, position).
   */
  lemma LowestThreeLowest(vals: seq<int>)
    requires |vals| >= 3
    ensures var d := LowestThree(vals);
      && |d| == 3
      && (forall k :: 0 <= k < 3 ==> 0 <= d[k] < |vals|)
      && Below(Slot(vals[d[0]], d[0]), Slot(vals[d[1]], d[1]))
      && Below(Slot(vals[d[1]], d[1]), Slot(vals[d[2]], d[2]))
      && (forall j :: 0 <= j < |vals| && j !in d ==> Below(Slot(vals[d[2]], d[2]), Slot(vals[j], j)))
  {
    var s := SortedSlots(vals);
    var slots := SlotsOf(vals);
    forall k | 0 <= k < 3 ensures 0 <= s[k].index < |vals| && s[k] == Slot(vals[s[k].index], s[k].index) {
      assert s[k] in slots;
    }
    forall j | 0 <= j < |vals| && j !in LowestThree(vals)
      ensures Below(Slot(vals[s[2].index], s[2].index), Slot(vals[j], j))
    {
      assert slots[j] in s;
      var m :| 0 <= m < |s| && s[m] == slots[j];
      assert m != 0 && m != 1 && m != 2;
    }
  }

  // ---------------------------------------------------------------------------
  // decide_cards_to_discard.

  /** The categories the computer stands pat on. */
  predicate MadeHand(c: Category) {
    c == RoyalFlush || c == StraightFlush || c == FourOfAKind || c == FullHouse
    || c == Straight || c == Flush
  }

  /** What the discard branches need of an evaluation: a tie-break long enough to read. */
  predicate PlanReady(ev: Evaluation, vals: seq<int>) {
    && |vals| == 5
    && (ev.category == ThreeOfAKind || ev.category == Pair ==> |ev.tieBreak| >= 1)
    && (ev.category == TwoPair ==> |ev.tieBreak| >= 2)
  }

  /** The branches of decide_cards_to_discard after the evaluation. */
  function PlanFor(ev: Evaluation, vals: seq<int>): (p: seq<int>)
    requires PlanReady(ev, vals)
    ensures forall i :: i in p ==> 0 <= i < |vals|
    ensures ev.category == HighCard ==> |p| == 3
  {
    if MadeHand(ev.category) then []
    else if ev.category == ThreeOfAKind then Outside(vals, {ev.tieBreak[0]})
    else if ev.category == TwoPair then Outside(vals, {ev.tieBreak[0], ev.tieBreak[1]})
    else if ev.category == Pair then Outside(vals, {ev.tieBreak[0]})
    else LowestThree(vals)
  }

  lemma EvaluationReady(hand: seq<Card>)
    requires Evaluate(hand).Success?
    ensures PlanReady(Evaluate(hand).value, RankValuesOf(hand))
  {
    var vals := RankValuesOf(hand);
    var flush := IsFlush(SuitsOf(hand));
    var c := Classify(vals, flush).category;
    if c == ThreeOfAKind {
      ThreeOfAKindShape(vals, flush);
    } else if c == TwoPair {
      TwoPairShape(vals, flush);
    } else if c == Pair {
      PairShape(vals, flush);
    }
  }

  /**
   * What decide_cards_to_discard returns for a hand: nothing for an empty hand, the
   * evaluation's error, nothing for a made hand, the cards outside the trips, the two
   * pairs or the pair, and otherwise the three lowest cards.
   */
  function DiscardPlan(hand: seq<Card>): (r: Result<seq<int>, EvalError>)
    ensures hand == [] ==> r == Success([])
    ensures r.Failure? <==> hand != [] && Evaluate(hand).Failure?
    ensures r.Success? ==> forall i :: i in r.value ==> 0 <= i < |hand|
  {
    if hand == [] then Success([])
    else
      match Evaluate(hand)
      case Failure(e) => Failure(e)
      case Success(ev) =>
        EvaluationReady(hand);
        Success(PlanFor(ev, RankValuesOf(hand)))
  }

  class Player {
    var name: string
    var hand: seq<Card>

    constructor(name: string := "Jugador")
      ensures this.name == name && hand == []
    {
      this.name := name;
      hand := [];
    }

    /** add_cards: the cards go to the end of the hand. */
    method AddCards(cards: seq<Card>)
      modifies this
      ensures hand == old(hand) + cards && name == old(name)
    {
      hand := hand + cards;
    }

    /** decide_cards_to_discard: the computer's choice of positions to throw away. */
    method DecideCardsToDiscard() returns (r: Result<seq<int>, EvalError>)
      ensures r == DiscardPlan(hand)
    {
      if hand == [] {
        return Success([]);
      }
      var evaluated := Evaluate(hand);
      if evaluated.Failure? {
        return Failure(evaluated.error);
      }
      var ev := evaluated.value;
      var vals := RankValuesOf(hand);
      EvaluationReady(hand);
      var d := DiscardsFor(ev, vals);
      r := Success(d);
    }
  }

  /** The branches of decide_cards_to_discard after the evaluation, with their loops. */
  method DiscardsFor(ev: Evaluation, vals: seq<int>) returns (d: seq<int>)
    requires PlanReady(ev, vals)
    ensures d == PlanFor(ev, vals)
  {
    if MadeHand(ev.category) {
      d := [];
    } else if ev.category == ThreeOfAKind {
      d := CollectOutside(vals, {ev.tieBreak[0]});
    } else if ev.category == TwoPair {
      d := CollectOutside(vals, {ev.tieBreak[0], ev.tieBreak[1]});
    } else if ev.category == Pair {
      d := CollectOutside(vals, {ev.tieBreak[0]});
    } else {
      var sorted := SortedSlots(vals);
      d := [];
      for i := 0 to 3
        invariant d == seq(i, k requires 0 <= k < i => sorted[k].index)
      {
        d := d + [sorted[i].index];
      }
    }
  }

  // ---------------------------------------------------------------------------
  // What the plan promises.

  /** An empty hand discards nothing; an unevaluable hand raises the evaluator's error. */
  lemma PlanOfEmptyOrInvalid(hand: seq<Card>)
    ensures hand == [] ==> DiscardPlan(hand) == Success([])
    ensures hand != [] && Evaluate(hand).Failure? ==> DiscardPlan(hand) == Failure(Evaluate(hand).error)
    ensures hand != [] ==> (DiscardPlan(hand).Success? <==> |hand| == 5 && KnownRanks(hand))
  {
  }

  /** A made hand is kept whole. */
  lemma PlanKeepsMadeHands(hand: seq<Card>)
    requires Evaluate(hand).Success? && MadeHand(Evaluate(hand).value.category)
    ensures DiscardPlan(hand) == Success([])
  {
  }

  /** The plan of an evaluation says which positions go, by the rank values. */
  lemma PlanForOneKept(ev: Evaluation, vals: seq<int>)
    requires PlanReady(ev, vals)
    requires ev.category == ThreeOfAKind || ev.category == Pair
    ensures var d := PlanFor(ev, vals);
      && |d| + multiset(vals)[ev.tieBreak[0]] == 5
      && forall i :: 0 <= i < 5 ==> (i in d <==> vals[i] != ev.tieBreak[0])
  {
    OutsideOne(vals, ev.tieBreak[0]);
  }

  lemma PlanForTwoKept(ev: Evaluation, vals: seq<int>)
    requires PlanReady(ev, vals) && ev.category == TwoPair && ev.tieBreak[0] != ev.tieBreak[1]
    ensures var d := PlanFor(ev, vals);
      && |d| + multiset(vals)[ev.tieBreak[0]] + multiset(vals)[ev.tieBreak[1]] == 5
      && forall i :: 0 <= i < 5 ==> (i in d <==> vals[i] != ev.tieBreak[0] && vals[i] != ev.tieBreak[1])
  {
    OutsideTwo(vals, ev.tieBreak[0], ev.tieBreak[1]);
  }

  /** The plan of an evaluated hand is the plan of its evaluation and rank values. */
  lemma PlanOfEvaluated(hand: seq<Card>)
    requires Evaluate(hand).Success?
    ensures PlanReady(Evaluate(hand).value, RankValuesOf(hand))
    ensures DiscardPlan(hand) == Success(PlanFor(Evaluate(hand).value, RankValuesOf(hand)))
  {
    EvaluationReady(hand);
  }

  lemma TripsPlanCount(hand: seq<Card>)
    requires Evaluate(hand).Success? && Evaluate(hand).value.category == ThreeOfAKind
    ensures |Evaluate(hand).value.tieBreak| >= 1
    ensures multiset(RankValuesOf(hand))[Evaluate(hand).value.tieBreak[0]] == 3
  {
    ThreeOfAKindShape(RankValuesOf(hand), IsFlush(SuitsOf(hand)));
  }

  lemma TwoPairPlanCount(hand: seq<Card>)
    requires Evaluate(hand).Success? && Evaluate(hand).value.category == TwoPair
    ensures var t := Evaluate(hand).value.tieBreak;
      && |t| >= 2 && t[0] != t[1]
      && multiset(RankValuesOf(hand))[t[0]] == 2 && multiset(RankValuesOf(hand))[t[1]] == 2
  {
    TwoPairShape(RankValuesOf(hand), IsFlush(SuitsOf(hand)));
  }

  lemma PairPlanCount(hand: seq<Card>)
    requires Evaluate(hand).Success? && Evaluate(hand).value.category == Pair
    ensures |Evaluate(hand).value.tieBreak| >= 1
    ensures multiset(RankValuesOf(hand))[Evaluate(hand).value.tieBreak[0]] == 2
  {
    PairShape(RankValuesOf(hand), IsFlush(SuitsOf(hand)));
  }

  /** Trío: the two cards outside the triple go, and only they. */
  lemma PlanForTrips(hand: seq<Card>)
    requires Evaluate(hand).Success? && Evaluate(hand).value.category == ThreeOfAKind
    ensures DiscardPlan(hand).Success?
    ensures |DiscardPlan(hand).value| == 2
  {
    TripsPlanCount(hand);
    PlanOfEvaluated(hand);
    PlanForOneKept(Evaluate(hand).value, RankValuesOf(hand));
  }

  /** Dos Pares: the one card outside both pairs goes. */
  lemma PlanForTwoPair(hand: seq<Card>)
    requires Evaluate(hand).Success? && Evaluate(hand).value.category == TwoPair
    ensures DiscardPlan(hand).Success?
    ensures |DiscardPlan(hand).value| == 1
  {
    TwoPairPlanCount(hand);
    PlanOfEvaluated(hand);
    var vals := RankValuesOf(hand);
    PlanForTwoKept(Evaluate(hand).value, vals);
  }

  /** Par: the three cards outside the pair go. */
  lemma PlanForPair(hand: seq<Card>)
    requires Evaluate(hand).Success? && Evaluate(hand).value.category == Pair
    ensures DiscardPlan(hand).Success?
    ensures |DiscardPlan(hand).value| == 3
  {
    PairPlanCount(hand);
    PlanOfEvaluated(hand);
    PlanForOneKept(Evaluate(hand).value, RankValuesOf(hand));
  }

  /** Carta Alta: the three lowest cards go, lowest first. */
  lemma PlanForHighCard(hand: seq<Card>)
    requires Evaluate(hand).Success? && Evaluate(hand).value.category == HighCard
    ensures DiscardPlan(hand) == Success(LowestThree(RankValuesOf(hand)))
  {
    PlanOfEvaluated(hand);
  }

  /** Whatever the hand, at most three distinct valid positions are discarded. */
  lemma PlanBounds(hand: seq<Card>)
    requires DiscardPlan(hand).Success?
    ensures var d := DiscardPlan(hand).value;
      && |d| <= 3
      && (forall k :: 0 <= k < |d| ==> 0 <= d[k] < |hand|)
      && (forall k, m :: 0 <= k < m < |d| ==> d[k] != d[m])
  {
    if hand != [] {
      PlanOfEvaluated(hand);
      var ev := Evaluate(hand).value;
      var vals := RankValuesOf(hand);
      PlanBoundsFor(ev, vals);
      if ev.category == ThreeOfAKind {
        PlanForTrips(hand);
      } else if ev.category == TwoPair {
        PlanForTwoPair(hand);
      } else if ev.category == Pair {
        PlanForPair(hand);
      }
    }
  }

  lemma PlanBoundsFor(ev: Evaluation, vals: seq<int>)
    requires PlanReady(ev, vals)
    ensures var d := PlanFor(ev, vals);
      && (forall k :: 0 <= k < |d| ==> 0 <= d[k] < 5)
      && (forall k, m :: 0 <= k < m < |d| ==> d[k] != d[m])
      && (ev.category == HighCard ==> |d| == 3)
  {
    var d := PlanFor(ev, vals);
    assert forall k :: 0 <= k < |d| ==> d[k] in d;
    if ev.category == HighCard {
      LowestThreeLowest(vals);
    }
  }
}
