/**
 * Hand evaluation and comparison (hand_evaluator.py): rank values, the ten hand
 * categories, straight detection, classification of a five-card hand with its
 * tie-break tuple, and the comparison of two hands.
 */
module HandEvaluator {
  import opened Wrappers
  import opened Cards
  import opened Sorting

  /** RANK_VALUES: rank label to comparison value, the ace high. */
  const RankValues: map<string, int> :=
    map["2" := 2, "3" := 3, "4" := 4, "5" := 5, "6" := 6, "7" := 7, "8" := 8,
        "9" := 9, "10" := 10, "J" := 11, "Q" := 12, "K" := 13, "A" := 14]

  /** VALUE_RANKS: the inverse table, with 1 also shown as the ace of a wheel. */
  const ValueRanks: map<int, string> :=
    map[2 := "2", 3 := "3", 4 := "4", 5 := "5", 6 := "6", 7 := "7", 8 := "8",
        9 := "9", 10 := "10", 11 := "J", 12 := "Q", 13 := "K", 14 := "A", 1 := "A"]

  /** The ranks A, 5, 4, 3, 2 of the low straight, highest first. */
  const Wheel: seq<int> := [14, 5, 4, 3, 2]

  /** The sorted ranks A, K, Q, J, 10 of a royal flush. */
  const Broadway: seq<int> := [14, 13, 12, 11, 10]

  /** The ten hand types, weakest first; Name() is the label the source uses. */
  datatype Category =
    | HighCard | Pair | TwoPair | ThreeOfAKind | Straight
    | Flush | FullHouse | FourOfAKind | StraightFlush | RoyalFlush
  {
    /** HAND_RANKS: the strength of the category. */
    function Rank(): int {
      match this
      case HighCard => 0
      case Pair => 1
      case TwoPair => 2
      case ThreeOfAKind => 3
      case Straight => 4
      case Flush => 5
      case FullHouse => 6
      case FourOfAKind => 7
      case StraightFlush => 8
      case RoyalFlush => 9
    }

    function Name(): string {
      match this
      case HighCard => "Carta Alta"
      case Pair => "Par"
      case TwoPair => "Dos Pares"
      case ThreeOfAKind => "Trío"
      case Straight => "Escalera"
      case Flush => "Color"
      case FullHouse => "Full House"
      case FourOfAKind => "Póker"
      case StraightFlush => "Escalera de Color"
      case RoyalFlush => "Escalera Real"
    }
  }

  /** The pair (hand type, tie-break tuple) that evaluate_hand returns. */
  datatype Evaluation = Evaluation(category: Category, tieBreak: seq<int>)

  /** ValueError for a hand that is not five cards; KeyError for an unknown rank label. */
  datatype EvalError = InvalidHandSize | UnknownRank

  predicate KnownRanks(hand: seq<Card>) {
    forall c :: c in hand ==> c.rank in RankValues
  }

  /** `[RANK_VALUES[card.rank] for card in hand]` */
  function RankValuesOf(hand: seq<Card>): (r: seq<int>)
    requires KnownRanks(hand)
    ensures |r| == |hand|
    ensures forall i :: 0 <= i < |hand| ==> r[i] == RankValues[hand[i].rank]
  {
    if hand == [] then [] else [RankValues[hand[0].rank]] + RankValuesOf(hand[1..])
  }

  /** `[card.suit for card in hand]` */
  function SuitsOf(hand: seq<Card>): (r: seq<Suit>)
    ensures |r| == |hand|
    ensures forall i :: 0 <= i < |hand| ==> r[i] == hand[i].suit
  {
    if hand == [] then [] else [hand[0].suit] + SuitsOf(hand[1..])
  }

  /** `len(Counter(suits)) == 1`: the suits hold exactly one distinct value. */
  predicate IsFlush(suits: seq<Suit>) {
    |suits| > 0 && forall s :: s in suits ==> s == suits[0]
  }

  // ---------------------------------------------------------------------------
  // Rank counts: Counter(ranks).items() as (count, rank), sorted descending.

  datatype Group = Group(count: int, rank: int)

  /** The tuple order on (count, rank): a comes before b when sorting in reverse. */
  predicate Above(a: Group, b: Group) {
    a.count > b.count || (a.count == b.count && a.rank > b.rank)
  }

  predicate StrictlyDescending(c: seq<Group>) {
    forall i, j :: 0 <= i < j < |c| ==> Above(c[i], c[j])
  }

  /** The number of cards the groups account for. */
  function Total(c: seq<Group>): int {
    if c == [] then 0 else c[0].count + Total(c[1..])
  }

  /** Counter items of a descending rank sequence, one group per run of equal ranks. */
  function Runs(s: seq<int>): seq<Group> {
    if s == [] then []
    else
      var rest := Runs(s[1..]);
      if rest != [] && rest[0].rank == s[0] then [Group(rest[0].count + 1, s[0])] + rest[1..]
      else [Group(1, s[0])] + rest
  }

  lemma {:induction false} RunsHead(s: seq<int>)
    ensures s != [] ==> Runs(s) != [] && Runs(s)[0].rank == s[0]
  {
  }

  lemma {:induction false} RunsTotal(s: seq<int>)
    ensures Total(Runs(s)) == |s|
  {
    if s != [] {
      RunsTotal(s[1..]);
      var rest := Runs(s[1..]);
      if rest != [] && rest[0].rank == s[0] {
        assert Total(rest) == rest[0].count + Total(rest[1..]);
      }
    }
  }

  /** Every group's rank is a rank of s. */
  lemma {:induction false} RunsRanksFromInput(s: seq<int>)
    ensures forall x :: x in Runs(s) ==> x.rank in s
  {
    if s != [] {
      RunsRanksFromInput(s[1..]);
      var rest := Runs(s[1..]);
      if rest != [] && rest[0].rank == s[0] {
        assert forall x :: x in rest[1..] ==> x in rest;
      }
    }
  }

  ghost predicate RanksFalling(g: seq<Group>) {
    forall i, j :: 0 <= i < j < |g| ==> g[i].rank > g[j].rank
  }

  /** For descending input the group ranks fall strictly. */
  lemma {:induction false} RunsDescending(s: seq<int>)
    requires SortedDesc(s)
    ensures RanksFalling(Runs(s))
  {
    if s != [] {
      var t := s[1..];
      RunsDescending(t);
      var rest := Runs(t);
      if rest != [] && rest[0].rank == s[0] {
        FallingMerge(rest, s[0]);
      } else {
        RunsBelowHead(s);
        FallingPrepend(rest, s[0]);
      }
    }
  }

  /** When the first rank starts a new run, every later group has a smaller rank. */
  lemma RunsBelowHead(s: seq<int>)
    requires SortedDesc(s) && s != []
    requires Runs(s[1..]) == [] || Runs(s[1..])[0].rank != s[0]
    ensures forall x :: x in Runs(s[1..]) ==> x.rank < s[0]
  {
    var t := s[1..];
    RunsRanksFromInput(t);
    RunsHead(t);
    forall x | x in Runs(t) ensures x.rank < s[0] {
      var k :| 0 <= k < |t| && t[k] == x.rank;
      assert s[1] >= s[k + 1];
    }
  }

  lemma FallingMerge(rest: seq<Group>, r: int)
    requires RanksFalling(rest) && rest != [] && rest[0].rank == r
    ensures RanksFalling([Group(rest[0].count + 1, r)] + rest[1..])
  {
    var g := [Group(rest[0].count + 1, r)] + rest[1..];
    forall i, j | 0 <= i < j < |g| ensures g[i].rank > g[j].rank {
      assert g[j] == rest[j];
      if i > 0 { assert g[i] == rest[i]; }
    }
  }

  lemma FallingPrepend(rest: seq<Group>, r: int)
    requires RanksFalling(rest)
    requires forall x :: x in rest ==> x.rank < r
    ensures RanksFalling([Group(1, r)] + rest)
  {
    var g := [Group(1, r)] + rest;
    forall i, j | 0 <= i < j < |g| ensures g[i].rank > g[j].rank {
      assert g[j] == rest[j - 1];
      assert rest[j - 1] in rest;
      if i > 0 { assert g[i] == rest[i - 1]; }
    }
  }

  /** g lists exactly the Counter items (multiplicity, rank) of s. */
  ghost predicate IsCounterOf(g: seq<Group>, s: seq<int>) {
    forall x :: x in g <==> x.rank in multiset(s) && x.count == multiset(s)[x.rank]
  }

  /** For descending input the groups are exactly the Counter items. */
  lemma {:induction false} RunsMembers(s: seq<int>)
    requires SortedDesc(s)
    ensures IsCounterOf(Runs(s), s)
  {
    if s != [] {
      var t := s[1..];
      assert s == [s[0]] + t;
      RunsMembers(t);
      RunsDescending(t);
      RunsHead(t);
      var rest := Runs(t);
      if rest != [] && rest[0].rank == s[0] {
        CounterMerge(rest, t, s[0]);
      } else {
        HeadNotLater(s);
        CounterPrepend(rest, t, s[0]);
      }
    }
  }

  /** When the first rank starts a new run, it does not occur again. */
  lemma HeadNotLater(s: seq<int>)
    requires SortedDesc(s) && s != []
    requires Runs(s[1..]) == [] || Runs(s[1..])[0].rank != s[0]
    ensures s[0] !in s[1..]
  {
    RunsHead(s[1..]);
    forall k | 1 <= k < |s| ensures s[k] < s[0] {
      assert s[1] >= s[k];
    }
  }

  lemma CounterMerge(rest: seq<Group>, t: seq<int>, r: int)
    requires IsCounterOf(rest, t) && RanksFalling(rest) && rest != [] && rest[0].rank == r
    ensures IsCounterOf([Group(rest[0].count + 1, r)] + rest[1..], [r] + t)
  {
    var s := [r] + t;
    var g := [Group(rest[0].count + 1, r)] + rest[1..];
    assert multiset(s) == multiset{r} + multiset(t);
    assert rest[0] in rest;
    assert rest == [rest[0]] + rest[1..];
    forall x ensures x in g <==> x.rank in multiset(s) && x.count == multiset(s)[x.rank] {
      if x.rank == r {
        assert x !in rest[1..];
      } else {
        assert x in g <==> x in rest;
      }
    }
  }

  lemma CounterPrepend(rest: seq<Group>, t: seq<int>, r: int)
    requires IsCounterOf(rest, t) && r !in t
    ensures IsCounterOf([Group(1, r)] + rest, [r] + t)
  {
    var s := [r] + t;
    var g := [Group(1, r)] + rest;
    assert multiset(s) == multiset{r} + multiset(t);
    assert multiset(t)[r] == 0;
    forall x ensures x in g <==> x.rank in multiset(s) && x.count == multiset(s)[x.rank] {
      if x.rank == r {
        assert x !in rest;
      } else {
        assert x in g <==> x in rest;
      }
    }
  }

  /** Inserts a group that is not yet present into a strictly descending list. */
  function InsertGroup(x: Group, c: seq<Group>): (r: seq<Group>)
    requires StrictlyDescending(c) && x !in c
    ensures StrictlyDescending(r)
    ensures forall y :: y in r <==> y == x || y in c
    ensures Total(r) == Total(c) + x.count
  {
    if c == [] || Above(x, c[0]) then
      PrependAbove(x, c);
      [x] + c
    else
      assert c == [c[0]] + c[1..];
      assert Above(c[0], x) by { assert x != c[0]; }
      var tail := InsertGroup(x, c[1..]);
      PrependAbove(c[0], tail);
      [c[0]] + tail
  }

  /** A group above every member of a strictly descending list can go in front of it. */
  lemma PrependAbove(g: Group, c: seq<Group>)
    requires StrictlyDescending(c)
    requires c == [] || Above(g, c[0]) || forall y :: y in c ==> Above(g, y)
    ensures StrictlyDescending([g] + c)
  {
    var r := [g] + c;
    forall i, j | 0 <= i < j < |r| ensures Above(r[i], r[j]) {
      if i == 0 {
        assert r[j] == c[j - 1] && c[j - 1] in c;
        if j > 1 {
          assert Above(c[0], c[j - 1]);
        }
      } else {
        assert r[i] == c[i - 1] && r[j] == c[j - 1];
      }
    }
  }

  /** Insertion sort of distinct groups by (count, rank), descending. */
  function SortGroups(c: seq<Group>): (r: seq<Group>)
    requires forall i, j :: 0 <= i < j < |c| ==> c[i] != c[j]
    ensures StrictlyDescending(r)
    ensures forall y :: y in r <==> y in c
    ensures Total(r) == Total(c)
  {
    if c == [] then []
    else
      assert c == [c[0]] + c[1..];
      InsertGroup(c[0], SortGroups(c[1..]))
  }

  /**
   * `counts` of evaluate_hand: the Counter items of the ranks, as (count, rank)
   * groups, sorted by (count, rank) in descending order.
   */
  function RankCounts(ranks: seq<int>): (counts: seq<Group>)
    ensures StrictlyDescending(counts)
    ensures forall i :: 0 <= i < |counts| ==>
      counts[i].count >= 1 && counts[i].count == multiset(ranks)[counts[i].rank]
    ensures Total(counts) == |ranks|
  {
    var sorted := SortDesc(ranks);
    RunsDistinct(sorted);
    RunsMembers(sorted);
    RunsTotal(sorted);
    var c := SortGroups(Runs(sorted));
    CountedGroups(c, sorted, ranks);
    c
  }

  /** For descending input no group occurs twice. */
  lemma RunsDistinct(s: seq<int>)
    requires SortedDesc(s)
    ensures forall i, j :: 0 <= i < j < |Runs(s)| ==> Runs(s)[i] != Runs(s)[j]
  {
    RunsDescending(s);
  }

  /** Groups listing the Counter items of a rearrangement of the ranks list those of the ranks. */
  lemma CountedGroups(c: seq<Group>, s: seq<int>, ranks: seq<int>)
    requires forall y :: y in c <==> y.rank in multiset(s) && y.count == multiset(s)[y.rank]
    requires multiset(s) == multiset(ranks)
    ensures forall i :: 0 <= i < |c| ==>
      c[i].count >= 1 && c[i].count == multiset(ranks)[c[i].rank]
  {
    forall i | 0 <= i < |c| ensures c[i].count >= 1 && c[i].count == multiset(ranks)[c[i].rank] {
      assert c[i] in c;
    }
  }

  /** Every count is positive. */
  lemma CountsPositive(ranks: seq<int>)
    ensures forall i :: 0 <= i < |RankCounts(ranks)| ==> RankCounts(ranks)[i].count >= 1
  {
    var c := RankCounts(ranks);
    forall i | 0 <= i < |c| ensures c[i].count >= 1 {
      assert c[i] in c;
    }
  }

  lemma {:induction false} TotalAtLeastLength(c: seq<Group>)
    requires forall i :: 0 <= i < |c| ==> c[i].count >= 1
    ensures Total(c) >= |c|
  {
    if c != [] { TotalAtLeastLength(c[1..]); }
  }

  lemma {:induction false} TotalOfSingles(c: seq<Group>)
    requires forall i :: 0 <= i < |c| ==> c[i].count == 1
    ensures Total(c) == |c|
  {
    if c != [] { TotalOfSingles(c[1..]); }
  }

  /**
   * The shapes a five-card count list can take, read off the first two counts:
   * these are the facts evaluate_hand relies on when it indexes `counts`.
   */
  lemma CountsShape(c: seq<Group>)
    requires StrictlyDescending(c)
    requires forall i :: 0 <= i < |c| ==> c[i].count >= 1
    requires Total(c) == 5
    ensures 1 <= |c| <= 5
    ensures c[0].count < 5 ==> |c| >= 2
    ensures c[0].count == 4 ==> |c| == 2 && c[1].count == 1
    ensures c[0].count == 3 && c[1].count == 2 ==> |c| == 2
    ensures c[0].count == 3 && c[1].count != 2 ==> |c| == 3 && c[1].count == 1 && c[2].count == 1
    ensures c[0].count == 2 && c[1].count == 2 ==> |c| == 3 && c[2].count == 1
    ensures c[0].count == 2 && c[1].count != 2 ==>
      |c| == 4 && c[1].count == 1 && c[2].count == 1 && c[3].count == 1
    ensures c[0].count == 1 ==> |c| == 5
  {
    TotalAtLeastLength(c);
    assert c != [];
    assert Total(c) == c[0].count + Total(c[1..]);
    TotalAtLeastLength(c[1..]);
    if |c| >= 2 {
      assert Total(c[1..]) == c[1].count + Total(c[2..]);
      TotalAtLeastLength(c[2..]);
      if |c| >= 3 {
        assert Total(c[2..]) == c[2].count + Total(c[3..]);
        TotalAtLeastLength(c[3..]);
      }
    }
    if c[0].count <= 2 && (c[0].count == 1 || c[1].count != 2) {
      assert forall i :: 1 <= i < |c| ==> c[i].count == 1 by {
        forall i | 1 <= i < |c| ensures c[i].count == 1 {
          assert Above(c[0], c[i]);
          if i > 1 { assert Above(c[1], c[i]); }
        }
      }
      TotalOfSingles(c[1..]);
    }
  }

  // ---------------------------------------------------------------------------
  // Straights and classification.

  /**
   * check_straight: every adjacent pair steps down by exactly one, or the set of
   * ranks is the wheel {A, 5, 4, 3, 2}.
   */
  predicate CheckStraight(sortedRanks: seq<int>)
    ensures CheckStraight(sortedRanks) && 14 !in sortedRanks ==>
      forall i :: 0 <= i < |sortedRanks| - 1 ==> sortedRanks[i] - 1 == sortedRanks[i + 1]
  {
    WheelHasAce(sortedRanks);
    (forall i :: 0 <= i < |sortedRanks| - 1 ==> sortedRanks[i] - 1 == sortedRanks[i + 1])
    || (set r | r in sortedRanks) == {14, 5, 4, 3, 2}
  }

  lemma WheelHasAce(s: seq<int>)
    ensures (set r | r in s) == {14, 5, 4, 3, 2} ==> 14 in s
  {
    if (set r | r in s) == {14, 5, 4, 3, 2} {
      assert 14 in (set r | r in s);
    }
  }

  /** `[c[1] for c in counts[1:]]`: the ranks of every group after the first. */
  function LaterRanks(counts: seq<Group>): (r: seq<int>)
    requires |counts| >= 1
    ensures |r| == |counts| - 1
    ensures forall i :: 0 <= i < |r| ==> r[i] == counts[i + 1].rank
  {
    seq(|counts| - 1, i requires 0 <= i < |counts| - 1 => counts[i + 1].rank)
  }

  /** `sorted([c[1] for c in counts[1:]], reverse=True)`: the kicker ranks. */
  function Kickers(counts: seq<Group>): (k: seq<int>)
    requires |counts| >= 1
    ensures |k| == |counts| - 1
  {
    SortDesc(LaterRanks(counts))
  }

  /** Single-card groups after the first are already in descending rank order. */
  lemma LaterRanksSorted(counts: seq<Group>)
    requires StrictlyDescending(counts) && |counts| >= 1
    requires forall i :: 1 <= i < |counts| ==> counts[i].count == 1
    ensures SortedDesc(LaterRanks(counts))
  {
    var rest := LaterRanks(counts);
    forall i, j | 0 <= i < j < |rest| ensures rest[i] >= rest[j] {
      assert Above(counts[i + 1], counts[j + 1]);
    }
  }

  /** When every group after the first is a single card, the kickers are those ranks in order. */
  lemma KickersOfSingles(counts: seq<Group>)
    requires StrictlyDescending(counts) && |counts| >= 1
    requires forall i :: 1 <= i < |counts| ==> counts[i].count == 1
    ensures forall i :: 0 <= i < |counts| - 1 ==> Kickers(counts)[i] == counts[i + 1].rank
  {
    LaterRanksSorted(counts);
    SortDescOfSorted(LaterRanks(counts));
  }

  /** What evaluate_hand relies on about `counts` for a five-card hand. */
  predicate FiveCounts(counts: seq<Group>) {
    && StrictlyDescending(counts)
    && (forall i :: 0 <= i < |counts| ==> counts[i].count >= 1)
    && Total(counts) == 5
  }

  /**
   * The body of evaluate_hand after the checks: classify five rank values, given
   * whether all suits agree.
   */
  function Classify(ranks: seq<int>, flush: bool): (e: Evaluation)
    requires |ranks| == 5
    ensures e.category in {Flush, StraightFlush, RoyalFlush} ==> flush
    ensures e.category in {Straight, StraightFlush, RoyalFlush} ==> CheckStraight(SortDesc(ranks))
    ensures e.category in {Flush, HighCard} ==> e.tieBreak == SortDesc(ranks)
    ensures 1 <= |e.tieBreak| <= 5
  {
    ClassifyCounts(SortDesc(ranks), RankCounts(ranks), flush)
  }

  /** The classification chain of evaluate_hand, first match wins from the strongest category down. */
  function ClassifyCounts(sortedRanks: seq<int>, counts: seq<Group>, flush: bool): (e: Evaluation)
    requires |sortedRanks| == 5 && FiveCounts(counts)
    ensures e.category in {Flush, StraightFlush, RoyalFlush} ==> flush
    ensures e.category in {Straight, StraightFlush, RoyalFlush} ==> CheckStraight(sortedRanks)
    ensures e.category == Straight ==> !flush
    ensures e.category in {RoyalFlush, StraightFlush, Straight} ==> |e.tieBreak| == 1
    ensures e.category in {FourOfAKind, FullHouse} ==> |e.tieBreak| == 2
    ensures e.category in {ThreeOfAKind, TwoPair} ==> |e.tieBreak| == 3
    ensures e.category == Pair ==> |e.tieBreak| == 4
    ensures e.category in {Flush, HighCard} ==> e.tieBreak == sortedRanks
  {
    CountsShape(counts);
    var isStraight := CheckStraight(sortedRanks);
    var straightRanks := if isStraight && sortedRanks == Wheel then [5, 4, 3, 2, 1] else sortedRanks;
    if flush && isStraight then
      if sortedRanks == Broadway then Evaluation(RoyalFlush, [straightRanks[0]])
      else Evaluation(StraightFlush, [straightRanks[0]])
    else if counts[0].count == 4 then
      Evaluation(FourOfAKind, [counts[0].rank, counts[1].rank])
    else if counts[0].count == 3 && counts[1].count == 2 then
      Evaluation(FullHouse, [counts[0].rank, counts[1].rank])
    else if flush then
      Evaluation(Flush, sortedRanks)
    else if isStraight then
      Evaluation(Straight, [straightRanks[0]])
    else if counts[0].count == 3 then
      var kickers := Kickers(counts);
      Evaluation(ThreeOfAKind, [counts[0].rank, kickers[0], kickers[1]])
    else if counts[0].count == 2 && counts[1].count == 2 then
      var r0, r1 := counts[0].rank, counts[1].rank;
      var high := if r0 >= r1 then r0 else r1;
      var low := if r0 >= r1 then r1 else r0;
      Evaluation(TwoPair, [high, low, counts[2].rank])
    else if counts[0].count == 2 then
      var kickers := Kickers(counts);
      Evaluation(Pair, [counts[0].rank, kickers[0], kickers[1], kickers[2]])
    else
      Evaluation(HighCard, sortedRanks)
  }

  // Each step of the chain, stated on the counts: which test fires and what it returns.

  /** Step 1: a suited straight is Escalera Real on A-K-Q-J-10 and Escalera de Color otherwise. */
  lemma BranchStraightFlush(s: seq<int>, c: seq<Group>, flush: bool)
    requires |s| == 5 && FiveCounts(c)
    requires flush && CheckStraight(s)
    ensures ClassifyCounts(s, c, flush)
      == Evaluation(if s == Broadway then RoyalFlush else StraightFlush, [if s == Wheel then 5 else s[0]])
  {
  }

  /** Only step 1 produces Escalera Real. */
  lemma RoyalNeedsSuitedStraight(s: seq<int>, c: seq<Group>, flush: bool)
    requires |s| == 5 && FiveCounts(c)
    requires !(flush && CheckStraight(s))
    ensures ClassifyCounts(s, c, flush).category != RoyalFlush
  {
  }

  /** Step 2: four of a kind, the quad's value then the kicker's. */
  lemma BranchQuad(s: seq<int>, c: seq<Group>, flush: bool)
    requires |s| == 5 && FiveCounts(c)
    requires !(flush && CheckStraight(s)) && c[0].count == 4
    ensures |c| == 2
    ensures ClassifyCounts(s, c, flush) == Evaluation(FourOfAKind, [c[0].rank, c[1].rank])
  {
    CountsShape(c);
  }

  /** Step 3: a triple and a pair. */
  lemma BranchFullHouse(s: seq<int>, c: seq<Group>, flush: bool)
    requires |s| == 5 && FiveCounts(c) && |c| >= 2
    requires !(flush && CheckStraight(s)) && c[0].count == 3 && c[1].count == 2
    ensures ClassifyCounts(s, c, flush) == Evaluation(FullHouse, [c[0].rank, c[1].rank])
  {
  }

  /** Step 4: a flush that is neither a straight nor a quad nor a full house. */
  lemma BranchFlush(s: seq<int>, c: seq<Group>, flush: bool)
    requires |s| == 5 && FiveCounts(c)
    requires flush && !CheckStraight(s)
    requires c[0].count != 4 && !(c[0].count == 3 && |c| >= 2 && c[1].count == 2)
    ensures ClassifyCounts(s, c, flush) == Evaluation(Flush, s)
  {
    CountsShape(c);
  }

  /** Step 5: an unsuited straight that is neither a quad nor a full house. */
  lemma BranchStraight(s: seq<int>, c: seq<Group>, flush: bool)
    requires |s| == 5 && FiveCounts(c)
    requires !flush && CheckStraight(s)
    requires c[0].count != 4 && !(c[0].count == 3 && |c| >= 2 && c[1].count == 2)
    ensures ClassifyCounts(s, c, flush) == Evaluation(Straight, [if s == Wheel then 5 else s[0]])
  {
    CountsShape(c);
  }

  /** Step 6: a triple with two single kickers. */
  lemma BranchTrips(s: seq<int>, c: seq<Group>, flush: bool)
    requires |s| == 5 && FiveCounts(c) && |c| >= 2
    requires !flush && !CheckStraight(s) && c[0].count == 3 && c[1].count == 1
    ensures |c| == 3
    ensures ClassifyCounts(s, c, flush) == Evaluation(ThreeOfAKind, [c[0].rank, c[1].rank, c[2].rank])
  {
    CountsShape(c);
    KickersOfSingles(c);
  }

  /** Step 7: two pairs, the higher first, then the kicker. */
  lemma BranchTwoPair(s: seq<int>, c: seq<Group>, flush: bool)
    requires |s| == 5 && FiveCounts(c) && |c| >= 2
    requires !flush && !CheckStraight(s) && c[0].count == 2 && c[1].count == 2
    ensures |c| == 3 && c[0].rank > c[1].rank
    ensures ClassifyCounts(s, c, flush) == Evaluation(TwoPair, [c[0].rank, c[1].rank, c[2].rank])
  {
    CountsShape(c);
    assert Above(c[0], c[1]);
  }

  /** Step 8: one pair with three single kickers. */
  lemma BranchPair(s: seq<int>, c: seq<Group>, flush: bool)
    requires |s| == 5 && FiveCounts(c) && |c| >= 2
    requires !flush && !CheckStraight(s) && c[0].count == 2 && c[1].count == 1
    ensures |c| == 4
    ensures ClassifyCounts(s, c, flush)
      == Evaluation(Pair, [c[0].rank, c[1].rank, c[2].rank, c[3].rank])
  {
    CountsShape(c);
    KickersOfSingles(c);
  }

  /** Step 9: nothing else matched (single cards, or five of one value). */
  lemma BranchHighCard(s: seq<int>, c: seq<Group>, flush: bool)
    requires |s| == 5 && FiveCounts(c)
    requires !flush && !CheckStraight(s) && c[0].count != 2 && c[0].count != 3 && c[0].count != 4
    ensures ClassifyCounts(s, c, flush) == Evaluation(HighCard, s)
  {
  }

  /** The rank counts of five values. */
  lemma FiveCountsOf(ranks: seq<int>)
    requires |ranks| == 5
    ensures FiveCounts(RankCounts(ranks))
  {
    CountsPositive(ranks);
  }

  lemma ClassifyUnfold(ranks: seq<int>, flush: bool)
    requires |ranks| == 5
    ensures FiveCounts(RankCounts(ranks))
    ensures Classify(ranks, flush) == ClassifyCounts(SortDesc(ranks), RankCounts(ranks), flush)
  {
    FiveCountsOf(ranks);
  }

  lemma TripsFromCounts(s: seq<int>, counts: seq<Group>, flush: bool)
    requires |s| == 5 && FiveCounts(counts)
    requires ClassifyCounts(s, counts, flush).category == ThreeOfAKind
    ensures |counts| == 3 && counts[0].count == 3 && counts[1].count == 1 && counts[2].count == 1
    ensures counts[1].rank > counts[2].rank
    ensures ClassifyCounts(s, counts, flush).tieBreak == [counts[0].rank, counts[1].rank, counts[2].rank]
  {
    CountsShape(counts);
    KickersOfSingles(counts);
    assert Above(counts[1], counts[2]);
  }

  /** Trío: the triple's rank, then the two kickers, higher first. */
  lemma ThreeOfAKindShape(ranks: seq<int>, flush: bool)
    requires |ranks| == 5 && Classify(ranks, flush).category == ThreeOfAKind
    ensures var t := Classify(ranks, flush).tieBreak;
      && |t| == 3 && multiset(ranks)[t[0]] == 3 && t[1] > t[2]
      && multiset(ranks)[t[1]] == 1 && multiset(ranks)[t[2]] == 1
  {
    ClassifyUnfold(ranks, flush);
    TripsFromCounts(SortDesc(ranks), RankCounts(ranks), flush);
  }

  lemma TwoPairFromCounts(s: seq<int>, counts: seq<Group>, flush: bool)
    requires |s| == 5 && FiveCounts(counts)
    requires ClassifyCounts(s, counts, flush).category == TwoPair
    ensures |counts| == 3 && counts[0].count == 2 && counts[1].count == 2 && counts[2].count == 1
    ensures counts[0].rank > counts[1].rank
    ensures ClassifyCounts(s, counts, flush).tieBreak == [counts[0].rank, counts[1].rank, counts[2].rank]
  {
    CountsShape(counts);
    assert Above(counts[0], counts[1]);
  }

  /** Dos Pares: the higher pair, the lower pair, then the kicker. */
  lemma TwoPairShape(ranks: seq<int>, flush: bool)
    requires |ranks| == 5 && Classify(ranks, flush).category == TwoPair
    ensures var t := Classify(ranks, flush).tieBreak;
      && |t| == 3 && t[0] > t[1]
      && multiset(ranks)[t[0]] == 2 && multiset(ranks)[t[1]] == 2 && multiset(ranks)[t[2]] == 1
  {
    var c := RankCounts(ranks);
    ClassifyUnfold(ranks, flush);
    TwoPairFromCounts(SortDesc(ranks), c, flush);
    assert multiset(ranks)[c[0].rank] == 2 && multiset(ranks)[c[1].rank] == 2 && multiset(ranks)[c[2].rank] == 1;
  }

  lemma PairFromCounts(s: seq<int>, counts: seq<Group>, flush: bool)
    requires |s| == 5 && FiveCounts(counts)
    requires ClassifyCounts(s, counts, flush).category == Pair
    ensures |counts| == 4 && counts[0].count == 2
    ensures counts[1].count == 1 && counts[2].count == 1 && counts[3].count == 1
    ensures counts[1].rank > counts[2].rank > counts[3].rank
    ensures ClassifyCounts(s, counts, flush).tieBreak
      == [counts[0].rank, counts[1].rank, counts[2].rank, counts[3].rank]
  {
    CountsShape(counts);
    KickersOfSingles(counts);
    assert Above(counts[1], counts[2]) && Above(counts[2], counts[3]);
  }

  /** Par: the pair's rank, then the three kickers in descending order. */
  lemma PairShape(ranks: seq<int>, flush: bool)
    requires |ranks| == 5 && Classify(ranks, flush).category == Pair
    ensures var t := Classify(ranks, flush).tieBreak;
      && |t| == 4 && multiset(ranks)[t[0]] == 2 && t[1] > t[2] > t[3]
      && multiset(ranks)[t[1]] == 1 && multiset(ranks)[t[2]] == 1 && multiset(ranks)[t[3]] == 1
  {
    var c := RankCounts(ranks);
    ClassifyUnfold(ranks, flush);
    PairFromCounts(SortDesc(ranks), c, flush);
    PairTie(multiset(ranks), c, Classify(ranks, flush).tieBreak);
  }

  lemma PairTie(m: multiset<int>, c: seq<Group>, t: seq<int>)
    requires |c| == 4 && c[0].count == 2
    requires c[1].count == 1 && c[2].count == 1 && c[3].count == 1
    requires c[1].rank > c[2].rank > c[3].rank
    requires forall i :: 0 <= i < |c| ==> c[i].count == m[c[i].rank]
    requires t == [c[0].rank, c[1].rank, c[2].rank, c[3].rank]
    ensures |t| == 4 && m[t[0]] == 2 && t[1] > t[2] > t[3]
    ensures m[t[1]] == 1 && m[t[2]] == 1 && m[t[3]] == 1
  {
    assert c[0].count == m[c[0].rank] && c[1].count == m[c[1].rank];
    assert c[2].count == m[c[2].rank] && c[3].count == m[c[3].rank];
  }

  /** evaluate_hand: the size check, the rank lookups, then the classification. */
  function Evaluate(hand: seq<Card>): (r: Result<Evaluation, EvalError>)
    ensures |hand| != 5 ==> r == Failure(InvalidHandSize)
    ensures |hand| == 5 && !KnownRanks(hand) ==> r == Failure(UnknownRank)
    ensures r.Success? <==> |hand| == 5 && KnownRanks(hand)
    ensures r.Success? ==> r.value == Classify(RankValuesOf(hand), IsFlush(SuitsOf(hand)))
  {
    if |hand| != 5 then Failure(InvalidHandSize)
    else if !KnownRanks(hand) then Failure(UnknownRank)
    else Success(Classify(RankValuesOf(hand), IsFlush(SuitsOf(hand))))
  }

  /** The rank counts list every Counter item: each rank of the hand with its multiplicity. */
  lemma RankCountsMembers(ranks: seq<int>)
    ensures IsCounterOf(RankCounts(ranks), ranks)
  {
    var s := SortDesc(ranks);
    RunsMembers(s);
    RunsDescending(s);
  }

  // ---------------------------------------------------------------------------
  // Display of tie-break values.

  function DigitChar(d: int): char
    requires 0 <= d < 10
  {
    "0123456789"[d]
  }

  function DecimalDigits(n: nat): string
    decreases n
  {
    if n < 10 then [DigitChar(n)] else DecimalDigits(n / 10) + [DigitChar(n % 10)]
  }

  /** Python's str() of an int. */
  function IntToString(v: int): string {
    if v < 0 then "-" + DecimalDigits(-v) else DecimalDigits(v)
  }

  /** `VALUE_RANKS.get(val, str(val))` */
  function DisplayValue(v: int): string {
    if v in ValueRanks then ValueRanks[v] else IntToString(v)
  }

  /** format_tie_breaker_for_display: maps each value to its rank label, in order. */
  method FormatTieBreaker(tieBreak: seq<int>) returns (formatted: seq<string>)
    ensures |formatted| == |tieBreak|
    ensures forall i :: 0 <= i < |tieBreak| ==> formatted[i] == DisplayValue(tieBreak[i])
  {
    formatted := [];
    for i := 0 to |tieBreak|
      invariant |formatted| == i
      invariant forall k :: 0 <= k < i ==> formatted[k] == DisplayValue(tieBreak[k])
    {
      var v := tieBreak[i];
      if v in ValueRanks {
        formatted := formatted + [ValueRanks[v]];
      } else {
        formatted := formatted + [IntToString(v)];
      }
    }
  }

  // ---------------------------------------------------------------------------
  // Comparison.

  /** Python's `<` on int tuples: the first differing position decides, a proper prefix is smaller. */
  predicate TupleLess(a: seq<int>, b: seq<int>)
    ensures TupleLess(a, b) && a != [] && b != [] ==> a[0] <= b[0]
    ensures TupleLess(a, b) ==> |a| > 0 || |b| > 0
    decreases |a|
  {
    if a == [] then b != []
    else if b == [] then false
    else if a[0] != b[0] then a[0] < b[0]
    else TupleLess(a[1..], b[1..])
  }

  /** Steps 1 and 2 of compare_hands: 1 if the first wins, 2 if the second wins, 0 on a tie. */
  function CompareEvaluations(e1: Evaluation, e2: Evaluation): (w: int)
    ensures 0 <= w <= 2
    ensures w == 1 ==> e1.category.Rank() >= e2.category.Rank()
    ensures w == 2 ==> e2.category.Rank() >= e1.category.Rank()
    ensures w == 0 ==> e1.category.Rank() == e2.category.Rank()
  {
    if e1.category.Rank() > e2.category.Rank() then 1
    else if e2.category.Rank() > e1.category.Rank() then 2
    else if TupleLess(e2.tieBreak, e1.tieBreak) then 1
    else if TupleLess(e1.tieBreak, e2.tieBreak) then 2
    else 0
  }

  /** compare_hands: evaluate both hands (either may raise), then compare. */
  function CompareHands(hand1: seq<Card>, hand2: seq<Card>): (r: Result<int, EvalError>)
    ensures r.Success? <==> Evaluate(hand1).Success? && Evaluate(hand2).Success?
    ensures Evaluate(hand1).Failure? ==> r == Failure(Evaluate(hand1).error)
    ensures Evaluate(hand1).Success? && Evaluate(hand2).Failure? ==> r == Failure(Evaluate(hand2).error)
    ensures r.Success? ==> r.value == CompareEvaluations(Evaluate(hand1).value, Evaluate(hand2).value)
  {
    match Evaluate(hand1)
    case Failure(e) => Failure(e)
    case Success(e1) =>
      match Evaluate(hand2)
      case Failure(e) => Failure(e)
      case Success(e2) => Success(CompareEvaluations(e1, e2))
  }
}
