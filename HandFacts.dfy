/**
 * Properties of the hand evaluator: what check_straight recognises, which tie-break
 * each shape of hand receives, that the order of the cards does not matter, and that
 * compare_hands orders hands consistently.
 */
module HandFacts {
  import opened Wrappers
  import opened Cards
  import opened Sorting
  import opened HandEvaluator

  // ---------------------------------------------------------------------------
  // Straights.

  /** Five consecutive values, highest first. */
  function Run(h: int): seq<int> {
    [h, h - 1, h - 2, h - 3, h - 4]
  }

  /** A sorted five holding each wheel value, and nothing else, is the wheel itself. */
  lemma WheelFromMembers(s: seq<int>)
    requires |s| == 5 && SortedDesc(s)
    requires 14 in s && 5 in s && 4 in s && 3 in s && 2 in s
    requires forall k :: 0 <= k < 5 ==> s[k] in {14, 5, 4, 3, 2}
    ensures s == Wheel
  {
    var i :| 0 <= i < 5 && s[i] == 5;
    var j :| 0 <= j < 5 && s[j] == 4;
    var k :| 0 <= k < 5 && s[k] == 3;
    var a :| 0 <= a < 5 && s[a] == 14;
    var b :| 0 <= b < 5 && s[b] == 2;
    assert s[0] == 14 by { assert s[0] >= s[a]; }
    assert s[4] == 2 by { assert s[4] <= s[b]; }
    assert i < j < k;
    assert 0 < i && k < 4;
  }

  /** A sorted hand whose set of values is the wheel is the wheel itself. */
  lemma WheelSorted(s: seq<int>)
    requires |s| == 5 && SortedDesc(s)
    requires (set r | r in s) == {14, 5, 4, 3, 2}
    ensures s == Wheel
  {
    var w := set r | r in s;
    assert forall x :: x in w <==> x in s;
    assert 14 in w && 5 in w && 4 in w && 3 in w && 2 in w;
    assert forall k :: 0 <= k < 5 ==> s[k] in w;
    WheelFromMembers(s);
  }

  /** The set of the wheel's values. */
  lemma WheelSet()
    ensures (set r | r in Wheel) == {14, 5, 4, 3, 2}
  {
    var w := set r | r in Wheel;
    forall x ensures x in w <==> x in {14, 5, 4, 3, 2} {
      assert x in w <==> x in Wheel;
    }
  }

  /** Five values that each step down by one are the run from the first. */
  lemma StepsRun(s: seq<int>)
    requires |s| == 5
    requires forall i :: 0 <= i < |s| - 1 ==> s[i] - 1 == s[i + 1]
    ensures s == Run(s[0])
  {
    assert s[0] - 1 == s[1] && s[1] - 1 == s[2] && s[2] - 1 == s[3] && s[3] - 1 == s[4];
  }

  /** check_straight holds of a sorted five exactly when it is a run or the wheel. */
  lemma StraightIff(s: seq<int>)
    requires |s| == 5 && SortedDesc(s)
    ensures CheckStraight(s) ==> s == Run(s[0]) || s == Wheel
    ensures s == Run(s[0]) || s == Wheel ==> CheckStraight(s)
  {
    if forall i :: 0 <= i < |s| - 1 ==> s[i] - 1 == s[i + 1] {
      StepsRun(s);
    }
    if (set r | r in s) == {14, 5, 4, 3, 2} {
      WheelSorted(s);
    }
    if s == Wheel {
      WheelSet();
    }
  }

  /** Every straight has five distinct values. */
  lemma StraightDistinct(s: seq<int>)
    requires |s| == 5 && SortedDesc(s) && CheckStraight(s)
    ensures StrictlyDesc(s)
  {
    StraightIff(s);
    if s == Wheel {
      assert StrictlyDesc(Wheel);
    } else {
      RunStrict(s[0]);
    }
  }

  lemma RunStrict(h: int)
    ensures StrictlyDesc(Run(h))
  {
  }

  // ---------------------------------------------------------------------------
  // Facts about the rank counts of a hand.

  /** Sorting a hand whose values are those of a sorted sequence gives that sequence. */
  lemma SortedIs(ranks: seq<int>, expected: seq<int>)
    requires SortedDesc(expected) && multiset(ranks) == multiset(expected)
    ensures SortDesc(ranks) == expected
  {
    SortedUnique(SortDesc(ranks), expected);
  }

  /** A hand with a repeated value is not a straight. */
  lemma RepeatNotStraight(ranks: seq<int>, v: int)
    requires |ranks| == 5 && multiset(ranks)[v] >= 2
    ensures !CheckStraight(SortDesc(ranks))
  {
    var s := SortDesc(ranks);
    if CheckStraight(s) {
      StraightDistinct(s);
      StrictlyDescOnce(s, v);
    }
  }

  /** A hand of five distinct values has only single groups. */
  lemma DistinctCounts(ranks: seq<int>)
    requires |ranks| == 5 && StrictlyDesc(SortDesc(ranks))
    ensures RankCounts(ranks)[0].count == 1
  {
    var c := RankCounts(ranks);
    assert c != [];
    StrictlyDescOnce(SortDesc(ranks), c[0].rank);
  }

  // ---------------------------------------------------------------------------
  // The rank counts of each shape of hand.

  /** In a strictly descending list the head comes before every other member. */
  lemma FirstIsTop(c: seq<Group>, g: Group)
    requires StrictlyDescending(c) && g in c
    ensures c[0] == g || Above(c[0], g)
  {
    var j :| 0 <= j < |c| && c[j] == g;
    if j > 0 {
      assert Above(c[0], c[j]);
    }
  }

  lemma TailMembers(c: seq<Group>)
    requires StrictlyDescending(c) && c != []
    ensures StrictlyDescending(c[1..])
    ensures forall x :: x in c[1..] <==> x in c && x != c[0]
  {
    forall x | x in c[1..] ensures x != c[0] {
      var j :| 0 <= j < |c| - 1 && c[1..][j] == x;
      assert Above(c[0], c[j + 1]);
    }
    assert c == [c[0]] + c[1..];
  }

  lemma HeadMember(c: seq<Group>)
    ensures c == [] || c[0] in c
  {
  }

  /** Two strictly descending group lists with the same members are the same list. */
  lemma {:induction false} GroupsUnique(a: seq<Group>, b: seq<Group>)
    requires StrictlyDescending(a) && StrictlyDescending(b)
    requires forall x :: x in a <==> x in b
    ensures a == b
    decreases |a|
  {
    if a == [] {
      HeadMember(b);
    } else {
      assert a[0] in b;
      FirstIsTop(b, a[0]);
      FirstIsTop(a, b[0]);
      TailMembers(a);
      TailMembers(b);
      GroupsUnique(a[1..], b[1..]);
      assert a == [a[0]] + a[1..] && b == [b[0]] + b[1..];
    }
  }

  /** The counts of a hand are the one strictly descending list of its (multiplicity, value) pairs. */
  lemma CountsAre(ranks: seq<int>, groups: seq<Group>)
    requires StrictlyDescending(groups)
    requires forall x :: x in groups <==> x.rank in multiset(ranks) && x.count == multiset(ranks)[x.rank]
    ensures RankCounts(ranks) == groups
  {
    RankCountsMembers(ranks);
    GroupsUnique(RankCounts(ranks), groups);
  }

  lemma QuadBag(m: multiset<int>, q: int, k: int)
    requires m == multiset{q, q, q, q, k} && q != k
    ensures m[q] == 4 && m[k] == 1
    ensures forall x :: x in m ==> x == q || x == k
  {
  }

  lemma QuadCounts(ranks: seq<int>, q: int, k: int)
    requires multiset(ranks) == multiset{q, q, q, q, k} && q != k
    ensures RankCounts(ranks) == [Group(4, q), Group(1, k)]
  {
    QuadBag(multiset(ranks), q, k);
    CountsAre(ranks, [Group(4, q), Group(1, k)]);
  }

  lemma FullHouseBag(m: multiset<int>, t: int, p: int)
    requires m == multiset{t, t, t, p, p} && t != p
    ensures m[t] == 3 && m[p] == 2
    ensures forall x :: x in m ==> x == t || x == p
  {
  }

  lemma FullHouseCounts(ranks: seq<int>, t: int, p: int)
    requires multiset(ranks) == multiset{t, t, t, p, p} && t != p
    ensures RankCounts(ranks) == [Group(3, t), Group(2, p)]
  {
    FullHouseBag(multiset(ranks), t, p);
    CountsAre(ranks, [Group(3, t), Group(2, p)]);
  }

  lemma TripsBag(m: multiset<int>, t: int, a: int, b: int)
    requires m == multiset{t, t, t, a, b} && a > b && a != t && b != t
    ensures m[t] == 3 && m[a] == 1 && m[b] == 1
    ensures forall x :: x in m ==> x == t || x == a || x == b
  {
  }

  lemma TripsCounts(ranks: seq<int>, t: int, a: int, b: int)
    requires multiset(ranks) == multiset{t, t, t, a, b}
    requires a > b && a != t && b != t
    ensures RankCounts(ranks) == [Group(3, t), Group(1, a), Group(1, b)]
  {
    TripsBag(multiset(ranks), t, a, b);
    CountsAre(ranks, [Group(3, t), Group(1, a), Group(1, b)]);
  }

  lemma TwoPairBag(m: multiset<int>, p: int, q: int, k: int)
    requires m == multiset{p, p, q, q, k} && p > q && k != p && k != q
    ensures m[p] == 2 && m[q] == 2 && m[k] == 1
    ensures forall x :: x in m ==> x == p || x == q || x == k
  {
  }

  lemma TwoPairCounts(ranks: seq<int>, p: int, q: int, k: int)
    requires multiset(ranks) == multiset{p, p, q, q, k}
    requires p > q && k != p && k != q
    ensures RankCounts(ranks) == [Group(2, p), Group(2, q), Group(1, k)]
  {
    TwoPairBag(multiset(ranks), p, q, k);
    CountsAre(ranks, [Group(2, p), Group(2, q), Group(1, k)]);
  }

  lemma PairBag(m: multiset<int>, p: int, a: int, b: int, c: int)
    requires m == multiset{p, p, a, b, c} && a > b > c && a != p && b != p && c != p
    ensures m[p] == 2 && m[a] == 1 && m[b] == 1 && m[c] == 1
    ensures forall x :: x in m ==> x == p || x == a || x == b || x == c
  {
  }

  lemma PairCounts(ranks: seq<int>, p: int, a: int, b: int, c: int)
    requires multiset(ranks) == multiset{p, p, a, b, c}
    requires a > b > c && a != p && b != p && c != p
    ensures RankCounts(ranks) == [Group(2, p), Group(1, a), Group(1, b), Group(1, c)]
  {
    PairBag(multiset(ranks), p, a, b, c);
    CountsAre(ranks, [Group(2, p), Group(1, a), Group(1, b), Group(1, c)]);
  }

  // ---------------------------------------------------------------------------
  // Which category and tie-break each shape of hand receives.

  /** Four cards of value q and a kicker k: Póker (q, k), whatever the suits. */
  lemma QuadHand(ranks: seq<int>, flush: bool, q: int, k: int)
    requires |ranks| == 5 && multiset(ranks) == multiset{q, q, q, q, k} && q != k
    ensures Classify(ranks, flush) == Evaluation(FourOfAKind, [q, k])
  {
    QuadCounts(ranks, q, k);
    RepeatNotStraight(ranks, q);
    FiveCountsOf(ranks);
    BranchQuad(SortDesc(ranks), RankCounts(ranks), flush);
  }

  /** Three cards of value t and two of value p: Full House (t, p), whatever the suits. */
  lemma FullHouseHand(ranks: seq<int>, flush: bool, t: int, p: int)
    requires |ranks| == 5 && multiset(ranks) == multiset{t, t, t, p, p} && t != p
    ensures Classify(ranks, flush) == Evaluation(FullHouse, [t, p])
  {
    FullHouseCounts(ranks, t, p);
    RepeatNotStraight(ranks, t);
    FiveCountsOf(ranks);
    BranchFullHouse(SortDesc(ranks), RankCounts(ranks), flush);
  }

  /**
   * Three cards of value t and kickers a > b: Trío (t, a, b); if all suits agree
   * the Color test comes first.
   */
  lemma TripsHand(ranks: seq<int>, flush: bool, t: int, a: int, b: int)
    requires |ranks| == 5 && multiset(ranks) == multiset{t, t, t, a, b}
    requires a > b && a != t && b != t
    ensures Classify(ranks, flush)
      == if flush then Evaluation(Flush, SortDesc(ranks)) else Evaluation(ThreeOfAKind, [t, a, b])
  {
    TripsCounts(ranks, t, a, b);
    RepeatNotStraight(ranks, t);
    FiveCountsOf(ranks);
    if flush {
      BranchFlush(SortDesc(ranks), RankCounts(ranks), flush);
    } else {
      BranchTrips(SortDesc(ranks), RankCounts(ranks), flush);
    }
  }

  /**
   * Pairs of values p > q and a kicker k: Dos Pares (p, q, k); if all suits agree
   * the Color test comes first.
   */
  lemma TwoPairHand(ranks: seq<int>, flush: bool, p: int, q: int, k: int)
    requires |ranks| == 5 && multiset(ranks) == multiset{p, p, q, q, k}
    requires p > q && k != p && k != q
    ensures Classify(ranks, flush)
      == if flush then Evaluation(Flush, SortDesc(ranks)) else Evaluation(TwoPair, [p, q, k])
  {
    TwoPairCounts(ranks, p, q, k);
    RepeatNotStraight(ranks, p);
    FiveCountsOf(ranks);
    if flush {
      BranchFlush(SortDesc(ranks), RankCounts(ranks), flush);
    } else {
      BranchTwoPair(SortDesc(ranks), RankCounts(ranks), flush);
    }
  }

  /**
   * A pair of value p and kickers a > b > c: Par (p, a, b, c); if all suits agree
   * the Color test comes first.
   */
  lemma PairHand(ranks: seq<int>, flush: bool, p: int, a: int, b: int, c: int)
    requires |ranks| == 5 && multiset(ranks) == multiset{p, p, a, b, c}
    requires a > b > c && a != p && b != p && c != p
    ensures Classify(ranks, flush)
      == if flush then Evaluation(Flush, SortDesc(ranks)) else Evaluation(Pair, [p, a, b, c])
  {
    PairCounts(ranks, p, a, b, c);
    RepeatNotStraight(ranks, p);
    FiveCountsOf(ranks);
    if flush {
      BranchFlush(SortDesc(ranks), RankCounts(ranks), flush);
    } else {
      BranchPair(SortDesc(ranks), RankCounts(ranks), flush);
    }
  }

  lemma FiveSameCounts(ranks: seq<int>, v: int)
    requires |ranks| == 5 && multiset(ranks) == multiset{v, v, v, v, v}
    ensures FiveCounts(RankCounts(ranks)) && RankCounts(ranks)[0].count == 5
  {
    assert multiset(ranks)[v] == 5 && forall x :: x in multiset(ranks) ==> x == v;
    CountsAre(ranks, [Group(5, v)]);
    FiveCountsOf(ranks);
  }

  lemma FiveSameSorted(ranks: seq<int>, v: int)
    requires |ranks| == 5 && multiset(ranks) == multiset{v, v, v, v, v}
    ensures SortDesc(ranks) == [v, v, v, v, v]
  {
    assert multiset([v, v, v, v, v]) == multiset{v, v, v, v, v};
    SortedIs(ranks, [v, v, v, v, v]);
  }

  /**
   * Five cards of one value (possible only with repeated cards): no test above
   * Color matches, so the hand is Color or Carta Alta.
   */
  lemma FiveOfAKindHand(ranks: seq<int>, flush: bool, v: int)
    requires |ranks| == 5 && multiset(ranks) == multiset{v, v, v, v, v}
    ensures Classify(ranks, flush) == Evaluation(if flush then Flush else HighCard, [v, v, v, v, v])
  {
    FiveSameCounts(ranks, v);
    RepeatNotStraight(ranks, v);
    FiveSameSorted(ranks, v);
    if flush {
      BranchFlush(SortDesc(ranks), RankCounts(ranks), flush);
    } else {
      BranchHighCard(SortDesc(ranks), RankCounts(ranks), flush);
    }
  }

  /**
   * Five distinct values that are neither a run nor the wheel: Color if all suits
   * agree, Carta Alta otherwise, both broken by all five values.
   */
  lemma NoComboHand(ranks: seq<int>, flush: bool, s: seq<int>)
    requires |ranks| == 5 && |s| == 5 && StrictlyDesc(s) && multiset(ranks) == multiset(s)
    requires s != Run(s[0]) && s != Wheel
    ensures Classify(ranks, flush) == Evaluation(if flush then Flush else HighCard, s)
  {
    SortedIs(ranks, s);
    StraightIff(s);
    DistinctCounts(ranks);
    FiveCountsOf(ranks);
    if flush {
      CountsShape(RankCounts(ranks));
      BranchFlush(s, RankCounts(ranks), flush);
    } else {
      BranchHighCard(s, RankCounts(ranks), flush);
    }
  }

  /** A hand of five distinct values, sorted: all its groups are single cards. */
  lemma DistinctHand(ranks: seq<int>, s: seq<int>)
    requires |ranks| == 5 && |s| == 5 && StrictlyDesc(s) && multiset(ranks) == multiset(s)
    ensures SortDesc(ranks) == s
    ensures CheckStraight(s) <==> s == Run(s[0]) || s == Wheel
    ensures RankCounts(ranks)[0].count == 1
  {
    SortedIs(ranks, s);
    StraightIff(s);
    DistinctCounts(ranks);
  }

  /**
   * A run of five from h down: Escalera (h), Escalera de Color (h) when the suits
   * agree, and Escalera Real (A) when they agree and h is the ace.
   */
  lemma RunHand(ranks: seq<int>, flush: bool, h: int)
    requires |ranks| == 5 && multiset(ranks) == multiset(Run(h))
    ensures Classify(ranks, flush)
      == if !flush then Evaluation(Straight, [h])
         else if h == 14 then Evaluation(RoyalFlush, [14])
         else Evaluation(StraightFlush, [h])
  {
    DistinctHand(ranks, Run(h));
    FiveCountsOf(ranks);
    assert Run(h) == Broadway <==> h == 14;
    if flush {
      BranchStraightFlush(Run(h), RankCounts(ranks), flush);
    } else {
      BranchStraight(Run(h), RankCounts(ranks), flush);
    }
  }

  /** The wheel A-5-4-3-2 counts the ace low: its tie-break is the five. */
  lemma WheelHand(ranks: seq<int>, flush: bool)
    requires |ranks| == 5 && multiset(ranks) == multiset(Wheel)
    ensures Classify(ranks, flush) == Evaluation(if flush then StraightFlush else Straight, [5])
  {
    DistinctHand(ranks, Wheel);
    FiveCountsOf(ranks);
    if flush {
      BranchStraightFlush(Wheel, RankCounts(ranks), flush);
    } else {
      BranchStraight(Wheel, RankCounts(ranks), flush);
    }
  }

  lemma BroadwayStraight()
    ensures CheckStraight(Broadway)
  {
    assert forall i :: 0 <= i < 4 ==> Broadway[i] - 1 == Broadway[i + 1];
  }

  /** The classification chain gives Escalera Real exactly to a suited A-K-Q-J-10. */
  lemma RoyalCounts(s: seq<int>, c: seq<Group>, flush: bool)
    requires |s| == 5 && FiveCounts(c)
    ensures ClassifyCounts(s, c, flush).category == RoyalFlush <==> flush && s == Broadway
    ensures ClassifyCounts(s, c, flush).category == RoyalFlush ==> ClassifyCounts(s, c, flush).tieBreak == [14]
  {
    BroadwayStraight();
    if flush && CheckStraight(s) {
      BranchStraightFlush(s, c, flush);
    } else {
      RoyalNeedsSuitedStraight(s, c, flush);
    }
  }

  /** Escalera Real exactly for a suited A-K-Q-J-10, and then its tie-break is the ace. */
  lemma RoyalIff(ranks: seq<int>, flush: bool)
    requires |ranks| == 5
    ensures Classify(ranks, flush).category == RoyalFlush ==> flush && SortDesc(ranks) == Broadway
    ensures flush && SortDesc(ranks) == Broadway ==> Classify(ranks, flush).category == RoyalFlush
    ensures Classify(ranks, flush).category == RoyalFlush ==> Classify(ranks, flush).tieBreak == [14]
  {
    var s, c := SortDesc(ranks), RankCounts(ranks);
    ClassifyUnfold(ranks, flush);
    RoyalCounts(s, c, flush);
    assert Classify(ranks, flush) == ClassifyCounts(s, c, flush);
  }

  // ---------------------------------------------------------------------------
  // The order of the cards in a hand does not matter.

  lemma {:induction false} RankValuesConcat(a: seq<Card>, b: seq<Card>)
    requires KnownRanks(a) && KnownRanks(b)
    ensures KnownRanks(a + b)
    ensures RankValuesOf(a + b) == RankValuesOf(a) + RankValuesOf(b)
  {
    var l := RankValuesOf(a + b);
    var r := RankValuesOf(a) + RankValuesOf(b);
    assert |l| == |r|;
    forall i | 0 <= i < |l| ensures l[i] == r[i] {
      if i < |a| {
        assert (a + b)[i] == a[i];
      } else {
        assert (a + b)[i] == b[i - |a|];
      }
    }
  }

  lemma KnownSlice(h: seq<Card>, i: int, j: int)
    requires KnownRanks(h) && 0 <= i <= j <= |h|
    ensures KnownRanks(h[i..j])
  {
    forall c | c in h[i..j] ensures c.rank in RankValues {
      var k :| i <= k < j && h[k] == c;
    }
  }

  lemma KnownPermute(h1: seq<Card>, h2: seq<Card>)
    requires multiset(h1) == multiset(h2)
    ensures KnownRanks(h1) <==> KnownRanks(h2)
  {
    assert forall c :: c in h1 <==> c in multiset(h1);
    assert forall c :: c in h2 <==> c in multiset(h2);
  }

  /** Taking one card out of the middle takes its value out of the values. */
  lemma RankValuesSplit(pre: seq<Card>, x: Card, post: seq<Card>)
    requires KnownRanks(pre + [x] + post)
    ensures KnownRanks(pre + post) && x.rank in RankValues
    ensures multiset(RankValuesOf(pre + [x] + post))
      == multiset{RankValues[x.rank]} + multiset(RankValuesOf(pre + post))
  {
    assert x in pre + [x] + post;
    assert KnownRanks(pre) && KnownRanks(post) && KnownRanks([x]) by {
      assert forall c :: c in pre || c in post ==> c in pre + [x] + post;
    }
    RankValuesConcat(pre, post);
    RankValuesConcat(pre, [x]);
    RankValuesConcat(pre + [x], post);
    assert RankValuesOf([x]) == [RankValues[x.rank]];
  }

  /** Matching the first card of one hand with the same card of another leaves equal rests. */
  lemma DropMatched(h1: seq<Card>, pre: seq<Card>, x: Card, post: seq<Card>)
    requires h1 != [] && h1[0] == x && multiset(h1) == multiset(pre + [x] + post)
    ensures multiset(h1[1..]) == multiset(pre + post)
  {
    calc {
      multiset(h1[1..]);
      { assert h1 == [x] + h1[1..]; }
      multiset(h1) - multiset{x};
      multiset(pre) + multiset{x} + multiset(post) - multiset{x};
      multiset(pre + post);
    }
  }

  /** Rearranging the cards rearranges their values. */
  lemma {:induction false} RankValuesPermute(h1: seq<Card>, h2: seq<Card>)
    requires multiset(h1) == multiset(h2) && KnownRanks(h1) && KnownRanks(h2)
    ensures multiset(RankValuesOf(h1)) == multiset(RankValuesOf(h2))
    decreases |h1|
  {
    if h1 != [] {
      var x := h1[0];
      assert x in multiset(h2);
      var i :| 0 <= i < |h2| && h2[i] == x;
      var pre, post := h2[..i], h2[i + 1..];
      assert h2 == pre + [x] + post;
      DropMatched(h1, pre, x, post);
      KnownSlice(h1, 1, |h1|);
      RankValuesSplit(pre, x, post);
      RankValuesPermute(h1[1..], pre + post);
      calc {
        multiset(RankValuesOf(h1));
        { assert RankValuesOf(h1) == [RankValues[x.rank]] + RankValuesOf(h1[1..]); }
        multiset{RankValues[x.rank]} + multiset(RankValuesOf(h1[1..]));
        multiset{RankValues[x.rank]} + multiset(RankValuesOf(pre + post));
        multiset(RankValuesOf(h2));
      }
    }
  }

  lemma FlushIff(hand: seq<Card>)
    ensures IsFlush(SuitsOf(hand)) <==> |hand| > 0 && forall c, d :: c in hand && d in hand ==> c.suit == d.suit
  {
    var suits := SuitsOf(hand);
    if |hand| > 0 && forall c, d :: c in hand && d in hand ==> c.suit == d.suit {
      forall s | s in suits ensures s == suits[0] {
        var i :| 0 <= i < |suits| && suits[i] == s;
        assert hand[i] in hand && hand[0] in hand;
      }
    }
    if IsFlush(suits) {
      forall c, d | c in hand && d in hand ensures c.suit == d.suit {
        var i :| 0 <= i < |hand| && hand[i] == c;
        var j :| 0 <= j < |hand| && hand[j] == d;
        assert suits[i] in suits && suits[j] in suits;
      }
    }
  }

  /** Classification depends only on the multiset of values. */
  lemma ClassifyPermute(r1: seq<int>, r2: seq<int>, flush: bool)
    requires |r1| == 5 && multiset(r1) == multiset(r2)
    ensures |r2| == 5 && Classify(r1, flush) == Classify(r2, flush)
  {
    assert |multiset(r1)| == |multiset(r2)|;
    SortedUnique(SortDesc(r1), SortDesc(r2));
  }

  /** evaluate_hand gives the same answer for any ordering of the same cards. */
  lemma EvaluatePermute(h1: seq<Card>, h2: seq<Card>)
    requires multiset(h1) == multiset(h2)
    ensures Evaluate(h1) == Evaluate(h2)
  {
    assert |multiset(h1)| == |multiset(h2)|;
    assert forall c :: c in h1 <==> c in h2 by {
      forall c ensures c in h1 <==> c in h2 {
        assert c in h1 <==> c in multiset(h1);
        assert c in h2 <==> c in multiset(h2);
      }
    }
    FlushIff(h1);
    FlushIff(h2);
    KnownPermute(h1, h2);
    if |h1| == 5 && KnownRanks(h1) {
      RankValuesPermute(h1, h2);
      ClassifyPermute(RankValuesOf(h1), RankValuesOf(h2), IsFlush(SuitsOf(h1)));
    }
  }

  // ---------------------------------------------------------------------------
  // The rank tables and the display of tie-breaks.

  /** Every rank label reads back to itself through its value. */
  lemma LabelsRoundTrip()
    ensures forall r :: r in RankValues ==>
      2 <= RankValues[r] <= 14 && RankValues[r] in ValueRanks && ValueRanks[RankValues[r]] == r
  {
  }

  lemma LowValueRoundTrip(v: int)
    requires 2 <= v <= 8
    ensures v in ValueRanks && ValueRanks[v] in RankValues && RankValues[ValueRanks[v]] == v
  {
    if v == 2 {} else if v == 3 {} else if v == 4 {} else if v == 5 {} else if v == 6 {}
    else if v == 7 {} else {}
  }

  lemma HighValueRoundTrip(v: int)
    requires 9 <= v <= 14
    ensures v in ValueRanks && ValueRanks[v] in RankValues && RankValues[ValueRanks[v]] == v
  {
    if v == 9 {} else if v == 10 {} else if v == 11 {} else if v == 12 {} else if v == 13 {}
    else {}
  }

  /** Every value 2..14 reads back to itself through its label. */
  lemma ValuesRoundTrip()
    ensures forall v :: 2 <= v <= 14 ==>
      v in ValueRanks && ValueRanks[v] in RankValues && RankValues[ValueRanks[v]] == v
  {
    forall v | 2 <= v <= 14
      ensures v in ValueRanks && ValueRanks[v] in RankValues && RankValues[ValueRanks[v]] == v
    {
      if v <= 8 {
        LowValueRoundTrip(v);
      } else {
        HighValueRoundTrip(v);
      }
    }
  }

  /** RANK_VALUES and VALUE_RANKS are inverse on the thirteen ranks, and 1 shows as the ace. */
  lemma RankTablesInverse()
    ensures forall r :: r in RankValues ==>
      2 <= RankValues[r] <= 14 && RankValues[r] in ValueRanks && ValueRanks[RankValues[r]] == r
    ensures forall v :: 2 <= v <= 14 ==>
      v in ValueRanks && ValueRanks[v] in RankValues && RankValues[ValueRanks[v]] == v
    ensures 1 in ValueRanks && ValueRanks[1] == ValueRanks[14] == "A"
  {
    LabelsRoundTrip();
    ValuesRoundTrip();
  }

  predicate Within(x: seq<int>, lo: int, hi: int) {
    forall i :: 0 <= i < |x| ==> lo <= x[i] <= hi
  }

  /** Every tie-break value is a sorted value or a group's value (the wheel's five is both). */
  lemma TieBreakWithin(s: seq<int>, c: seq<Group>, flush: bool, lo: int, hi: int)
    requires |s| == 5 && FiveCounts(c)
    requires Within(s, lo, hi) && forall i :: 0 <= i < |c| ==> lo <= c[i].rank <= hi
    ensures Within(ClassifyCounts(s, c, flush).tieBreak, lo, hi)
  {
    CountsShape(c);
    var straight := CheckStraight(s);
    if flush && straight {
      BranchStraightFlush(s, c, flush);
      TopWithin(s, lo, hi);
    } else if c[0].count == 4 {
      BranchQuad(s, c, flush);
      GroupsWithin(c, 2, lo, hi);
    } else if c[0].count == 3 && c[1].count == 2 {
      BranchFullHouse(s, c, flush);
      GroupsWithin(c, 2, lo, hi);
    } else if flush {
      BranchFlush(s, c, flush);
    } else if straight {
      BranchStraight(s, c, flush);
      TopWithin(s, lo, hi);
    } else if c[0].count == 3 {
      BranchTrips(s, c, flush);
      GroupsWithin(c, 3, lo, hi);
    } else if c[0].count == 2 && c[1].count == 2 {
      BranchTwoPair(s, c, flush);
      GroupsWithin(c, 3, lo, hi);
    } else if c[0].count == 2 {
      BranchPair(s, c, flush);
      GroupsWithin(c, 4, lo, hi);
    } else {
      BranchHighCard(s, c, flush);
    }
  }

  /** The single value a straight is ranked by lies within the hand's bounds. */
  lemma TopWithin(s: seq<int>, lo: int, hi: int)
    requires |s| == 5 && Within(s, lo, hi)
    ensures Within([if s == Wheel then 5 else s[0]], lo, hi)
  {
    if s == Wheel {
      assert s[1] == 5;
    }
  }

  /** The ranks of the first n groups, as a tie-break, lie within the groups' bounds. */
  lemma GroupsWithin(c: seq<Group>, n: int, lo: int, hi: int)
    requires 0 <= n <= |c| && forall i :: 0 <= i < |c| ==> lo <= c[i].rank <= hi
    ensures n >= 2 ==> Within([c[0].rank, c[1].rank], lo, hi)
    ensures n >= 3 ==> Within([c[0].rank, c[1].rank, c[2].rank], lo, hi)
    ensures n >= 4 ==> Within([c[0].rank, c[1].rank, c[2].rank, c[3].rank], lo, hi)
  {
  }

  /** The sorted values and the group values of a hand are values of the hand. */
  lemma HandValuesWithin(ranks: seq<int>, lo: int, hi: int)
    requires |ranks| == 5 && Within(ranks, lo, hi)
    ensures Within(SortDesc(ranks), lo, hi)
    ensures forall i :: 0 <= i < |RankCounts(ranks)| ==> lo <= RankCounts(ranks)[i].rank <= hi
  {
    var s := SortDesc(ranks);
    var c := RankCounts(ranks);
    forall i | 0 <= i < |s| ensures lo <= s[i] <= hi {
      assert s[i] in multiset(ranks);
    }
    forall i | 0 <= i < |c| ensures lo <= c[i].rank <= hi {
      assert c[i].rank in multiset(ranks);
    }
  }

  /**
   * The tie-break of every evaluated hand holds rank values 2 to 14 only, so each
   * displays as a rank label that RANK_VALUES reads back; the wheel's tie-break is
   * its five, and the low ace value 1 never occurs.
   */
  lemma TieBreakDisplayable(hand: seq<Card>)
    requires Evaluate(hand).Success?
    ensures var t := Evaluate(hand).value.tieBreak;
      forall i :: 0 <= i < |t| ==>
        2 <= t[i] <= 14 && DisplayValue(t[i]) in RankValues && RankValues[DisplayValue(t[i])] == t[i]
  {
    EvaluatedWithin(hand);
    DisplayedBack(Evaluate(hand).value.tieBreak);
  }

  /** An evaluated hand's tie-break values lie in 2..14. */
  lemma EvaluatedWithin(hand: seq<Card>)
    requires Evaluate(hand).Success?
    ensures Within(Evaluate(hand).value.tieBreak, 2, 14)
  {
    var ranks := RankValuesOf(hand);
    assert Evaluate(hand).value == Classify(ranks, IsFlush(SuitsOf(hand)));
    KnownWithin(hand);
    ClassifyWithin(ranks, IsFlush(SuitsOf(hand)), 2, 14);
  }

  /** The values of known ranks lie in 2..14. */
  lemma KnownWithin(hand: seq<Card>)
    requires KnownRanks(hand)
    ensures Within(RankValuesOf(hand), 2, 14)
  {
    LabelsRoundTrip();
    var ranks := RankValuesOf(hand);
    forall i | 0 <= i < |ranks| ensures 2 <= ranks[i] <= 14 {
      assert hand[i] in hand;
    }
  }

  /** Classifying values in a range gives a tie-break in that range. */
  lemma ClassifyWithin(ranks: seq<int>, flush: bool, lo: int, hi: int)
    requires |ranks| == 5 && Within(ranks, lo, hi)
    ensures Within(Classify(ranks, flush).tieBreak, lo, hi)
  {
    HandValuesWithin(ranks, lo, hi);
    FiveCountsOf(ranks);
    TieBreakWithin(SortDesc(ranks), RankCounts(ranks), flush, lo, hi);
  }

  /** Values 2..14 display as labels that read back to them. */
  lemma DisplayedBack(t: seq<int>)
    requires Within(t, 2, 14)
    ensures forall i :: 0 <= i < |t| ==>
      2 <= t[i] <= 14 && DisplayValue(t[i]) in RankValues && RankValues[DisplayValue(t[i])] == t[i]
  {
    ValuesRoundTrip();
  }

  // ---------------------------------------------------------------------------
  // compare_hands is a consistent ordering.

  lemma {:induction false} TupleLessIrreflexive(a: seq<int>)
    ensures !TupleLess(a, a)
    decreases |a|
  {
    if a != [] {
      TupleLessIrreflexive(a[1..]);
    }
  }

  lemma {:induction false} TupleLessAsymmetric(a: seq<int>, b: seq<int>)
    ensures TupleLess(a, b) ==> !TupleLess(b, a)
    decreases |a|
  {
    if a != [] && b != [] && a[0] == b[0] {
      TupleLessAsymmetric(a[1..], b[1..]);
    }
  }

  lemma {:induction false} TupleLessTransitive(a: seq<int>, b: seq<int>, c: seq<int>)
    requires TupleLess(a, b) && TupleLess(b, c)
    ensures TupleLess(a, c)
    decreases |a|
  {
    if a != [] && a[0] == b[0] && b[0] == c[0] {
      TupleLessTransitive(a[1..], b[1..], c[1..]);
    }
  }

  /** Two different tuples are always ordered one way or the other. */
  lemma {:induction false} TupleLessTotal(a: seq<int>, b: seq<int>)
    ensures a == b || TupleLess(a, b) || TupleLess(b, a)
    decreases |a|
  {
    if a != [] && b != [] && a[0] == b[0] {
      TupleLessTotal(a[1..], b[1..]);
      if a[1..] == b[1..] {
        assert a == [a[0]] + a[1..] && b == [b[0]] + b[1..];
      }
    }
  }

  /** HAND_RANKS gives each category its own strength, and each its own label. */
  lemma CategoryRanksDistinct(x: Category, y: Category)
    ensures 0 <= x.Rank() <= 9
    ensures x.Rank() == y.Rank() <==> x == y
    ensures x.Name() == y.Name() <==> x == y
  {
  }

  /** A tie is reported exactly for equal category and equal tie-break. */
  lemma CompareTieIff(e1: Evaluation, e2: Evaluation)
    ensures CompareEvaluations(e1, e2) == 0 <==> e1 == e2
  {
    CategoryRanksDistinct(e1.category, e2.category);
    TupleLessTotal(e1.tieBreak, e2.tieBreak);
    TupleLessIrreflexive(e1.tieBreak);
  }

  /** Swapping the hands swaps the winner. */
  lemma CompareSwap(e1: Evaluation, e2: Evaluation)
    ensures CompareEvaluations(e1, e2) == 1 <==> CompareEvaluations(e2, e1) == 2
    ensures CompareEvaluations(e1, e2) == 0 <==> CompareEvaluations(e2, e1) == 0
  {
    TupleLessAsymmetric(e1.tieBreak, e2.tieBreak);
    TupleLessAsymmetric(e2.tieBreak, e1.tieBreak);
  }

  /** A hand that beats one that beats a third beats the third. */
  lemma CompareTransitive(e1: Evaluation, e2: Evaluation, e3: Evaluation)
    requires CompareEvaluations(e1, e2) == 1 && CompareEvaluations(e2, e3) == 1
    ensures CompareEvaluations(e1, e3) == 1
  {
    if e1.category.Rank() == e2.category.Rank() == e3.category.Rank() {
      TupleLessTransitive(e3.tieBreak, e2.tieBreak, e1.tieBreak);
      TupleLessAsymmetric(e3.tieBreak, e1.tieBreak);
    }
  }

  /** A stronger category wins whatever the tie-breaks; within a category the larger tuple wins. */
  lemma CompareByCategoryThenTuple(e1: Evaluation, e2: Evaluation)
    ensures e1.category.Rank() > e2.category.Rank() ==> CompareEvaluations(e1, e2) == 1
    ensures e1.category == e2.category ==>
      (CompareEvaluations(e1, e2) == 1 <==> TupleLess(e2.tieBreak, e1.tieBreak))
  {
    TupleLessAsymmetric(e1.tieBreak, e2.tieBreak);
  }

  /** A hand ties with itself and with any reordering of its cards. */
  lemma CompareHandsReflexive(h1: seq<Card>, h2: seq<Card>)
    requires Evaluate(h1).Success? && multiset(h1) == multiset(h2)
    ensures CompareHands(h1, h2) == Success(0)
  {
    EvaluatePermute(h1, h2);
    CompareTieIff(Evaluate(h1).value, Evaluate(h2).value);
  }

  /** compare_hands(a, b) is 1 exactly when compare_hands(b, a) is 2. */
  lemma CompareHandsSwap(h1: seq<Card>, h2: seq<Card>)
    ensures CompareHands(h1, h2) == Success(1) <==> CompareHands(h2, h1) == Success(2)
    ensures CompareHands(h1, h2) == Success(0) <==> CompareHands(h2, h1) == Success(0)
  {
    if Evaluate(h1).Success? && Evaluate(h2).Success? {
      CompareSwap(Evaluate(h1).value, Evaluate(h2).value);
    }
  }
}
