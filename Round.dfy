/**
 * One round of play (main.py, _play_round): the initial deal, the player's
 * cursor-driven choice of discards, both replacements, and the verdict.
 */
module Round {
  import opened Wrappers
  import opened Cards
  import opened HandEvaluator
  import opened Players
  import opened Decks
  import HandFacts

  // ---------------------------------------------------------------------
  // The discard-selection loop
  // ---------------------------------------------------------------------

  /** One line typed in the discard phase, after strip() and lower(). */
  datatype Command = Left | Right | Toggle | Confirm | Other

  /** The cursor and the positions marked for discard. */
  datatype Selection = Selection(cursor: int, marked: set<int>)

  /** The cursor and every mark lie on one of the n cards. */
  predicate Fits(sel: Selection, n: int) {
    0 <= sel.cursor < n && forall i :: i in sel.marked ==> 0 <= i < n
  }

  /** Python's `(c + 1) % n`: the next card, wrapping from the last to the first. */
  function NextCard(c: int, n: int): (r: int)
    requires n > 0
    ensures 0 <= r < n
    ensures 0 <= c < n ==> r == if c == n - 1 then 0 else c + 1
  {
    assert 0 <= c < n - 1 ==> (c + 1) % n == c + 1;
    (c + 1) % n
  }

  /** Python's `(c - 1 + n) % n`: the previous card, wrapping from the first to the last. */
  function PrevCard(c: int, n: int): (r: int)
    requires n > 0
    ensures 0 <= r < n
    ensures 0 <= c < n ==> r == if c == 0 then n - 1 else c - 1
  {
    (c - 1 + n) % n
  }

  /** The effect of one command on a hand of n cards. */
  function Step(sel: Selection, cmd: Command, n: int): (next: Selection)
    requires n > 0
    ensures Fits(sel, n) ==> Fits(next, n)
    ensures cmd != Toggle ==> next.marked == sel.marked
    ensures cmd == Toggle ==> next.cursor == sel.cursor
    ensures cmd == Toggle ==> forall i :: i in next.marked <==> (i in sel.marked <==> i != sel.cursor)
    ensures Fits(sel, n) && cmd == Right ==> next.cursor == if sel.cursor == n - 1 then 0 else sel.cursor + 1
    ensures Fits(sel, n) && cmd == Left ==> next.cursor == if sel.cursor == 0 then n - 1 else sel.cursor - 1
    ensures cmd == Confirm || cmd == Other ==> next == sel
  {
    match cmd
    case Left => Selection(PrevCard(sel.cursor, n), sel.marked)
    case Right => Selection(NextCard(sel.cursor, n), sel.marked)
    case Toggle =>
      if sel.cursor in sel.marked then Selection(sel.cursor, sel.marked - {sel.cursor})
      else Selection(sel.cursor, sel.marked + {sel.cursor})
    case _ => sel
  }

  /**
   * The loop as a whole: the selection in force when Enter is read, or None
   * when the input runs out first. An unrecognised line also consumes the
   * next line (the "press Enter to continue" prompt), whatever it holds.
   */
  function Session(sel: Selection, lines: seq<Command>, n: int): (r: Option<Selection>)
    requires n > 0
    ensures r.Some? && Fits(sel, n) ==> Fits(r.value, n)
    decreases |lines|
  {
    if lines == [] then None
    else match lines[0]
      case Confirm => Some(sel)
      case Other => if |lines| == 1 then None else Session(sel, lines[2..], n)
      case _ => Session(Step(sel, lines[0], n), lines[1..], n)
  }

  /** The marked positions when the loop ends, starting from card 0 with nothing marked. */
  function Chosen(lines: seq<Command>, n: int): (r: Option<set<int>>)
    requires n > 0
    ensures r.Some? ==> forall i :: i in r.value ==> 0 <= i < n
  {
    match Session(Selection(0, {}), lines, n)
    case None => None
    case Some(sel) => Some(sel.marked)
  }

  /** Moving right and then left puts the cursor back. */
  lemma RightThenLeft(sel: Selection, n: int)
    requires n > 0 && Fits(sel, n)
    ensures Step(Step(sel, Right, n), Left, n) == sel
    ensures Step(Step(sel, Left, n), Right, n) == sel
  {
  }

  /** Marking a card twice leaves the selection as it was. */
  lemma ToggleTwice(sel: Selection, n: int)
    requires n > 0
    ensures Step(Step(sel, Toggle, n), Toggle, n) == sel
  {
    var once := Step(sel, Toggle, n);
    var twice := Step(once, Toggle, n);
    assert twice.marked == sel.marked;
  }

  /** Lines after the confirming Enter are never read. */
  lemma {:induction false} SessionIgnoresRest(sel: Selection, lines: seq<Command>, rest: seq<Command>, n: int)
    requires n > 0 && Session(sel, lines, n).Some?
    ensures Session(sel, lines + rest, n) == Session(sel, lines, n)
    decreases |lines|
  {
    var all := lines + rest;
    assert all[0] == lines[0];
    match lines[0]
    case Confirm =>
    case Other =>
      assert all[2..] == lines[2..] + rest;
      SessionIgnoresRest(sel, lines[2..], rest, n);
    case _ =>
      assert all[1..] == lines[1..] + rest;
      SessionIgnoresRest(Step(sel, lines[0], n), lines[1..], rest, n);
  }

  /** The selection after applying each command in turn. */
  function Steps(sel: Selection, moves: seq<Command>, n: int): (r: Selection)
    requires n > 0
    ensures Fits(sel, n) ==> Fits(r, n)
    decreases |moves|
  {
    if moves == [] then sel else Steps(Step(sel, moves[0], n), moves[1..], n)
  }

  /** Any run of cursor moves and marks followed by Enter confirms exactly the selection they build. */
  lemma {:induction false} MovesThenConfirm(sel: Selection, moves: seq<Command>, n: int)
    requires n > 0
    requires forall k :: 0 <= k < |moves| ==> moves[k] in {Left, Right, Toggle}
    ensures Session(sel, moves + [Confirm], n) == Some(Steps(sel, moves, n))
    decreases |moves|
  {
    var all := moves + [Confirm];
    if moves != [] {
      assert all[0] == moves[0];
      assert all[1..] == moves[1..] + [Confirm];
      MovesThenConfirm(Step(sel, moves[0], n), moves[1..], n);
    }
  }

  /** The loop of lines 36-62, reading one line per iteration. */
  method SelectDiscards(n: int, lines: seq<Command>) returns (r: Option<set<int>>)
    requires n > 0
    ensures r == Chosen(lines, n)
  {
    var cursor := 0;
    var marked: set<int> := {};
    var i := 0;
    while i < |lines|
      invariant 0 <= i <= |lines|
      invariant Session(Selection(0, {}), lines, n) == Session(Selection(cursor, marked), lines[i..], n)
      decreases |lines| - i
    {
      var command := lines[i];
      assert lines[i..][1..] == lines[i + 1..];
      if command == Left {
        cursor := (cursor - 1 + n) % n;
      } else if command == Right {
        cursor := (cursor + 1) % n;
      } else if command == Toggle {
        if cursor in marked {
          marked := marked - {cursor};
        } else {
          marked := marked + {cursor};
        }
      } else if command == Confirm {
        return Some(marked);
      } else {
        if i + 1 == |lines| {
          return None;
        }
        assert lines[i..][2..] == lines[i + 2..];
        i := i + 1;
      }
      i := i + 1;
    }
    return None;
  }

  /** `sorted(list(marked))`: the marked positions in increasing order. */
  function SortedPositions(marked: set<int>, n: nat): (r: seq<int>)
    requires forall i :: i in marked ==> 0 <= i < n
    ensures forall i, j :: 0 <= i < j < |r| ==> r[i] < r[j]
    ensures forall i :: i in r <==> i in marked
    ensures |r| == |marked|
  {
    if n == 0 then
      assert forall i :: i !in marked;
      assert marked == {};
      []
    else if n - 1 in marked then
      var front := SortedPositions(marked - {n - 1}, n - 1);
      assert forall k :: 0 <= k < |front| ==> front[k] in front;
      front + [n - 1]
    else
      SortedPositions(marked, n - 1)
  }

  // ---------------------------------------------------------------------
  // Replacing discarded cards (lines 66-81 and 90-104)
  // ---------------------------------------------------------------------

  /** The positions below n that are not among the indices, in increasing order. */
  function Unlisted(n: nat, indices: seq<int>): (p: seq<int>)
    ensures forall j :: 0 <= j < |p| ==> 0 <= p[j] < n
    ensures forall i, j :: 0 <= i < j < |p| ==> p[i] < p[j]
    decreases n
  {
    if n == 0 then []
    else
      var front := Unlisted(n - 1, indices);
      if n - 1 in indices then front else front + [n - 1]
  }

  /** The unlisted positions are exactly the positions below n missing from the indices. */
  lemma {:induction false} UnlistedMembers(n: nat, indices: seq<int>)
    ensures forall i :: i in Unlisted(n, indices) <==> 0 <= i < n && i !in indices
    decreases n
  {
    if n > 0 {
      UnlistedMembers(n - 1, indices);
    }
  }

  /**
   * The cards whose positions are not among the indices, in hand order: the
   * j-th kept card is the card at the j-th unlisted position.
   */
  function Kept(hand: seq<Card>, indices: seq<int>): (k: seq<Card>)
    ensures |k| == |Unlisted(|hand|, indices)|
    ensures forall j :: 0 <= j < |k| ==> k[j] == hand[Unlisted(|hand|, indices)[j]]
    ensures |k| <= |hand|
    ensures forall c :: c in k ==> c in hand
    decreases |hand|
  {
    if hand == [] then []
    else
      var n := |hand| - 1;
      var front := Kept(hand[..n], indices);
      var p := Unlisted(n, indices);
      assert forall j :: 0 <= j < |front| ==> front[j] == hand[p[j]] by {
        forall j | 0 <= j < |front| ensures front[j] == hand[p[j]] {
          assert hand[..n][p[j]] == hand[p[j]];
        }
      }
      assert forall c :: c in front ==> c in hand by {
        forall c | c in front ensures c in hand {
          assert hand[..n] <= hand;
        }
      }
      front + (if n in indices then [] else [hand[n]])
  }

  /** The cards at the listed positions, in hand order: those thrown away. */
  function Discarded(hand: seq<Card>, indices: seq<int>): (d: seq<Card>)
    ensures multiset(d) + multiset(Kept(hand, indices)) == multiset(hand)
    decreases |hand|
  {
    if hand == [] then []
    else
      var n := |hand| - 1;
      assert hand == hand[..n] + [hand[n]];
      Discarded(hand[..n], indices) + (if n in indices then [hand[n]] else [])
  }

  /** The listed positions that name a card of the hand. */
  function Hits(indices: seq<int>, size: int): set<int> {
    set i | i in indices && 0 <= i < size
  }

  /** Each card is kept unless its position is listed. */
  lemma KeptCount(hand: seq<Card>, indices: seq<int>)
    ensures |Kept(hand, indices)| + |Hits(indices, |hand|)| == |hand|
  {
    UnlistedCount(|hand|, indices);
  }

  /** Below n, a position is either unlisted or hit. */
  lemma {:induction false} UnlistedCount(n: nat, indices: seq<int>)
    ensures |Unlisted(n, indices)| + |Hits(indices, n)| == n
    decreases n
  {
    if n > 0 {
      UnlistedCount(n - 1, indices);
      assert |Unlisted(n, indices)| == |Unlisted(n - 1, indices)| + if n - 1 in indices then 0 else 1;
      if n - 1 in indices {
        assert Hits(indices, n) == Hits(indices, n - 1) + {n - 1};
      } else {
        assert Hits(indices, n) == Hits(indices, n - 1);
      }
    } else {
      assert Hits(indices, 0) == {};
    }
  }

  /** A list without repeats has as many members as entries. */
  lemma {:induction false} DistinctMembers(indices: seq<int>)
    requires forall k, m :: 0 <= k < m < |indices| ==> indices[k] != indices[m]
    ensures |set i | i in indices| == |indices|
    decreases |indices|
  {
    if indices != [] {
      var front := indices[..|indices| - 1];
      var last := indices[|indices| - 1];
      DistinctMembers(front);
      assert (set i | i in indices) == (set i | i in front) + {last};
      assert last !in front;
    } else {
      assert (set i | i in indices) == {};
    }
  }

  /** Distinct valid positions: exactly that many cards leave the hand. */
  lemma KeptSize(hand: seq<Card>, indices: seq<int>)
    requires forall k :: 0 <= k < |indices| ==> 0 <= indices[k] < |hand|
    requires forall k, m :: 0 <= k < m < |indices| ==> indices[k] != indices[m]
    ensures |Kept(hand, indices)| + |indices| == |hand|
  {
    KeptCount(hand, indices);
    DistinctMembers(indices);
    assert Hits(indices, |hand|) == set i | i in indices;
  }

  /** A hand and a deck on the table. */
  datatype Table = Table(hand: seq<Card>, deck: seq<Card>)

  /**
   * The replacement step: with no positions nothing happens; otherwise the
   * hand is rebuilt from the kept cards and as many cards as positions are
   * dealt onto it, or none when the deck is too short (the error is caught).
   */
  function Exchange(hand: seq<Card>, deck: seq<Card>, indices: seq<int>): (t: Table)
    ensures indices == [] ==> t == Table(hand, deck)
    ensures forall c :: c in t.hand ==> c in hand || c in deck
    ensures forall c :: c in t.deck ==> c in deck
    ensures multiset(t.hand) + multiset(t.deck) + multiset(Discarded(hand, indices)) == multiset(hand) + multiset(deck)
    ensures indices != [] && DealFrom(deck, |indices|).Success? ==>
      t == Table(Kept(hand, indices) + DealFrom(deck, |indices|).value.hand, DealFrom(deck, |indices|).value.rest)
    ensures indices != [] && DealFrom(deck, |indices|).Failure? ==> t == Table(Kept(hand, indices), deck)
  {
    if indices == [] then
      assert Discarded(hand, []) == [] by { DiscardNone(hand); }
      Table(hand, deck)
    else
      var kept := Kept(hand, indices);
      match DealFrom(deck, |indices|)
      case Failure(_) => Table(kept, deck)
      case Success(d) =>
        Regroup(kept, Discarded(hand, indices), hand, d.hand, d.rest, deck);
        Table(kept + d.hand, d.rest)
  }

  /** The kept cards and the dealt ones account for the old hand, the old deck and the discards. */
  lemma Regroup(kept: seq<Card>, discarded: seq<Card>, hand: seq<Card>, dealt: seq<Card>, rest: seq<Card>, deck: seq<Card>)
    requires multiset(kept) + multiset(discarded) == multiset(hand)
    requires multiset(dealt) + multiset(rest) == multiset(deck)
    requires forall c :: c in kept ==> c in hand
    ensures multiset(kept + dealt) + multiset(rest) + multiset(discarded) == multiset(hand) + multiset(deck)
    ensures forall c :: c in kept + dealt ==> c in hand || c in deck
    ensures forall c :: c in rest ==> c in deck
  {
    forall c | c in dealt ensures c in deck {
      assert multiset(deck)[c] == multiset(dealt)[c] + multiset(rest)[c];
      assert multiset(deck)[c] > 0;
    }
    forall c | c in rest ensures c in deck {
      assert multiset(deck)[c] == multiset(dealt)[c] + multiset(rest)[c];
      assert multiset(deck)[c] > 0;
    }
    assert multiset(kept + dealt) == multiset(kept) + multiset(dealt);
  }

  lemma {:induction false} DiscardNone(hand: seq<Card>)
    ensures Discarded(hand, []) == []
    decreases |hand|
  {
    if hand != [] {
      DiscardNone(hand[..|hand| - 1]);
    }
  }

  /** With enough cards in the deck, the hand keeps its size and the deck shrinks by the discards. */
  lemma ExchangeSizes(hand: seq<Card>, deck: seq<Card>, indices: seq<int>)
    requires forall k :: 0 <= k < |indices| ==> 0 <= indices[k] < |hand|
    requires forall k, m :: 0 <= k < m < |indices| ==> indices[k] != indices[m]
    requires |indices| <= |deck|
    ensures |Exchange(hand, deck, indices).hand| == |hand|
    ensures |Exchange(hand, deck, indices).deck| == |deck| - |indices|
  {
    KeptSize(hand, indices);
  }

  /** With too few cards in the deck, the hand loses its discards and the deck is untouched. */
  lemma ExchangeShort(hand: seq<Card>, deck: seq<Card>, indices: seq<int>)
    requires forall k :: 0 <= k < |indices| ==> 0 <= indices[k] < |hand|
    requires forall k, m :: 0 <= k < m < |indices| ==> indices[k] != indices[m]
    requires |deck| < |indices|
    ensures Exchange(hand, deck, indices).hand == Kept(hand, indices)
    ensures |Exchange(hand, deck, indices).hand| == |hand| - |indices|
    ensures Exchange(hand, deck, indices).deck == deck
  {
    KeptSize(hand, indices);
  }

  /** The enumerate/append loop and the guarded deal, on the objects themselves. */
  method ReplaceCards(p: Player, deck: Deck, indices: seq<int>)
    modifies p, deck
    ensures Table(p.hand, deck.cards) == Exchange(old(p.hand), old(deck.cards), indices)
    ensures p.name == old(p.name)
  {
    if indices != [] {
      var copy := p.hand;
      p.hand := [];
      for i := 0 to |copy|
        invariant p.hand == Kept(copy[..i], indices)
        invariant deck.cards == old(deck.cards) && p.name == old(p.name)
      {
        assert copy[..i + 1][..i] == copy[..i];
        if i !in indices {
          p.hand := p.hand + [copy[i]];
        }
      }
      assert copy[..|copy|] == copy;
      var dealt := deck.Deal(|indices|);
      if dealt.Success? {
        p.AddCards(dealt.value);
      }
    }
  }

  // ---------------------------------------------------------------------
  // The verdict (lines 115-122)
  // ---------------------------------------------------------------------

  datatype Outcome = PlayerWins | ComputerWins | Tie

  /** compare_hands(player, computer) answers 1, 2 or 0. */
  function OutcomeOf(winner: int): (o: Outcome)
    ensures o == PlayerWins <==> winner == 1
    ensures o == ComputerWins <==> winner == 2
  {
    if winner == 1 then PlayerWins else if winner == 2 then ComputerWins else Tie
  }

  /** Swapping the seats swaps the winner and keeps a tie a tie. */
  lemma OutcomeSwap(h1: seq<Card>, h2: seq<Card>)
    requires CompareHands(h1, h2).Success?
    ensures CompareHands(h2, h1).Success?
    ensures OutcomeOf(CompareHands(h1, h2).value) == PlayerWins <==> OutcomeOf(CompareHands(h2, h1).value) == ComputerWins
    ensures OutcomeOf(CompareHands(h1, h2).value) == Tie <==> OutcomeOf(CompareHands(h2, h1).value) == Tie
  {
    HandFacts.CompareHandsSwap(h1, h2);
    HandFacts.CompareHandsSwap(h2, h1);
    var w := CompareHands(h1, h2).value;
    var v := CompareHands(h2, h1).value;
    assert 0 <= w <= 2 && 0 <= v <= 2;
  }

  // ---------------------------------------------------------------------
  // A whole round
  // ---------------------------------------------------------------------

  /** Why a round stops without a verdict. */
  datatype RoundError =
    | DeckExhausted            // the initial deal raises ValueError
    | InputEnded               // input() reaches the end of the stream
    | InvalidHand(EvalError)   // evaluate_hand raises ValueError or KeyError
    | UnknownSuit              // display_ascii raises KeyError on a card shown face up

  datatype RoundEnd = RoundEnd(outcome: Outcome, playerHand: seq<Card>, computerHand: seq<Card>, deck: seq<Card>)

  /** _play_round on values: the deck, both hands and the lines the player types. */
  function RoundOf(deck: seq<Card>, playerHand: seq<Card>, computerHand: seq<Card>, lines: seq<Command>): (r: Result<RoundEnd, RoundError>)
    ensures |deck| < 10 ==> r == Failure(DeckExhausted)
  {
    match DealFrom(deck, 5)
    case Failure(_) => Failure(DeckExhausted)
    case Success(d1) =>
      match DealFrom(d1.rest, 5)
      case Failure(_) => Failure(DeckExhausted)
      case Success(d2) => AfterDeal(playerHand + d1.hand, computerHand + d2.hand, d2.rest, lines)
  }

  /**
   * The rest of the round, once both hands are dealt. The player's hand is
   * shown face up before the first command (line 25) and after its
   * replacement (line 83), the computer's only at the end (line 113); the
   * other displays show a hand already shown or the computer's face down.
   */
  function AfterDeal(player: seq<Card>, computer: seq<Card>, deck: seq<Card>, lines: seq<Command>): (r: Result<RoundEnd, RoundError>)
    requires player != []
    ensures r != Failure(DeckExhausted)
    ensures !Displayable(player) ==> r == Failure(UnknownSuit)
    ensures Displayable(player) && Chosen(lines, |player|).None? ==> r == Failure(InputEnded)
    ensures r.Success? ==> Displayable(r.value.playerHand) && Displayable(r.value.computerHand)
  {
    if !Displayable(player) then Failure(UnknownSuit)
    else
      match Chosen(lines, |player|)
      case None => Failure(InputEnded)
      case Some(marked) =>
        var afterPlayer := Exchange(player, deck, SortedPositions(marked, |player|));
        if !Displayable(afterPlayer.hand) then Failure(UnknownSuit)
        else
          match DiscardPlan(computer)
          case Failure(e) => Failure(InvalidHand(e))
          case Success(plan) =>
            var afterComputer := Exchange(computer, afterPlayer.deck, plan);
            if !Displayable(afterComputer.hand) then Failure(UnknownSuit)
            else Verdict(afterPlayer.hand, afterComputer.hand, afterComputer.deck)
  }

  /** Lines 115-122: the final comparison, player first. */
  function Verdict(playerHand: seq<Card>, computerHand: seq<Card>, deck: seq<Card>): (r: Result<RoundEnd, RoundError>)
    ensures r.Success? <==> CompareHands(playerHand, computerHand).Success?
    ensures r.Failure? ==> r.error == InvalidHand(CompareHands(playerHand, computerHand).error)
  {
    match CompareHands(playerHand, computerHand)
    case Failure(e) => Failure(InvalidHand(e))
    case Success(w) => Success(RoundEnd(OutcomeOf(w), playerHand, computerHand, deck))
  }

  /** The verdict leaves the table as it found it. */
  lemma VerdictKeepsTable(playerHand: seq<Card>, computerHand: seq<Card>, deck: seq<Card>)
    requires Verdict(playerHand, computerHand, deck).Success?
    ensures Verdict(playerHand, computerHand, deck).value.playerHand == playerHand
    ensures Verdict(playerHand, computerHand, deck).value.computerHand == computerHand
    ensures Verdict(playerHand, computerHand, deck).value.deck == deck
  {
  }

  /** _play_round on the objects, with the typed lines as input. */
  method PlayRound(deck: Deck, player: Player, computer: Player, lines: seq<Command>) returns (r: Result<Outcome, RoundError>)
    requires player != computer
    modifies deck, player, computer
    ensures match RoundOf(old(deck.cards), old(player.hand), old(computer.hand), lines)
      case Failure(e) => r == Failure(e)
      case Success(e) =>
        && r == Success(e.outcome)
        && player.hand == e.playerHand && computer.hand == e.computerHand && deck.cards == e.deck
    ensures player.name == old(player.name) && computer.name == old(computer.name)
  {
    var first := deck.Deal(5);
    if first.Failure? {
      return Failure(DeckExhausted);
    }
    player.AddCards(first.value);
    var second := deck.Deal(5);
    if second.Failure? {
      return Failure(DeckExhausted);
    }
    computer.AddCards(second.value);
    assert RoundOf(old(deck.cards), old(player.hand), old(computer.hand), lines)
      == AfterDeal(player.hand, computer.hand, deck.cards, lines);
    if !Displayable(player.hand) {
      return Failure(UnknownSuit);
    }
    var marked := SelectDiscards(|player.hand|, lines);
    if marked.None? {
      return Failure(InputEnded);
    }
    var positions := SortedPositions(marked.value, |player.hand|);
    ReplaceCards(player, deck, positions);
    if !Displayable(player.hand) {
      return Failure(UnknownSuit);
    }
    var plan := computer.DecideCardsToDiscard();
    if plan.Failure? {
      return Failure(InvalidHand(plan.error));
    }
    ReplaceCards(computer, deck, plan.value);
    if !Displayable(computer.hand) {
      return Failure(UnknownSuit);
    }
    var winner := CompareHands(player.hand, computer.hand);
    if winner.Failure? {
      return Failure(InvalidHand(winner.error));
    }
    r := Success(OutcomeOf(winner.value));
  }

  // ---------------------------------------------------------------------
  // Properties of a round
  // ---------------------------------------------------------------------

  /** Dealt cards come from the deck. */
  lemma DealtFromDeck(cards: seq<Card>, n: int)
    requires DealFrom(cards, n).Success?
    ensures forall c :: c in DealFrom(cards, n).value.hand ==> c in cards
    ensures forall c :: c in DealFrom(cards, n).value.rest ==> c in cards
  {
    var d := DealFrom(cards, n).value;
    forall c | c in d.hand ensures c in cards {
      assert multiset(d.hand)[c] > 0;
    }
  }

  /** The positions chosen on a hand of n cards are distinct valid positions, at most n of them. */
  lemma PositionsFit(marked: set<int>, hand: seq<Card>)
    requires forall i :: i in marked ==> 0 <= i < |hand|
    ensures var p := SortedPositions(marked, |hand|);
      && (forall k :: 0 <= k < |p| ==> 0 <= p[k] < |hand|)
      && (forall k, m :: 0 <= k < m < |p| ==> p[k] != p[m])
      && |p| <= |hand|
  {
    var p := SortedPositions(marked, |hand|);
    assert forall k :: 0 <= k < |p| ==> p[k] in p;
    KeptSize(hand, p);
  }

  /** Dealing five to each side from a freshly built deck, in any arrangement, leaves 42 cards. */
  lemma FreshInitialDeal(arrangement: seq<Card>)
    requires multiset(arrangement) == multiset(FullDeck())
    ensures DealFrom(arrangement, 5).Success?
    ensures DealFrom(DealFrom(arrangement, 5).value.rest, 5).Success?
    ensures |DealFrom(DealFrom(arrangement, 5).value.rest, 5).value.rest| == 42
  {
    assert |arrangement| == |multiset(arrangement)| == |FullDeck()|;
  }

  /**
   * Once both hands hold five cards of known ranks and suits and the deck
   * holds at least eight more, a confirmed selection always leads to a verdict, and both final
   * hands hold five cards drawn from the table.
   */
  lemma AfterDealCompletes(player: seq<Card>, computer: seq<Card>, deck: seq<Card>, lines: seq<Command>)
    requires |player| == 5 && |computer| == 5 && |deck| >= 8
    requires KnownRanks(player) && KnownRanks(computer) && KnownRanks(deck)
    requires Displayable(player) && Displayable(computer) && Displayable(deck)
    requires Chosen(lines, 5).Some?
    ensures AfterDeal(player, computer, deck, lines).Success?
    ensures var e := AfterDeal(player, computer, deck, lines).value;
      && |e.playerHand| == 5 && |e.computerHand| == 5
      && (forall c :: c in e.playerHand ==> c in player || c in deck)
      && (forall c :: c in e.computerHand ==> c in computer || c in deck)
      && (forall c :: c in e.deck ==> c in deck)
  {
    var marked := Chosen(lines, 5).value;
    var positions := SortedPositions(marked, 5);
    PositionsFit(marked, player);
    ExchangeSizes(player, deck, positions);
    var afterPlayer := Exchange(player, deck, positions);
    PlanOfEmptyOrInvalid(computer);
    var plan := DiscardPlan(computer).value;
    PlanBounds(computer);
    ExchangeSizes(computer, afterPlayer.deck, plan);
    var afterComputer := Exchange(computer, afterPlayer.deck, plan);
    assert KnownRanks(afterPlayer.hand) && Displayable(afterPlayer.hand);
    assert KnownRanks(afterComputer.hand) && Displayable(afterComputer.hand);
  }

  /**
   * A round that starts with empty hands and a deck of at least eighteen
   * cards of known ranks and suits (ten dealt, at most five and three replaced) reaches a
   * verdict whenever the player confirms; both final hands hold five cards.
   */
  lemma RoundCompletes(deck: seq<Card>, lines: seq<Command>)
    requires |deck| >= 18 && KnownRanks(deck) && Displayable(deck)
    requires Chosen(lines, 5).Some?
    ensures RoundOf(deck, [], [], lines).Success?
    ensures |RoundOf(deck, [], [], lines).value.playerHand| == 5
    ensures |RoundOf(deck, [], [], lines).value.computerHand| == 5
  {
    KnownDealt(deck, 5);
    var d1 := DealFrom(deck, 5).value;
    KnownDealt(d1.rest, 5);
    var d2 := DealFrom(d1.rest, 5).value;
    RoundAfterDeal(deck, lines);
    AfterDealCompletes(d1.hand, d2.hand, d2.rest, lines);
  }

  /** With ten cards or more, a round from empty hands goes on to the discard phase. */
  lemma RoundAfterDeal(deck: seq<Card>, lines: seq<Command>)
    requires |deck| >= 10
    ensures DealFrom(deck, 5).Success? && DealFrom(DealFrom(deck, 5).value.rest, 5).Success?
    ensures var d1 := DealFrom(deck, 5).value;
      var d2 := DealFrom(d1.rest, 5).value;
      RoundOf(deck, [], [], lines) == AfterDeal(d1.hand, d2.hand, d2.rest, lines)
  {
    var d1 := DealFrom(deck, 5).value;
    var d2 := DealFrom(d1.rest, 5).value;
    assert [] + d1.hand == d1.hand && [] + d2.hand == d2.hand;
  }

  /** Dealing from cards of known ranks and suits gives such cards, and leaves such cards behind. */
  lemma KnownDealt(cards: seq<Card>, n: nat)
    requires |cards| >= n && KnownRanks(cards) && Displayable(cards)
    ensures DealFrom(cards, n).Success?
    ensures |DealFrom(cards, n).value.hand| == n && |DealFrom(cards, n).value.rest| == |cards| - n
    ensures KnownRanks(DealFrom(cards, n).value.hand) && KnownRanks(DealFrom(cards, n).value.rest)
    ensures Displayable(DealFrom(cards, n).value.hand) && Displayable(DealFrom(cards, n).value.rest)
  {
    DealtFromDeck(cards, n);
  }

  /** From a freshly built deck in any arrangement, the round reaches a verdict whenever the player confirms. */
  lemma FreshDeckCompletes(arrangement: seq<Card>, lines: seq<Command>)
    requires multiset(arrangement) == multiset(FullDeck())
    requires Chosen(lines, 5).Some?
    ensures RoundOf(arrangement, [], [], lines).Success?
  {
    FullDeckProperties();
    assert |arrangement| == |multiset(arrangement)| == |FullDeck()|;
    forall c | c in arrangement ensures c.rank in RankValues && c.suit in SuitSymbols {
      assert multiset(arrangement)[c] > 0;
      assert c in FullDeck();
    }
    RoundCompletes(arrangement, lines);
  }

  /** No card is created or copied: what ends on the table was on it at the start, less the discards. */
  lemma AfterDealConserves(player: seq<Card>, computer: seq<Card>, deck: seq<Card>, lines: seq<Command>)
    requires player != [] && AfterDeal(player, computer, deck, lines).Success?
    ensures var e := AfterDeal(player, computer, deck, lines).value;
      multiset(e.playerHand) + multiset(e.computerHand) + multiset(e.deck)
        <= multiset(player) + multiset(computer) + multiset(deck)
  {
    var e := AfterDeal(player, computer, deck, lines).value;
    var marked := Chosen(lines, |player|).value;
    var afterPlayer := Exchange(player, deck, SortedPositions(marked, |player|));
    var plan := DiscardPlan(computer).value;
    var afterComputer := Exchange(computer, afterPlayer.deck, plan);
    VerdictKeepsTable(afterPlayer.hand, afterComputer.hand, afterComputer.deck);
    assert e.playerHand == afterPlayer.hand && e.computerHand == afterComputer.hand && e.deck == afterComputer.deck;
    ChainBound(multiset(player), multiset(computer), multiset(deck),
      multiset(afterPlayer.hand), multiset(afterComputer.hand), multiset(afterPlayer.deck), multiset(afterComputer.deck),
      multiset(Discarded(player, SortedPositions(marked, |player|))), multiset(Discarded(computer, plan)));
  }

  /** Two exchanges in a row, as multiset arithmetic. */
  lemma ChainBound<T>(p: multiset<T>, c: multiset<T>, d: multiset<T>,
                      p1: multiset<T>, c1: multiset<T>, d1: multiset<T>, d2: multiset<T>,
                      x: multiset<T>, y: multiset<T>)
    requires p1 + d1 + x == p + d
    requires c1 + d2 + y == c + d1
    ensures p1 + c1 + d2 <= p + c + d
  {
    calc {
      p1 + c1 + d2 + x + y;
      (p1 + x) + (c1 + d2 + y);
      (p1 + x) + (c + d1);
      (p1 + d1 + x) + c;
      p + c + d;
    }
  }

  lemma RoundConserves(deck: seq<Card>, playerHand: seq<Card>, computerHand: seq<Card>, lines: seq<Command>)
    requires RoundOf(deck, playerHand, computerHand, lines).Success?
    ensures var e := RoundOf(deck, playerHand, computerHand, lines).value;
      multiset(e.playerHand) + multiset(e.computerHand) + multiset(e.deck)
        <= multiset(playerHand) + multiset(computerHand) + multiset(deck)
  {
    var d1 := DealFrom(deck, 5).value;
    var d2 := DealFrom(d1.rest, 5).value;
    AfterDealConserves(playerHand + d1.hand, computerHand + d2.hand, d2.rest, lines);
  }

  /**
   * The verdict means what the game says: a tie exactly when both hands have
   * the same category and tie-break values, and a win for the player exactly
   * when the player's category is higher, or equal with a larger tie-break tuple.
   */
  lemma VerdictMeaning(playerHand: seq<Card>, computerHand: seq<Card>, deck: seq<Card>)
    requires Verdict(playerHand, computerHand, deck).Success?
    ensures Evaluate(playerHand).Success? && Evaluate(computerHand).Success?
    ensures var o := Verdict(playerHand, computerHand, deck).value.outcome;
      && var p := Evaluate(playerHand).value;
      && var c := Evaluate(computerHand).value;
      && (o == Tie <==> p == c)
      && (o == PlayerWins <==>
            p.category.Rank() > c.category.Rank() || (p.category == c.category && TupleLess(c.tieBreak, p.tieBreak)))
  {
    var p := Evaluate(playerHand).value;
    var c := Evaluate(computerHand).value;
    HandFacts.CompareTieIff(p, c);
    HandFacts.CompareByCategoryThenTuple(p, c);
    HandFacts.CategoryRanksDistinct(p.category, c.category);
  }

  /** A whole round ends in the verdict on the two final hands. */
  lemma RoundVerdict(deck: seq<Card>, playerHand: seq<Card>, computerHand: seq<Card>, lines: seq<Command>)
    requires RoundOf(deck, playerHand, computerHand, lines).Success?
    ensures var e := RoundOf(deck, playerHand, computerHand, lines).value;
      Verdict(e.playerHand, e.computerHand, e.deck) == Success(e)
  {
    var d1 := DealFrom(deck, 5).value;
    var d2 := DealFrom(d1.rest, 5).value;
    var player := playerHand + d1.hand;
    var computer := computerHand + d2.hand;
    var marked := Chosen(lines, |player|).value;
    var afterPlayer := Exchange(player, d2.rest, SortedPositions(marked, |player|));
    var plan := DiscardPlan(computer).value;
    var afterComputer := Exchange(computer, afterPlayer.deck, plan);
    VerdictKeepsTable(afterPlayer.hand, afterComputer.hand, afterComputer.deck);
  }

  /** A list without repeats holds each value at most once. */
  lemma {:induction false} DistinctOnce<T>(s: seq<T>)
    requires forall i, j :: 0 <= i < j < |s| ==> s[i] != s[j]
    ensures forall x :: multiset(s)[x] <= 1
    decreases |s|
  {
    if s != [] {
      var front := s[..|s| - 1];
      DistinctOnce(front);
      assert s == front + [s[|s| - 1]];
      assert s[|s| - 1] !in front;
    }
  }

  /** Cards taken from a list without repeats are never shared or doubled. */
  lemma DrawnOnce(p: seq<Card>, c: seq<Card>, d: seq<Card>, source: seq<Card>)
    requires forall i, j :: 0 <= i < j < |source| ==> source[i] != source[j]
    requires multiset(p) + multiset(c) + multiset(d) <= multiset(source)
    ensures forall x :: x in p ==> x !in c
    ensures forall x :: multiset(p)[x] <= 1 && multiset(c)[x] <= 1
  {
    DistinctOnce(source);
    forall x ensures multiset(p)[x] + multiset(c)[x] <= 1 {
      assert (multiset(p) + multiset(c) + multiset(d))[x] <= multiset(source)[x];
    }
    forall x | x in p ensures x !in c {
      assert multiset(p)[x] >= 1;
      assert multiset(c)[x] == 0;
    }
  }

  /** From a freshly built deck no card is ever in both final hands, nor twice in one. */
  lemma FreshDeckNoDuplicates(arrangement: seq<Card>, lines: seq<Command>)
    requires multiset(arrangement) == multiset(FullDeck())
    requires RoundOf(arrangement, [], [], lines).Success?
    ensures var e := RoundOf(arrangement, [], [], lines).value;
      && (forall c :: c in e.playerHand ==> c !in e.computerHand)
      && (forall c :: multiset(e.playerHand)[c] <= 1 && multiset(e.computerHand)[c] <= 1)
  {
    var e := RoundOf(arrangement, [], [], lines).value;
    RoundConserves(arrangement, [], [], lines);
    assert multiset(e.playerHand) + multiset(e.computerHand) + multiset(e.deck) <= multiset(FullDeck());
    FullDeckProperties();
    DrawnOnce(e.playerHand, e.computerHand, e.deck, FullDeck());
  }
}
