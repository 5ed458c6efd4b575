# Five-card draw poker: a verified model

This project is a Dafny model of the core of a console five-card-draw poker game
(`dsmastrodomenico/poker-game-py`). The model covers five parts.

- **Hand evaluator** (`hand_evaluator.py`):
  - the rank tables `RANK_VALUES`/`VALUE_RANKS` and the category order `HAND_RANKS`;
  - `check_straight`, with the A-5-4-3-2 "wheel";
  - `evaluate_hand`, which puts a five-card hand in one of ten categories with a tie-break tuple built from rank counts sorted by (count, rank) descending;
  - `format_tie_breaker_for_display`;
  - `compare_hands`.
- **Player** (`player.py`): a class with a hand that is extended in place, and the computer's fixed discard rule.
- **Deck** (`deck.py`): a class over a list of cards. The list is built by nested loops, and `deal` shrinks it by pops from the end after an all-or-nothing size check.
- **A round** (`main.py`, `_play_round`):
  - the initial deal;
  - the cursor/toggle loop through which the player marks discards;
  - the keep-then-append replacement of discarded cards for both sides;
  - the mapping of the comparison result to the round outcome.
- **Card** (`card.py`): a plain datatype of suit and rank, with the table of suit symbols that `display_ascii` looks up.

Modules follow the program's files: `Cards`, `HandEvaluator` (with `Sorting` for
Python's `sorted`), `Players`, `Decks` and `Round`. The facts the game depends on are
proved in `HandFacts`:
- the category of each hand shape;
- order independence;
- the comparison being a strict total order with ties exactly on equal evaluations.

Python exceptions are modelled as `Failure` values of a `Result`:
- an unknown rank label (a `KeyError` in the source) is `UnknownRank`;
- a hand of the wrong size is `InvalidHandSize`;
- a short deck is `NotEnoughCards`;
- a card shown face up whose suit has no symbol (a `KeyError` in `display_ascii`) stops the round with `UnknownSuit`.

The random shuffle is the arrangement passed to `Deck.Shuffle`. Typed input is a
sequence of `Command`s, and input running out is `InputEnded`.

## Model

| member | source | states |
|---|---|---|
| `HandFacts.RankTablesInverse` | hand_evaluator.py:9-18 | each of the thirteen rank labels maps to a value in 2..14 that `VALUE_RANKS` maps back to the same label, each value 2..14 reads back the other way, and 1 shows as "A" like 14 |
| `HandFacts.CategoryRanksDistinct` | hand_evaluator.py:22-33 | the ten categories have distinct ranks 0..9 and distinct names |
| `Sorting.SortDesc` | hand_evaluator.py:74 | `sorted(ranks, reverse=True)`: the result is in non-increasing order and is a permutation of the input |
| `HandFacts.StraightIff` | hand_evaluator.py:37-54 | for sorted five values, `check_straight` holds exactly for five consecutive values or the wheel 14,5,4,3,2 |
| `HandEvaluator.CheckStraight` | hand_evaluator.py:37-54 | a hand without an ace is a straight only when every value steps down by one from the previous (the wheel test needs the ace) |
| `HandEvaluator.RankCounts` | hand_evaluator.py:70-78 | the (count, rank) list holds each distinct value once with its multiplicity, in strictly descending (count, rank) order, and the counts sum to the hand size |
| `HandFacts.CountsAre` | hand_evaluator.py:70-78 | any strictly descending (count, rank) list holding exactly the Counter items of the ranks is the `counts` list, so the list is fixed by the multiset of values alone |
| `HandEvaluator.Evaluate` | hand_evaluator.py:58-141 | a hand of other than five cards fails with `InvalidHandSize`, an unknown rank label fails, and every other hand is classified |
| `HandEvaluator.ClassifyCounts` | hand_evaluator.py:86-141 | the chain gives Color, Escalera de Color and Escalera Real only to a suited hand, the three straight categories only when `check_straight` holds and Escalera only unsuited; each category has its tie-break width (1 for the straights, 2 for Póker and Full House, 3 for Trío and Dos Pares, 4 for Par) and Color and Carta Alta break ties on all five sorted values |
| `HandEvaluator.Classify` | hand_evaluator.py:67-141 | on the sorted values and Counter groups of five values, the suited categories need a suited hand, the straight categories need `check_straight` of the sorted values, Color and Carta Alta carry the sorted values, and every tie-break has one to five values |
| `HandFacts.WheelHand` | hand_evaluator.py:85-96 | the wheel is a straight (or a straight flush when suited) whose tie-break is (5,): the ace counts low |
| `HandFacts.RunHand` | hand_evaluator.py:92-116 | five consecutive values with top h: a straight (h,) when unsuited, a royal flush (14,) when suited with top 14, otherwise a straight flush (h,) |
| `HandFacts.RoyalIff` | hand_evaluator.py:93-96 | the category is Escalera Real exactly when the hand is suited and its sorted values are 14,13,12,11,10, and then the tie-break is (14,) |
| `HandFacts.QuadHand` | hand_evaluator.py:98-102 | four of q and a kicker k give Póker (q, k), whatever the suits |
| `HandFacts.FullHouseHand` | hand_evaluator.py:104-108 | three of t and two of p give Full House (t, p), whatever the suits |
| `HandFacts.TripsHand` | hand_evaluator.py:110-123 | three of t with kickers a > b: Color over all sorted values when suited, otherwise Trío (t, a, b) |
| `HandFacts.TwoPairHand` | hand_evaluator.py:110-131 | pairs p > q with kicker k: Color when suited, otherwise Dos Pares (p, q, k) |
| `HandFacts.PairHand` | hand_evaluator.py:110-138 | a pair of p with kickers a > b > c: Color when suited, otherwise Par (p, a, b, c) |
| `HandFacts.NoComboHand` | hand_evaluator.py:110-141 | five distinct values that are neither a run nor the wheel: Color or Carta Alta with all five values descending as tie-break |
| `HandFacts.FiveOfAKindHand` | hand_evaluator.py:98-141 | five equal values (only with repeated cards) match no count test and give Color or Carta Alta with tie-break (v, v, v, v, v) |
| `HandFacts.EvaluatePermute` | hand_evaluator.py:58-78 | hands with the same multiset of cards get the same evaluation, or the same error |
| `HandFacts.TieBreakDisplayable` | hand_evaluator.py:144-155 | every tie-break value of an evaluated hand is in 2..14 and displays as a rank label that `RANK_VALUES` reads back to that value |
| `HandEvaluator.FormatTieBreaker` | hand_evaluator.py:144-155 | the loop maps each tie-break value, in order, through `VALUE_RANKS`, falling back to the decimal text |
| `HandEvaluator.CompareHands` | hand_evaluator.py:159-168 | the comparison succeeds exactly when both hands evaluate, propagates the first hand's error first, then the second hand's, and otherwise compares the two evaluations |
| `HandEvaluator.TupleLess` | hand_evaluator.py:190-193 | Python's `<` on tuples: a smaller tuple never has a larger first value, and the empty tuple is not below itself |
| `HandEvaluator.CompareEvaluations` | hand_evaluator.py:176-195 | the result is 0, 1 or 2; 1 only when the first category is at least as strong, 2 only when the second is, 0 only on equal category strength |
| `HandFacts.CompareByCategoryThenTuple` | hand_evaluator.py:179-193 | a higher category wins outright; with equal categories the first hand wins exactly when its tie-break tuple is lexicographically larger |
| `HandFacts.CompareTieIff` | hand_evaluator.py:184-195 | the answer is 0 exactly when both evaluations are equal |
| `HandFacts.CompareSwap` | hand_evaluator.py:179-195 | swapping the arguments turns 1 into 2 and keeps 0 |
| `HandFacts.CompareTransitive` | hand_evaluator.py:179-195 | "wins against" is transitive |
| `HandFacts.TupleLessTotal` | hand_evaluator.py:187-193 | Python's tuple `<` is total on integer tuples: of two tuples one is smaller or they are equal |
| `HandFacts.CompareHandsReflexive` | hand_evaluator.py:159-195 | a valid hand ties with itself and with every rearrangement of itself |
| `HandFacts.CompareHandsSwap` | hand_evaluator.py:159-195 | `compare_hands(a, b) == 1` exactly when `compare_hands(b, a) == 2`, and likewise for ties |
| `Players.Player.constructor` | player.py:8-10 | a new player has the given name, "Jugador" when none is passed, and an empty hand |
| `Players.Player.AddCards` | player.py:12-14 | the new hand is the old hand followed by the given cards |
| `Players.Player.DecideCardsToDiscard` | player.py:66-120 | the returned positions are exactly the discard plan of the current hand, and the hand is not modified |
| `Players.DiscardPlan` | player.py:72-120 | an empty hand discards nothing, the plan fails exactly when the hand does not evaluate, and every position discarded lies in the hand |
| `Players.PlanFor` | player.py:83-118 | the branches after the evaluation name only positions of the hand, and Carta Alta discards exactly three |
| `Players.LowestThree` | player.py:113-118 | the three lowest entries of the ascending (value, position) list are three positions of the hand |
| `Players.DiscardsFor` | player.py:83-118 | the category dispatch and the loop over the three lowest slots compute the plan for the evaluation |
| `Players.CollectOutside` | player.py:90-92 | the enumerate/append loop yields the positions whose value is outside the kept values |
| `Players.Outside` | player.py:87-111 | the positions are strictly increasing and are exactly those whose value is not kept |
| `Players.SortedSlots` | player.py:114 | the (value, index) pairs sorted ascending: ordered by value then index, the same pairs |
| `Players.PlanOfEmptyOrInvalid` | player.py:72-75 | an empty hand gives an empty plan, and the plan fails exactly when a non-empty hand cannot be evaluated |
| `Players.PlanKeepsMadeHands` | player.py:83-85 | Escalera Real, Escalera de Color, Póker, Full House, Escalera and Color discard nothing |
| `Players.PlanForOneKept` | player.py:87-111 | for Trío and Par, a position is discarded exactly when its value differs from the tie-break's first value, and the discards plus that value's multiplicity make five |
| `Players.PlanForTwoKept` | player.py:95-103 | for Dos Pares, a position is discarded exactly when its value is neither pair value |
| `Players.PlanForTrips` | player.py:87-93 | Trío discards two positions |
| `Players.PlanForTwoPair` | player.py:95-103 | Dos Pares discards one position |
| `Players.PlanForPair` | player.py:105-111 | Par discards three positions |
| `Players.PlanForHighCard` | player.py:113-118 | Carta Alta discards the indices of the first three (value, index) pairs in ascending order |
| `Players.LowestThreeLowest` | player.py:113-118 | the three positions are valid, listed in ascending (value, position) order, and every other position comes after the third in that order |
| `Players.PlanBounds` | player.py:66-120 | every plan has at most three distinct positions, each inside the hand |
| `Decks.FullDeck` | deck.py:12-18 | 52 cards, the card at position i having suit i/13 and rank i%13 (suits outer, ranks inner) |
| `Decks.FullDeckProperties` | deck.py:12-18 | the 52 cards are distinct, all ranks are known, every suit has a display symbol, and every suit and rank pair is present |
| `Decks.FullDeckSuits` | deck.py:12-18 | every card the deck is built with has a suit that `display_ascii` can draw |
| `Decks.Deck.constructor` | deck.py:8-10 | a new deck holds exactly the built 52 cards |
| `Decks.Deck.Build` | deck.py:12-18 | the nested loops append exactly the full deck to the list |
| `Decks.Deck.Shuffle` | deck.py:20-23 | the deck becomes the given rearrangement of its own cards |
| `Decks.DealFrom` | deck.py:25-34 | dealing fails exactly when fewer than n cards remain; otherwise the hand is the last n cards in reverse order, the rest is the first len - n, and hand plus rest is the old deck as a multiset |
| `Decks.Deck.Deal` | deck.py:25-34 | the pop loop returns the dealt hand and leaves the rest, and on failure leaves the deck unchanged |
| `Decks.Deck.Len` | deck.py:36-38 | the length is the number of cards held |
| `Round.PrevCard` | main.py:49-50 | the cursor after "a" stays on the hand, and from a card in range it moves one to the left, wrapping from the first card to the last |
| `Round.NextCard` | main.py:51-52 | the cursor after "d" stays on the hand, and from a card in range it moves one to the right, wrapping from the last card to the first |
| `Round.Step` | main.py:49-57 | left and right move the cursor by one with wrap-around and keep it on the hand, and "x" flips the marking of exactly the cursor's position |
| `Round.RightThenLeft` | main.py:49-52 | right then left, or left then right, restores the selection |
| `Round.ToggleTwice` | main.py:53-57 | toggling twice restores the marked set |
| `Round.Session` | main.py:39-62 | the selection in force at the first Enter, in range when the start is; an unrecognised line also consumes the following line |
| `Round.Chosen` | main.py:36-62 | starting at card 0 with nothing marked, the final marked set holds only positions of the hand |
| `Round.SessionIgnoresRest` | main.py:58-59 | lines after the confirming Enter are never read |
| `Round.MovesThenConfirm` | main.py:39-59 | any sequence of moves and toggles followed by Enter confirms exactly the selection those commands build, marks included |
| `Round.SelectDiscards` | main.py:36-62 | the while loop over the input lines computes the session's marked set, or nothing when input ends |
| `Round.SortedPositions` | main.py:64 | `sorted(list(marked))`: strictly increasing, the same members, and as many as marked |
| `Round.KeptSize` | main.py:66-73 | with distinct positions inside the hand, the kept cards plus the positions make the old hand size |
| `Round.Unlisted` | main.py:71-72 | the positions of a hand not in the discard list, strictly increasing and inside the hand |
| `Round.UnlistedMembers` | main.py:71-72 | a position is unlisted exactly when it lies in the hand and is not in the discard list |
| `Round.Kept` | main.py:71-73 | the rebuilt hand has one card per unlisted position, and its j-th card is the card at the j-th unlisted position, so the kept cards stay in hand order |
| `Round.Exchange` | main.py:64-104 | no positions leave hand and deck alone; otherwise the new hand is the kept cards followed by `deal(len(indices))` and the deck is what the deal leaves, or, when the deal fails, the hand is the kept cards alone and the deck is untouched; the kept, dealt, remaining and discarded cards account for every prior card exactly |
| `Round.ExchangeSizes` | main.py:64-77 | with enough cards in the deck the hand keeps its size and the deck loses one card per position |
| `Round.ExchangeShort` | main.py:75-79 | a failed replacement deal is caught: the hand keeps only the kept cards and the deck is untouched |
| `Round.ReplaceCards` | main.py:64-104 | the rebuild loop and the guarded deal change the player's hand and the deck as the replacement step says, for the player and likewise for the computer |
| `Round.OutcomeOf` | main.py:115-122 | 1 is a player win, 2 a computer win, anything else a tie |
| `Round.OutcomeSwap` | main.py:115-122 | seating the hands the other way round swaps the winner and keeps a tie |
| `Round.VerdictMeaning` | main.py:115-122 | a tie exactly when both final evaluations are equal; a player win exactly when the player's category is higher, or equal with a larger tie-break tuple |
| `Round.RoundOf` | main.py:19-122 | a deck of fewer than ten cards cannot deal both initial hands, and the round stops with `DeckExhausted` |
| `Round.AfterDeal` | main.py:24-122 | once both hands are dealt the round never reports an empty deck (a short replacement deal is caught); a player's card with an unknown suit stops it with `UnknownSuit` before any input is read, input that ends before Enter stops it with `InputEnded`, and a verdict is reached only on final hands whose every card can be shown face up |
| `Round.Verdict` | main.py:115-122 | the verdict exists exactly when `compare_hands` succeeds on the final hands, and otherwise the error is the evaluation's |
| `Round.PlayRound` | main.py:12-122 | on the objects, the round returns the outcome of the round on values and leaves both hands and the deck as it says |
| `Round.FreshInitialDeal` | main.py:21-22 | dealing five to each side from a fresh 52-card deck leaves 42 cards |
| `Round.AfterDealCompletes` | main.py:24-122 | with five cards of known ranks and suits in each hand and eight or more such cards left, a confirmed selection always reaches a verdict with five cards in each final hand |
| `Round.RoundCompletes` | main.py:19-122 | from empty hands and a deck of at least eighteen cards of known ranks and suits, a confirmed selection always reaches a verdict with two five-card hands |
| `Round.FreshDeckCompletes` | main.py:130-136 | a round on a shuffled fresh deck raises nothing unless the input ends |
| `Round.RoundConserves` | main.py:64-104 | the final hands and deck hold no card that was not on the table at the start, and no card more often |
| `Round.RoundVerdict` | main.py:107-115 | the round's outcome is the verdict on its two final hands |
| `Round.FreshDeckNoDuplicates` | main.py:130-136 | from a fresh deck, no card is in both final hands or twice in one |

## Left out

- Rendering is not modelled. This covers `Card.display_ascii`, `Card.__str__`, `Player.display_hand`, `Deck.__str__`, `clear_console` and every `print` (including those inside `compare_hands` and `decide_cards_to_discard`). The one way rendering changes the outcome is modelled: `display_ascii` looks the suit up in its symbol table and raises `KeyError` for any other suit, which in a round is `UnknownSuit` (`Cards.SuitSymbols`, `Round.AfterDeal`).
- Randomness is not modelled: `random.shuffle` is replaced by an arrangement that `Deck.Shuffle` accepts when it is a permutation of the deck.
- Input parsing is not modelled. `input().strip().lower()` is replaced by a sequence of `Command`s: 'a', 'd', 'x', the empty line, and anything else.
- End of input, where `input()` raises `EOFError`, is `None` from `Round.SelectDiscards` and `InputEnded` from a round.
- The `main()` replay loop (`play_again`) is not modelled. Each round is modelled on its own, starting from a freshly built and shuffled deck.
- `Round.SelectDiscards` requires a non-empty hand. On an empty hand 'a' and 'd' divide by zero. In a round the hand always holds at least the five dealt cards.
- The `else` branch of `format_tie_breaker_for_display` for non-integer values is not modelled. Tie-break values are always integers, and `HandFacts.TieBreakDisplayable` shows they lie in 2..14.
- `Counter`'s insertion order is not modelled. The counts are sorted by (count, rank), whose pairs are distinct, so the order cannot matter.
- The unused `indexed_hand_ranks` list in `decide_cards_to_discard` is left out.
- Players.PlanForTrips: states only the number of positions discarded at the hand level. Which positions are discarded is stated for the evaluation and the rank values by `Players.PlanForOneKept`.
- Players.PlanForTwoPair: states only the number of positions at the hand level. Which positions is stated by `Players.PlanForTwoKept`.
- Players.PlanForPair: states only the number of positions at the hand level. Which positions is stated by `Players.PlanForOneKept`.
- Round.PlayRound: states nothing about the objects when the round stops with an error. The source raises at that point and the program ends, leaving the hands and deck as they were at the raise.
- The program has no chips, ante, pot or high-card side game; none is modelled.
- A failed replacement deal's `ValueError` is caught and the round goes on; the model does the same (`Round.ExchangeShort`).
