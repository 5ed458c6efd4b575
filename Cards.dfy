/** A playing card (card.py): a suit name and a rank label, both plain strings. */
module Cards {

  type Suit = string
  type Rank = string

  /** Card(suit, rank); the card has no identity beyond these two fields. */
  datatype Card = Card(suit: Suit, rank: Rank)

  /** The suit symbols display_ascii draws; any other suit is a KeyError there. */
  const SuitSymbols: map<Suit, char> := map["Corazones" := '♥', "Diamantes" := '♦', "Tréboles" := '♣', "Espadas" := '♠']

  /** Every card of the hand can be drawn face up. */
  predicate Displayable(hand: seq<Card>) {
    forall c :: c in hand ==> c.suit in SuitSymbols
  }
}
