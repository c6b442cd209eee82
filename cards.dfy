/**
 * A card type of the Quiddler deck template: the letters printed on the
 * card, how many copies the deck holds and how many points it scores.
 * The record has a constructor and three get/set properties and nothing
 * else, so it is a value here and its setters are datatype updates.
 */
module Cards {

  datatype Card = Card(Letter: string, DeckCount: int, Value: int)

  /**
   * The constructor keeps its three arguments as they are, and each setter
   * changes its own property and leaves the other two alone.
   */
  lemma CardRecord(l: string, c: int, v: int, card: Card, l2: string, c2: int, v2: int)
    ensures Card(l, c, v).Letter == l && Card(l, c, v).DeckCount == c && Card(l, c, v).Value == v
    ensures card.(Letter := l2) == Card(l2, card.DeckCount, card.Value)
    ensures card.(DeckCount := c2) == Card(card.Letter, c2, card.Value)
    ensures card.(Value := v2) == Card(card.Letter, card.DeckCount, v2)
  {
  }
}
