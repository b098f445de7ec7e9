/** The values the flashcard page keeps: cards and saved decks. */
module Cards {
  import opened Wrappers

  /** A clock reading (an ISO timestamp or Date.now() in milliseconds); the model never
      inspects one. */
  type Timestamp = int

  /** A question and its answer; the theme is absent until the themes are assigned. */
  datatype Card = Card(question: string, answer: string, theme: Option<string>)

  /** A saved deck. Its id is the server's row id, or Date.now() for a deck saved offline. */
  datatype Deck = Deck(id: int, name: string, cards: seq<Card>, created: Timestamp, lastStudied: Timestamp)
}
