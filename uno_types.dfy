/**
 * The value types of the hashed off-chain UNO engine: cards, actions and the
 * off-chain game state record.
 */
module UnoTypes {
  import opened Wrappers

  /** A commitment: the hex string that keccak256 yields. */
  type Hash = string

  datatype Color = Red | Blue | Green | Yellow | Wild

  type Digit = d: int | 0 <= d <= 9

  datatype Value = Number(digit: Digit) | Skip | Reverse | Draw2 | WildValue | WildDraw4

  /** An UNO card; an immutable value. */
  datatype Card = Card(color: Color, value: Value)

  /** The string a colour has in the source (`CardColor`). */
  function ColorName(c: Color): string {
    match c
    case Red => "red"
    case Blue => "blue"
    case Green => "green"
    case Yellow => "yellow"
    case Wild => "wild"
  }

  /** The string a value has in the source (`CardValue`). */
  function ValueName(v: Value): string {
    match v
    case Number(d) => ["0123456789"[d]]
    case Skip => "skip"
    case Reverse => "reverse"
    case Draw2 => "draw2"
    case WildValue => "wild"
    case WildDraw4 => "wild_draw4"
  }

  datatype ActionType = StartGame | PlayCard | DrawCard

  function ActionTypeName(t: ActionType): string {
    match t
    case StartGame => "startGame"
    case PlayCard => "playCard"
    case DrawCard => "drawCard"
  }

  /** An action of the on-chain log; it carries a card commitment, never a card. */
  datatype Action = Action(kind: ActionType, player: string, cardHash: Option<Hash>)

  /**
   * The off-chain game state. `playerHandsHash` is a JavaScript object from
   * player to hand commitment, kept as its entries in insertion order (the
   * order `JSON.stringify` writes them in). The `playerHands` field that the
   * type declaration also lists is never filled in by the engine and is not
   * part of this record.
   */
  datatype OffChainGameState = OffChainGameState(
    id: nat,
    players: seq<string>,
    isActive: bool,
    currentPlayerIndex: nat,
    lastActionTimestamp: nat,
    turnCount: nat,
    directionClockwise: bool,
    playerHandsHash: seq<(string, Hash)>,
    deckHash: Hash,
    discardPileHash: Hash,
    currentColor: Option<Color>,
    currentValue: Option<Value>,
    lastPlayedCardHash: Option<Hash>,
    stateHash: Hash,
    isStarted: bool)
}
