/**
 * The two-player game room: the rules the browser client runs over string
 * cards such as "5R", "skipG", "D2B", "W" and "D4W". A handler does not
 * change the room itself; it returns the record it would emit as
 * `updateGameState`, and the room's listener folds an emitted record into
 * the state through the shallow-merge reducer.
 */
module GameRoom {
  import opened Wrappers
  import opened JsBuiltins

  const PLAYER_1: string := "Player 1"
  const PLAYER_2: string := "Player 2"

  /** A hand entry: a card, or the `undefined` that `pop` returns on an exhausted draw pile. */
  type Slot = Option<string>

  /** `currentNumber`: a one-character string cut from a card name, or a numeric action code. */
  datatype Code = Text(text: string) | Num(num: int)

  const SKIP_CODE: int := 100
  const DRAW2_CODE: int := 200
  const DRAW4_CODE: int := 400
  const WILD_CODE: int := 500

  /** `gameState`. */
  datatype RoomState = RoomState(
    gameOver: bool,
    winner: string,
    turn: string,
    player1Deck: seq<Slot>,
    player2Deck: seq<Slot>,
    currentColor: string,
    currentNumber: Code,
    playedCardsPile: seq<Slot>,
    drawCardPile: seq<Slot>,
    isUnoButtonPressed: bool,
    drawButtonPressed: bool,
    lastCardPlayedBy: string)

  /** An object literal over the state's keys: `None` is a key the object does not have. */
  datatype RoomPatch = RoomPatch(
    gameOver: Option<bool>,
    winner: Option<string>,
    turn: Option<string>,
    player1Deck: Option<seq<Slot>>,
    player2Deck: Option<seq<Slot>>,
    currentColor: Option<string>,
    currentNumber: Option<Code>,
    playedCardsPile: Option<seq<Slot>>,
    drawCardPile: Option<seq<Slot>>,
    isUnoButtonPressed: Option<bool>,
    drawButtonPressed: Option<bool>,
    lastCardPlayedBy: Option<string>)

  const NO_KEYS: RoomPatch := RoomPatch(None, None, None, None, None, None, None, None, None, None, None, None)

  // ------------------------------------------------------------ checkGameOver

  /** `checkGameOver(playerDeck)`, applied to the hand before the card leaves it. */
  function CheckGameOver(playerDeck: seq<Slot>): (over: bool)
    ensures over <==> |playerDeck| == 1
  {
    |playerDeck| == 1
  }

  /** `checkWinner(playerDeck, player)`. */
  function CheckWinner(playerDeck: seq<Slot>, player: string): (winner: string)
    ensures |playerDeck| == 1 ==> winner == player
    ensures |playerDeck| != 1 ==> winner == ""
  {
    if |playerDeck| == 1 then player else ""
  }

  // -------------------------------------------------------------- gameReducer

  /** The value of a key the object may lack, falling back to `x`. */
  function Over<T>(o: Option<T>, x: T): T {
    if o.Some? then o.value else x
  }

  /** `gameReducer(state, action)`: `{ ...state, ...action }`. */
  function GameReducer(state: RoomState, action: RoomPatch): RoomState {
    RoomState(
      Over(action.gameOver, state.gameOver),
      Over(action.winner, state.winner),
      Over(action.turn, state.turn),
      Over(action.player1Deck, state.player1Deck),
      Over(action.player2Deck, state.player2Deck),
      Over(action.currentColor, state.currentColor),
      Over(action.currentNumber, state.currentNumber),
      Over(action.playedCardsPile, state.playedCardsPile),
      Over(action.drawCardPile, state.drawCardPile),
      Over(action.isUnoButtonPressed, state.isUnoButtonPressed),
      Over(action.drawButtonPressed, state.drawButtonPressed),
      Over(action.lastCardPlayedBy, state.lastCardPlayedBy))
  }

  function Either<T>(later: Option<T>, earlier: Option<T>): Option<T> {
    if later.Some? then later else earlier
  }

  /** `{ ...p, ...q }`: the keys of both, `q`'s value winning. */
  function MergePatches(p: RoomPatch, q: RoomPatch): RoomPatch {
    RoomPatch(
      Either(q.gameOver, p.gameOver),
      Either(q.winner, p.winner),
      Either(q.turn, p.turn),
      Either(q.player1Deck, p.player1Deck),
      Either(q.player2Deck, p.player2Deck),
      Either(q.currentColor, p.currentColor),
      Either(q.currentNumber, p.currentNumber),
      Either(q.playedCardsPile, p.playedCardsPile),
      Either(q.drawCardPile, p.drawCardPile),
      Either(q.isUnoButtonPressed, p.isUnoButtonPressed),
      Either(q.drawButtonPressed, p.drawButtonPressed),
      Either(q.lastCardPlayedBy, p.lastCardPlayedBy))
  }

  /**
   * Shallow merge is a monoid action: dispatching `p` then `q` is
   * dispatching their merge, an action without keys changes nothing, and
   * dispatching the same action twice is dispatching it once.
   */
  lemma ReducerComposes(state: RoomState, p: RoomPatch, q: RoomPatch)
    ensures GameReducer(GameReducer(state, p), q) == GameReducer(state, MergePatches(p, q))
    ensures GameReducer(state, NO_KEYS) == state
    ensures GameReducer(GameReducer(state, p), p) == GameReducer(state, p)
  {
  }

  /**
   * For every one of the twelve keys: a key the action carries takes the
   * action's value, whatever the state held; a key it lacks keeps the
   * state's value.
   */
  lemma ReducerOverwritesPresentKeys(state: RoomState, action: RoomPatch)
    ensures GameReducer(state, action).gameOver == if action.gameOver.Some? then action.gameOver.value else state.gameOver
    ensures GameReducer(state, action).winner == if action.winner.Some? then action.winner.value else state.winner
    ensures GameReducer(state, action).turn == if action.turn.Some? then action.turn.value else state.turn
    ensures GameReducer(state, action).player1Deck == if action.player1Deck.Some? then action.player1Deck.value else state.player1Deck
    ensures GameReducer(state, action).player2Deck == if action.player2Deck.Some? then action.player2Deck.value else state.player2Deck
    ensures GameReducer(state, action).currentColor == if action.currentColor.Some? then action.currentColor.value else state.currentColor
    ensures GameReducer(state, action).currentNumber == if action.currentNumber.Some? then action.currentNumber.value else state.currentNumber
    ensures GameReducer(state, action).playedCardsPile == if action.playedCardsPile.Some? then action.playedCardsPile.value else state.playedCardsPile
    ensures GameReducer(state, action).drawCardPile == if action.drawCardPile.Some? then action.drawCardPile.value else state.drawCardPile
    ensures GameReducer(state, action).isUnoButtonPressed == if action.isUnoButtonPressed.Some? then action.isUnoButtonPressed.value else state.isUnoButtonPressed
    ensures GameReducer(state, action).drawButtonPressed == if action.drawButtonPressed.Some? then action.drawButtonPressed.value else state.drawButtonPressed
    ensures GameReducer(state, action).lastCardPlayedBy == if action.lastCardPlayedBy.Some? then action.lastCardPlayedBy.value else state.lastCardPlayedBy
    ensures action == MergePatches(NO_KEYS, action)
  {
    MergeAfterNoKeys(action);
  }

  /** Merging an action into one without keys gives the action back. */
  lemma MergeAfterNoKeys(action: RoomPatch)
    ensures MergePatches(NO_KEYS, action) == action
  {
  }

  // --------------------------------------------------------- updateGameState

  predicate TruthyString(s: string) { s != "" }

  predicate TruthyCode(c: Code) {
    match c
    case Text(t) => t != ""
    case Num(n) => n != 0
  }

  /** A key of the received record that the listener dispatches, or `None` when its value is falsy or absent. */
  function IfTruthy<T>(o: Option<T>, truthy: T -> bool): Option<T> {
    if o.Some? && truthy(o.value) then o else None
  }

  /**
   * The keys the `updateGameState` listener dispatches, one action per key:
   * each only when its value is truthy (arrays always are),
   * `isUnoButtonPressed` reset, and `drawButtonPressed` defaulting to false.
   * The actions touch distinct keys, so in sequence they act as this one
   * merged action.
   */
  function Dispatched(u: RoomPatch): RoomPatch {
    RoomPatch(
      gameOver := IfTruthy(u.gameOver, (b: bool) => b),
      winner := IfTruthy(u.winner, TruthyString),
      turn := IfTruthy(u.turn, TruthyString),
      player1Deck := u.player1Deck,
      player2Deck := u.player2Deck,
      currentColor := IfTruthy(u.currentColor, TruthyString),
      currentNumber := IfTruthy(u.currentNumber, TruthyCode),
      playedCardsPile := u.playedCardsPile,
      drawCardPile := u.drawCardPile,
      isUnoButtonPressed := Some(false),
      drawButtonPressed := Some(Over(u.drawButtonPressed, false)),
      lastCardPlayedBy := None)
  }

  /** The `updateGameState` listener. */
  function Received(state: RoomState, u: RoomPatch): RoomState {
    GameReducer(state, Dispatched(u))
  }

  /** What the listener leaves in each field. */
  lemma ReceivedFields(state: RoomState, u: RoomPatch)
    ensures var s := Received(state, u);
      && s.gameOver == (state.gameOver || u.gameOver == Some(true))
      && s.winner == (if u.winner.Some? && u.winner.value != "" then u.winner.value else state.winner)
      && s.turn == (if u.turn.Some? && u.turn.value != "" then u.turn.value else state.turn)
      && s.player1Deck == Over(u.player1Deck, state.player1Deck)
      && s.player2Deck == Over(u.player2Deck, state.player2Deck)
      && s.currentColor == (if u.currentColor.Some? && u.currentColor.value != "" then u.currentColor.value else state.currentColor)
      && s.currentNumber == (if u.currentNumber.Some? && TruthyCode(u.currentNumber.value) then u.currentNumber.value else state.currentNumber)
      && s.playedCardsPile == Over(u.playedCardsPile, state.playedCardsPile)
      && s.drawCardPile == Over(u.drawCardPile, state.drawCardPile)
      && !s.isUnoButtonPressed
      && s.drawButtonPressed == (u.drawButtonPressed == Some(true))
      && s.lastCardPlayedBy == state.lastCardPlayedBy
  {
  }

  // ------------------------------------------------------- cardPlayedByPlayer

  /** The argument object of `cardPlayedByPlayer`, its defaults filled in. */
  datatype PlayDetails = PlayDetails(
    cardPlayedBy: string,
    playedCard: string,
    colorOfPlayedCard: string,
    numberOfPlayedCard: Code,
    isDraw2: bool,
    isDraw4: bool,
    toggleTurn: bool)

  /** `player === "Player 1" ? "Player 2" : "Player 1"`. */
  function Other(player: string): (other: string)
    ensures other == PLAYER_1 || other == PLAYER_2
    ensures other != player
  {
    if player == PLAYER_1 then PLAYER_2 else PLAYER_1
  }

  /** What one `pop` returns. */
  function Top(pile: seq<Slot>): Slot {
    if |pile| == 0 then None else pile[|pile| - 1]
  }

  /** What one `pop` leaves; an empty array stays empty. */
  function Rest(pile: seq<Slot>): seq<Slot> {
    if |pile| == 0 then [] else pile[..|pile| - 1]
  }

  /** `k` times `target.push(pile.pop())`: the pile left and the target filled. */
  function PopsOnto(pile: seq<Slot>, target: seq<Slot>, k: nat): (seq<Slot>, seq<Slot>)
    decreases k
  {
    if k == 0 then (pile, target) else PopsOnto(Rest(pile), target + [Top(pile)], k - 1)
  }

  /** The cards the draw-2 and draw-4 branches give the opponent. */
  function OpponentPenalty(d: PlayDetails): nat {
    (if d.isDraw2 || d.isDraw4 then 2 else 0) + (if d.isDraw4 then 2 else 0)
  }

  /** The cards the forgotten-UNO branch gives the player. */
  function UnoPenalty(state: RoomState, playerDeck: seq<Slot>): nat {
    if |playerDeck| == 2 && !state.isUnoButtonPressed then 2 else 0
  }

  function PlayerDeckOf(state: RoomState, player: string): seq<Slot> {
    if player == PLAYER_1 then state.player1Deck else state.player2Deck
  }

  function OpponentDeckOf(state: RoomState, player: string): seq<Slot> {
    if player == PLAYER_1 then state.player2Deck else state.player1Deck
  }

  /** The hand with the card at `removeIndex` cut out by two slices (with JavaScript's negative indices). */
  function WithoutIndex(deck: seq<Slot>, removeIndex: int): seq<Slot> {
    JsSlice(deck, 0, removeIndex) + JsSlice(deck, removeIndex + 1, |deck|)
  }

  /**
   * The record `cardPlayedByPlayer` emits: the opponent's penalty is
   * popped first, then the player's UNO penalty, from the same copy of the
   * draw pile.
   */
  function PlayUpdate(state: RoomState, d: PlayDetails): RoomPatch {
    var playerDeck := PlayerDeckOf(state, d.cardPlayedBy);
    var opponentDeck := OpponentDeckOf(state, d.cardPlayedBy);
    var removed := WithoutIndex(playerDeck, IndexOf(playerDeck, Some(d.playedCard)));
    var (pile1, opponentAfter) := PopsOnto(state.drawCardPile, opponentDeck, OpponentPenalty(d));
    var (pile2, playerAfter) := PopsOnto(pile1, removed, UnoPenalty(state, playerDeck));
    RoomPatch(
      gameOver := Some(CheckGameOver(playerDeck)),
      winner := Some(CheckWinner(playerDeck, d.cardPlayedBy)),
      turn := Some(if d.toggleTurn then Other(d.cardPlayedBy) else d.cardPlayedBy),
      player1Deck := Some(if d.cardPlayedBy == PLAYER_1 then playerAfter else opponentAfter),
      player2Deck := Some(if d.cardPlayedBy == PLAYER_2 then playerAfter else opponentAfter),
      currentColor := Some(d.colorOfPlayedCard),
      currentNumber := Some(d.numberOfPlayedCard),
      playedCardsPile := Some(state.playedCardsPile + [Some(d.playedCard)]),
      drawCardPile := Some(pile2),
      isUnoButtonPressed := None,
      drawButtonPressed := None,
      lastCardPlayedBy := None)
  }

  /** `target.push(pile.pop())` on local copies. */
  method PopOnto(pile: seq<Slot>, target: seq<Slot>) returns (pile': seq<Slot>, target': seq<Slot>)
    ensures (pile', target') == PopsOnto(pile, target, 1)
  {
    var top: Slot := None;
    pile' := pile;
    if |pile'| > 0 {
      top := pile'[|pile'| - 1];
      pile' := pile'[..|pile'| - 1];
    }
    target' := target + [top];
  }

  /** Popping `a` and then `b` cards is popping `a + b`. */
  lemma {:induction false} PopsOntoAdd(pile: seq<Slot>, target: seq<Slot>, a: nat, b: nat)
    ensures PopsOnto(pile, target, a + b) == PopsOnto(PopsOnto(pile, target, a).0, PopsOnto(pile, target, a).1, b)
    decreases a
  {
    if a > 0 {
      PopsOntoAdd(Rest(pile), target + [Top(pile)], a - 1, b);
    }
  }

  /** Two `target.push(pile.pop())` in a row, as every penalty branch writes them. */
  method PopTwice(pile: seq<Slot>, target: seq<Slot>) returns (pile': seq<Slot>, target': seq<Slot>)
    ensures (pile', target') == PopsOnto(pile, target, 2)
  {
    pile', target' := PopOnto(pile, target);
    pile', target' := PopOnto(pile', target');
  }

  /** The draw-2 and draw-4 branches: two pops onto the opponent's copy, and two more for a draw-4. */
  method OpponentDraws(pile: seq<Slot>, opponentDeck: seq<Slot>, d: PlayDetails) returns (pile': seq<Slot>, deck': seq<Slot>)
    ensures (pile', deck') == PopsOnto(pile, opponentDeck, OpponentPenalty(d))
  {
    pile', deck' := pile, opponentDeck;
    if d.isDraw2 || d.isDraw4 {
      pile', deck' := PopTwice(pile', deck');
      if d.isDraw4 {
        PopsOntoAdd(pile, opponentDeck, 2, 2);
        pile', deck' := PopTwice(pile', deck');
      }
    }
  }

  /**
   * `cardPlayedByPlayer(details)`: cut the card out of the player's hand, put
   * it on the played pile, pop the penalties from a copy of the draw pile,
   * pick the next turn and build the record to emit.
   */
  method CardPlayedByPlayer(state: RoomState, d: PlayDetails) returns (update: RoomPatch)
    ensures update == PlayUpdate(state, d)
  {
    var playerDeck := PlayerDeckOf(state, d.cardPlayedBy);
    var opponentDeck := OpponentDeckOf(state, d.cardPlayedBy);

    var removeIndex := IndexOf(playerDeck, Some(d.playedCard));
    var updatedPlayedCardsPile := state.playedCardsPile + [Some(d.playedCard)];
    var updatedPlayerDeck := JsSlice(playerDeck, 0, removeIndex) + JsSlice(playerDeck, removeIndex + 1, |playerDeck|);

    var copiedDrawCardPileArray, opponentDeckCopy := OpponentDraws(state.drawCardPile, opponentDeck, d);

    var turnCopy := d.cardPlayedBy;
    if d.toggleTurn {
      turnCopy := if d.cardPlayedBy == PLAYER_1 then PLAYER_2 else PLAYER_1;
    }

    ghost var pile1, removed := copiedDrawCardPileArray, updatedPlayerDeck;
    if |playerDeck| == 2 && !state.isUnoButtonPressed {
      copiedDrawCardPileArray, updatedPlayerDeck := PopTwice(copiedDrawCardPileArray, updatedPlayerDeck);
    }
    assert (copiedDrawCardPileArray, updatedPlayerDeck) == PopsOnto(pile1, removed, UnoPenalty(state, playerDeck));
    assert turnCopy == if d.toggleTurn then Other(d.cardPlayedBy) else d.cardPlayedBy;

    update := RoomPatch(
      gameOver := Some(CheckGameOver(playerDeck)),
      winner := Some(CheckWinner(playerDeck, d.cardPlayedBy)),
      turn := Some(turnCopy),
      player1Deck := Some(if d.cardPlayedBy == PLAYER_1 then updatedPlayerDeck else opponentDeckCopy),
      player2Deck := Some(if d.cardPlayedBy == PLAYER_2 then updatedPlayerDeck else opponentDeckCopy),
      currentColor := Some(d.colorOfPlayedCard),
      currentNumber := Some(d.numberOfPlayedCard),
      playedCardsPile := Some(updatedPlayedCardsPile),
      drawCardPile := Some(copiedDrawCardPileArray),
      isUnoButtonPressed := None,
      drawButtonPressed := None,
      lastCardPlayedBy := None);
  }

  // ------------------------------------------------------- onCardPlayedHandler

  predicate IsSkipCard(card: string) {
    card == "skipR" || card == "skipG" || card == "skipB" || card == "skipY"
  }

  predicate IsDraw2Card(card: string) {
    card == "D2R" || card == "D2G" || card == "D2B" || card == "D2Y"
  }

  predicate IsWildCard(card: string) {
    card == "W" || card == "D4W"
  }

  /** The number code and colour read off a coloured card's name: skip and draw-2 by code, the rest by their first two characters. */
  function Face(card: string): (Code, string) {
    if IsSkipCard(card) then (Num(SKIP_CODE), CharAt(card, 4))
    else if IsDraw2Card(card) then (Num(DRAW2_CODE), CharAt(card, 2))
    else (Text(CharAt(card, 0)), CharAt(card, 1))
  }

  /** The guard of the coloured branches: the colour or the number code the card shows is the current one. */
  predicate Matches(state: RoomState, card: string) {
    state.currentColor == Face(card).1 || state.currentNumber == Face(card).0
  }

  /**
   * The `switch` of `onCardPlayedHandler`: the arguments it hands to
   * `cardPlayedByPlayer`, or `None` when it hands none (an invalid move, or
   * a wild whose colour dialog returned no colour).
   */
  function PlayDetailsFor(state: RoomState, card: string, chosenColor: string): Option<PlayDetails> {
    var player := state.turn;
    if IsSkipCard(card) then
      if state.currentColor == CharAt(card, 4) || state.currentNumber == Num(SKIP_CODE)
      then Some(PlayDetails(player, card, CharAt(card, 4), Num(SKIP_CODE), false, false, false))
      else None
    else if IsDraw2Card(card) then
      if state.currentColor == CharAt(card, 2) || state.currentNumber == Num(DRAW2_CODE)
      then Some(PlayDetails(player, card, CharAt(card, 2), Num(DRAW2_CODE), true, false, false))
      else None
    else if IsWildCard(card) then
      if chosenColor == "" then None
      else Some(PlayDetails(player, card, chosenColor, Num(if card == "W" then WILD_CODE else DRAW4_CODE), false, card == "D4W", card != "D4W"))
    else
      var numberOfPlayedCard := Text(CharAt(card, 0));
      var colorOfPlayedCard := CharAt(card, 1);
      if state.currentColor == colorOfPlayedCard || state.currentNumber == numberOfPlayedCard
      then Some(PlayDetails(player, card, colorOfPlayedCard, numberOfPlayedCard, false, false, true))
      else None
  }

  /**
   * `onCardPlayedHandler(played_card)`, the colour dialog's answer for a
   * wild given as `chosenColor` ("" for none). It always dispatches
   * `lastCardPlayedBy` locally, and emits `cardPlayedByPlayer`'s record
   * when the move is accepted.
   */
  method OnCardPlayedHandler(state: RoomState, playedCard: string, chosenColor: string)
    returns (local: RoomPatch, emitted: Option<RoomPatch>)
    ensures local == NO_KEYS.(lastCardPlayedBy := Some(state.turn))
    ensures emitted == match PlayDetailsFor(state, playedCard, chosenColor)
      case None => None
      case Some(d) => Some(PlayUpdate(state, d))
  {
    var cardPlayedBy := state.turn;
    local := NO_KEYS.(lastCardPlayedBy := Some(cardPlayedBy));
    var details := PlayDetailsFor(state, playedCard, chosenColor);
    if details.None? {
      return local, None;
    }
    var update := CardPlayedByPlayer(state, details.value);
    emitted := Some(update);
  }

  /**
   * The legality guards: a skip, draw-2 or other coloured card is accepted
   * exactly when its colour or its number code is the current one; a wild
   * is accepted exactly when a colour was chosen. An accepted card is
   * played by the player whose turn it is, under its own name.
   */
  lemma PlayAcceptedIff(state: RoomState, card: string, chosenColor: string)
    ensures var d := PlayDetailsFor(state, card, chosenColor);
      && (d.Some? <==> if IsWildCard(card) then chosenColor != "" else Matches(state, card))
      && (d.Some? ==> d.value.cardPlayedBy == state.turn && d.value.playedCard == card)
      && (d.Some? && !IsWildCard(card) ==> (d.value.numberOfPlayedCard, d.value.colorOfPlayedCard) == Face(card))
      && (d.Some? && IsWildCard(card) ==> d.value.colorOfPlayedCard == chosenColor)
  {
  }

  /**
   * The turn rules of a play: skip, draw-2 and draw-4 keep the turn, a
   * plain wild and a number card pass it; the opponent takes two cards for
   * a draw-2, four for a draw-4 and none otherwise.
   */
  lemma PlayTurnRules(state: RoomState, card: string, chosenColor: string)
    requires PlayDetailsFor(state, card, chosenColor).Some?
    ensures var d := PlayDetailsFor(state, card, chosenColor).value;
      && (d.toggleTurn <==> !(IsSkipCard(card) || IsDraw2Card(card) || card == "D4W"))
      && OpponentPenalty(d) == (if IsDraw2Card(card) then 2 else if card == "D4W" then 4 else 0)
      && PlayUpdate(state, d).turn == Some(if d.toggleTurn then Other(state.turn) else state.turn)
  {
  }

  // --------------------------------------------------------------- penalties

  /** The top `k` cards of a pile, topmost first: the order `pop` hands them over. */
  function TopCards(pile: seq<Slot>, k: nat): (top: seq<Slot>)
    requires k <= |pile|
    ensures |top| == k
    ensures forall i :: 0 <= i < k ==> top[i] == pile[|pile| - 1 - i]
  {
    if k == 0 then [] else [pile[|pile| - 1]] + TopCards(pile[..|pile| - 1], k - 1)
  }

  /** Popping `k <= |pile|` cards hands over the top `k`, topmost first, and leaves the rest of the pile in order. */
  lemma {:induction false} PopsOntoTakesTop(pile: seq<Slot>, target: seq<Slot>, k: nat)
    requires k <= |pile|
    ensures PopsOnto(pile, target, k) == (pile[..|pile| - k], target + TopCards(pile, k))
    decreases k
  {
    if k > 0 {
      var pile' := pile[..|pile| - 1];
      assert PopsOnto(pile, target, k) == PopsOnto(pile', target + [Top(pile)], k - 1);
      PopsOntoTakesTop(pile', target + [Top(pile)], k - 1);
      assert pile'[..|pile'| - (k - 1)] == pile[..|pile| - k];
      assert target + [Top(pile)] + TopCards(pile', k - 1) == target + TopCards(pile, k);
    } else {
      assert pile[..|pile|] == pile && target + [] == target;
    }
  }

  /** Popping an exhausted pile hands over `undefined`: the target still grows by `k` entries. */
  lemma {:induction false} PopsOntoLength(pile: seq<Slot>, target: seq<Slot>, k: nat)
    ensures |PopsOnto(pile, target, k).1| == |target| + k
    ensures |PopsOnto(pile, target, k).0| == if k <= |pile| then |pile| - k else 0
    decreases k
  {
    if k > 0 {
      PopsOntoLength(Rest(pile), target + [Top(pile)], k - 1);
    }
  }

  /** The hands and piles the listener leaves after a play, in terms of the two rounds of pops. */
  lemma PlayReceived(state: RoomState, d: PlayDetails)
    requires d.cardPlayedBy == PLAYER_1 || d.cardPlayedBy == PLAYER_2
    ensures var s := Received(state, PlayUpdate(state, d));
      var p := d.cardPlayedBy;
      var playerDeck := PlayerDeckOf(state, p);
      var first := PopsOnto(state.drawCardPile, OpponentDeckOf(state, p), OpponentPenalty(d));
      var second := PopsOnto(first.0, WithoutIndex(playerDeck, IndexOf(playerDeck, Some(d.playedCard))), UnoPenalty(state, playerDeck));
      && OpponentDeckOf(s, p) == first.1
      && PlayerDeckOf(s, p) == second.1
      && s.drawCardPile == second.0
      && s.playedCardsPile == state.playedCardsPile + [Some(d.playedCard)]
  {
    ReceivedFields(state, PlayUpdate(state, d));
  }

  /**
   * The penalties of a play from a draw pile holding enough cards: the
   * opponent's hand grows by the top `OpponentPenalty` cards, topmost
   * first; the player, who loses the played card, takes the next
   * `UnoPenalty` cards (two for holding two cards without pressing UNO);
   * the draw pile loses exactly those cards.
   */
  lemma PlayPenalties(state: RoomState, d: PlayDetails)
    requires d.cardPlayedBy == PLAYER_1 || d.cardPlayedBy == PLAYER_2
    requires OpponentPenalty(d) + UnoPenalty(state, PlayerDeckOf(state, d.cardPlayedBy)) <= |state.drawCardPile|
    ensures var u := PlayUpdate(state, d);
      var s := Received(state, u);
      var pile := state.drawCardPile;
      var playerDeck := PlayerDeckOf(state, d.cardPlayedBy);
      var k, uno := OpponentPenalty(d), UnoPenalty(state, playerDeck);
      && OpponentDeckOf(s, d.cardPlayedBy) == OpponentDeckOf(state, d.cardPlayedBy) + TopCards(pile, k)
      && PlayerDeckOf(s, d.cardPlayedBy) == WithoutIndex(playerDeck, IndexOf(playerDeck, Some(d.playedCard))) + TopCards(pile[..|pile| - k], uno)
      && s.drawCardPile == pile[..|pile| - k - uno]
  {
    var playerDeck := PlayerDeckOf(state, d.cardPlayedBy);
    PlayReceived(state, d);
    PenaltyPops(state.drawCardPile, OpponentDeckOf(state, d.cardPlayedBy), WithoutIndex(playerDeck, IndexOf(playerDeck, Some(d.playedCard))),
                OpponentPenalty(d), UnoPenalty(state, playerDeck));
  }

  /** Two rounds of pops from a pile holding enough cards: the top `k` go to the first target, the next `uno` to the second. */
  lemma PenaltyPops(pile: seq<Slot>, opponentDeck: seq<Slot>, playerDeck: seq<Slot>, k: nat, uno: nat)
    requires k + uno <= |pile|
    ensures var first := PopsOnto(pile, opponentDeck, k);
      var second := PopsOnto(first.0, playerDeck, uno);
      && first.1 == opponentDeck + TopCards(pile, k)
      && second.1 == playerDeck + TopCards(pile[..|pile| - k], uno)
      && second.0 == pile[..|pile| - k - uno]
  {
    PopsOntoTakesTop(pile, opponentDeck, k);
    var pile1 := pile[..|pile| - k];
    PopsOntoTakesTop(pile1, playerDeck, uno);
    assert pile1[..|pile1| - uno] == pile[..|pile| - k - uno];
  }

  // ------------------------------------------------------ onCardDrawnHandler

  /** Whether a drawn card lets its player keep the turn: a wild, or a card matching the current number or colour. */
  predicate DrawnPlayable(state: RoomState, card: string) {
    IsWildCard(card) || state.currentNumber == Face(card).0 || state.currentColor == Face(card).1
  }

  /**
   * The record `onCardDrawnHandler` emits, or `None` when the popped
   * entry is `undefined` (an empty pile): `charAt` on it throws before
   * anything is emitted.
   */
  function DrawUpdate(state: RoomState): Option<RoomPatch> {
    var pile := state.drawCardPile;
    if Top(pile).None? then None
    else
      var card := Top(pile).value;
      var keep := DrawnPlayable(state, card);
      Some(NO_KEYS.(
        turn := Some(if keep then state.turn else Other(state.turn)),
        player1Deck := Some(if state.turn == PLAYER_1 then state.player1Deck + [Some(card)] else state.player1Deck),
        player2Deck := Some(if state.turn == PLAYER_2 then state.player2Deck + [Some(card)] else state.player2Deck),
        drawCardPile := Some(pile[..|pile| - 1]),
        drawButtonPressed := Some(keep)))
  }

  /** `onCardDrawnHandler()`. */
  method OnCardDrawnHandler(state: RoomState) returns (emitted: Option<RoomPatch>)
    ensures emitted == DrawUpdate(state)
  {
    var drawButtonPressed := true;
    var turnCopy := state.turn;
    var copiedDrawCardPileArray := state.drawCardPile;
    var popped: Slot := None;
    if |copiedDrawCardPileArray| > 0 {
      popped := copiedDrawCardPileArray[|copiedDrawCardPileArray| - 1];
      copiedDrawCardPileArray := copiedDrawCardPileArray[..|copiedDrawCardPileArray| - 1];
    }
    if popped.None? {
      return None;
    }
    var drawCard := popped.value;
    var numberOfDrawnCard := Text(CharAt(drawCard, 0));
    var colorOfDrawnCard := CharAt(drawCard, 1);
    if drawCard == "skipR" || drawCard == "skipG" || drawCard == "skipB" || drawCard == "skipY" {
      colorOfDrawnCard := CharAt(drawCard, 4);
      numberOfDrawnCard := Num(SKIP_CODE);
    }
    if drawCard == "D2R" || drawCard == "D2G" || drawCard == "D2B" || drawCard == "D2Y" {
      colorOfDrawnCard := CharAt(drawCard, 2);
      numberOfDrawnCard := Num(DRAW2_CODE);
    }
    if drawCard != "W" && drawCard != "D4W" && state.currentNumber != numberOfDrawnCard && state.currentColor != colorOfDrawnCard {
      turnCopy := if state.turn == PLAYER_1 then PLAYER_2 else PLAYER_1;
      drawButtonPressed := false;
    }
    emitted := Some(NO_KEYS.(
      turn := Some(turnCopy),
      player1Deck := Some(if state.turn == PLAYER_1 then state.player1Deck + [Some(drawCard)] else state.player1Deck),
      player2Deck := Some(if state.turn == PLAYER_2 then state.player2Deck + [Some(drawCard)] else state.player2Deck),
      drawCardPile := Some(copiedDrawCardPileArray),
      drawButtonPressed := Some(drawButtonPressed)));
  }

  /**
   * A draw gives the top card of the draw pile to the player whose turn it
   * is. The turn is kept and the draw button stays pressed exactly when the
   * play handler would accept that card now (for a wild, with any colour).
   */
  lemma DrawKeepsTurnIffPlayable(state: RoomState, anyColor: string)
    requires Top(state.drawCardPile).Some? && anyColor != ""
    requires state.turn == PLAYER_1 || state.turn == PLAYER_2
    ensures var card := Top(state.drawCardPile).value;
      var s := Received(state, DrawUpdate(state).value);
      && (s.turn == state.turn <==> PlayDetailsFor(state, card, anyColor).Some?)
      && (s.drawButtonPressed <==> PlayDetailsFor(state, card, anyColor).Some?)
      && (s.turn != state.turn ==> s.turn == Other(state.turn))
      && PlayerDeckOf(s, state.turn) == PlayerDeckOf(state, state.turn) + [Some(card)]
      && OpponentDeckOf(s, state.turn) == OpponentDeckOf(state, state.turn)
  {
    var card := Top(state.drawCardPile).value;
    PlayAcceptedIff(state, card, anyColor);
    ReceivedFields(state, DrawUpdate(state).value);
  }

  // ------------------------------------------------------- onSkipButtonHandler

  /** The record `onSkipButtonHandler` emits: the other player's turn, the draw button released, nothing else. */
  function SkipUpdate(state: RoomState): (u: RoomPatch)
    ensures u == NO_KEYS.(turn := u.turn, drawButtonPressed := u.drawButtonPressed)
  {
    NO_KEYS.(turn := Some(Other(state.turn)), drawButtonPressed := Some(false))
  }

  /** The skip button always passes the turn, and pressing it on both sides hands the turn back. */
  lemma SkipPassesTurn(state: RoomState)
    requires state.turn == PLAYER_1 || state.turn == PLAYER_2
    ensures var s := Received(state, SkipUpdate(state));
      && s.turn == Other(state.turn) && !s.drawButtonPressed
      && s.(turn := state.turn, drawButtonPressed := state.drawButtonPressed, isUnoButtonPressed := state.isUnoButtonPressed) == state
      && Received(s, SkipUpdate(s)).turn == state.turn
  {
    ReceivedFields(state, SkipUpdate(state));
    var s := Received(state, SkipUpdate(state));
    ReceivedFields(s, SkipUpdate(s));
  }

  // ------------------------------------------------------------ conservation

  /** Every card in the room: both hands, the played pile and the draw pile. */
  function AllCards(state: RoomState): multiset<Slot> {
    multiset(state.player1Deck) + multiset(state.player2Deck) + multiset(state.playedCardsPile) + multiset(state.drawCardPile)
  }

  /** With the card at index `i`, the two slices are the hand without position `i`. */
  lemma WithoutIndexIsCut(deck: seq<Slot>, i: nat)
    requires i < |deck|
    ensures WithoutIndex(deck, i) == deck[..i] + deck[i + 1..]
  {
    assert JsSlice(deck, 0, i) == deck[..i];
    assert JsSlice(deck, i + 1, |deck|) == deck[i + 1..];
  }

  /** Taking out one position removes exactly that entry. */
  lemma CutRemovesOne(deck: seq<Slot>, i: nat)
    requires i < |deck|
    ensures multiset(deck[..i] + deck[i + 1..]) + multiset{deck[i]} == multiset(deck)
  {
    assert deck == deck[..i] + [deck[i]] + deck[i + 1..];
  }

  /** Cutting out the first occurrence of a card in the hand removes exactly that card. */
  lemma WithoutIndexRemovesOne(deck: seq<Slot>, card: Slot)
    requires card in deck
    ensures var r := WithoutIndex(deck, IndexOf(deck, card));
      && |r| == |deck| - 1
      && multiset(r) + multiset{card} == multiset(deck)
  {
    var i := IndexOf(deck, card);
    WithoutIndexIsCut(deck, i);
    CutRemovesOne(deck, i);
  }

  /** A card the hand does not hold is not cut out: `indexOf` gives -1 and the slices repeat the hand after all but its last card. */
  lemma WithoutMissingCard(deck: seq<Slot>, card: Slot)
    requires card !in deck && |deck| > 0
    ensures WithoutIndex(deck, IndexOf(deck, card)) == deck[..|deck| - 1] + deck
  {
    assert JsSlice(deck, 0, -1) == deck[..|deck| - 1];
    assert JsSlice(deck, 0, |deck|) == deck;
  }

  /** The top `k` cards and the rest of the pile are together the whole pile. */
  lemma {:induction false} TopCardsConserve(pile: seq<Slot>, k: nat)
    requires k <= |pile|
    ensures multiset(TopCards(pile, k)) + multiset(pile[..|pile| - k]) == multiset(pile)
    decreases k
  {
    if k > 0 {
      var n := |pile|;
      var pile' := pile[..n - 1];
      TopCardsConserve(pile', k - 1);
      assert pile'[..|pile'| - (k - 1)] == pile[..n - k];
      assert pile == pile' + [pile[n - 1]];
    } else {
      assert pile[..|pile|] == pile;
    }
  }

  /** The card moves of a play, on the four piles alone: nothing is created or lost while the draw pile lasts. */
  lemma MovesConserve(playerDeck: seq<Slot>, opponentDeck: seq<Slot>, played: seq<Slot>, pile: seq<Slot>,
                      card: string, k: nat, uno: nat,
                      playerAfter: seq<Slot>, opponentAfter: seq<Slot>, playedAfter: seq<Slot>, pileAfter: seq<Slot>)
    requires Some(card) in playerDeck && k + uno <= |pile|
    requires playerAfter == WithoutIndex(playerDeck, IndexOf(playerDeck, Some(card))) + TopCards(pile[..|pile| - k], uno)
    requires opponentAfter == opponentDeck + TopCards(pile, k)
    requires playedAfter == played + [Some(card)]
    requires pileAfter == pile[..|pile| - k - uno]
    ensures multiset(playerAfter) + multiset(opponentAfter) + multiset(playedAfter) + multiset(pileAfter)
      == multiset(playerDeck) + multiset(opponentDeck) + multiset(played) + multiset(pile)
  {
    var pile1 := pile[..|pile| - k];
    WithoutIndexRemovesOne(playerDeck, Some(card));
    TopCardsConserve(pile, k);
    TopCardsConserve(pile1, uno);
    assert pile1[..|pile1| - uno] == pile[..|pile| - k - uno];
  }

  /**
   * Card conservation of a play: when the player whose turn it is plays a
   * card of their hand and the draw pile covers the penalties, the room
   * holds the same cards afterwards, and the card is on top of the played
   * pile.
   */
  lemma PlayConservesCards(state: RoomState, d: PlayDetails)
    requires d.cardPlayedBy == PLAYER_1 || d.cardPlayedBy == PLAYER_2
    requires Some(d.playedCard) in PlayerDeckOf(state, d.cardPlayedBy)
    requires OpponentPenalty(d) + UnoPenalty(state, PlayerDeckOf(state, d.cardPlayedBy)) <= |state.drawCardPile|
    ensures var s := Received(state, PlayUpdate(state, d));
      && AllCards(s) == AllCards(state)
      && s.playedCardsPile == state.playedCardsPile + [Some(d.playedCard)]
  {
    var s := Received(state, PlayUpdate(state, d));
    var p := d.cardPlayedBy;
    var playerDeck := PlayerDeckOf(state, p);
    PlayPenalties(state, d);
    PlayReceived(state, d);
    MovesConserve(playerDeck, OpponentDeckOf(state, p), state.playedCardsPile, state.drawCardPile, d.playedCard,
                  OpponentPenalty(d), UnoPenalty(state, playerDeck),
                  PlayerDeckOf(s, p), OpponentDeckOf(s, p), s.playedCardsPile, s.drawCardPile);
    AllCardsSeenBy(state, p);
    AllCardsSeenBy(s, p);
  }

  /** The room's cards counted from one player's side: their hand, the other hand and the two piles. */
  lemma AllCardsSeenBy(state: RoomState, player: string)
    ensures AllCards(state) == multiset(PlayerDeckOf(state, player)) + multiset(OpponentDeckOf(state, player))
      + multiset(state.playedCardsPile) + multiset(state.drawCardPile)
  {
  }

  /** Card conservation of a draw: the top card of the draw pile moves into the hand of the player whose turn it is. */
  lemma DrawConservesCards(state: RoomState)
    requires Top(state.drawCardPile).Some?
    requires state.turn == PLAYER_1 || state.turn == PLAYER_2
    ensures AllCards(Received(state, DrawUpdate(state).value)) == AllCards(state)
  {
    var pile := state.drawCardPile;
    var n := |pile|;
    ReceivedFields(state, DrawUpdate(state).value);
    assert pile == pile[..n - 1] + [pile[n - 1]];
  }

  /**
   * The game ends exactly when a player plays the last card of their hand:
   * the emitted `gameOver` is set, and the winner named, exactly when the
   * player's hand is left empty.
   */
  lemma GameOverIffHandEmptied(state: RoomState, d: PlayDetails)
    requires d.cardPlayedBy == PLAYER_1 || d.cardPlayedBy == PLAYER_2
    requires Some(d.playedCard) in PlayerDeckOf(state, d.cardPlayedBy)
    ensures var u := PlayUpdate(state, d);
      var after := if d.cardPlayedBy == PLAYER_1 then u.player1Deck.value else u.player2Deck.value;
      && (u.gameOver == Some(true) <==> |after| == 0)
      && (u.winner == Some(d.cardPlayedBy) <==> |after| == 0)
      && (|after| != 0 ==> u.winner == Some(""))
  {
    var playerDeck := PlayerDeckOf(state, d.cardPlayedBy);
    var opponentDeck := OpponentDeckOf(state, d.cardPlayedBy);
    var removed := WithoutIndex(playerDeck, IndexOf(playerDeck, Some(d.playedCard)));
    var pile1 := PopsOnto(state.drawCardPile, opponentDeck, OpponentPenalty(d)).0;
    WithoutIndexRemovesOne(playerDeck, Some(d.playedCard));
    PopsOntoLength(pile1, removed, UnoPenalty(state, playerDeck));
  }
}
