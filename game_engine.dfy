/**
 * The state transitions of the hashed off-chain engine:
 * `initializeOffChainState`, `startGame`, `applyActionToOffChainState` and
 * `getNextPlayer`. The clock (`Date.now() / 1000`) and `Math.random()` are
 * parameters.
 */
module GameEngine {
  import opened Wrappers
  import opened UnoTypes
  import opened JsBuiltins
  import opened Commitments
  import opened DeckLogic
  import opened ModArith
  import opened JsNumbers

  // ------------------------------------------------------ initializeOffChainState

  /** `initializeOffChainState(gameId, players)` at clock time `now` (seconds). */
  function InitializeOffChainState(keccak: Keccak, gameId: nat, players: seq<string>, now: nat): (s: OffChainGameState)
    ensures s.id == gameId && s.players == players && s.isActive
    ensures s.currentPlayerIndex == 0 && s.turnCount == 0 && s.directionClockwise
    ensures s.lastActionTimestamp == now && !s.isStarted
    ensures s.playerHandsHash == [] && s.deckHash == "" && s.discardPileHash == ""
    ensures s.currentColor == None && s.currentValue == None && s.lastPlayedCardHash == None
    ensures s.stateHash == HashState(keccak, s.(stateHash := ""))
    ensures Committed(keccak, s)
  {
    var initial := OffChainGameState(gameId, players, true, 0, now, 0, true, [], "", "",
                                     None, None, None, "", false);
    var s := initial.(stateHash := HashState(keccak, initial));
    HashStateDependsOnFieldsOnly(keccak, s, initial);
    s
  }

  // ---------------------------------------------------------------- startGame

  function Min(a: nat, b: nat): nat {
    if a <= b then a else b
  }

  /** What `deck.splice(0, 7)` takes for the `k`-th player: positions 7k..7k+6, fewer if the deck runs out. */
  function HandAt(deck: seq<Card>, k: nat): seq<Card> {
    deck[Min(7 * k, |deck|)..Min(7 * k + 7, |deck|)]
  }

  /** `playerHandsHash` after dealing to `players` in order; a repeated player keeps its first slot and the last hand. */
  function DealHands(keccak: Keccak, deck: seq<Card>, players: seq<string>): seq<(string, Hash)>
    decreases |players|
  {
    if |players| == 0 then []
    else
      var k := |players| - 1;
      ObjectSet(DealHands(keccak, deck, players[..k]), players[k], HashCards(keccak, HandAt(deck, k)))
  }

  /**
   * `startGame` on an already shuffled deck: deal, pop the discard, hash the
   * rest, pick the first player. With 16 or more players the deck is empty
   * when the discard is popped; the source then reads a field of
   * `undefined` and throws.
   */
  function StartWithDeck(keccak: Keccak, state: OffChainGameState, deck: seq<Card>, random: real)
    : Result<OffChainGameState, string>
    requires 0.0 <= random < 1.0
  {
    var n := |state.players|;
    if |deck| <= 7 * n then Err("TypeError: no card left for the discard pile")
    else
      var first := deck[|deck| - 1];
      var s := state.(
        playerHandsHash := DealHands(keccak, deck, state.players),
        discardPileHash := HashCards(keccak, [first]),
        currentColor := Some(first.color),
        currentValue := Some(first.value),
        lastPlayedCardHash := Some(HashCard(keccak, first)),
        deckHash := HashCards(keccak, deck[7 * n..|deck| - 1]),
        currentPlayerIndex := RandomIndex(random, n),
        isStarted := true);
      Ok(s.(stateHash := HashState(keccak, s)))
  }

  /** `startGame(state)`: the deck is `shuffleDeck(createDeck(), Number(state.id))`. */
  function Started(keccak: Keccak, state: OffChainGameState, random: real): Result<OffChainGameState, string>
    requires 0.0 <= random < 1.0
  {
    match Shuffle(CanonicalDeck(), ToNumber(state.id))
    case None => Err("TypeError: the shuffle read past the end of the deck")
    case Some(deck) => StartWithDeck(keccak, state, deck, random)
  }

  /** One `forEach` step of the deal: the next seven cards go to player `k`. */
  lemma DealStep(keccak: Keccak, dealt: seq<Card>, players: seq<string>, k: nat)
    requires k < |players|
    ensures var rest := dealt[Min(7 * k, |dealt|)..];
      && rest[..Min(7, |rest|)] == HandAt(dealt, k)
      && rest[Min(7, |rest|)..] == dealt[Min(7 * (k + 1), |dealt|)..]
    ensures DealHands(keccak, dealt, players[..k + 1])
      == ObjectSet(DealHands(keccak, dealt, players[..k]), players[k], HashCards(keccak, HandAt(dealt, k)))
  {
    assert players[..k + 1][..k] == players[..k];
  }

  /** The last card of a suffix, and the suffix without it. */
  lemma DropLast(s: seq<Card>, i: nat)
    requires i < |s|
    ensures s[i..][|s| - i - 1] == s[|s| - 1]
    ensures s[i..][..|s| - i - 1] == s[i..|s| - 1]
  {
  }

  /** `startGame`: the input record is a value and is not changed. */
  method StartGame(keccak: Keccak, state: OffChainGameState, random: real) returns (r: Result<OffChainGameState, string>)
    requires 0.0 <= random < 1.0
    ensures r == Started(keccak, state, random)
  {
    var created := CreateDeck();
    var shuffled := ShuffleDeck(created, ToNumber(state.id));
    if shuffled.None? {
      return Err("TypeError: the shuffle read past the end of the deck");
    }
    r := DealAndReveal(keccak, state, shuffled.value, random);
  }

  /** The `players.forEach` of `startGame`: each player in turn takes `deck.splice(0, 7)`. */
  method Deal(keccak: Keccak, dealt: seq<Card>, players: seq<string>) returns (hands: seq<(string, Hash)>, deck: seq<Card>)
    ensures hands == DealHands(keccak, dealt, players)
    ensures deck == dealt[Min(7 * |players|, |dealt|)..]
  {
    deck := dealt;
    hands := [];
    for k := 0 to |players|
      invariant hands == DealHands(keccak, dealt, players[..k])
      invariant deck == dealt[Min(7 * k, |dealt|)..]
    {
      var take := Min(7, |deck|);
      var hand := deck[..take];
      DealStep(keccak, dealt, players, k);
      deck := deck[take..];
      hands := ObjectSet(hands, players[k], HashCards(keccak, hand));
    }
    assert players[..|players|] == players;
  }

  /** The body of `startGame` after the shuffle: the `forEach` deal, the `pop`, the field assignments. */
  method DealAndReveal(keccak: Keccak, state: OffChainGameState, dealt: seq<Card>, random: real)
    returns (r: Result<OffChainGameState, string>)
    requires 0.0 <= random < 1.0
    ensures r == StartWithDeck(keccak, state, dealt, random)
  {
    var hands, deck := Deal(keccak, dealt, state.players);
    if |deck| == 0 {
      return Err("TypeError: no card left for the discard pile");
    }
    assert Min(7 * |state.players|, |dealt|) == 7 * |state.players|;
    DropLast(dealt, 7 * |state.players|);
    var first := deck[|deck| - 1];
    deck := deck[..|deck| - 1];
    var newState := state.(
      playerHandsHash := hands,
      discardPileHash := HashCards(keccak, [first]),
      currentColor := Some(first.color),
      currentValue := Some(first.value),
      lastPlayedCardHash := Some(HashCard(keccak, first)),
      deckHash := HashCards(keccak, deck),
      currentPlayerIndex := RandomIndex(random, |state.players|),
      isStarted := true);
    newState := newState.(stateHash := HashState(keccak, newState));
    return Ok(newState);
  }

  /** With distinct players, `playerHandsHash` lists every player once, in order, with the hash of their seven cards. */
  lemma {:induction false} DealHandsDistinct(keccak: Keccak, deck: seq<Card>, players: seq<string>)
    requires NoDuplicates(players)
    ensures |DealHands(keccak, deck, players)| == |players|
    ensures forall i :: 0 <= i < |players| ==>
      DealHands(keccak, deck, players)[i] == (players[i], HashCards(keccak, HandAt(deck, i)))
    decreases |players|
  {
    if |players| > 0 {
      var k := |players| - 1;
      var front := players[..k];
      assert NoDuplicates(front);
      DealHandsDistinct(keccak, deck, front);
      assert players[k] !in front;
      KeysAbsent(DealHands(keccak, deck, front), front, players[k]);
    }
  }

  /** An entry list whose keys are `keys` has no entry for a key outside them. */
  lemma {:induction false} KeysAbsent<V>(entries: seq<(string, V)>, keys: seq<string>, key: string)
    requires |entries| == |keys| && forall i :: 0 <= i < |keys| ==> entries[i].0 == keys[i]
    requires key !in keys
    ensures ObjectGet(entries, key) == None
    decreases |entries|
  {
    if |entries| > 0 {
      KeysAbsent(entries[1..], keys[1..], key);
    }
  }

  /** With distinct players, player `k`'s hand commitment is `hashCards` of positions 7k..7k+6. */
  lemma DealtHandOf(keccak: Keccak, deck: seq<Card>, players: seq<string>, k: nat)
    requires NoDuplicates(players) && k < |players| && 7 * |players| <= |deck|
    ensures ObjectGet(DealHands(keccak, deck, players), players[k]) == Some(HashCards(keccak, deck[7 * k..7 * k + 7]))
  {
    DealHandsDistinct(keccak, deck, players);
    var hands := DealHands(keccak, deck, players);
    assert hands[..k] + hands[k..] == hands;
    KeysAbsent(hands[..k], players[..k], players[k]);
    ObjectGetAfter(hands[..k], hands[k..], players[k]);
  }

  lemma {:induction false} ObjectGetAfter<V>(front: seq<(string, V)>, back: seq<(string, V)>, key: string)
    requires ObjectGet(front, key) == None
    ensures ObjectGet(front + back, key) == ObjectGet(back, key)
    decreases |front|
  {
    if |front| > 0 {
      assert front[0].0 != key;
      assert (front + back)[0] == front[0];
      assert (front + back)[1..] == front[1..] + back;
      ObjectGetAfter(front[1..], back, key);
      assert ObjectGet(front + back, key) == ObjectGet(front[1..] + back, key);
    } else {
      assert front + back == back;
    }
  }

  /** The fields `startGame` leaves alone. */
  predicate KeepsIdentity(before: OffChainGameState, after: OffChainGameState) {
    && after.id == before.id && after.players == before.players && after.isActive == before.isActive
    && after.turnCount == before.turnCount && after.lastActionTimestamp == before.lastActionTimestamp
    && after.directionClockwise == before.directionClockwise
  }

  /**
   * `startGame` succeeds exactly when there are at most 15 players (the
   * shuffle never runs past the deck); it then deals from the shuffled 108-card deck, takes
   * its last remaining card as the discard, hashes what is in between as the
   * deck, picks a first player in range and commits to the new record.
   */
  lemma StartedState(keccak: Keccak, state: OffChainGameState, random: real)
    requires 0.0 <= random < 1.0
    ensures var r := Started(keccak, state, random);
      r.Ok? <==> |state.players| <= 15
    ensures var r := Started(keccak, state, random);
      r.Ok? ==>
        var deck := Shuffle(CanonicalDeck(), ToNumber(state.id)).value;
        var n := |state.players|;
        && |deck| == 108
        && r.value.isStarted && Committed(keccak, r.value) && KeepsIdentity(state, r.value)
        && (n > 0 ==> r.value.currentPlayerIndex < n)
        && r.value.currentColor == Some(deck[107].color) && r.value.currentValue == Some(deck[107].value)
        && r.value.lastPlayedCardHash == Some(HashCard(keccak, deck[107]))
        && r.value.discardPileHash == HashCards(keccak, [deck[107]])
        && r.value.deckHash == HashCards(keccak, deck[7 * n..107])
        && r.value.playerHandsHash == DealHands(keccak, deck, state.players)
  {
    ShuffledDeckIsFull(ToNumber(state.id));
    ShuffleNeverFails(CanonicalDeck(), ToNumber(state.id));
    var r := Started(keccak, state, random);
    if r.Ok? {
      var s := r.value;
      HashStateDependsOnFieldsOnly(keccak, s, s.(stateHash := ""));
    }
  }

  /** The deck `startGame` deals from is a full UNO deck: 108 cards in the standard composition. */
  lemma ShuffledDeckIsFull(seed: nat)
    ensures Shuffle(CanonicalDeck(), seed).Some? ==>
      var deck := Shuffle(CanonicalDeck(), seed).value;
      |deck| == 108 && forall c :: multiset(deck)[c] == UnoCopies(c)
  {
    ShufflePermutes(CanonicalDeck(), seed);
    CanonicalDeckComposition();
  }

  /** The hands of the first `n` players, one after another. */
  function DealtCards(deck: seq<Card>, n: nat): seq<Card>
    decreases n
  {
    if n == 0 then [] else DealtCards(deck, n - 1) + HandAt(deck, n - 1)
  }

  /** While the deck lasts, the first `n` hands are exactly the first `7n` cards. */
  lemma {:induction false} DealtCardsPrefix(deck: seq<Card>, n: nat)
    requires 7 * n <= |deck|
    ensures DealtCards(deck, n) == deck[..7 * n]
    decreases n
  {
    if n > 0 {
      DealtCardsPrefix(deck, n - 1);
      assert HandAt(deck, n - 1) == deck[7 * (n - 1)..7 * n];
      assert deck[..7 * (n - 1)] + deck[7 * (n - 1)..7 * n] == deck[..7 * n];
    }
  }

  /**
   * The hands `startGame` commits to (player `k` taking positions 7k..7k+6),
   * the cards it hashes as the deck and the discard partition the dealt deck:
   * every card is committed exactly once.
   */
  lemma DealPartitionsDeck(deck: seq<Card>, n: nat)
    requires 7 * n < |deck|
    ensures forall k :: 0 <= k < n ==> HandAt(deck, k) == deck[7 * k..7 * k + 7]
    ensures DealtCards(deck, n) + deck[7 * n..|deck| - 1] + [deck[|deck| - 1]] == deck
    ensures multiset(DealtCards(deck, n)) + multiset(deck[7 * n..|deck| - 1]) + multiset{deck[|deck| - 1]} == multiset(deck)
  {
    DealtCardsPrefix(deck, n);
    assert deck[..7 * n] + deck[7 * n..|deck| - 1] + [deck[|deck| - 1]] == deck;
    calc {
      multiset(deck);
      multiset(deck[..7 * n] + deck[7 * n..|deck| - 1] + [deck[|deck| - 1]]);
      multiset(deck[..7 * n] + deck[7 * n..|deck| - 1]) + multiset([deck[|deck| - 1]]);
      multiset(deck[..7 * n]) + multiset(deck[7 * n..|deck| - 1]) + multiset{deck[|deck| - 1]};
    }
  }

  // ---------------------------------------------------- applyActionToOffChainState

  /**
   * `applyActionToOffChainState`. The action is seen only through its `type`
   * field: `None` is an action object without one, as the decoder builds.
   * `playCard` and `drawCard` only advance the turn. With no players the next
   * index is `NaN`, which the state hash cannot encode.
   */
  function Applied(keccak: Keccak, state: OffChainGameState, kind: Option<ActionType>, now: nat, random: real)
    : Result<OffChainGameState, string>
    requires 0.0 <= random < 1.0
  {
    if kind == Some(ActionType.StartGame) then Started(keccak, state, random)
    else Advanced(keccak, state, now)
  }

  /** The branch every action but `startGame` takes: the turn moves on, is counted and stamped, and the state recommits. */
  function Advanced(keccak: Keccak, state: OffChainGameState, now: nat): Result<OffChainGameState, string> {
    if |state.players| == 0 then Err("TypeError: the next player index is NaN")
    else
      var s := state.(
        currentPlayerIndex := (state.currentPlayerIndex + 1) % |state.players|,
        turnCount := state.turnCount + 1,
        lastActionTimestamp := now);
      Ok(s.(stateHash := HashState(keccak, s)))
  }

  method ApplyActionToOffChainState(keccak: Keccak, state: OffChainGameState, kind: Option<ActionType>, now: nat, random: real)
    returns (r: Result<OffChainGameState, string>)
    requires 0.0 <= random < 1.0
    ensures r == Applied(keccak, state, kind, now, random)
  {
    if kind == Some(ActionType.StartGame) {
      r := StartGame(keccak, state, random);
      return;
    }
    if |state.players| == 0 {
      return Err("TypeError: the next player index is NaN");
    }
    var newState := state;
    newState := newState.(currentPlayerIndex := (newState.currentPlayerIndex + 1) % |newState.players|);
    newState := newState.(turnCount := newState.turnCount + 1);
    newState := newState.(lastActionTimestamp := now);
    newState := newState.(stateHash := HashState(keccak, newState));
    return Ok(newState);
  }

  /**
   * A `playCard` or `drawCard` action, or one without a `type`, advances the
   * turn to the next index modulo the number of players, counts it, stamps it
   * and recommits; no other field changes. It fails exactly when there are no
   * players.
   */
  lemma AdvancedTurn(keccak: Keccak, state: OffChainGameState, now: nat)
    ensures var r := Advanced(keccak, state, now);
      && (r.Ok? <==> |state.players| > 0)
      && (r.Ok? ==>
        && r.value.currentPlayerIndex == (state.currentPlayerIndex + 1) % |state.players|
        && r.value.currentPlayerIndex < |state.players|
        && r.value.turnCount == state.turnCount + 1
        && r.value.lastActionTimestamp == now
        && Committed(keccak, r.value)
        && r.value.(currentPlayerIndex := state.currentPlayerIndex, turnCount := state.turnCount,
                    lastActionTimestamp := state.lastActionTimestamp, stateHash := state.stateHash) == state)
  {
    var r := Advanced(keccak, state, now);
    if r.Ok? {
      HashStateDependsOnFieldsOnly(keccak, r.value, r.value.(stateHash := ""));
    }
  }

  /** `startGame` actions are handed to `startGame` whole; every other action has the same effect whatever its type. */
  lemma AppliedDispatch(keccak: Keccak, state: OffChainGameState, kind: Option<ActionType>, now: nat, random: real)
    requires 0.0 <= random < 1.0
    ensures kind == Some(ActionType.StartGame) ==> Applied(keccak, state, kind, now, random) == Started(keccak, state, random)
    ensures kind != Some(ActionType.StartGame) ==> Applied(keccak, state, kind, now, random) == Advanced(keccak, state, now)
  {
  }

  // ------------------------------------------------------------ getNextPlayer

  /**
   * `getNextPlayer(currentPlayer, playerHands)` over `Object.keys(playerHands)`:
   * the key after the first occurrence of `current`, wrapping around; the first
   * key when `current` is not a key (`indexOf` gives -1); undefined without keys.
   */
  function GetNextPlayer(keys: seq<string>, current: string): (next: Option<string>)
    ensures |keys| == 0 <==> next.None?
    ensures next.Some? ==> next.value in keys
    ensures |keys| > 0 && current !in keys ==> next == Some(keys[0])
    ensures forall i {:trigger keys[..i]} :: 0 <= i < |keys| && keys[i] == current && current !in keys[..i] ==>
      next == Some(keys[(i + 1) % |keys|])
  {
    if |keys| == 0 then None
    else
      var i := IndexOf(keys, current);
      Some(keys[(i + 1) % |keys|])
  }

  /** The player reached from `p` after `k` calls of `getNextPlayer`. */
  function FollowNext(keys: seq<string>, p: string, k: nat): Option<string>
    decreases k
  {
    if k == 0 then Some(p)
    else
      match GetNextPlayer(keys, p)
      case None => None
      case Some(q) => FollowNext(keys, q, k - 1)
  }

  /** The index one step round a ring of `n`. */
  function Succ(i: nat, n: nat): nat {
    if i + 1 == n then 0 else i + 1
  }

  /** The index `k` steps round a ring of `n`. */
  function Rotate(i: nat, k: nat, n: nat): nat
    decreases k
  {
    if k == 0 then i else Rotate(Succ(i, n), k - 1, n)
  }

  /** With distinct keys, the player after key `i` is key `(i + 1) mod n`, the next index round the ring. */
  lemma NextOfKey(keys: seq<string>, i: nat)
    requires NoDuplicates(keys) && i < |keys|
    ensures GetNextPlayer(keys, keys[i]) == Some(keys[Succ(i, |keys|)])
  {
    assert keys[i] !in keys[..i];
    if i + 1 == |keys| {
      ModUnique(i + 1, |keys|, 1, 0);
    } else {
      ModUnique(i + 1, |keys|, 0, i + 1);
    }
  }

  /** With distinct keys, `getNextPlayer` walks round the keys in order. */
  lemma {:induction false} FollowNextRotates(keys: seq<string>, i: nat, k: nat)
    requires NoDuplicates(keys) && i < |keys|
    ensures Rotate(i, k, |keys|) < |keys|
    ensures FollowNext(keys, keys[i], k) == Some(keys[Rotate(i, k, |keys|)])
    decreases k
  {
    if k > 0 {
      NextOfKey(keys, i);
      FollowNextRotates(keys, Succ(i, |keys|), k - 1);
    }
  }

  /** `k` steps round the ring from `i` land on `(i + k) mod n`. */
  lemma {:induction false} RotateIsMod(i: nat, k: nat, n: nat)
    requires i < n
    ensures Rotate(i, k, n) == (i + k) % n
    decreases k
  {
    if k == 0 {
      ModUnique(i, n, 0, i);
    } else {
      RotateIsMod(Succ(i, n), k - 1, n);
      if i + 1 == n {
        ModAddBase(k - 1, n);
      }
    }
  }

  /** So `k` turns after key `i` it is key `(i + k) mod n`'s turn, and after `n` turns the turn is back where it started. */
  lemma FollowNextRoundTrip(keys: seq<string>, i: nat, k: nat)
    requires NoDuplicates(keys) && i < |keys|
    ensures FollowNext(keys, keys[i], k) == Some(keys[(i + k) % |keys|])
    ensures FollowNext(keys, keys[i], |keys|) == Some(keys[i])
  {
    FollowNextRotates(keys, i, k);
    RotateIsMod(i, k, |keys|);
    FollowNextRotates(keys, i, |keys|);
    RotateIsMod(i, |keys|, |keys|);
    ModUnique(i + |keys|, |keys|, 1, i);
  }
}
