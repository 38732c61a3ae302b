# Game of UNO: a Dafny model of the rules core

This project models the rules core of the Game of UNO repository (a web UNO
game whose moves are committed to a chain as hashes) and proves properties of
that model. It covers four parts of the repository.

- **The hashed off-chain engine** (`unogameui/src/lib/gameLogic.ts`):
  - the play check (`isValidPlay`, `canPlay`);
  - the 108-card deck builder and the seeded shuffle;
  - the state record and its creation, the game start and the action step;
  - the next-player rotation and the four keccak commitments.
- **Around the engine's state:**
  - the hashed discard pile (`discardPile.ts`);
  - the global card-hash registry (`globalState.ts`);
  - the replay of the on-chain action log, which rebuilds the off-chain state, with its guess-and-check action decoder and its consistency check (`stateManagement.ts`).
- **The two-player room of the browser client**
  (`unogameui/src/components/gameroom/Game.js`):
  - string cards such as `"5R"`, `"skipG"`, `"D2B"`, `"W"` and `"D4W"`;
  - the shallow-merge reducer and the `updateGameState` listener;
  - the play, draw and skip handlers with their penalty pops.
- **The backend's 52-card `Deck` class** (`backend/index.js`) and its
  `cardValues` table.

Keccak over the ABI encoding is a function-typed parameter `keccak` over the
typed field tuple. Nothing relies on collision resistance. What is proved is
which fields feed each hash, in which order.

JavaScript Numbers are doubles. Their rounding is modelled where it changes
results: the seeded shuffle's product `seed * 1103515245` exceeds 2^53.
Because of that rounding, the generator can never produce the one value that
would make the shuffle index past the end of the deck.

The following become parameters:
- the clock (`Date.now() / 1000`);
- `Math.random()`, as numbers in [0, 1);
- the colour chosen in the wild-card dialog.

A handler of the room does not change state: it returns the record it would
emit. The listener's effect on the room is `Received(state, record)`.

Files, one module each:
- `wrappers.dfy`: `Option` and `Result`.
- `js_builtins.dfy`: `indexOf`, `slice`, `charAt` and `Math.floor(random * n)`.
- `uno_types.dfy`: the types.
- `commitments.dfy`: the hashes.
- `deck_logic.dfy`: the play check, the deck and the shuffle.
- `game_engine.dfy`: the state transitions.
- `discard_pile.dfy`, `global_state.dfy`: the two classes.
- `state_management.dfy`: the replay, the decoder and the check.
- `game_room.dfy`: the room.
- `backend_deck.dfy`: the backend deck.
- `js_numbers.dfy`: the rounding of integers to JavaScript Numbers.
- `mod_arith.dfy`: modular arithmetic lemmas.

## Model

| member | source | states |
|---|---|---|
| Commitments.CardHashes | unogameui/src/lib/gameLogic.ts:189-190 | one `hashCard` commitment per card, in the cards' order |
| Commitments.StateEncoding | unogameui/src/lib/gameLogic.ts:143-163 | the fourteen fields `hashState` encodes, in the source's order: the id first, the players second, `isStarted` last; what follows from it is stated by Commitments.HashStateDependsOnFieldsOnly and Commitments.HandOrderReachesEncoding |
| Commitments.HashStateDependsOnFieldsOnly | unogameui/src/lib/gameLogic.ts:143-165 | two states that agree on the fourteen encoded fields have the same `hashState`; the old `stateHash` does not feed it |
| Commitments.RecommitIsStable | unogameui/src/lib/gameLogic.ts:143-165 | recommitting a state after overwriting its `stateHash` gives a committed state, with the same hash whatever was overwritten |
| Commitments.HashActionMissingCardIsEmpty | unogameui/src/lib/gameLogic.ts:167-178 | an action without `cardHash` hashes like one whose `cardHash` is the empty string |
| Commitments.HashCardsDependsOnCardHashesOnly | unogameui/src/lib/gameLogic.ts:189-194 | `hashCards` sees the cards only through the ordered list of their card commitments |
| Commitments.HandOrderReachesEncoding | unogameui/src/lib/gameLogic.ts:155 | the insertion order of `playerHandsHash` reaches the encoded JSON: any two entries under different keys without a `"` (addresses), swapped, serialise differently |
| Commitments.JsonObjectOpens | unogameui/src/lib/gameLogic.ts:155 | `JSON.stringify` of a non-empty object opens with `{"`, the first key and that key's closing quote |
| Commitments.HashCard | unogameui/src/lib/gameLogic.ts:180-187 | `hashCard` as keccak over (colour, value); its meaning is stated by Commitments.CardHashes and Commitments.HashCardsDependsOnCardHashesOnly |
| Commitments.HashCards | unogameui/src/lib/gameLogic.ts:189-194 | `hashCards` as keccak over the `bytes32[]` of card commitments; stated by Commitments.CardHashes and Commitments.HashCardsDependsOnCardHashesOnly |
| Commitments.HashAction | unogameui/src/lib/gameLogic.ts:167-178 | `hashAction` over (type, player, card hash or empty string); stated by Commitments.HashActionMissingCardIsEmpty |
| Commitments.HashState | unogameui/src/lib/gameLogic.ts:143-165 | `hashState` over the fourteen fields; stated by Commitments.StateEncoding, Commitments.HashStateDependsOnFieldsOnly and Commitments.RecommitIsStable |
| DeckLogic.IsValidPlay | unogameui/src/lib/gameLogic.ts:7-12 | `isValidPlay`; stated by DeckLogic.IsValidPlayCases and used by DeckLogic.CanPlay |
| DeckLogic.IsValidPlayCases | unogameui/src/lib/gameLogic.ts:7-12 | before the start (null colour and value) only wilds are playable; every card matches the colour and value it sets; a coloured card is playable exactly when it shares the current colour or value |
| DeckLogic.CanPlay | unogameui/src/lib/gameLogic.ts:7-16 | true exactly when some card of the hand is wild, has the current colour or has the current value |
| DeckLogic.PushColor | unogameui/src/lib/gameLogic.ts:21-26 | one colour's inner loop appends that colour's block: each value once, and each value but '0' a second time |
| DeckLogic.CreateDeck | unogameui/src/lib/gameLogic.ts:18-34 | the deck in push order: four colour blocks, then four rounds of wild and wild draw four; 108 cards in the standard composition |
| DeckLogic.CanonicalDeckCount | unogameui/src/lib/gameLogic.ts:18-34 | each card occurs in the built deck as often as the standard UNO deck holds it |
| DeckLogic.CanonicalDeckComposition | unogameui/src/lib/gameLogic.ts:18-34 | the built deck has 108 cards: one 0 and two of every other coloured value per colour, four wilds and four wild draw fours |
| JsNumbers.ToNumberRange | unogameui/src/lib/gameLogic.ts:43 | JavaScript's rounding of an integer to a Number is exact below 2^53; above that it gives an even Number that is still at least 2^53 |
| JsNumbers.ToNumberIsMultiple | unogameui/src/lib/gameLogic.ts:43 | the rounded value is a multiple of the spacing of the doubles around the integer |
| JsNumbers.ToNumberIsNearest | unogameui/src/lib/gameLogic.ts:43 | the rounded value lies at most half a spacing from the integer |
| DeckLogic.LcgInverse | unogameui/src/lib/gameLogic.ts:43 | in exact arithmetic, the only seed below 2^31 whose generator step is `0x7fffffff` is 230538014 |
| DeckLogic.NextSeed | unogameui/src/lib/gameLogic.ts:42-45 | the generator step on Numbers; its result is at most `0x7fffffff` by its own contract, and below it by DeckLogic.NextSeedBelowRange |
| DeckLogic.NextSeedBelowRange | unogameui/src/lib/gameLogic.ts:42-45 | on Numbers, the generator step `(seed * 1103515245 + 12345) & 0x7fffffff` never yields `0x7fffffff`, so `random()` stays below 1 |
| DeckLogic.DrawIndex | unogameui/src/lib/gameLogic.ts:44-48 | the drawn index is at most the current index, and strictly below it exactly when the seed is below `0x7fffffff` and the index is positive |
| DeckLogic.Swap | unogameui/src/lib/gameLogic.ts:50-52 | the two positions are exchanged and every other position is unchanged |
| DeckLogic.ShuffleDeck | unogameui/src/lib/gameLogic.ts:36-56 | the in-place loop over a copy of the deck computes the shuffle function; a result is a permutation of the input, with the same length |
| DeckLogic.Shuffle | unogameui/src/lib/gameLogic.ts:36-56 | the shuffle as a function of the deck and the seed; stated by DeckLogic.ShuffleDeck, DeckLogic.ShufflePermutes, DeckLogic.ShuffleFailsIff and DeckLogic.ShuffleNeverFails |
| DeckLogic.ShufflePermutes | unogameui/src/lib/gameLogic.ts:36-56 | a shuffled deck holds exactly the cards it was given, as a multiset of the same length |
| DeckLogic.ShuffleFailsIff | unogameui/src/lib/gameLogic.ts:42-52 | the loop would index past the end of the deck exactly when the deck is non-empty and the first generated seed is `0x7fffffff` |
| DeckLogic.ShuffleNeverFails | unogameui/src/lib/gameLogic.ts:36-56 | every shuffle stays inside the deck and yields a deck |
| GameEngine.InitializeOffChainState | unogameui/src/lib/gameLogic.ts:58-79 | the new record's fields have their initial values (turn 0, not started, empty hashes, no colour or value, stamped `now`), and it is committed to its own hash |
| GameEngine.Deal | unogameui/src/lib/gameLogic.ts:87-91 | the `forEach` of `splice(0, 7)` builds the entry list of hand commitments and leaves the deck after the dealt cards |
| GameEngine.DealAndReveal | unogameui/src/lib/gameLogic.ts:86-109 | after the shuffle, the deal, the discard `pop` and the field assignments compute `StartWithDeck`, or fail when no card is left for the discard |
| GameEngine.StartGame | unogameui/src/lib/gameLogic.ts:81-110 | `startGame` equals the start function on the shuffled built deck |
| GameEngine.Started | unogameui/src/lib/gameLogic.ts:81-110 | `startGame` on the shuffled built deck; stated by GameEngine.StartedState |
| GameEngine.StartWithDeck | unogameui/src/lib/gameLogic.ts:86-109 | the deal, the discard and the field assignments on a given deck; stated by GameEngine.DealAndReveal, GameEngine.StartedState and GameEngine.DealPartitionsDeck |
| GameEngine.StartedState | unogameui/src/lib/gameLogic.ts:81-110 | the start succeeds exactly when there are at most 15 players. It then takes the last card of the 108 as the discard (colour, value, card hash, pile hash) and hashes the cards between the hands and the discard as the deck. The first player index is in range and the identity fields are kept. The record is started and committed |
| GameEngine.ShuffledDeckIsFull | unogameui/src/lib/gameLogic.ts:83 | the deck `startGame` deals from is a full 108-card deck in the standard composition |
| GameEngine.DealPartitionsDeck | unogameui/src/lib/gameLogic.ts:88-101 | hand k is positions 7k..7k+6; the hands one after another, then the cards hashed as the deck, then the discard, are the dealt deck, as a sequence and as a multiset |
| GameEngine.DealtCardsPrefix | unogameui/src/lib/gameLogic.ts:88-91 | while the deck lasts, the first n hands dealt are exactly the first 7n cards |
| GameEngine.DealHandsDistinct | unogameui/src/lib/gameLogic.ts:87-91 | with distinct players, `playerHandsHash` lists each player once, in order, with the hash of their seven cards |
| GameEngine.DealtHandOf | unogameui/src/lib/gameLogic.ts:88-91 | with distinct players, looking up player k gives `hashCards` of deck positions 7k..7k+6 |
| GameEngine.ApplyActionToOffChainState | unogameui/src/lib/gameLogic.ts:112-135 | the method computes the action-step function: `startGame` for a start action, otherwise the generic turn advance |
| GameEngine.Applied | unogameui/src/lib/gameLogic.ts:112-135 | the action step as a function; stated by GameEngine.AppliedDispatch and GameEngine.ApplyActionToOffChainState |
| GameEngine.AdvancedTurn | unogameui/src/lib/gameLogic.ts:128-134 | every action but `startGame` moves the index to `(i + 1) mod n`, counts the turn, stamps it and recommits, changing nothing else; it fails exactly when there are no players |
| GameEngine.Advanced | unogameui/src/lib/gameLogic.ts:128-134 | the generic turn advance; stated by GameEngine.AdvancedTurn |
| GameEngine.AppliedDispatch | unogameui/src/lib/gameLogic.ts:116-125 | a start action is handed to `startGame` whole; `playCard`, `drawCard` and an action without a type all have the generic effect |
| GameEngine.GetNextPlayer | unogameui/src/lib/gameLogic.ts:137-141 | undefined exactly when there are no keys; otherwise a key. It is the key after the first occurrence of the current player, wrapping round, and the first key when the current player is not a key |
| GameEngine.NextOfKey | unogameui/src/lib/gameLogic.ts:137-141 | with distinct keys, the player after key i is key i+1, and the first key after the last |
| GameEngine.FollowNextRotates | unogameui/src/lib/gameLogic.ts:137-141 | with distinct keys, repeated calls walk round the keys in order |
| GameEngine.FollowNextRoundTrip | unogameui/src/lib/gameLogic.ts:137-141 | k calls after key i reach key `(i + k) mod n`, and n calls return to the start |
| DiscardPile.HashedDiscardPile.constructor | unogameui/src/lib/discardPile.ts:5-8 | both arrays start empty, and the pile is valid (parallel arrays) |
| DiscardPile.HashedDiscardPile.AddCard | unogameui/src/lib/discardPile.ts:19-23 | the card and its commitment are appended; the arrays stay parallel |
| DiscardPile.HashedDiscardPile.GetTopCard | unogameui/src/lib/discardPile.ts:25-27 | the last card, or undefined on an empty pile |
| DiscardPile.HashedDiscardPile.GetTopCardHash | unogameui/src/lib/discardPile.ts:29-31 | the commitment to the top card, and undefined exactly when the pile is empty |
| DiscardPile.HashedDiscardPile.GetAllCardHashes | unogameui/src/lib/discardPile.ts:33-35 | a copy of the stored hashes: one commitment per card, in order |
| DiscardPile.HashedDiscardPile.VerifyCard | unogameui/src/lib/discardPile.ts:37-43 | true exactly when the index is in range and the card's commitment is the one stored there (equivalently, that of the card stored there) |
| DiscardPile.HashedDiscardPile.GetDiscardPileSize | unogameui/src/lib/discardPile.ts:45-47 | the number of cards |
| DiscardPile.HashedDiscardPile.Reset | unogameui/src/lib/discardPile.ts:49-52 | both arrays become empty and the pile stays valid |
| DiscardPile.HashedDiscardPile.GetDiscardPileHash | unogameui/src/lib/discardPile.ts:54-61 | the `bytes32[]` commitment to the stored hashes, which on a valid pile equals `hashCards` of the cards |
| DiscardPile.BuildPile | unogameui/src/lib/discardPile.ts:19-23 | adding cards one by one leaves exactly those cards, in order, with their commitments |
| GlobalState.CardHashRegistry.constructor | unogameui/src/lib/globalState.ts:3 | the registry starts as an empty map |
| GlobalState.CardHashRegistry.UpdateGlobalCardHashMap | unogameui/src/lib/globalState.ts:5-8 | the map is replaced by the new entries: every new key looks up its card, and every other key misses |
| GlobalState.CardHashRegistry.GetGlobalCardHashMap | unogameui/src/lib/globalState.ts:10-12 | the current map |
| GlobalState.CardHashRegistry.LookUp | unogameui/src/lib/globalState.ts:14-16 | a card exactly when the hash is a key, and then the stored card |
| GlobalState.CardHashRegistry.GetCardFromGlobalHashMap | unogameui/src/lib/globalState.ts:14-16 | the stored card for a known hash, undefined for an unknown one |
| GlobalState.UpdateTwice | unogameui/src/lib/globalState.ts:5-8 | an update replaces and does not merge: after two updates, a key only the first had misses |
| StateManagement.PlayCandidates | unogameui/src/lib/stateManagement.ts:15-25 | every play tried for a player is a card of that player's hand that passes `isValidPlay` |
| StateManagement.PlayCandidatesComplete | unogameui/src/lib/stateManagement.ts:15-25 | no card of the hand that passes `isValidPlay` is skipped; there are no plays exactly when no card passes; the first play tried is the first card of the hand that passes |
| StateManagement.FirstValid | unogameui/src/lib/stateManagement.ts:15-25 | the position of the first card that passes `isValidPlay`: every earlier card fails, and the one there passes, unless no card does |
| StateManagement.ReconstructActionFromHash | unogameui/src/lib/stateManagement.ts:14-35 | the nested loops with early return compute the decode function: the first candidate, in search order, whose application hashes to the target |
| StateManagement.FirstMatchIsFirst | unogameui/src/lib/stateManagement.ts:17-32 | every candidate applies alike (it has no `type`), so the search returns the first candidate exactly when the advanced state hashes to the target, and throws otherwise |
| StateManagement.CandidatesNonEmpty | unogameui/src/lib/stateManagement.ts:15-33 | there are candidates exactly when there are hands; the first is the first entry's player playing the first card of their hand that passes `isValidPlay`, or drawing when none passes |
| StateManagement.CandidatesAreLegal | unogameui/src/lib/stateManagement.ts:15-27 | every candidate is some player's draw, or a card of that player's own hand that passes `isValidPlay` |
| StateManagement.DecodeCharacterised | unogameui/src/lib/stateManagement.ts:14-35 | decoding succeeds exactly when the hands are present and non-empty, there are players, and the advanced state hashes to the target; it then returns the first candidate, which is a legal one |
| StateManagement.Decode | unogameui/src/lib/stateManagement.ts:14-35 | the decoder as a function; stated by StateManagement.DecodeCharacterised and StateManagement.ReconstructActionFromHash |
| StateManagement.ReplayLog | unogameui/src/lib/stateManagement.ts:7-10 | the loop computes the replay function: decode each hash against the current state and apply the decoded action, stopping at the first throw |
| StateManagement.Replay | unogameui/src/lib/stateManagement.ts:7-10 | the replay loop as a function; stated by StateManagement.ReplayAppend, StateManagement.ReplayAdvances and StateManagement.ReplayRecoversHonestRun |
| StateManagement.ReconstructOffChainState | unogameui/src/lib/stateManagement.ts:5-12 | the initial state followed by the replay of the whole log |
| StateManagement.Reconstructed | unogameui/src/lib/stateManagement.ts:5-12 | `reconstructOffChainState` as a function; stated by StateManagement.ReconstructEmptyLog, StateManagement.ReconstructFailsOnAnyAction and StateManagement.ReplayRecoversHonestRun |
| StateManagement.ReconstructEmptyLog | unogameui/src/lib/stateManagement.ts:5-12 | an empty log gives the initial state |
| StateManagement.ReconstructFailsOnAnyAction | unogameui/src/lib/stateManagement.ts:6-8 | as written, any non-empty log fails: the initial state carries no `playerHands` |
| StateManagement.ReplayAppend | unogameui/src/lib/stateManagement.ts:7-10 | the log is processed strictly in order: one more hash is one more step from the state reached so far |
| StateManagement.StepAdvances | unogameui/src/lib/stateManagement.ts:8-9 | a successful loop iteration is exactly one turn advance |
| StateManagement.ReplayAdvances | unogameui/src/lib/stateManagement.ts:7-10 | a successful replay of k hashes counts k turns and moves the index k places round the players. It never starts the game and keeps the id, the players, the hand and deck commitments |
| StateManagement.ReplayRecoversHonestRun | unogameui/src/lib/stateManagement.ts:5-35 | given the hands, and with each action applied in the same second as the decoder tried it, replaying the log of an honest run decodes every hash and ends in the state the run reached |
| StateManagement.VerifyOffChainState | unogameui/src/lib/stateManagement.ts:37-52 | passes exactly when all four hold: the player counts agree, the discard pile has one card more than the turn count, the hands, deck and discard add up to 108 cards, and the recorded initial hash is the state's hash; what this means after a deal is stated by StateManagement.DealtGamePassesCheck, and the code as written is StateManagement.AsWrittenNeverPasses |
| StateManagement.VerifyOffChainStateAsWritten | unogameui/src/lib/stateManagement.ts:37-39 | the check as written: `false` when the player counts differ, otherwise the `bigint + number` TypeError; stated by StateManagement.AsWrittenNeverPasses |
| StateManagement.AsWrittenNeverPasses | unogameui/src/lib/stateManagement.ts:37-39 | the check as written never returns true: it throws exactly when the player counts agree, in particular on every state the intended check accepts |
| StateManagement.DealtHandsCount | unogameui/src/lib/stateManagement.ts:42 | freshly dealt hands hold seven cards per player |
| StateManagement.DealtGamePassesCheck | unogameui/src/lib/stateManagement.ts:37-52 | right after a deal, the check passes exactly when the chain records as many players, no turn and the state's hash, and the deck held 108 cards |
| GameRoom.CheckGameOver | unogameui/src/components/gameroom/Game.js:23-25 | `playerDeck.length === 1`, true exactly when the hand holds one card; its meaning in a play is stated by GameRoom.GameOverIffHandEmptied |
| GameRoom.CheckWinner | unogameui/src/components/gameroom/Game.js:27-29 | the player for a one-card hand, otherwise the empty string; its meaning in a play is stated by GameRoom.GameOverIffHandEmptied |
| GameRoom.GameReducer | unogameui/src/components/gameroom/Game.js:46 | the shallow merge `{...state, ...action}`; stated by GameRoom.ReducerComposes and GameRoom.ReducerOverwritesPresentKeys |
| GameRoom.ReducerComposes | unogameui/src/components/gameroom/Game.js:46 | dispatching two actions is dispatching their merge; an action without keys changes nothing; dispatching an action twice is dispatching it once |
| GameRoom.ReducerOverwritesPresentKeys | unogameui/src/components/gameroom/Game.js:46 | for each of the twelve keys, a key the action carries takes the action's value whatever the state held, and a key it lacks keeps the state's value |
| GameRoom.Dispatched | unogameui/src/components/gameroom/Game.js:170-182 | the keys the listener dispatches: the truthy ones of the record, the UNO reset and the draw button; stated by GameRoom.ReceivedFields |
| GameRoom.Received | unogameui/src/components/gameroom/Game.js:156-185 | the room after the listener folds in a record; stated by GameRoom.ReceivedFields |
| GameRoom.ReceivedFields | unogameui/src/components/gameroom/Game.js:156-185 | what the listener leaves in each field: a truthy value replaces the old one, a falsy or absent one keeps it, the UNO button resets, and the draw button defaults to false |
| GameRoom.Other | unogameui/src/components/gameroom/Game.js:230 | the other player is one of the two players and differs from the given one |
| GameRoom.PopOnto | unogameui/src/components/gameroom/Game.js:218 | one `push(pop())` moves the top of the pile (undefined when it is empty) onto the target |
| GameRoom.PopsOntoAdd | unogameui/src/components/gameroom/Game.js:217-223 | popping a cards and then b cards is popping a + b cards |
| GameRoom.PopTwice | unogameui/src/components/gameroom/Game.js:218-219 | two `push(pop())` in a row are two pops |
| GameRoom.OpponentDraws | unogameui/src/components/gameroom/Game.js:217-224 | the draw-2 and draw-4 branches pop two, respectively four, cards onto the opponent's copy, and none for other cards |
| GameRoom.PlayUpdate | unogameui/src/components/gameroom/Game.js:194-254 | the emitted play record as a function; stated by GameRoom.CardPlayedByPlayer, GameRoom.PlayReceived, GameRoom.PlayPenalties, GameRoom.PlayConservesCards and GameRoom.GameOverIffHandEmptied |
| GameRoom.CardPlayedByPlayer | unogameui/src/components/gameroom/Game.js:194-254 | the method computes the emitted play record: the card cut out by `indexOf` and two slices, pushed on the played pile; the penalty pops; the turn; the game-over fields from the hand before the play |
| GameRoom.OnCardPlayedHandler | unogameui/src/components/gameroom/Game.js:257-369 | always dispatches `lastCardPlayedBy` locally; emits the play record exactly when the switch accepts the move |
| GameRoom.PlayDetailsFor | unogameui/src/components/gameroom/Game.js:257-369 | what the play switch derives from a card (accepted or not, colour, code, turn toggle, draw penalty); stated by GameRoom.PlayAcceptedIff and GameRoom.PlayTurnRules |
| GameRoom.PlayAcceptedIff | unogameui/src/components/gameroom/Game.js:268-367 | a skip, draw-2 or other coloured card is accepted exactly when its colour or its number code is the current one, and a wild exactly when a colour was chosen. An accepted card is played by the player whose turn it is, with the colour and code read off its name (or the chosen colour) |
| GameRoom.PlayTurnRules | unogameui/src/components/gameroom/Game.js:226-231 | skip, draw-2 and draw-4 keep the turn, other cards pass it; the opponent takes two cards for a draw-2, four for a draw-4, none otherwise |
| GameRoom.PopsOntoTakesTop | unogameui/src/components/gameroom/Game.js:213-240 | popping k cards from a pile of at least k hands over its top k cards, topmost first, and leaves the rest in order |
| GameRoom.PopsOntoLength | unogameui/src/components/gameroom/Game.js:218-239 | each pop adds one entry to the target even from an empty pile (an undefined one) |
| GameRoom.PlayReceived | unogameui/src/components/gameroom/Game.js:243-253 | after the listener folds in a play record, the two hands and the piles are those of the two rounds of pops; the played pile has the card on top |
| GameRoom.PenaltyPops | unogameui/src/components/gameroom/Game.js:217-240 | two rounds of pops from a pile large enough: the top k go to the opponent, the next ones to the player, and the pile loses exactly those |
| GameRoom.PlayPenalties | unogameui/src/components/gameroom/Game.js:213-240 | the opponent's hand grows by the top draw-penalty cards. The player, minus the played card, takes the next two cards when they held two cards without pressing UNO. The draw pile loses exactly those cards |
| GameRoom.OnCardDrawnHandler | unogameui/src/components/gameroom/Game.js:378-419 | the method computes the emitted draw record, or none when the pile is empty (reading `charAt` of undefined throws) |
| GameRoom.DrawUpdate | unogameui/src/components/gameroom/Game.js:378-419 | the emitted draw record, none on an empty pile; stated by GameRoom.OnCardDrawnHandler, GameRoom.DrawKeepsTurnIffPlayable and GameRoom.DrawConservesCards |
| GameRoom.DrawKeepsTurnIffPlayable | unogameui/src/components/gameroom/Game.js:378-419 | the drawn top card joins the drawer's hand. The turn is kept and the draw button stays pressed exactly when the play handler would accept that card (a wild with any colour); otherwise the turn passes to the other player |
| GameRoom.SkipUpdate | unogameui/src/components/gameroom/Game.js:421-429 | the skip record carries only the turn and the draw button |
| GameRoom.SkipPassesTurn | unogameui/src/components/gameroom/Game.js:421-429 | skipping passes the turn to the other player and releases the draw button, changing nothing else but the UNO button; skipping twice hands the turn back |
| GameRoom.WithoutIndexIsCut | unogameui/src/components/gameroom/Game.js:208-210 | for an index in range, the two slices are the hand without that position |
| GameRoom.WithoutIndexRemovesOne | unogameui/src/components/gameroom/Game.js:208-210 | cutting out the first occurrence of a held card removes exactly that card, one shorter |
| GameRoom.WithoutMissingCard | unogameui/src/components/gameroom/Game.js:208-210 | for a card the hand does not hold, `indexOf` gives -1 and the slices give all but the last card followed by the whole hand |
| GameRoom.TopCardsConserve | unogameui/src/components/gameroom/Game.js:213-240 | the top k cards and the rest of the pile are together the whole pile |
| GameRoom.MovesConserve | unogameui/src/components/gameroom/Game.js:207-253 | the card moves of a play neither create nor lose a card while the draw pile lasts |
| GameRoom.PlayConservesCards | unogameui/src/components/gameroom/Game.js:194-254 | a play of a held card with enough cards to draw leaves the room holding the same cards, the played card on top of the played pile |
| GameRoom.DrawConservesCards | unogameui/src/components/gameroom/Game.js:378-419 | a draw moves the top card of the draw pile into the drawer's hand and keeps the room's cards |
| GameRoom.GameOverIffHandEmptied | unogameui/src/components/gameroom/Game.js:235-245 | the emitted `gameOver` is set, and the winner named, exactly when the player's hand is left empty; otherwise the winner is the empty string |
| BackendDeck.NamesDistinct | backend/index.js:31 | two card names agree only for the same value of the same suit |
| BackendDeck.ResetOrderDistinct | backend/index.js:26-33 | the 52 names of the reset order are pairwise distinct |
| BackendDeck.NameDeterminesRank | backend/index.js:62-115 | no name is listed with two ranks |
| BackendDeck.CardValuesRanks | backend/index.js:62-115 | every reset card has an entry. Its rank is its value's position plus one: Ace 1, the numbers their face value, Jack 11, Queen 12, King 13 |
| BackendDeck.CardValuesCoverDeck | backend/index.js:62-115 | the table's keys are exactly the 52 reset names |
| BackendDeck.Deck.constructor | backend/index.js:18-22 | a new deck is a permutation of the reset order, 52 cards |
| BackendDeck.Deck.Reset | backend/index.js:24-34 | the deck is refilled with `"<value> of <suit>"`, suits outermost (Hearts, Diamonds, Clubs, Spades) and values innermost (Ace to King) |
| BackendDeck.Deck.Shuffle | backend/index.js:36-44 | swapping each position with a drawn position keeps the length and the multiset of cards |
| BackendDeck.Deck.Deal | backend/index.js:46-48 | the last card is removed and returned, and the length drops by one; an empty deck gives undefined and stays empty |
| BackendDeck.Deck.IsEmpty | backend/index.js:50-56 | empty exactly when the length is 0 |

## Left out

- Keccak256 and the ABI encoder are a parameter; their output bytes and collision resistance are not modelled.
- DeckLogic.DrawIndex: `Math.floor(seed / 0x7fffffff * currentIndex)` is taken over exact rationals rather than doubles. For a seed below `0x7fffffff` and an index below 2^21, the floors agree. `0x7fffffff` is prime, so for a positive seed the exact quotient is at least `1 / 0x7fffffff` from every integer. The division and the product each round by at most 2^-53 relative, which moves a quotient below 2^21 by less than 2^-31, and that is less than `1 / 0x7fffffff`. The shuffled decks (108 cards) lie far inside this range. For indices of 2^21 and above the model does not capture the double result: there the roundings can cross an integer, and at index `0x7fffffff` the exact quotient is the integer `seed` itself.
- Numbers beyond 2^1024 (Infinity) are not represented. A `uint256` game id stays well below that.
- `Math.random()` (in `startGame` and in `Deck.shuffle`) and `Date.now()` are parameters with their ranges as preconditions.
- `lastActionTimestamp`: the clock is read once per decoding step, whereas the source reads it on every candidate it tries.
- `playCard` and `drawCard` on the hashed state are stubs in the source. The model gives them only the generic turn advance and invents no hand or deck semantics.
- `storePlayerHand` and `getPlayerHand` are `localStorage` I/O.
- `reShuffleDiscardPile` is left out: it is random and starts past the end of the array. `console.log` calls are left out.
- `JSON.stringify` is modelled without escaping (addresses and hex hashes need none). Object key order is insertion order; the keys are addresses, which are not integer-like.
- GlobalState.CardHashRegistry.GetGlobalCardHashMap: it returns the map as a value. The source returns the live `Map` object, so the model does not capture a caller mutating it.
- The decoder's `playerHands`, and the `deck` and `discardPile` that `verifyOffChainState` reads, are not fields of the state record. They are parameters of the model.
- StateManagement.VerifyOffChainState: it is the check as evidently intended, comparing the discard pile with `turnCount + 1` as numbers. The code as written throws there (see "## Findings").
- The players' hands (`Hands` in StateManagement) are an entry list, which could repeat a player; a JavaScript object has distinct keys. `Object.keys(playerHands).length` is `|hands|` only for distinct keys, and the card count would count a repeated entry twice. The hands that DealtHands builds from distinct players have distinct keys.
- `initialStateHash` is not a declared field of `OnChainGameState`. The model reads it as optional, and an absent value fails the check.
- StateManagement.DealtGamePassesCheck: it is stated over the hands a deal produces. It is not tied to the record returned by `startGame`.
- From Game.js, the initial deal effect is left out, because it uses `shuffleArray` and `PACK_OF_CARDS`, which are not part of this model.
- Also left out from Game.js: the socket transport, sounds, alerts, toasts, the reward flow and the colour dialog (its answer is the `chosenColor` parameter).
- The `type` key of the dispatched actions is not modelled. The reducer spreads it into the state, but no rule reads it.
- GameRoom.PlayPenalties, GameRoom.PlayConservesCards: they assume the draw pile holds the penalty cards. With fewer cards the source pushes `undefined` entries, which the model keeps as `None` slots (GameRoom.PopsOntoLength) without a conservation claim.
- The backend's socket.io server is left out.
- GameRoom.Received: the room lemmas (GameRoom.PlayReceived, GameRoom.PlayConservesCards, GameRoom.DrawKeepsTurnIffPlayable, GameRoom.DrawConservesCards, GameRoom.SkipPassesTurn) fold the emitted `updateGameState` record back into the room. That assumes a relay that echoes the record unchanged to both clients. The backend's server (backend/index.js:132-145) handles only `connection` and `gameStarted` and relays no `updateGameState`. The JSON transport would also turn an `undefined` pushed by an empty-pile pop into `null`; the model's `None` slots stand for both.
- BackendDeck.Deck.Length has no contract of its own. It is the deck's size, and `IsEmpty` and `Deal` state it.
- BackendDeck.Deck.Shuffle: states that the result is a permutation, not which permutation the random draws produce.

## Findings

| source | as written | input that shows it | evidently intended | confidence | as-written member | corrected member |
|---|---|---|---|---|---|---|
| unogameui/src/lib/stateManagement.ts:6-8 | the replay starts from `initializeOffChainState`, which never sets `playerHands`, and the decoder reads `currentState.playerHands` (line 15); `Object.entries(undefined)` throws | any non-empty `actionHashes` | the decoder works from the players' hands, so that the replay of an honest log recovers the run's state. Even with hands, the room page logs `hashAction` of a play (unogameui/src/app/room/[id]/page.tsx:192-197), while the decoder compares `hashState` values, so the corrected member replays a log of state hashes | not executed | StateManagement.ReconstructFailsOnAnyAction | StateManagement.ReplayRecoversHonestRun |
| unogameui/src/lib/stateManagement.ts:38-39 | `onChainState.turnCount` is a `bigint` (unogameui/src/lib/types.ts:37), and `turnCount + 1` mixes it with a number, which throws a TypeError | any state whose hand count equals the on-chain player count, e.g. the freshly started game of DealtGamePassesCheck | the discard pile has one card more than the turn count, compared as numbers | not executed | StateManagement.AsWrittenNeverPasses | StateManagement.VerifyOffChainState |
