/**
 * Rebuilding the off-chain state from the on-chain log of action hashes
 * (`reconstructOffChainState`), the guess-and-check action decoder
 * (`reconstructActionFromHash`) and the structural check
 * `verifyOffChainState`.
 *
 * The decoder reads `currentState.playerHands`, a field the engine never
 * fills in: it is the parameter `playerHands`, `None` standing for the
 * `undefined` that a state built by `initializeOffChainState` carries.
 */
module StateManagement {
  import opened Wrappers
  import opened UnoTypes
  import opened JsBuiltins
  import opened Commitments
  import opened DeckLogic
  import opened ModArith
  import opened GameEngine

  /** `playerHands`: each player's cards, as the entries of an object in insertion order. */
  type Hands = seq<(string, seq<Card>)>

  /** The action object the decoder builds, `{ player, card }`: no `type`, and `card: null` for a draw. */
  datatype Candidate = Candidate(player: string, card: Option<Card>)

  const NO_MATCH: string := "Failed to reconstruct action from hash"

  // -------------------------------------------------- reconstructActionFromHash

  /** The plays tried for one player: the cards of `hand` that pass `isValidPlay`, in hand order. */
  function PlayCandidates(player: string, hand: seq<Card>, state: OffChainGameState): (cs: seq<Candidate>)
    ensures forall c :: c in cs ==>
      c.player == player && c.card.Some? && c.card.value in hand && IsValidPlay(c.card.value, state.currentColor, state.currentValue)
  {
    if |hand| == 0 then []
    else
      var rest := PlayCandidates(player, hand[1..], state);
      if IsValidPlay(hand[0], state.currentColor, state.currentValue)
      then [Candidate(player, Some(hand[0]))] + rest
      else rest
  }

  /** The position of the first card of `hand` that passes `isValidPlay`, or `|hand|` when none does. */
  function FirstValid(hand: seq<Card>, state: OffChainGameState): (i: nat)
    ensures i <= |hand|
    ensures i < |hand| ==> IsValidPlay(hand[i], state.currentColor, state.currentValue)
    ensures forall j :: 0 <= j < i ==> !IsValidPlay(hand[j], state.currentColor, state.currentValue)
  {
    if |hand| == 0 || IsValidPlay(hand[0], state.currentColor, state.currentValue) then 0
    else 1 + FirstValid(hand[1..], state)
  }

  /**
   * No valid card is skipped, there are none exactly when no card passes,
   * and the first one tried is the first card of the hand that passes.
   */
  lemma {:induction false} PlayCandidatesComplete(player: string, hand: seq<Card>, state: OffChainGameState)
    ensures var cs := PlayCandidates(player, hand, state);
      forall i :: 0 <= i < |hand| && IsValidPlay(hand[i], state.currentColor, state.currentValue) ==>
        Candidate(player, Some(hand[i])) in cs
    ensures var cs := PlayCandidates(player, hand, state);
      |cs| == 0 <==> forall c :: c in hand ==> !IsValidPlay(c, state.currentColor, state.currentValue)
    ensures var cs, i := PlayCandidates(player, hand, state), FirstValid(hand, state);
      |cs| > 0 ==> i < |hand| && cs[0] == Candidate(player, Some(hand[i]))
    decreases |hand|
  {
    if |hand| > 0 {
      PlayCandidatesComplete(player, hand[1..], state);
      assert forall i :: 1 <= i < |hand| ==> hand[i] == hand[1..][i - 1];
    }
  }

  /** Every candidate in search order: per player in entry order, the valid plays and then the draw. */
  function Candidates(hands: Hands, state: OffChainGameState): seq<Candidate>
  {
    if |hands| == 0 then []
    else PlayCandidates(hands[0].0, hands[0].1, state) + [Candidate(hands[0].0, None)] + Candidates(hands[1..], state)
  }

  /**
   * The first candidate whose applied state hashes to `hash`. Each try runs
   * `applyActionToOffChainState`, which throws when there are no players.
   */
  function FirstMatch(keccak: Keccak, state: OffChainGameState, cands: seq<Candidate>, hash: Hash, now: nat)
    : Result<Candidate, string>
  {
    if |cands| == 0 then Err(NO_MATCH)
    else
      match Advanced(keccak, state, now)
      case Err(e) => Err(e)
      case Ok(next) => if HashState(keccak, next) == hash then Ok(cands[0]) else FirstMatch(keccak, state, cands[1..], hash, now)
  }

  /** `reconstructActionFromHash(hash, currentState)`, the candidates' applications all reading the clock at `now`. */
  function Decode(keccak: Keccak, hash: Hash, state: OffChainGameState, playerHands: Option<Hands>, now: nat)
    : Result<Candidate, string>
  {
    match playerHands
    case None => Err("TypeError: Cannot convert undefined or null to object")
    case Some(hands) => FirstMatch(keccak, state, Candidates(hands, state), hash, now)
  }

  lemma FirstMatchCons(keccak: Keccak, state: OffChainGameState, c: Candidate, rest: seq<Candidate>, hash: Hash, now: nat)
    ensures FirstMatch(keccak, state, [c] + rest, hash, now) ==
      match Advanced(keccak, state, now)
      case Err(e) => Err(e)
      case Ok(next) => if HashState(keccak, next) == hash then Ok(c) else FirstMatch(keccak, state, rest, hash, now)
  {
    assert ([c] + rest)[0] == c;
    assert ([c] + rest)[1..] == rest;
  }

  /** What is still to be searched when `hand[ci..]` of player `pi` comes next. */
  function Remaining(hands: Hands, pi: nat, ci: nat, state: OffChainGameState): seq<Candidate>
    requires pi < |hands| && ci <= |hands[pi].1|
  {
    PlayCandidates(hands[pi].0, hands[pi].1[ci..], state) + [Candidate(hands[pi].0, None)] + Candidates(hands[pi + 1..], state)
  }

  lemma RemainingStep(hands: Hands, pi: nat, ci: nat, state: OffChainGameState)
    requires pi < |hands| && ci < |hands[pi].1|
    ensures var card := hands[pi].1[ci];
      Remaining(hands, pi, ci, state) ==
        if IsValidPlay(card, state.currentColor, state.currentValue)
        then [Candidate(hands[pi].0, Some(card))] + Remaining(hands, pi, ci + 1, state)
        else Remaining(hands, pi, ci + 1, state)
  {
    assert hands[pi].1[ci..][1..] == hands[pi].1[ci + 1..];
  }

  lemma RemainingStart(hands: Hands, pi: nat, state: OffChainGameState)
    requires pi < |hands|
    ensures Remaining(hands, pi, 0, state) == Candidates(hands[pi..], state)
    ensures Remaining(hands, pi, |hands[pi].1|, state) == [Candidate(hands[pi].0, None)] + Candidates(hands[pi + 1..], state)
  {
    assert hands[pi].1[0..] == hands[pi].1;
    assert hands[pi..][1..] == hands[pi + 1..];
    assert hands[pi].1[|hands[pi].1|..] == [];
  }

  /**
   * `reconstructActionFromHash`: for each player in entry order, each valid
   * card, then the draw, apply the candidate and compare the hash; the first
   * match is returned, and no match throws.
   */
  method ReconstructActionFromHash(keccak: Keccak, hash: Hash, state: OffChainGameState, playerHands: Option<Hands>, now: nat)
    returns (r: Result<Candidate, string>)
    ensures r == Decode(keccak, hash, state, playerHands, now)
  {
    if playerHands.None? {
      return Err("TypeError: Cannot convert undefined or null to object");
    }
    var hands := playerHands.value;
    assert hands[0..] == hands;
    for pi := 0 to |hands|
      invariant FirstMatch(keccak, state, Candidates(hands[pi..], state), hash, now) == Decode(keccak, hash, state, playerHands, now)
    {
      var (player, hand) := hands[pi];
      RemainingStart(hands, pi, state);
      for ci := 0 to |hand|
        invariant FirstMatch(keccak, state, Remaining(hands, pi, ci, state), hash, now) == Decode(keccak, hash, state, playerHands, now)
      {
        var card := hand[ci];
        RemainingStep(hands, pi, ci, state);
        if IsValidPlay(card, state.currentColor, state.currentValue) {
          var potentialAction := Candidate(player, Some(card));
          FirstMatchCons(keccak, state, potentialAction, Remaining(hands, pi, ci + 1, state), hash, now);
          var potentialNewState := ApplyActionToOffChainState(keccak, state, None, now, 0.0);
          if potentialNewState.Err? {
            return Err(potentialNewState.error);
          }
          var potentialHash := HashState(keccak, potentialNewState.value);
          if potentialHash == hash {
            return Ok(potentialAction);
          }
        }
      }
      var drawAction := Candidate(player, None);
      FirstMatchCons(keccak, state, drawAction, Candidates(hands[pi + 1..], state), hash, now);
      var drawState := ApplyActionToOffChainState(keccak, state, None, now, 0.0);
      if drawState.Err? {
        return Err(drawState.error);
      }
      var drawHash := HashState(keccak, drawState.value);
      if drawHash == hash {
        return Ok(drawAction);
      }
    }
    return Err(NO_MATCH);
  }

  /**
   * Every candidate applies in the same way (the action has no `type`), so
   * the search finds the first candidate exactly when the advanced state
   * hashes to the target, and nothing otherwise.
   */
  lemma {:induction false} FirstMatchIsFirst(keccak: Keccak, state: OffChainGameState, cands: seq<Candidate>, hash: Hash, now: nat)
    ensures FirstMatch(keccak, state, cands, hash, now) ==
      if |cands| == 0 then Err(NO_MATCH)
      else match Advanced(keccak, state, now)
        case Err(e) => Err(e)
        case Ok(next) => if HashState(keccak, next) == hash then Ok(cands[0]) else Err(NO_MATCH)
    decreases |cands|
  {
    if |cands| > 0 {
      FirstMatchIsFirst(keccak, state, cands[1..], hash, now);
    }
  }

  /**
   * The search starts with the first entry's player: their first card passing
   * `isValidPlay`, or their draw when no card of theirs passes.
   */
  lemma {:induction false} CandidatesNonEmpty(hands: Hands, state: OffChainGameState)
    ensures |Candidates(hands, state)| == 0 <==> |hands| == 0
    ensures |hands| > 0 ==>
      var (player, hand) := hands[0];
      var i := FirstValid(hand, state);
      Candidates(hands, state)[0] == if i < |hand| then Candidate(player, Some(hand[i])) else Candidate(player, None)
  {
    if |hands| > 0 {
      var (player, hand) := hands[0];
      PlayCandidatesComplete(player, hand, state);
    }
  }

  /** The candidate is the entry's player drawing, or playing a card of their hand that passes `isValidPlay`. */
  predicate PlayedFrom(entry: (string, seq<Card>), c: Candidate, state: OffChainGameState) {
    && entry.0 == c.player
    && (c.card.Some? ==> c.card.value in entry.1 && IsValidPlay(c.card.value, state.currentColor, state.currentValue))
  }

  /** Every candidate is a player's draw, or one of the player's own cards that passes `isValidPlay`. */
  lemma {:induction false} CandidatesAreLegal(hands: Hands, state: OffChainGameState, c: Candidate)
    requires c in Candidates(hands, state)
    ensures exists i :: 0 <= i < |hands| && PlayedFrom(hands[i], c, state)
    decreases |hands|
  {
    var plays := PlayCandidates(hands[0].0, hands[0].1, state);
    if c in plays + [Candidate(hands[0].0, None)] {
      assert hands[0].0 == c.player;
    } else {
      assert c in Candidates(hands[1..], state);
      CandidatesAreLegal(hands[1..], state, c);
      var i :| 0 <= i < |hands[1..]| && PlayedFrom(hands[1..][i], c, state);
      assert hands[i + 1] == hands[1..][i];
    }
  }

  /**
   * The decoder succeeds exactly when there are hands, there are players and
   * the advanced state hashes to the target. It then returns the first
   * candidate in search order, which is a legal play of that player or
   * their draw; so the returned action's application hashes to the target.
   */
  lemma DecodeCharacterised(keccak: Keccak, hash: Hash, state: OffChainGameState, playerHands: Option<Hands>, now: nat)
    ensures var r := Decode(keccak, hash, state, playerHands, now);
      r.Ok? <==> (
        && playerHands.Some? && |playerHands.value| > 0 && |state.players| > 0
        && HashState(keccak, Advanced(keccak, state, now).value) == hash)
    ensures var r := Decode(keccak, hash, state, playerHands, now);
      r.Ok? ==>
        && r.value == Candidates(playerHands.value, state)[0]
        && exists i :: 0 <= i < |playerHands.value| && PlayedFrom(playerHands.value[i], r.value, state)
  {
    if playerHands.Some? {
      var hands := playerHands.value;
      FirstMatchIsFirst(keccak, state, Candidates(hands, state), hash, now);
      CandidatesNonEmpty(hands, state);
      AdvancedTurn(keccak, state, now);
      if |hands| > 0 {
        CandidatesAreLegal(hands, state, Candidates(hands, state)[0]);
      }
    }
  }

  // --------------------------------------------------- reconstructOffChainState

  /** The clock readings of one log step: when the decoder applies its candidates, and when the decoded action is applied. */
  datatype Tick = Tick(decodeTime: nat, applyTime: nat)

  /** One loop iteration: decode against the current state, then apply the decoded action (it has no `type`). */
  function Step(keccak: Keccak, state: OffChainGameState, playerHands: Option<Hands>, hash: Hash, tick: Tick)
    : Result<OffChainGameState, string>
  {
    match Decode(keccak, hash, state, playerHands, tick.decodeTime)
    case Err(e) => Err(e)
    case Ok(_) => Advanced(keccak, state, tick.applyTime)
  }

  /** The loop of `reconstructOffChainState` from `state` over `log`; a throw ends it. */
  function Replay(keccak: Keccak, state: OffChainGameState, playerHands: Option<Hands>, log: seq<Hash>, ticks: seq<Tick>)
    : Result<OffChainGameState, string>
    requires |ticks| == |log|
    decreases |log|
  {
    if |log| == 0 then Ok(state)
    else
      match Step(keccak, state, playerHands, log[0], ticks[0])
      case Err(e) => Err(e)
      case Ok(next) => Replay(keccak, next, playerHands, log[1..], ticks[1..])
  }

  /**
   * `reconstructOffChainState(seed, players, actionHashes)`, the initial state
   * stamped at `initTime`. The state it starts from carries no `playerHands`,
   * and every state derived from it copies that.
   */
  function Reconstructed(keccak: Keccak, seed: nat, players: seq<string>, actionHashes: seq<Hash>, initTime: nat, ticks: seq<Tick>)
    : Result<OffChainGameState, string>
    requires |ticks| == |actionHashes|
  {
    Replay(keccak, InitializeOffChainState(keccak, seed, players, initTime), None, actionHashes, ticks)
  }

  /** The loop of `reconstructOffChainState`: decode each hash against the current state, then apply the decoded action. */
  method ReplayLog(keccak: Keccak, state0: OffChainGameState, playerHands: Option<Hands>, actionHashes: seq<Hash>, ticks: seq<Tick>)
    returns (r: Result<OffChainGameState, string>)
    requires |ticks| == |actionHashes|
    ensures r == Replay(keccak, state0, playerHands, actionHashes, ticks)
  {
    var state := state0;
    for i := 0 to |actionHashes|
      invariant Replay(keccak, state, playerHands, actionHashes[i..], ticks[i..]) == Replay(keccak, state0, playerHands, actionHashes, ticks)
    {
      ReplayUnfold(keccak, state, playerHands, actionHashes, ticks, i);
      var action := ReconstructActionFromHash(keccak, actionHashes[i], state, playerHands, ticks[i].decodeTime);
      if action.Err? {
        return Err(action.error);
      }
      var next := ApplyActionToOffChainState(keccak, state, None, ticks[i].applyTime, 0.0);
      if next.Err? {
        return Err(next.error);
      }
      state := next.value;
    }
    return Ok(state);
  }

  /** The replay of `log[i..]`: one step on `log[i]`, then the replay of `log[i + 1..]`. */
  lemma ReplayUnfold(keccak: Keccak, state: OffChainGameState, playerHands: Option<Hands>, log: seq<Hash>, ticks: seq<Tick>, i: nat)
    requires |ticks| == |log| && i < |log|
    ensures Replay(keccak, state, playerHands, log[i..], ticks[i..]) ==
      match Decode(keccak, log[i], state, playerHands, ticks[i].decodeTime)
      case Err(e) => Err(e)
      case Ok(_) =>
        match Applied(keccak, state, None, ticks[i].applyTime, 0.0)
        case Err(e) => Err(e)
        case Ok(next) => Replay(keccak, next, playerHands, log[i + 1..], ticks[i + 1..])
  {
    assert log[i..][1..] == log[i + 1..] && ticks[i..][1..] == ticks[i + 1..];
  }

  method ReconstructOffChainState(keccak: Keccak, seed: nat, players: seq<string>, actionHashes: seq<Hash>, initTime: nat, ticks: seq<Tick>)
    returns (r: Result<OffChainGameState, string>)
    requires |ticks| == |actionHashes|
    ensures r == Reconstructed(keccak, seed, players, actionHashes, initTime, ticks)
  {
    var state := InitializeOffChainState(keccak, seed, players, initTime);
    r := ReplayLog(keccak, state, None, actionHashes, ticks);
  }

  /** With an empty log the result is the initial state. */
  lemma ReconstructEmptyLog(keccak: Keccak, seed: nat, players: seq<string>, initTime: nat)
    ensures Reconstructed(keccak, seed, players, [], initTime, []) == Ok(InitializeOffChainState(keccak, seed, players, initTime))
  {
  }

  /** As written, the decoder reads the missing `playerHands` on the first action, so any non-empty log fails. */
  lemma ReconstructFailsOnAnyAction(keccak: Keccak, seed: nat, players: seq<string>, actionHashes: seq<Hash>, initTime: nat, ticks: seq<Tick>)
    requires |ticks| == |actionHashes| && |actionHashes| > 0
    ensures Reconstructed(keccak, seed, players, actionHashes, initTime, ticks).Err?
  {
  }

  /** The log is processed strictly in order: replaying one more hash is one more step from the state reached so far. */
  lemma {:induction false} ReplayAppend(keccak: Keccak, state: OffChainGameState, playerHands: Option<Hands>,
                                        log: seq<Hash>, ticks: seq<Tick>, hash: Hash, tick: Tick)
    requires |ticks| == |log|
    ensures Replay(keccak, state, playerHands, log + [hash], ticks + [tick]) ==
      match Replay(keccak, state, playerHands, log, ticks)
      case Err(e) => Err(e)
      case Ok(s) => Step(keccak, s, playerHands, hash, tick)
    decreases |log|
  {
    if |log| == 0 {
      assert log + [hash] == [hash] && ticks + [tick] == [tick];
    } else {
      assert (log + [hash])[1..] == log[1..] + [hash];
      assert (ticks + [tick])[1..] == ticks[1..] + [tick];
      match Step(keccak, state, playerHands, log[0], ticks[0])
      case Err(e) =>
      case Ok(next) => ReplayAppend(keccak, next, playerHands, log[1..], ticks[1..], hash, tick);
    }
  }

  /** `s` is `state` after `k` turns: counted, the turn moved on `k` places, the identity and deal unchanged. */
  predicate AdvancedBy(state: OffChainGameState, s: OffChainGameState, k: nat)
    requires |state.players| > 0
  {
    && s.turnCount == state.turnCount + k
    && s.currentPlayerIndex == (state.currentPlayerIndex + k) % |state.players|
    && s.isStarted == state.isStarted
    && s.id == state.id && s.players == state.players
    && s.playerHandsHash == state.playerHandsHash && s.deckHash == state.deckHash
  }

  /**
   * A successful replay counts one turn per hash, moves the turn on once per
   * hash round the players, never starts the game, and leaves the identity
   * fields alone.
   */
  lemma {:induction false} ReplayAdvances(keccak: Keccak, state: OffChainGameState, playerHands: Option<Hands>,
                                          log: seq<Hash>, ticks: seq<Tick>)
    requires |ticks| == |log|
    requires state.currentPlayerIndex < |state.players|
    ensures var r := Replay(keccak, state, playerHands, log, ticks);
      r.Ok? ==> AdvancedBy(state, r.value, |log|)
    decreases |log|
  {
    if |log| == 0 {
      ModUnique(state.currentPlayerIndex, |state.players|, 0, state.currentPlayerIndex);
    } else {
      var step := Step(keccak, state, playerHands, log[0], ticks[0]);
      if step.Ok? {
        var next := step.value;
        assert Replay(keccak, state, playerHands, log, ticks) == Replay(keccak, next, playerHands, log[1..], ticks[1..]);
        StepAdvances(keccak, state, playerHands, log[0], ticks[0]);
        ReplayAdvances(keccak, next, playerHands, log[1..], ticks[1..]);
        var r := Replay(keccak, next, playerHands, log[1..], ticks[1..]);
        if r.Ok? {
          AdvancedByCompose(state, next, r.value, |log|);
        }
      }
    }
  }

  /** One turn followed by `k - 1` more is `k` turns. */
  lemma AdvancedByCompose(state: OffChainGameState, next: OffChainGameState, s: OffChainGameState, k: nat)
    requires |state.players| > 0 && k > 0
    requires AdvancedBy(state, next, 1) && AdvancedBy(next, s, k - 1)
    ensures AdvancedBy(state, s, k)
  {
    ModAddMod(state.currentPlayerIndex + 1, k - 1, |state.players|);
  }

  /** One successful step is one turn. */
  lemma StepAdvances(keccak: Keccak, state: OffChainGameState, playerHands: Option<Hands>, hash: Hash, tick: Tick)
    requires state.currentPlayerIndex < |state.players|
    ensures var r := Step(keccak, state, playerHands, hash, tick);
      r.Ok? ==> AdvancedBy(state, r.value, 1) && r.value.currentPlayerIndex < |state.players|
  {
    var r := Step(keccak, state, playerHands, hash, tick);
    if r.Ok? {
      assert r == Advanced(keccak, state, tick.applyTime);
      AdvancedTurn(keccak, state, tick.applyTime);
    }
  }

  /** The state an honest run reaches: the turn advanced once per clock reading. */
  function AdvanceAll(keccak: Keccak, state: OffChainGameState, times: seq<nat>): OffChainGameState
    requires |state.players| > 0
    decreases |times|
  {
    if |times| == 0 then state
    else
      var next := Advanced(keccak, state, times[0]);
      AdvancedTurn(keccak, state, times[0]);
      AdvanceAll(keccak, next.value, times[1..])
  }

  /** The log an honest run submits: the hash of each state it reaches. */
  function HonestLog(keccak: Keccak, state: OffChainGameState, times: seq<nat>): (log: seq<Hash>)
    requires |state.players| > 0
    ensures |log| == |times|
    decreases |times|
  {
    if |times| == 0 then []
    else
      var next := Advanced(keccak, state, times[0]);
      AdvancedTurn(keccak, state, times[0]);
      [HashState(keccak, next.value)] + HonestLog(keccak, next.value, times[1..])
  }

  /** Each hash read and applied within the same clock second. */
  function SameSecond(times: seq<nat>): (ticks: seq<Tick>)
    ensures |ticks| == |times|
    ensures forall i :: 0 <= i < |times| ==> ticks[i] == Tick(times[i], times[i])
  {
    if |times| == 0 then [] else [Tick(times[0], times[0])] + SameSecond(times[1..])
  }

  /**
   * Given the hands, the replay recovers an honest run: every hash of its log
   * decodes, and the replay ends in the state the run reached.
   */
  lemma {:induction false} ReplayRecoversHonestRun(keccak: Keccak, state: OffChainGameState, hands: Hands, times: seq<nat>)
    requires |state.players| > 0 && |hands| > 0
    ensures Replay(keccak, state, Some(hands), HonestLog(keccak, state, times), SameSecond(times)) == Ok(AdvanceAll(keccak, state, times))
    decreases |times|
  {
    if |times| > 0 {
      var log, ticks := HonestLog(keccak, state, times), SameSecond(times);
      DecodeCharacterised(keccak, log[0], state, Some(hands), times[0]);
      AdvancedTurn(keccak, state, times[0]);
      var next := Advanced(keccak, state, times[0]).value;
      assert Step(keccak, state, Some(hands), log[0], ticks[0]) == Ok(next);
      assert log[1..] == HonestLog(keccak, next, times[1..]);
      assert ticks[1..] == SameSecond(times[1..]);
      ReplayRecoversHonestRun(keccak, next, hands, times[1..]);
    }
  }

  // -------------------------------------------------------- verifyOffChainState

  /** The parts of `OnChainGameState` the check reads; `initialStateHash` is not one of its declared fields. */
  datatype OnChainView = OnChainView(players: seq<string>, turnCount: nat, initialStateHash: Option<Hash>)

  /** `Object.values(playerHands).flat().length`. */
  function CardsInHands(hands: Hands): nat {
    if |hands| == 0 then 0 else |hands[0].1| + CardsInHands(hands[1..])
  }

  /**
   * `verifyOffChainState` as intended, with the hands, deck and discard
   * pile the check reads from the off-chain object as parameters, and the
   * turn count compared as a number. An absent `initialStateHash` compares
   * unequal to any hash.
   */
  function VerifyOffChainState(keccak: Keccak, offChainState: OffChainGameState, hands: Hands, deck: seq<Card>,
                               discardPile: seq<Card>, onChainState: OnChainView): (ok: bool)
    ensures ok <==>
      && |hands| == |onChainState.players|
      && |discardPile| == onChainState.turnCount + 1
      && CardsInHands(hands) + |deck| + |discardPile| == 108
      && onChainState.initialStateHash == Some(HashState(keccak, offChainState))
  {
    if |hands| != |onChainState.players| then false
    else if |discardPile| != onChainState.turnCount + 1 then false
    else if CardsInHands(hands) + |deck| + |discardPile| != 108 then false
    else if Some(HashState(keccak, offChainState)) != onChainState.initialStateHash then false
    else true
  }

  const BIGINT_MIX: string := "TypeError: Cannot mix BigInt and other types, use explicit conversions"

  /**
   * `verifyOffChainState` as written: `onChainState.turnCount` is a `bigint`,
   * so `turnCount + 1` throws as soon as the player counts agree.
   */
  function VerifyOffChainStateAsWritten(hands: Hands, deck: seq<Card>, discardPile: seq<Card>, onChainState: OnChainView)
    : Result<bool, string>
  {
    if |hands| != |onChainState.players| then Ok(false) else Err(BIGINT_MIX)
  }

  /**
   * The check as written never passes: it answers `false` when the player
   * counts differ and throws otherwise, even on a state that the intended
   * check accepts.
   */
  lemma AsWrittenNeverPasses(keccak: Keccak, offChainState: OffChainGameState, hands: Hands, deck: seq<Card>,
                             discardPile: seq<Card>, onChainState: OnChainView)
    ensures var r := VerifyOffChainStateAsWritten(hands, deck, discardPile, onChainState);
      && r != Ok(true)
      && (r.Err? <==> |hands| == |onChainState.players|)
      && (VerifyOffChainState(keccak, offChainState, hands, deck, discardPile, onChainState) ==> r == Err(BIGINT_MIX))
  {
  }

  /** The hands `startGame` deals: seven consecutive cards per player, in player order. */
  function DealtHands(deck: seq<Card>, players: seq<string>): (hands: Hands)
    requires 7 * |players| <= |deck|
    ensures |hands| == |players|
    ensures forall i :: 0 <= i < |players| ==> hands[i] == (players[i], deck[7 * i..7 * i + 7])
    decreases |players|
  {
    if |players| == 0 then []
    else
      var k := |players| - 1;
      DealtHands(deck, players[..k]) + [(players[k], deck[7 * k..7 * k + 7])]
  }

  lemma {:induction false} DealtHandsCount(deck: seq<Card>, players: seq<string>)
    requires 7 * |players| <= |deck|
    ensures CardsInHands(DealtHands(deck, players)) == 7 * |players|
    decreases |players|
  {
    if |players| > 0 {
      var k := |players| - 1;
      DealtHandsCount(deck, players[..k]);
      CardsInHandsAppend(DealtHands(deck, players[..k]), [(players[k], deck[7 * k..7 * k + 7])]);
    }
  }

  lemma {:induction false} CardsInHandsAppend(a: Hands, b: Hands)
    ensures CardsInHands(a + b) == CardsInHands(a) + CardsInHands(b)
    decreases |a|
  {
    if |a| == 0 {
      assert a + b == b;
    } else {
      assert (a + b)[1..] == a[1..] + b;
      CardsInHandsAppend(a[1..], b);
    }
  }

  /**
   * Right after the deal the check passes exactly when the chain records as
   * many players, no turn and the state's hash, and the deck held 108
   * cards: the dealt hands, the remaining deck and the one-card discard pile
   * then account for every card.
   */
  lemma DealtGamePassesCheck(keccak: Keccak, s: OffChainGameState, deck: seq<Card>, players: seq<string>, onChainState: OnChainView)
    requires 7 * |players| < |deck|
    ensures var n := |players|;
      VerifyOffChainState(keccak, s, DealtHands(deck, players), deck[7 * n..|deck| - 1], [deck[|deck| - 1]], onChainState)
      <==> (
        && |onChainState.players| == n && onChainState.turnCount == 0 && |deck| == 108
        && onChainState.initialStateHash == Some(HashState(keccak, s)))
  {
    DealtHandsCount(deck, players);
  }
}
