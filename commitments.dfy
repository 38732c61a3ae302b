/**
 * The commitment scheme of the hashed off-chain engine: `hashCard`,
 * `hashCards`, `hashAction` and `hashState`. Each one ABI-encodes a fixed
 * tuple of fields and hashes it with keccak256. Keccak over the ABI encoding
 * is not modelled: it is the parameter `keccak`, an arbitrary function of the
 * typed tuple, so nothing here relies on collision resistance; what is stated
 * is which inputs feed each hash, in which order.
 */
module Commitments {
  import opened Wrappers
  import opened UnoTypes

  /** One ABI-encoded field, tagged with its Solidity type. */
  datatype AbiValue =
    | Uint(n: nat)
    | Address(addr: string)
    | AddressArray(addrs: seq<string>)
    | Bool(b: bool)
    | Str(s: string)
    | Bytes32Array(words: seq<Hash>)

  /** keccak256 of the ABI encoding of a typed tuple. */
  type Keccak = seq<AbiValue> -> Hash

  /** `x || ''` for an optional string. */
  function OrEmpty(x: Option<string>): string {
    match x
    case Some(s) => s
    case None => ""
  }

  /** `hashCard`: the tuple (string colour, string value). */
  function HashCard(keccak: Keccak, card: Card): Hash {
    keccak([Str(ColorName(card.color)), Str(ValueName(card.value))])
  }

  /** `cards.map(hashCard)`. */
  function CardHashes(keccak: Keccak, cards: seq<Card>): (hs: seq<Hash>)
    ensures |hs| == |cards|
    ensures forall i :: 0 <= i < |cards| ==> hs[i] == HashCard(keccak, cards[i])
  {
    if |cards| == 0 then [] else [HashCard(keccak, cards[0])] + CardHashes(keccak, cards[1..])
  }

  /** The commitment to an ordered list of card commitments (a `bytes32[]`). */
  function HashOfCardHashes(keccak: Keccak, hs: seq<Hash>): Hash {
    keccak([Bytes32Array(hs)])
  }

  /** `hashCards`. */
  function HashCards(keccak: Keccak, cards: seq<Card>): Hash {
    HashOfCardHashes(keccak, CardHashes(keccak, cards))
  }

  /** `hashAction`: (string type, address player, string cardHash or ''). */
  function HashAction(keccak: Keccak, action: Action): Hash {
    keccak([Str(ActionTypeName(action.kind)), Address(action.player), Str(OrEmpty(action.cardHash))])
  }

  /** One JSON member `"key":"value"` (keys and values here need no escaping). */
  function JsonMember(key: string, value: string): string {
    "\"" + key + "\":\"" + value + "\""
  }

  function JsonMembers(entries: seq<(string, Hash)>): string {
    if |entries| == 0 then ""
    else if |entries| == 1 then JsonMember(entries[0].0, entries[0].1)
    else JsonMember(entries[0].0, entries[0].1) + "," + JsonMembers(entries[1..])
  }

  /** `JSON.stringify` of a string-valued object, members in insertion order. */
  function JsonObject(entries: seq<(string, Hash)>): string {
    "{" + JsonMembers(entries) + "}"
  }

  function ColorField(c: Option<Color>): string {
    match c
    case Some(x) => ColorName(x)
    case None => ""
  }

  function ValueField(v: Option<Value>): string {
    match v
    case Some(x) => ValueName(x)
    case None => ""
  }

  /** The fourteen fields `hashState` encodes, in their fixed order and types. */
  function StateEncoding(s: OffChainGameState): (e: seq<AbiValue>)
    ensures |e| == 14
    ensures e[0] == Uint(s.id) && e[1] == AddressArray(s.players) && e[13] == Bool(s.isStarted)
    ensures e[3] == Uint(s.currentPlayerIndex) && e[5] == Uint(s.turnCount)
  {
    [ Uint(s.id),
      AddressArray(s.players),
      Bool(s.isActive),
      Uint(s.currentPlayerIndex),
      Uint(s.lastActionTimestamp),
      Uint(s.turnCount),
      Bool(s.directionClockwise),
      Str(JsonObject(s.playerHandsHash)),
      Str(s.deckHash),
      Str(s.discardPileHash),
      Str(ColorField(s.currentColor)),
      Str(ValueField(s.currentValue)),
      Str(OrEmpty(s.lastPlayedCardHash)),
      Bool(s.isStarted) ]
  }

  /** `hashState`. */
  function HashState(keccak: Keccak, s: OffChainGameState): Hash {
    keccak(StateEncoding(s))
  }

  /** A state whose `stateHash` is the commitment to its own fields. */
  predicate Committed(keccak: Keccak, s: OffChainGameState) {
    s.stateHash == HashState(keccak, s)
  }

  /** The fields `hashState` reads agree (everything but `stateHash`). */
  predicate SameCommittedFields(s: OffChainGameState, t: OffChainGameState) {
    && s.id == t.id && s.players == t.players && s.isActive == t.isActive
    && s.currentPlayerIndex == t.currentPlayerIndex
    && s.lastActionTimestamp == t.lastActionTimestamp && s.turnCount == t.turnCount
    && s.directionClockwise == t.directionClockwise
    && s.playerHandsHash == t.playerHandsHash && s.deckHash == t.deckHash
    && s.discardPileHash == t.discardPileHash
    && ColorField(s.currentColor) == ColorField(t.currentColor)
    && ValueField(s.currentValue) == ValueField(t.currentValue)
    && OrEmpty(s.lastPlayedCardHash) == OrEmpty(t.lastPlayedCardHash)
    && s.isStarted == t.isStarted
  }

  /** `hashState` depends on the fourteen encoded fields only; the old `stateHash` is not one of them. */
  lemma HashStateDependsOnFieldsOnly(keccak: Keccak, s: OffChainGameState, t: OffChainGameState)
    requires SameCommittedFields(s, t)
    ensures HashState(keccak, s) == HashState(keccak, t)
  {
  }

  /** So recommitting a committed state changes nothing, whatever its old `stateHash` was. */
  lemma RecommitIsStable(keccak: Keccak, s: OffChainGameState, old_hash: Hash)
    ensures var t := s.(stateHash := old_hash); Committed(keccak, t.(stateHash := HashState(keccak, t)))
    ensures HashState(keccak, s.(stateHash := old_hash)) == HashState(keccak, s)
  {
    HashStateDependsOnFieldsOnly(keccak, s, s.(stateHash := old_hash));
  }

  /** A missing card commitment is encoded exactly as the empty string. */
  lemma HashActionMissingCardIsEmpty(keccak: Keccak, kind: ActionType, player: string)
    ensures HashAction(keccak, Action(kind, player, None)) == HashAction(keccak, Action(kind, player, Some("")))
  {
  }

  /** `hashCards` sees the cards only through the ordered list of their `hashCard` values. */
  lemma HashCardsDependsOnCardHashesOnly(keccak: Keccak, a: seq<Card>, b: seq<Card>)
    requires |a| == |b|
    requires forall i :: 0 <= i < |a| ==> HashCard(keccak, a[i]) == HashCard(keccak, b[i])
    ensures HashCards(keccak, a) == HashCards(keccak, b)
  {
    assert CardHashes(keccak, a) == CardHashes(keccak, b);
  }

  /**
   * The object's insertion order reaches the commitment: two hand
   * commitments under different keys (addresses, which hold no `"`),
   * inserted in the opposite order, serialise differently.
   */
  lemma HandOrderReachesEncoding(a: string, x: Hash, b: string, y: Hash)
    requires a != b && '"' !in a && '"' !in b
    ensures JsonObject([(a, x), (b, y)]) != JsonObject([(b, y), (a, x)])
  {
    JsonObjectOpens([(a, x), (b, y)]);
    JsonObjectOpens([(b, y), (a, x)]);
    FirstKeysDiffer(JsonObject([(a, x), (b, y)]), a, JsonObject([(b, y), (a, x)]), b);
  }

  /** The serialised object opens with `{"`, its first key and the key's closing quote. */
  lemma JsonObjectOpens(entries: seq<(string, Hash)>)
    requires |entries| > 0
    ensures var j, k := JsonObject(entries), entries[0].0;
      |j| > 2 + |k| && j[..2] == "{\"" && j[2..2 + |k|] == k && j[2 + |k|] == '"'
  {
    var (k, v) := entries[0];
    var rest := if |entries| == 1 then "" else "," + JsonMembers(entries[1..]);
    var mid := "\":\"" + v + "\"";
    assert JsonMember(k, v) == "\"" + k + mid;
    assert JsonMembers(entries) == JsonMember(k, v) + rest;
    OpensWith(JsonObject(entries), k, mid, rest);
  }

  lemma OpensWith(j: string, k: string, mid: string, rest: string)
    requires j == "{" + ("\"" + k + mid + rest) + "}" && |mid| > 0 && mid[0] == '"'
    ensures |j| > 2 + |k| && j[..2] == "{\"" && j[2..2 + |k|] == k && j[2 + |k|] == '"'
  {
    assert j[0] == '{' && j[1] == '"';
    assert forall i :: 0 <= i < |k| ==> j[2 + i] == k[i];
    assert j[2 + |k|] == mid[0];
  }

  /** Two strings that open with different quote-free keys, each closed by `"`, differ. */
  lemma FirstKeysDiffer(j1: string, a: string, j2: string, b: string)
    requires a != b && '"' !in a && '"' !in b
    requires |j1| > 2 + |a| && j1[2..2 + |a|] == a && j1[2 + |a|] == '"'
    requires |j2| > 2 + |b| && j2[2..2 + |b|] == b && j2[2 + |b|] == '"'
    ensures j1 != j2
  {
    if |a| == |b| {
      var i :| 0 <= i < |a| && a[i] != b[i];
      assert j1[2 + i] == a[i] && j2[2 + i] == b[i];
    } else if |a| < |b| {
      assert j2[2 + |a|] == b[|a|];
      assert b[|a|] in b;
    } else {
      assert j1[2 + |b|] == a[|b|];
      assert a[|b|] in a;
    }
  }
}
