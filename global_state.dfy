/**
 * The card-hash registry: the module-level `globalCardHashMap` from card
 * commitment to card, with its update and two getters. The module variable
 * is the field of one `CardHashRegistry` object.
 */
module GlobalState {
  import opened Wrappers
  import opened UnoTypes

  class CardHashRegistry {
    var globalCardHashMap: map<Hash, Card>

    /** The registry starts as an empty `Map`. */
    constructor()
      ensures globalCardHashMap == map[]
    {
      globalCardHashMap := map[];
    }

    /**
     * `updateGlobalCardHashMap(newCardHashMap)`: a new `Map` of the record's
     * entries replaces the old one; nothing of the old contents survives.
     */
    method UpdateGlobalCardHashMap(newCardHashMap: map<Hash, Card>)
      modifies this
      ensures globalCardHashMap == newCardHashMap
      ensures forall h :: h in newCardHashMap ==> LookUp(h) == Some(newCardHashMap[h])
      ensures forall h :: h !in newCardHashMap ==> LookUp(h) == None
    {
      globalCardHashMap := newCardHashMap;
    }

    /** `getGlobalCardHashMap`. */
    method GetGlobalCardHashMap() returns (m: map<Hash, Card>)
      ensures m == globalCardHashMap
    {
      return globalCardHashMap;
    }

    /** `globalCardHashMap.get(cardHash)`: the card, or undefined on a miss. */
    function LookUp(cardHash: Hash): (c: Option<Card>)
      reads this
      ensures cardHash in globalCardHashMap <==> c.Some?
      ensures c.Some? ==> c.value == globalCardHashMap[cardHash]
    {
      if cardHash in globalCardHashMap then Some(globalCardHashMap[cardHash]) else None
    }

    /** `getCardFromGlobalHashMap`. */
    method GetCardFromGlobalHashMap(cardHash: Hash) returns (c: Option<Card>)
      ensures c == LookUp(cardHash)
      ensures cardHash !in globalCardHashMap ==> c == None
      ensures cardHash in globalCardHashMap ==> c == Some(globalCardHashMap[cardHash])
    {
      if cardHash in globalCardHashMap {
        return Some(globalCardHashMap[cardHash]);
      }
      return None;
    }
  }

  /** Two updates in a row leave exactly the second map: an update replaces, it does not merge. */
  method UpdateTwice(registry: CardHashRegistry, first: map<Hash, Card>, second: map<Hash, Card>)
    modifies registry
    ensures registry.globalCardHashMap == second
    ensures forall h :: h in first && h !in second ==> registry.LookUp(h) == None
  {
    registry.UpdateGlobalCardHashMap(first);
    registry.UpdateGlobalCardHashMap(second);
  }
}
