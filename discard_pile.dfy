/**
 * `HashedDiscardPile`: the discard pile kept as two parallel arrays, the
 * cards and their `hashCard` commitments. The private `hashCard` method of
 * the class encodes exactly as the engine's `hashCard` does, so it is
 * `Commitments.HashCard` here.
 */
module DiscardPile {
  import opened Wrappers
  import opened UnoTypes
  import opened Commitments

  class HashedDiscardPile {
    /** keccak256 of the ABI encoding, fixed for the lifetime of the pile. */
    const keccak: Keccak
    var discardPile: seq<Card>
    var discardPileHashes: seq<Hash>

    /** The two arrays stay parallel: entry `k` of the hashes commits to card `k`. */
    ghost predicate Valid()
      reads this
    {
      && |discardPile| == |discardPileHashes|
      && forall k :: 0 <= k < |discardPile| ==> discardPileHashes[k] == HashCard(keccak, discardPile[k])
    }

    constructor(keccak: Keccak)
      ensures this.keccak == keccak
      ensures discardPile == [] && discardPileHashes == []
      ensures Valid()
    {
      this.keccak := keccak;
      discardPile := [];
      discardPileHashes := [];
    }

    /** `addCard`: push the card, then push its hash. */
    method AddCard(card: Card)
      requires Valid()
      modifies this
      ensures Valid()
      ensures discardPile == old(discardPile) + [card]
      ensures discardPileHashes == old(discardPileHashes) + [HashCard(keccak, card)]
    {
      discardPile := discardPile + [card];
      var cardHash := HashCard(keccak, card);
      discardPileHashes := discardPileHashes + [cardHash];
    }

    /** `getTopCard`: the most recently added card, undefined on an empty pile. */
    method GetTopCard() returns (top: Option<Card>)
      ensures |discardPile| == 0 ==> top == None
      ensures |discardPile| > 0 ==> top == Some(discardPile[|discardPile| - 1])
    {
      if |discardPile| == 0 {
        return None;
      }
      return Some(discardPile[|discardPile| - 1]);
    }

    /** `getTopCardHash`: on a valid non-empty pile, the commitment to the top card. */
    method GetTopCardHash() returns (top: Option<Hash>)
      requires Valid()
      ensures |discardPile| == 0 <==> top == None
      ensures |discardPile| > 0 ==> top == Some(HashCard(keccak, discardPile[|discardPile| - 1]))
    {
      if |discardPileHashes| == 0 {
        return None;
      }
      return Some(discardPileHashes[|discardPileHashes| - 1]);
    }

    /** `getAllCardHashes`: a copy of the stored hashes. */
    method GetAllCardHashes() returns (hashes: seq<Hash>)
      requires Valid()
      ensures hashes == discardPileHashes
      ensures |hashes| == |discardPile|
      ensures forall k :: 0 <= k < |hashes| ==> hashes[k] == HashCard(keccak, discardPile[k])
    {
      hashes := discardPileHashes;
    }

    /**
     * `verifyCard(index, card)`: false outside `0 <= index < size`; otherwise
     * whether the card's commitment is the one stored at `index`.
     */
    method VerifyCard(index: int, card: Card) returns (ok: bool)
      requires Valid()
      ensures ok <==> 0 <= index < |discardPile| && HashCard(keccak, card) == discardPileHashes[index]
      ensures ok <==> 0 <= index < |discardPile| && HashCard(keccak, card) == HashCard(keccak, discardPile[index])
    {
      if index < 0 || index >= |discardPile| {
        return false;
      }
      var cardHash := HashCard(keccak, card);
      return cardHash == discardPileHashes[index];
    }

    /** `getDiscardPileSize`. */
    method GetDiscardPileSize() returns (size: nat)
      ensures size == |discardPile|
    {
      return |discardPile|;
    }

    /** `reset`: both arrays become empty. */
    method Reset()
      modifies this
      ensures discardPile == [] && discardPileHashes == []
      ensures Valid()
    {
      discardPile := [];
      discardPileHashes := [];
    }

    /**
     * `getDiscardPileHash`: the `bytes32[]` commitment to the stored hashes,
     * which on a valid pile is `hashCards` of the cards.
     */
    method GetDiscardPileHash() returns (h: Hash)
      requires Valid()
      ensures h == HashOfCardHashes(keccak, discardPileHashes)
      ensures h == HashCards(keccak, discardPile)
    {
      assert CardHashes(keccak, discardPile) == discardPileHashes;
      h := HashOfCardHashes(keccak, discardPileHashes);
    }
  }

  /** A pile built by adding cards one by one holds them in order, with their commitments, and its size and top follow. */
  method BuildPile(keccak: Keccak, cards: seq<Card>) returns (pile: HashedDiscardPile)
    ensures fresh(pile) && pile.Valid() && pile.keccak == keccak
    ensures pile.discardPile == cards
    ensures pile.discardPileHashes == CardHashes(keccak, cards)
  {
    pile := new HashedDiscardPile(keccak);
    for i := 0 to |cards|
      invariant pile.Valid() && pile.keccak == keccak
      invariant pile.discardPile == cards[..i]
    {
      pile.AddCard(cards[i]);
      assert cards[..i + 1] == cards[..i] + [cards[i]];
    }
    assert cards[..|cards|] == cards;
    assert pile.discardPileHashes == CardHashes(keccak, cards);
  }
}
