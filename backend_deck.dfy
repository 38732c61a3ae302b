/**
 * The backend's 52-card `Deck` class and its `cardValues` table. The deck
 * is a JavaScript array that `reset` refills, `shuffle` permutes in place
 * and `deal` pops; here it is the `seq` field of one `Deck` object.
 * `Math.random()` is a parameter: one draw from [0, 1) per swap.
 */
module BackendDeck {
  import opened Wrappers
  import opened JsBuiltins

  /** The suits of the outer loop of `reset`, in order. */
  const SUITS: seq<string> := ["Hearts", "Diamonds", "Clubs", "Spades"]

  /** The values of the inner loop, as `+` turns them into text: the numbers become their decimal digits. */
  const VALUES: seq<string> := ["Ace", "2", "3", "4", "5", "6", "7", "8", "9", "10", "Jack", "Queen", "King"]

  const SUIT_COUNT := 4
  const VALUE_COUNT := 13
  const DECK_SIZE := 52

  /** `values[value] + " of " + suits[suit]`. */
  function CardName(value: nat, suit: nat): string
    requires value < VALUE_COUNT && suit < SUIT_COUNT
  {
    VALUES[value] + " of " + SUITS[suit]
  }

  /** The order `reset` leaves: position `k` holds value `k % 13` of suit `k / 13`. */
  function ResetOrder(): (d: seq<string>)
    ensures |d| == DECK_SIZE
  {
    seq(DECK_SIZE, k requires 0 <= k < DECK_SIZE => CardName(k % VALUE_COUNT, k / VALUE_COUNT))
  }

  /** Position `13 * suit + value` of the reset order holds that value of that suit. */
  lemma PositionOf(value: nat, suit: nat)
    requires value < VALUE_COUNT && suit < SUIT_COUNT
    ensures (VALUE_COUNT * suit + value) % VALUE_COUNT == value
    ensures (VALUE_COUNT * suit + value) / VALUE_COUNT == suit
  {
  }

  /** A card's name begins with its value and, after the value and " of ", with its suit. */
  lemma NameLetters(value: nat, suit: nat)
    requires value < VALUE_COUNT && suit < SUIT_COUNT
    ensures CardName(value, suit)[0] == VALUES[value][0]
    ensures |VALUES[value]| + 4 < |CardName(value, suit)|
    ensures CardName(value, suit)[|VALUES[value]| + 4] == SUITS[suit][0]
  {
    var name := CardName(value, suit);
    assert name == VALUES[value] + (" of " + SUITS[suit]);
  }

  /** Distinct values start with distinct letters, and so do distinct suits. */
  lemma FirstLettersDistinct()
    ensures forall v, w :: 0 <= v < w < VALUE_COUNT ==> VALUES[v][0] != VALUES[w][0]
    ensures forall s, t :: 0 <= s < t < SUIT_COUNT ==> SUITS[s][0] != SUITS[t][0]
  {
  }

  /** Two names agree only for the same value of the same suit. */
  lemma {:induction false} NamesDistinct(value: nat, suit: nat, value': nat, suit': nat)
    requires value < VALUE_COUNT && suit < SUIT_COUNT && value' < VALUE_COUNT && suit' < SUIT_COUNT
    ensures CardName(value, suit) == CardName(value', suit') <==> value == value' && suit == suit'
  {
    if CardName(value, suit) == CardName(value', suit') {
      NameLetters(value, suit);
      NameLetters(value', suit');
      FirstLettersDistinct();
      assert value == value';
      assert suit == suit';
    }
  }

  /** The 52 strings of the reset order are pairwise distinct. */
  lemma ResetOrderDistinct()
    ensures NoDuplicates(ResetOrder())
    ensures |multiset(ResetOrder())| == |set name | name in ResetOrder()| == DECK_SIZE
  {
    var d := ResetOrder();
    forall i, j | 0 <= i < j < |d|
      ensures d[i] != d[j]
    {
      NamesDistinct(i % VALUE_COUNT, i / VALUE_COUNT, j % VALUE_COUNT, j / VALUE_COUNT);
    }
    DistinctCounts(d);
  }

  /** Without duplicates, a sequence has as many distinct elements as entries. */
  lemma {:induction false} DistinctCounts(d: seq<string>)
    requires NoDuplicates(d)
    ensures |multiset(d)| == |set name | name in d| == |d|
  {
    if |d| > 0 {
      var rest := d[..|d| - 1];
      assert NoDuplicates(rest);
      DistinctCounts(rest);
      assert d == rest + [d[|d| - 1]];
      assert d[|d| - 1] !in rest;
      assert (set name | name in d) == (set name | name in rest) + {d[|d| - 1]};
    }
  }

  /**
   * `cardValues`: every name `"<value> of <suit>"` with its rank, the Ace 1,
   * the number cards their face value and Jack, Queen and King 11, 12 and 13.
   */
  function CardValues(): map<string, nat> {
    NameDeterminesRank();
    map k | 0 <= k < DECK_SIZE :: CardName(k % VALUE_COUNT, k / VALUE_COUNT) := k % VALUE_COUNT + 1
  }

  /** Positions holding the same name hold the same value, so the table gives each name one rank. */
  lemma NameDeterminesRank()
    ensures forall i, j :: (0 <= i < DECK_SIZE && 0 <= j < DECK_SIZE && CardName(i % VALUE_COUNT, i / VALUE_COUNT) == CardName(j % VALUE_COUNT, j / VALUE_COUNT)
      ==> i % VALUE_COUNT + 1 == j % VALUE_COUNT + 1)
  {
    forall i, j | 0 <= i < DECK_SIZE && 0 <= j < DECK_SIZE
      ensures CardName(i % VALUE_COUNT, i / VALUE_COUNT) == CardName(j % VALUE_COUNT, j / VALUE_COUNT) ==> i % VALUE_COUNT == j % VALUE_COUNT
    {
      NamesDistinct(i % VALUE_COUNT, i / VALUE_COUNT, j % VALUE_COUNT, j / VALUE_COUNT);
    }
  }

  /** Every card of the reset order has an entry, and the entry is the value's rank. */
  lemma CardValuesRanks(value: nat, suit: nat)
    requires value < VALUE_COUNT && suit < SUIT_COUNT
    ensures CardName(value, suit) in CardValues()
    ensures CardValues()[CardName(value, suit)] == value + 1
    ensures VALUES[value] == "Ace" ==> CardValues()[CardName(value, suit)] == 1
    ensures VALUES[value] == "Jack" ==> CardValues()[CardName(value, suit)] == 11
    ensures VALUES[value] == "Queen" ==> CardValues()[CardName(value, suit)] == 12
    ensures VALUES[value] == "King" ==> CardValues()[CardName(value, suit)] == 13
  {
    var k := VALUE_COUNT * suit + value;
    PositionOf(value, suit);
    NameDeterminesRank();
    assert CardName(k % VALUE_COUNT, k / VALUE_COUNT) == CardName(value, suit);
    assert CardName(value, suit) in CardValues();
  }

  /** The table covers exactly the 52 names of the deck. */
  lemma CardValuesCoverDeck()
    ensures forall name :: name in ResetOrder() <==> name in CardValues()
    ensures |CardValues()| == DECK_SIZE
  {
    var d := ResetOrder();
    forall name | name in d
      ensures name in CardValues()
    {
      var k :| 0 <= k < DECK_SIZE && d[k] == name;
      assert CardName(k % VALUE_COUNT, k / VALUE_COUNT) in CardValues();
    }
    forall name | name in CardValues()
      ensures name in d
    {
      var k :| 0 <= k < DECK_SIZE && name == CardName(k % VALUE_COUNT, k / VALUE_COUNT);
      assert d[k] == name;
    }
    assert CardValues().Keys == set name | name in d;
    ResetOrderDistinct();
  }

  class Deck {
    var deck: seq<string>

    /** `new Deck()`: `reset`, then `shuffle`, with one random draw per position. */
    constructor(randoms: seq<real>)
      requires |randoms| == DECK_SIZE
      requires forall k :: 0 <= k < |randoms| ==> 0.0 <= randoms[k] < 1.0
      ensures |deck| == DECK_SIZE
      ensures multiset(deck) == multiset(ResetOrder())
    {
      deck := [];
      new;
      Reset();
      Shuffle(randoms);
    }

    /** `reset()`: the deck refilled, suits outermost and values innermost. */
    method Reset()
      modifies this
      ensures deck == ResetOrder()
    {
      deck := [];
      for suit := 0 to SUIT_COUNT
        invariant |deck| == VALUE_COUNT * suit
        invariant forall k :: 0 <= k < |deck| ==> deck[k] == ResetOrder()[k]
      {
        for value := 0 to VALUE_COUNT
          invariant |deck| == VALUE_COUNT * suit + value
          invariant forall k :: 0 <= k < |deck| ==> deck[k] == ResetOrder()[k]
        {
          PositionOf(value, suit);
          deck := deck + [VALUES[value] + " of " + SUITS[suit]];
        }
      }
    }

    /**
     * `shuffle()`: for each position `i`, swap it with the position
     * `Math.floor(randoms[i] * n)`. The deck is a permutation of the old one.
     */
    method Shuffle(randoms: seq<real>)
      requires |randoms| >= |deck|
      requires forall k :: 0 <= k < |randoms| ==> 0.0 <= randoms[k] < 1.0
      modifies this
      ensures |deck| == old(|deck|)
      ensures multiset(deck) == old(multiset(deck))
    {
      var numberOfCards := |deck|;
      for i := 0 to numberOfCards
        invariant |deck| == numberOfCards
        invariant multiset(deck) == old(multiset(deck))
      {
        var j := RandomIndex(randoms[i], numberOfCards);
        var tmp := deck[i];
        deck := deck[i := deck[j]];
        deck := deck[j := tmp];
      }
    }

    /** `deal()`: `pop` — the last card, removed; `undefined` on an empty deck, which stays empty. */
    method Deal() returns (card: Option<string>)
      modifies this
      ensures old(|deck|) == 0 ==> card == None && deck == []
      ensures old(|deck|) > 0 ==> card.Some? && old(deck) == deck + [card.value]
      ensures Length() == if old(|deck|) == 0 then 0 else old(|deck|) - 1
    {
      if |deck| == 0 {
        return None;
      }
      card := Some(deck[|deck| - 1]);
      deck := deck[..|deck| - 1];
    }

    /** `isEmpty()`: exactly when `length()` is 0. */
    predicate IsEmpty()
      reads this
      ensures IsEmpty() <==> Length() == 0
    {
      |deck| == 0
    }

    /** `length()`. */
    function Length(): nat
      reads this
    {
      |deck|
    }
  }
}
