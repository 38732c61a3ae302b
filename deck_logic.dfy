/**
 * Legality, deck construction and the seeded shuffle of the hashed
 * off-chain engine.
 */
module DeckLogic {
  import opened Wrappers
  import opened UnoTypes
  import opened JsNumbers

  /** `COLORS[i]`: red, blue, green, yellow. */
  function ColorAt(i: nat): Color
    requires i < 4
  {
    if i == 0 then Red else if i == 1 then Blue else if i == 2 then Green else Yellow
  }

  /** `VALUES[i]`: the ten digits, then skip, reverse and draw two. */
  function ValueAt(i: nat): Value
    requires i < 13
  {
    if i < 10 then Number(i) else if i == 10 then Skip else if i == 11 then Reverse else Draw2
  }

  /** The position of a non-wild colour in `COLORS`. */
  function ColorIndex(c: Color): (i: nat)
    requires c != Wild
    ensures i < 4 && ColorAt(i) == c
  {
    match c
    case Red => 0
    case Blue => 1
    case Green => 2
    case Yellow => 3
  }

  /** The position of a coloured value in `VALUES`. */
  function ValueIndex(v: Value): (i: nat)
    requires v != WildValue && v != WildDraw4
    ensures i < 13 && ValueAt(i) == v
  {
    match v
    case Number(d) => d
    case Skip => 10
    case Reverse => 11
    case Draw2 => 12
  }

  lemma ValueIndexInverse(i: nat)
    requires i < 13
    ensures ValueAt(i) != WildValue && ValueAt(i) != WildDraw4 && ValueIndex(ValueAt(i)) == i
  {
  }

  lemma ColorIndexInverse(i: nat)
    requires i < 4
    ensures ColorAt(i) != Wild && ColorIndex(ColorAt(i)) == i
  {
  }

  /**
   * `isValidPlay`: a wild card is always playable; any other card must match
   * the current colour or the current value. Before the game starts both are
   * null, which no card matches.
   */
  predicate IsValidPlay(card: Card, currentColor: Option<Color>, currentValue: Option<Value>) {
    if card.color == Wild then true
    else if currentColor == Some(card.color) then true
    else if currentValue == Some(card.value) then true
    else false
  }

  /**
   * Before the game starts only wilds are playable; a card always matches
   * the colour and value it set itself; a coloured card is playable exactly
   * when it shares the current colour or the current value.
   */
  lemma IsValidPlayCases(card: Card, currentColor: Option<Color>, currentValue: Option<Value>)
    ensures IsValidPlay(card, None, None) <==> card.color == Wild
    ensures IsValidPlay(card, Some(card.color), Some(card.value))
    ensures card.color != Wild ==>
      (IsValidPlay(card, currentColor, currentValue) <==> currentColor == Some(card.color) || currentValue == Some(card.value))
  {
  }

  /** `canPlay`: `hand.some(isValidPlay)`. */
  function CanPlay(hand: seq<Card>, currentColor: Color, currentValue: Value): (r: bool)
    ensures r <==> exists i :: 0 <= i < |hand| && IsValidPlay(hand[i], Some(currentColor), Some(currentValue))
    ensures r <==> exists c :: c in hand && (c.color == Wild || c.color == currentColor || c.value == currentValue)
  {
    if |hand| == 0 then false
    else if IsValidPlay(hand[0], Some(currentColor), Some(currentValue)) then true
    else
      var rest := CanPlay(hand[1..], currentColor, currentValue);
      assert forall i :: 1 <= i < |hand| ==> hand[i] == hand[1..][i - 1];
      assert forall c :: c in hand && c != hand[0] ==> c in hand[1..];
      rest
  }

  // ---------------------------------------------------------------- createDeck

  /** How many copies of a coloured value one colour gets: one '0', two of the rest. */
  function CopiesPerColor(v: Value): nat {
    if v == Number(0) then 1 else 2
  }

  /** The cards `createDeck` pushes for one colour and its first `n` values, in push order. */
  function ColorBlock(c: Color, n: nat): seq<Card>
    requires n <= 13
  {
    if n == 0 then [] else ColorBlock(c, n - 1) + ValueCopies(c, ValueAt(n - 1))
  }

  /** The full colour blocks of the first `n` colours, in push order. */
  function ColorBlocks(n: nat): seq<Card>
    requires n <= 4
  {
    if n == 0 then [] else ColorBlocks(n - 1) + ColorBlock(ColorAt(n - 1), 13)
  }

  /** `n` rounds of the wild loop: a wild, then a wild draw four, each round. */
  function WildBlock(n: nat): seq<Card> {
    if n == 0 then [] else WildBlock(n - 1) + [Card(Wild, WildValue), Card(Wild, WildDraw4)]
  }

  /** The deck in the order `createDeck` builds it. */
  function CanonicalDeck(): seq<Card> {
    ColorBlocks(4) + WildBlock(4)
  }

  /**
   * `createDeck`: for each colour, every value once and every value but '0'
   * a second time; then four rounds of a wild and a wild draw four.
   */
  method CreateDeck() returns (deck: seq<Card>)
    ensures deck == CanonicalDeck()
    ensures |deck| == 108 && forall c :: multiset(deck)[c] == UnoCopies(c)
  {
    deck := [];
    for ci := 0 to 4
      invariant deck == ColorBlocks(ci)
    {
      deck := PushColor(deck, ColorAt(ci));
    }
    for i := 0 to 4
      invariant deck == ColorBlocks(4) + WildBlock(i)
    {
      ghost var before := deck;
      deck := deck + [Card(Wild, WildValue)];
      deck := deck + [Card(Wild, WildDraw4)];
      WildBlockStep(before, ColorBlocks(4), i);
    }
    CanonicalDeckComposition();
  }

  /** The inner `VALUES.forEach` of `createDeck` for one colour. */
  method PushColor(deck0: seq<Card>, color: Color) returns (deck: seq<Card>)
    ensures deck == deck0 + ColorBlock(color, 13)
  {
    deck := deck0;
    for vi := 0 to 13
      invariant deck == deck0 + ColorBlock(color, vi)
    {
      var value := ValueAt(vi);
      ghost var before := deck;
      deck := deck + [Card(color, value)];
      if value != Number(0) {
        deck := deck + [Card(color, value)];
      }
      assert deck == before + ValueCopies(color, value);
      AppendAssoc(deck0, ColorBlock(color, vi), ValueCopies(color, value));
    }
  }

  lemma AppendAssoc(a: seq<Card>, b: seq<Card>, c: seq<Card>)
    ensures (a + b) + c == a + (b + c)
  {
  }

  lemma WildBlockStep(deck: seq<Card>, colored: seq<Card>, i: nat)
    requires deck == colored + WildBlock(i)
    ensures deck + [Card(Wild, WildValue)] + [Card(Wild, WildDraw4)] == colored + WildBlock(i + 1)
  {
  }

  /** The standard UNO composition: how many copies of each card a full deck holds. */
  function UnoCopies(c: Card): nat {
    if c.color == Wild then
      (if c.value == WildValue || c.value == WildDraw4 then 4 else 0)
    else if c.value.Number? || c.value == Skip || c.value == Reverse || c.value == Draw2 then
      CopiesPerColor(c.value)
    else 0
  }

  /** The cards one `VALUES` iteration pushes. */
  function ValueCopies(c: Color, v: Value): seq<Card> {
    if v != Number(0) then [Card(c, v), Card(c, v)] else [Card(c, v)]
  }

  lemma ValueCopiesCount(c: Color, v: Value, x: Card)
    ensures multiset(ValueCopies(c, v))[x] == if x == Card(c, v) then CopiesPerColor(v) else 0
    ensures |ValueCopies(c, v)| == CopiesPerColor(v)
  {
  }

  /** Whether card `x` is one of the first `n` values of colour `c`. */
  predicate InColorBlock(c: Color, n: nat, x: Card) {
    x.color == c && x.value != WildValue && x.value != WildDraw4 && ValueIndex(x.value) < n
  }

  /** Coloured card `x` occurs in the first `n` values of colour `c` as often as that value is copied. */
  lemma {:induction false} ColorBlockCount(c: Color, n: nat, x: Card)
    requires n <= 13
    ensures multiset(ColorBlock(c, n))[x] == if InColorBlock(c, n, x) then CopiesPerColor(x.value) else 0
  {
    if n > 0 {
      var v := ValueAt(n - 1);
      var front, copies := ColorBlock(c, n - 1), ValueCopies(c, v);
      assert ColorBlock(c, n) == front + copies;
      assert multiset(front + copies)[x] == multiset(front)[x] + multiset(copies)[x];
      ColorBlockCount(c, n - 1, x);
      ValueCopiesCount(c, v, x);
      InColorBlockStep(c, n, x);
    }
  }

  /** The first `n` values of a colour are the first `n - 1` and the value at `n - 1`. */
  lemma InColorBlockStep(c: Color, n: nat, x: Card)
    requires 0 < n <= 13
    ensures InColorBlock(c, n, x) <==> InColorBlock(c, n - 1, x) || x == Card(c, ValueAt(n - 1))
    ensures x == Card(c, ValueAt(n - 1)) ==> !InColorBlock(c, n - 1, x)
  {
    ValueIndexInverse(n - 1);
  }

  lemma {:induction false} ColorBlockLength(c: Color, n: nat)
    requires n <= 13
    ensures |ColorBlock(c, n)| == if n == 0 then 0 else 2 * n - 1
  {
    if n > 0 {
      ColorBlockLength(c, n - 1);
    }
  }

  /** Whether card `x` is a coloured card of one of the first `n` colours. */
  predicate InColorBlocks(n: nat, x: Card) {
    x.color != Wild && ColorIndex(x.color) < n && x.value != WildValue && x.value != WildDraw4
  }

  /** Coloured card `x` occurs in the first `n` colour blocks as often as its value is copied, if its colour is among them. */
  lemma {:induction false} ColorBlocksCount(n: nat, x: Card)
    requires n <= 4
    ensures multiset(ColorBlocks(n))[x] == if InColorBlocks(n, x) then CopiesPerColor(x.value) else 0
  {
    if n > 0 {
      var c := ColorAt(n - 1);
      var front, block := ColorBlocks(n - 1), ColorBlock(c, 13);
      assert ColorBlocks(n) == front + block;
      assert multiset(front + block)[x] == multiset(front)[x] + multiset(block)[x];
      ColorBlocksCount(n - 1, x);
      ColorBlockCount(c, 13, x);
      ColorIndexInverse(n - 1);
      assert InColorBlock(c, 13, x) <==> x.color == c && x.value != WildValue && x.value != WildDraw4;
      assert InColorBlocks(n, x) <==> InColorBlocks(n - 1, x) || InColorBlock(c, 13, x);
    }
  }

  lemma {:induction false} ColorBlocksLength(n: nat)
    requires n <= 4
    ensures |ColorBlocks(n)| == 25 * n
  {
    if n > 0 {
      ColorBlocksLength(n - 1);
      ColorBlockLength(ColorAt(n - 1), 13);
    }
  }

  lemma {:induction false} WildBlockCount(n: nat, x: Card)
    ensures multiset(WildBlock(n))[x] == if x == Card(Wild, WildValue) || x == Card(Wild, WildDraw4) then n else 0
    ensures |WildBlock(n)| == 2 * n
  {
    if n > 0 {
      WildBlockCount(n - 1, x);
    }
  }

  lemma MultisetOfConcat(a: seq<Card>, b: seq<Card>, x: Card)
    ensures multiset(a + b)[x] == multiset(a)[x] + multiset(b)[x]
  {
  }

  lemma UnoCopiesSplit(x: Card, colored: nat, wild: nat)
    requires colored == if InColorBlocks(4, x) then CopiesPerColor(x.value) else 0
    requires wild == if x == Card(Wild, WildValue) || x == Card(Wild, WildDraw4) then 4 else 0
    ensures colored + wild == UnoCopies(x)
  {
    if x.color != Wild {
      assert ColorIndex(x.color) < 4;
    }
  }

  /** How often card `x` occurs in the canonical deck. */
  lemma CanonicalDeckCount(x: Card)
    ensures multiset(CanonicalDeck())[x] == UnoCopies(x)
  {
    MultisetOfConcat(ColorBlocks(4), WildBlock(4), x);
    ColorBlocksCount(4, x);
    WildBlockCount(4, x);
    UnoCopiesSplit(x, multiset(ColorBlocks(4))[x], multiset(WildBlock(4))[x]);
  }

  lemma CanonicalDeckLength()
    ensures |CanonicalDeck()| == 108
  {
    ColorBlocksLength(4);
    WildBlockCount(4, Card(Wild, WildValue));
  }

  /** The deck has 108 cards in exactly the standard UNO composition. */
  lemma CanonicalDeckComposition()
    ensures |CanonicalDeck()| == 108
    ensures forall c :: multiset(CanonicalDeck())[c] == UnoCopies(c)
  {
    forall c
      ensures multiset(CanonicalDeck())[c] == UnoCopies(c)
    {
      CanonicalDeckCount(c);
    }
    CanonicalDeckLength();
  }
  // --------------------------------------------------------------- shuffleDeck

  /** `0x7fffffff`, the divisor that turns a seed into a fraction. */
  const SEED_RANGE: nat := 0x7fff_ffff

  const MULTIPLIER: nat := 1103515245
  const INCREMENT: nat := 12345

  /**
   * One step of the generator: `(seed * 1103515245 + 12345) & 0x7fffffff`,
   * evaluated on Numbers: the product and the sum are each rounded to a
   * double, and on the non-negative integer that results, masking with
   * `0x7fffffff` keeps the value modulo 2^31.
   */
  function NextSeed(seed: nat): (next: nat)
    ensures next <= SEED_RANGE
  {
    ToNumber(ToNumber(seed * MULTIPLIER) + INCREMENT) % 0x8000_0000
  }

  /**
   * The generator never yields `0x7fffffff`. Doing so needs an odd sum, so
   * one below 2^53 and computed exactly; but the only seeds below 2^31 that
   * reach `0x7fffffff` exactly are 230538014 and its kin modulo 2^31, whose
   * products are already past 2^53.
   */
  lemma NextSeedBelowRange(seed: nat)
    ensures NextSeed(seed) < SEED_RANGE
  {
    var p := ToNumber(seed * MULTIPLIER);
    var x := ToNumber(p + INCREMENT);
    ToNumberRange(seed * MULTIPLIER);
    ToNumberRange(p + INCREMENT);
    assert x % 0x8000_0000 == SEED_RANGE ==> x % 2 == 1 by {
      assert x == 0x8000_0000 * (x / 0x8000_0000) + x % 0x8000_0000;
    }
    if seed < 0x8000_0000 {
      LcgInverse(seed);
    }
  }

  /**
   * Exactly, `r * 1103515245 + 12345` is `0x7fffffff` modulo 2^31 only for
   * `r` = 230538014: multiplying by 1857678181, the inverse of the
   * multiplier modulo 2^31, solves for `r`.
   */
  lemma LcgInverse(r: nat)
    requires r < 0x8000_0000
    ensures (r * MULTIPLIER + INCREMENT) % 0x8000_0000 == SEED_RANGE ==> r == 230538014
  {
    var x := r * MULTIPLIER + INCREMENT;
    var q := x / 0x8000_0000;
    if x % 0x8000_0000 == SEED_RANGE {
      assert x == 0x8000_0000 * q + SEED_RANGE;
      assert x * 1857678181 == r + 0x8000_0000 * (r * 954594553) + INCREMENT * 1857678181;
      var z := q * 1857678181 - r * 954594553 + 1857667501;
      assert r - 230538014 == 0x8000_0000 * z;
    }
  }

  /**
   * `Math.floor(seed / 0x7fffffff * currentIndex)`, taken over exact
   * rationals. The doubles agree for `seed < 0x7fffffff` and an index below
   * 2^21: `0x7fffffff` is prime, so the exact quotient lies at least
   * `1 / 0x7fffffff` from every integer, more than the two roundings can
   * move a quotient below 2^21.
   */
  function DrawIndex(seed: nat, currentIndex: nat): (j: nat)
    requires seed <= SEED_RANGE
    ensures j <= currentIndex
    ensures j < currentIndex <==> seed < SEED_RANGE && currentIndex > 0
  {
    DrawIndexBound(seed, currentIndex);
    seed * currentIndex / SEED_RANGE
  }

  lemma DrawIndexBound(seed: nat, c: nat)
    requires seed <= SEED_RANGE
    ensures seed * c / SEED_RANGE <= c
    ensures seed * c / SEED_RANGE < c <==> seed < SEED_RANGE && c > 0
  {
    if seed < SEED_RANGE && c > 0 {
      assert seed * c <= (SEED_RANGE - 1) * c;
      assert seed * c < SEED_RANGE * c;
    } else if seed == SEED_RANGE {
      assert seed * c == SEED_RANGE * c;
    }
  }

  /** `s` with positions `i` and `j` exchanged through a temporary. */
  function Swap(s: seq<Card>, i: nat, j: nat): (r: seq<Card>)
    requires i < |s| && j < |s|
    ensures |r| == |s| && r[i] == s[j] && r[j] == s[i]
    ensures forall k :: 0 <= k < |s| && k != i && k != j ==> r[k] == s[k]
  {
    s[i := s[j]][j := s[i]]
  }

  /**
   * The shuffle loop from `currentIndex` down to zero. `None` when a draw
   * lands past the end of the deck, where the source would write beyond the
   * array: only the first draw could, were the next seed `0x7fffffff`.
   */
  function ShuffleFrom(s: seq<Card>, currentIndex: nat, seed: nat): Option<seq<Card>>
    requires currentIndex <= |s|
    decreases currentIndex
  {
    if currentIndex == 0 then Some(s)
    else
      var next := NextSeed(seed);
      var j := DrawIndex(next, currentIndex);
      if j >= |s| then None
      else ShuffleFrom(Swap(s, currentIndex - 1, j), currentIndex - 1, next)
  }

  /** `shuffleDeck(deck, seed)`. */
  function Shuffle(deck: seq<Card>, seed: nat): Option<seq<Card>> {
    ShuffleFrom(deck, |deck|, seed)
  }

  /** `shuffleDeck`: the Fisher-Yates loop over a copy of the deck, driven by the seeded generator. */
  method ShuffleDeck(deck: seq<Card>, seed: nat) returns (shuffled: Option<seq<Card>>)
    ensures shuffled == Shuffle(deck, seed)
    ensures shuffled.Some? ==> multiset(shuffled.value) == multiset(deck) && |shuffled.value| == |deck|
  {
    ShufflePermutes(deck, seed);
    var a := new Card[|deck|](i requires 0 <= i < |deck| => deck[i]);
    assert a[..] == deck;
    var currentIndex := a.Length;
    var s := seed;
    while currentIndex != 0
      invariant 0 <= currentIndex <= a.Length
      invariant ShuffleFrom(a[..], currentIndex, s) == Shuffle(deck, seed)
      decreases currentIndex
    {
      ghost var before, c0, s0 := a[..], currentIndex, s;
      s := NextSeed(s);
      var randomIndex := DrawIndex(s, currentIndex);
      if randomIndex >= a.Length {
        return None;
      }
      ShuffleFromStep(before, c0, s0);
      currentIndex := currentIndex - 1;
      var temporaryValue := a[currentIndex];
      a[currentIndex] := a[randomIndex];
      a[randomIndex] := temporaryValue;
      assert a[..] == Swap(before, currentIndex, randomIndex);
    }
    return Some(a[..]);
  }

  lemma ShuffleFromStep(s: seq<Card>, currentIndex: nat, seed: nat)
    requires 0 < currentIndex <= |s|
    requires DrawIndex(NextSeed(seed), currentIndex) < |s|
    ensures ShuffleFrom(s, currentIndex, seed) ==
      ShuffleFrom(Swap(s, currentIndex - 1, DrawIndex(NextSeed(seed), currentIndex)), currentIndex - 1, NextSeed(seed))
  {
  }

  lemma SwapPermutes(s: seq<Card>, i: nat, j: nat)
    requires i < |s| && j < |s|
    ensures multiset(Swap(s, i, j)) == multiset(s)
  {
    var r := s[i := s[j]];
    assert multiset(r) == multiset(s) - multiset{s[i]} + multiset{s[j]};
    assert multiset(r[j := s[i]]) == multiset(r) - multiset{r[j]} + multiset{s[i]};
  }

  lemma {:induction false} ShuffleFromPermutes(s: seq<Card>, currentIndex: nat, seed: nat)
    requires currentIndex <= |s|
    ensures ShuffleFrom(s, currentIndex, seed).Some? ==>
      var r := ShuffleFrom(s, currentIndex, seed).value; multiset(r) == multiset(s) && |r| == |s|
    decreases currentIndex
  {
    if currentIndex > 0 {
      var next := NextSeed(seed);
      var j := DrawIndex(next, currentIndex);
      if j < |s| {
        SwapPermutes(s, currentIndex - 1, j);
        ShuffleFromPermutes(Swap(s, currentIndex - 1, j), currentIndex - 1, next);
      }
    }
  }

  /** A shuffled deck holds exactly the cards it was given. */
  lemma ShufflePermutes(deck: seq<Card>, seed: nat)
    ensures Shuffle(deck, seed).Some? ==>
      multiset(Shuffle(deck, seed).value) == multiset(deck) && |Shuffle(deck, seed).value| == |deck|
  {
    ShuffleFromPermutes(deck, |deck|, seed);
  }

  lemma {:induction false} ShuffleFromDefined(s: seq<Card>, currentIndex: nat, seed: nat)
    requires currentIndex < |s|
    ensures ShuffleFrom(s, currentIndex, seed).Some?
    decreases currentIndex
  {
    if currentIndex > 0 {
      var next := NextSeed(seed);
      ShuffleFromDefined(Swap(s, currentIndex - 1, DrawIndex(next, currentIndex)), currentIndex - 1, next);
    }
  }

  /** The shuffle runs past the end of the deck exactly when the first draw is `0x7fffffff` on a non-empty deck. */
  lemma ShuffleFailsIff(deck: seq<Card>, seed: nat)
    ensures Shuffle(deck, seed).None? <==> |deck| > 0 && NextSeed(seed) == SEED_RANGE
  {
    if |deck| > 0 && NextSeed(seed) < SEED_RANGE {
      var next := NextSeed(seed);
      ShuffleFromDefined(Swap(deck, |deck| - 1, DrawIndex(next, |deck|)), |deck| - 1, next);
    }
  }

  /** The generator never yields `0x7fffffff`, so every shuffle stays inside the deck. */
  lemma ShuffleNeverFails(deck: seq<Card>, seed: nat)
    ensures Shuffle(deck, seed).Some?
  {
    NextSeedBelowRange(seed);
    ShuffleFailsIff(deck, seed);
  }
}
