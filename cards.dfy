/** Cards of the "One Card" game and the pure rules over them: which cards attack,
    the damage each carries, and which cards of a hand may be played on the top card. */
module Cards {
  import opened Seqs

  /** The four standard suits (♥ ♣ ♠ ◆) and the pseudo-suit of the two Jokers. */
  datatype Suit = Heart | Club | Spade | Diamond | Joker

  /** 2..10, J, Q, K, A for the standard suits; Black and Colored for the Jokers. */
  datatype Rank =
    | Two | Three | Four | Five | Six | Seven | Eight | Nine | Ten
    | Jack | Queen | King | Ace
    | Black | Colored

  /** A card is a (suit, rank) pair; two cards with the same pair are equal. */
  datatype Card = Card(suit: Suit, rank: Rank)

  const Suits: seq<Suit> := [Heart, Club, Spade, Diamond]
  const Ranks: seq<Rank> := [Two, Three, Four, Five, Six, Seven, Eight, Nine, Ten, Jack, Queen, King, Ace]
  const Jokers: seq<Card> := [Card(Joker, Black), Card(Joker, Colored)]

  /** Damage per rank; a rank that is not a key has damage 0. */
  const DamageMap: map<Rank, nat> := map[Colored := 10, Black := 7, Ace := 3, Two := 2]

  /** The cards of the 54-card universe: a standard suit with a standard rank, or a Joker. */
  predicate ValidCard(c: Card)
  {
    (c.suit in Suits && c.rank in Ranks) || c in Jokers
  }

  /** An attack card (A, 2 or Joker); on the card universe these are exactly the cards
      whose rank is a key of the damage map. */
  predicate IsAttackCard(c: Card): (r: bool)
    ensures ValidCard(c) ==> (r <==> c.rank in DamageMap)
  {
    c.suit == Joker || c.rank in [Ace, Two]
  }

  /** The draw penalty a card adds to an attack chain. On the card universe a card
      carries damage exactly when it is an attack card. */
  function Damage(c: Card): (d: nat)
    ensures d <= 10
    ensures ValidCard(c) ==> (d > 0 <==> IsAttackCard(c))
    ensures c.suit == Joker && ValidCard(c) ==> d >= 7
  {
    if c.rank in DamageMap then DamageMap[c.rank] else 0
  }

  /** The per-card rule applied when the Joker-wild shortcut does not apply: a Joker is always
      playable; any other card must share the top card's suit or rank and, while an attack
      is active, must carry at least the top card's damage. */
  predicate Matches(c: Card, top: Card, isAttack: bool)
  {
    c.suit == Joker ||
    ((c.suit == top.suit || c.rank == top.rank) && (isAttack ==> Damage(c) >= Damage(top)))
  }

  /** Whether c may be played: everything is playable on a Joker when no attack is active. */
  predicate Legal(c: Card, top: Card, isAttack: bool)
  {
    (!isAttack && top.suit == Joker) || Matches(c, top, isAttack)
  }

  /** The cards of hand that satisfy Matches, in hand order. */
  function Filter(hand: seq<Card>, top: Card, isAttack: bool): (r: seq<Card>)
    ensures IsSubsequence(r, hand)
    ensures forall c :: multiset(r)[c] == if Matches(c, top, isAttack) then multiset(hand)[c] else 0
    decreases |hand|
  {
    if hand == [] then []
    else
      var rest := Filter(ButLast(hand), top, isAttack);
      MultisetButLast(hand);
      if Matches(Last(hand), top, isAttack) then
        assert ButLast(rest + [Last(hand)]) == rest;
        rest + [Last(hand)]
      else
        rest
  }

  /** The legal moves of hand on top, without reordering or deduplication. */
  function Available(hand: seq<Card>, top: Card, isAttack: bool): (r: seq<Card>)
    ensures !isAttack && top.suit == Joker ==> r == hand
    ensures IsSubsequence(r, hand)
    ensures forall c :: multiset(r)[c] == if Legal(c, top, isAttack) then multiset(hand)[c] else 0
    ensures forall c :: c in r <==> c in hand && Legal(c, top, isAttack)
  {
    if !isAttack && top.suit == Joker then
      SubsequenceReflexive(hand);
      hand
    else
      var r := Filter(hand, top, isAttack);
      assert forall c :: c in r <==> multiset(r)[c] > 0;
      assert forall c :: c in hand <==> multiset(hand)[c] > 0;
      r
  }

  /** The legal-move computation as a filtering loop over the hand. */
  method GetAvailableCards(hand: seq<Card>, lastCard: Card, isAttack: bool) returns (available: seq<Card>)
    ensures available == Available(hand, lastCard, isAttack)
  {
    if !isAttack && lastCard.suit == Joker {
      return hand;
    }
    available := [];
    for i := 0 to |hand|
      invariant available == Filter(hand[..i], lastCard, isAttack)
    {
      var card := hand[i];
      assert ButLast(hand[..i + 1]) == hand[..i];
      if card.suit == Joker {
        available := available + [card];
      } else if card.suit == lastCard.suit || card.rank == lastCard.rank {
        if isAttack && Damage(card) < Damage(lastCard) {
          continue;
        }
        available := available + [card];
      }
    }
    assert hand[..|hand|] == hand;
  }

  /** While an attack is active on an attack top card, every playable card is itself an
      attack card, so a counter-play always extends the chain. */
  lemma CounterIsAttack(hand: seq<Card>, top: Card, c: Card)
    requires IsAttackCard(top) && ValidCard(top) && ValidCard(c)
    requires c in Available(hand, top, true)
    ensures IsAttackCard(c)
  {
  }

  /** With an attack active, a non-Joker that shares suit or rank with the top card is
      still refused when its damage is below the top card's. */
  lemma WeakCounterRefused(hand: seq<Card>, top: Card, c: Card)
    requires c.suit != Joker && Damage(c) < Damage(top)
    ensures c !in Available(hand, top, true)
  {
  }

  /** The colored Joker is playable on any top card when no attack is active. */
  lemma ColoredJokerAlwaysOffered(top: Card)
    ensures Card(Joker, Colored) in Available([Card(Joker, Colored)], top, false)
  {
    assert Legal(Card(Joker, Colored), top, false);
  }
}
