/** The deck manager: the 54-card deck, the deal, recycling the discard pile and drawing.
    The deck, the discard pile and every hand are separate mutable lists whose top is
    their last element. */
module Deck {
  import opened Seqs
  import opened Cards

  const CardsPerPlayer: nat := 7

  /** A mutable list of cards with the list operations the game uses. */
  class CardList {
    var cards: seq<Card>

    constructor (cs: seq<Card>)
      ensures cards == cs
    {
      cards := cs;
    }

    /** Removes and returns the last card. */
    method Pop() returns (c: Card)
      requires cards != []
      modifies this
      ensures c == Last(old(cards)) && cards == ButLast(old(cards))
    {
      c := Last(cards);
      cards := ButLast(cards);
    }

    method Append(c: Card)
      modifies this
      ensures cards == old(cards) + [c]
    {
      cards := cards + [c];
    }

    method Extend(cs: seq<Card>)
      modifies this
      ensures cards == old(cards) + cs
    {
      cards := cards + cs;
    }

    method Clear()
      modifies this
      ensures cards == []
    {
      cards := [];
    }

    /** Deletes the first occurrence of c. */
    method Remove(c: Card)
      requires c in cards
      modifies this
      ensures cards == RemoveFirst(old(cards), c)
    {
      cards := RemoveFirst(cards, c);
    }

    /** Reorders the list into some permutation of itself; which one is left open. */
    method Shuffle()
      modifies this
      ensures multiset(cards) == old(multiset(cards))
      ensures |cards| == old(|cards|)
    {
      ghost var same := cards;
      assert multiset(same) == multiset(cards);
      var shuffled :| multiset(shuffled) == multiset(cards);
      assert |shuffled| == |multiset(shuffled)| == |multiset(same)| == |same|;
      cards := shuffled;
    }
  }

  /** Every card with a suit of ss and a rank of rs, suit by suit, ranks in order. */
  function Product(ss: seq<Suit>, rs: seq<Rank>): (r: seq<Card>)
    ensures |r| == |ss| * |rs|
    ensures forall c :: c in r <==> c.suit in ss && c.rank in rs
  {
    if ss == [] then []
    else
      var row := seq(|rs|, j requires 0 <= j < |rs| => Card(ss[0], rs[j]));
      var rest := Product(ss[1..], rs);
      assert forall c: Card :: c in row <==> c.suit == ss[0] && c.rank in rs by {
        forall c: Card | c.suit == ss[0] && c.rank in rs ensures c in row {
          var j :| 0 <= j < |rs| && rs[j] == c.rank;
          assert row[j] == c;
        }
      }
      assert |ss| * |rs| == |rs| + (|ss| - 1) * |rs|;
      row + rest
  }

  lemma {:induction false} ProductDistinct(ss: seq<Suit>, rs: seq<Rank>)
    requires Distinct(ss) && Distinct(rs)
    ensures Distinct(Product(ss, rs))
    decreases |ss|
  {
    if ss != [] {
      var row := seq(|rs|, j requires 0 <= j < |rs| => Card(ss[0], rs[j]));
      var rest := Product(ss[1..], rs);
      assert Product(ss, rs) == row + rest;
      assert Distinct(ss[1..]) by {
        forall i, j | 0 <= i < j < |ss[1..]| ensures ss[1..][i] != ss[1..][j] {
          assert ss[1..][i] == ss[i + 1] && ss[1..][j] == ss[j + 1];
        }
      }
      ProductDistinct(ss[1..], rs);
      forall c | c in row ensures c !in rest {
        assert c.suit == ss[0];
        assert ss[0] !in ss[1..] by {
          forall i | 0 <= i < |ss[1..]| ensures ss[1..][i] != ss[0] {
            assert ss[1..][i] == ss[i + 1];
          }
        }
      }
      DistinctConcat(row, rest);
    }
  }

  /** The full deck: four suits of thirteen ranks, then the two Jokers. */
  function CreateDeck(): (d: seq<Card>)
    ensures |d| == 54
    ensures Distinct(d)
    ensures forall c :: c in d <==> ValidCard(c)
  {
    var standard := Product(Suits, Ranks);
    ProductDistinct(Suits, Ranks);
    DistinctConcat(standard, Jokers);
    standard + Jokers
  }

  /** Pops CardsPerPlayer cards off the deck into a new hand, in the order popped. */
  method DealHand(deck: CardList) returns (hand: CardList)
    requires CardsPerPlayer <= |deck.cards|
    modifies deck
    ensures fresh(hand) && |hand.cards| == CardsPerPlayer
    ensures deck.cards == old(deck.cards)[..|old(deck.cards)| - CardsPerPlayer]
    ensures forall k :: 0 <= k < CardsPerPlayer ==> hand.cards[k] == old(deck.cards)[|old(deck.cards)| - 1 - k]
    ensures multiset(deck.cards) + multiset(hand.cards) == old(multiset(deck.cards))
  {
    var taken: seq<Card> := [];
    for k := 0 to CardsPerPlayer
      invariant |taken| == k
      invariant deck.cards == old(deck.cards)[..|old(deck.cards)| - k]
      invariant forall j :: 0 <= j < k ==> taken[j] == old(deck.cards)[|old(deck.cards)| - 1 - j]
      invariant multiset(deck.cards) + multiset(taken) == old(multiset(deck.cards))
    {
      MultisetButLast(deck.cards);
      var c := deck.Pop();
      taken := taken + [c];
    }
    hand := new CardList(taken);
  }

  /** Deals playerCount fresh hands of CardsPerPlayer cards each off the top of the deck:
      held records their contents, hand i holding, in pop order, the cards that sat
      i * CardsPerPlayer places below the top. */
  method DealHands(deck: CardList, playerCount: nat) returns (hands: seq<CardList>, ghost held: seq<seq<Card>>)
    requires CardsPerPlayer * playerCount <= |deck.cards|
    modifies deck
    ensures |hands| == playerCount && |held| == playerCount
    ensures forall i :: 0 <= i < |hands| ==> fresh(hands[i])
    ensures Dealt(deck, hands) && HandContents(hands) == held
    ensures DealtSoFar(old(deck.cards), deck.cards, held)
  {
    ghost var deck0 := deck.cards;
    held := [];
    hands := [];
    for p := 0 to playerCount
      invariant |hands| == p && |held| == p && HandContents(hands) == held
      invariant forall i :: 0 <= i < p ==> fresh(hands[i])
      invariant Dealt(deck, hands) && DealtSoFar(deck0, deck.cards, held)
    {
      hands, held := DealNext(deck, hands, deck0, held);
    }
  }

  /** The hands are pairwise distinct objects, none of them the deck. */
  ghost predicate Dealt(deck: CardList, hands: seq<CardList>)
  {
    (forall i :: 0 <= i < |hands| ==> hands[i] != deck) &&
    (forall i, j :: 0 <= i < j < |hands| ==> hands[i] != hands[j])
  }

  /** deck is what remains of deck0 after the hands held were popped off its top, hand
      after hand, CardsPerPlayer cards each in pop order. */
  ghost predicate DealtSoFar(deck0: seq<Card>, deck: seq<Card>, held: seq<seq<Card>>)
  {
    CardsPerPlayer * |held| <= |deck0| &&
    deck == deck0[..|deck0| - CardsPerPlayer * |held|] &&
    (forall i :: 0 <= i < |held| ==> |held[i]| == CardsPerPlayer) &&
    (forall i, k :: 0 <= i < |held| && 0 <= k < CardsPerPlayer ==>
       held[i][k] == deck0[|deck0| - 1 - (CardsPerPlayer * i + k)]) &&
    multiset(deck) + SumCards(held) == multiset(deck0)
  }

  /** Deals the next hand off the deck and adds it to the hands dealt so far. */
  method DealNext(deck: CardList, hands: seq<CardList>, ghost deck0: seq<Card>, ghost held: seq<seq<Card>>)
    returns (hands': seq<CardList>, ghost held': seq<seq<Card>>)
    requires HandContents(hands) == held && Dealt(deck, hands)
    requires DealtSoFar(deck0, deck.cards, held) && CardsPerPlayer * (|held| + 1) <= |deck0|
    modifies deck
    ensures |hands'| == |hands| + 1 && fresh(hands'[|hands|])
    ensures forall i :: 0 <= i < |hands| ==> hands'[i] == hands[i]
    ensures HandContents(hands') == held' && Dealt(deck, hands')
    ensures DealtSoFar(deck0, deck.cards, held')
  {
    ghost var before := deck.cards;
    var hand := DealHand(deck);
    assert HandContents(hands) == held;
    HandContentsSnoc(hands, hand);
    DealtSoFarSnoc(deck0, before, deck.cards, held, hand.cards);
    assert forall i :: 0 <= i < |hands| ==> hands[i] != hand;
    DealtSnoc(deck, hands, hand);
    hands', held' := hands + [hand], held + [hand.cards];
  }

  /** DealtSoFar extended by one hand popped off the remaining deck. */
  lemma DealtSoFarSnoc(deck0: seq<Card>, before: seq<Card>, after: seq<Card>, held: seq<seq<Card>>, hand: seq<Card>)
    requires DealtSoFar(deck0, before, held) && CardsPerPlayer * (|held| + 1) <= |deck0|
    requires after == before[..|before| - CardsPerPlayer]
    requires |hand| == CardsPerPlayer && forall k :: 0 <= k < CardsPerPlayer ==> hand[k] == before[|before| - 1 - k]
    requires multiset(after) + multiset(hand) == multiset(before)
    ensures DealtSoFar(deck0, after, held + [hand])
  {
    var held' := held + [hand];
    SumCardsSnoc(held, hand);
    assert multiset(after) + SumCards(held') == multiset(after) + multiset(hand) + SumCards(held);
    DealtInPopOrder(deck0, before, held, hand);
    assert forall i :: 0 <= i < |held'| ==> |held'[i]| == CardsPerPlayer by {
      forall i | 0 <= i < |held'| ensures |held'[i]| == CardsPerPlayer {
        if i < |held| { assert held'[i] == held[i]; }
      }
    }
    assert |before| == |deck0| - CardsPerPlayer * |held|;
    assert after == deck0[..|deck0| - CardsPerPlayer * |held'|];
  }

  lemma DealtSnoc(deck: CardList, hands: seq<CardList>, hand: CardList)
    requires Dealt(deck, hands) && hand != deck && forall i :: 0 <= i < |hands| ==> hands[i] != hand
    ensures Dealt(deck, hands + [hand])
  {
  }

  /** One more hand popped off the remaining deck keeps every dealt card at its place in
      the pop order of the original deck. */
  lemma DealtInPopOrder(deck0: seq<Card>, before: seq<Card>, held: seq<seq<Card>>, hand: seq<Card>)
    requires CardsPerPlayer * (|held| + 1) <= |deck0| && before == deck0[..|deck0| - CardsPerPlayer * |held|]
    requires forall i :: 0 <= i < |held| ==> |held[i]| == CardsPerPlayer
    requires forall i, k :: 0 <= i < |held| && 0 <= k < CardsPerPlayer ==>
               held[i][k] == deck0[|deck0| - 1 - (CardsPerPlayer * i + k)]
    requires |hand| == CardsPerPlayer
    requires forall k :: 0 <= k < CardsPerPlayer ==> hand[k] == before[|before| - 1 - k]
    ensures forall i, k :: 0 <= i < |held| + 1 && 0 <= k < CardsPerPlayer ==>
              (held + [hand])[i][k] == deck0[|deck0| - 1 - (CardsPerPlayer * i + k)]
  {
    forall i, k | 0 <= i < |held| + 1 && 0 <= k < CardsPerPlayer
      ensures (held + [hand])[i][k] == deck0[|deck0| - 1 - (CardsPerPlayer * i + k)]
    {
      if i == |held| {
        assert before[|before| - 1 - k] == deck0[|deck0| - 1 - (CardsPerPlayer * i + k)];
      } else {
        assert (held + [hand])[i] == held[i];
      }
    }
  }

  /** Shuffles the deck, deals CardsPerPlayer cards to each of playerCount fresh hands by
      popping the deck, and pops one more card to start the discard pile. */
  method ShuffleAndDistribute(deck: CardList, playerCount: nat) returns (hands: seq<CardList>, pile: CardList)
    requires CardsPerPlayer * playerCount + 1 <= |deck.cards|
    modifies deck
    ensures |hands| == playerCount
    ensures forall i :: 0 <= i < |hands| ==> fresh(hands[i]) && hands[i] != pile && |hands[i].cards| == CardsPerPlayer
    ensures forall i, j :: 0 <= i < j < |hands| ==> hands[i] != hands[j]
    ensures fresh(pile) && |pile.cards| == 1
    ensures |deck.cards| == old(|deck.cards|) - (CardsPerPlayer * playerCount + 1)
    ensures multiset(deck.cards) + multiset(pile.cards) + SumCards(HandContents(hands)) == old(multiset(deck.cards))
  {
    deck.Shuffle();
    ghost var held;
    hands, held := DealHands(deck, playerCount);
    assert forall i :: 0 <= i < |hands| ==> |hands[i].cards| == |held[i]|;
    MultisetButLast(deck.cards);
    var start := deck.Pop();
    pile := new CardList([start]);
    assert HandContents(hands) == held;
  }

  /** The contents of the hands, read out of the heap. */
  ghost function HandContents(hands: seq<CardList>): (r: seq<seq<Card>>)
    reads set h | h in hands
    ensures |r| == |hands|
    ensures forall i :: 0 <= i < |hands| ==> r[i] == hands[i].cards
  {
    if hands == [] then [] else HandContents(ButLast(hands)) + [Last(hands).cards]
  }

  /** HandContents is determined by the hands' current contents. */
  lemma HandContentsIs(hands: seq<CardList>, hs: seq<seq<Card>>)
    requires |hs| == |hands|
    requires forall i :: 0 <= i < |hands| ==> hands[i].cards == hs[i]
    ensures HandContents(hands) == hs
  {
  }

  lemma HandContentsSnoc(hands: seq<CardList>, h: CardList)
    ensures HandContents(hands + [h]) == HandContents(hands) + [h.cards]
  {
  }

  /** All cards held in the hands hs, with multiplicity. */
  function SumCards(hs: seq<seq<Card>>): multiset<Card>
  {
    if hs == [] then multiset{} else SumCards(ButLast(hs)) + multiset(Last(hs))
  }

  /** The total number of cards in the hands hs. */
  function TotalSize(hs: seq<seq<Card>>): nat
  {
    if hs == [] then 0 else TotalSize(ButLast(hs)) + |Last(hs)|
  }

  lemma SumCardsSnoc(hs: seq<seq<Card>>, h: seq<Card>)
    ensures SumCards(hs + [h]) == SumCards(hs) + multiset(h)
  {
    assert ButLast(hs + [h]) == hs;
  }

  lemma {:induction false} SumCardsSize(hs: seq<seq<Card>>)
    ensures |SumCards(hs)| == TotalSize(hs)
    decreases |hs|
  {
    if hs != [] {
      SumCardsSize(ButLast(hs));
    }
  }

  /** The number of cards on a table made of a deck, a pile and the hands hs. */
  lemma TableSize(deck: seq<Card>, pile: seq<Card>, hs: seq<seq<Card>>)
    ensures |multiset(deck) + multiset(pile) + SumCards(hs)| == |deck| + |pile| + TotalSize(hs)
  {
    SumCardsSize(hs);
  }

  /** Replacing one hand changes the held cards by exactly that hand's difference. */
  lemma {:induction false} SumCardsUpdate(hs: seq<seq<Card>>, i: nat, h: seq<Card>)
    requires i < |hs|
    ensures SumCards(hs[i := h]) + multiset(hs[i]) == SumCards(hs) + multiset(h)
    decreases |hs|
  {
    var hs' := hs[i := h];
    if i == |hs| - 1 {
      assert ButLast(hs') == ButLast(hs);
    } else {
      assert ButLast(hs') == ButLast(hs)[i := h];
      assert Last(hs') == Last(hs);
      SumCardsUpdate(ButLast(hs), i, h);
      assert ButLast(hs)[i] == hs[i];
      calc {
        SumCards(hs') + multiset(hs[i]);
        SumCards(ButLast(hs)[i := h]) + multiset(Last(hs)) + multiset(hs[i]);
        SumCards(ButLast(hs)) + multiset(h) + multiset(Last(hs));
        SumCards(hs) + multiset(h);
      }
    }
  }

  /** How many cards the deck and the discard pile can still supply: the whole deck and,
      once the deck is empty, all of the discard pile but its top card. */
  function Drawable(deck: seq<Card>, pile: seq<Card>): nat
  {
    |deck| + if |pile| > 1 then |pile| - 1 else 0
  }

  /** When the deck is empty and the discard pile holds more than one card, moves all of the
      pile but its top card into the deck and shuffles it; otherwise changes nothing. */
  method RefillDeckIfNeeded(deck: CardList, pile: CardList)
    requires deck != pile
    modifies deck, pile
    ensures old(deck.cards) == [] && |old(pile.cards)| > 1 ==>
              pile.cards == [Last(old(pile.cards))] &&
              multiset(deck.cards) == multiset(ButLast(old(pile.cards))) &&
              |deck.cards| == |old(pile.cards)| - 1
    ensures !(old(deck.cards) == [] && |old(pile.cards)| > 1) ==>
              deck.cards == old(deck.cards) && pile.cards == old(pile.cards)
  {
    if deck.cards == [] && |pile.cards| > 1 {
      var lastCard := pile.Pop();
      deck.Extend(pile.cards);
      deck.Shuffle();
      pile.Clear();
      pile.Append(lastCard);
    }
  }

  /** One pass of the drawing loop: recycles the discard pile if the deck is empty, then
      moves the deck's top card to the hand if there is one; drew tells whether it did. */
  method DrawOne(deck: CardList, hand: CardList, pile: CardList) returns (drew: bool)
    requires deck != hand && deck != pile && hand != pile
    modifies deck, hand, pile
    ensures drew <==> Drawable(old(deck.cards), old(pile.cards)) > 0
    ensures multiset(deck.cards) + multiset(pile.cards) + multiset(hand.cards) ==
            old(multiset(deck.cards) + multiset(pile.cards) + multiset(hand.cards))
    ensures drew ==> |hand.cards| == |old(hand.cards)| + 1 &&
                     Drawable(deck.cards, pile.cards) == Drawable(old(deck.cards), old(pile.cards)) - 1
    ensures !drew ==> hand.cards == old(hand.cards) && deck.cards == [] && |pile.cards| <= 1
    ensures hand.cards[..|old(hand.cards)|] == old(hand.cards)
    ensures old(deck.cards) != [] ==>
              pile.cards == old(pile.cards) && deck.cards == ButLast(old(deck.cards)) &&
              hand.cards == old(hand.cards) + [Last(old(deck.cards))]
    ensures old(deck.cards) == [] ==>
              pile.cards == if |old(pile.cards)| > 1 then [Last(old(pile.cards))] else old(pile.cards)
  {
    if deck.cards == [] {
      RefillDeckIfNeeded(deck, pile);
      if |old(pile.cards)| > 1 {
        MultisetButLast(old(pile.cards));
      }
    }
    drew := deck.cards != [];
    if drew {
      MultisetButLast(deck.cards);
      var c := deck.Pop();
      hand.Append(c);
    }
  }

  /** What drawing count cards from deck0 with discard pile pile0 into hand0 leaves: the
      cards are conserved; the hand keeps its cards and gains one per card asked for while
      the deck and the pile can supply them, the deck's own cards first, from its top; the
      deck keeps its bottom when it alone suffices; the pile is cut back to its top card
      exactly when it had to be recycled, and it is untouched otherwise. */
  ghost predicate DrawnFrom(deck0: seq<Card>, pile0: seq<Card>, hand0: seq<Card>, count: nat,
                            deck: seq<Card>, pile: seq<Card>, hand: seq<Card>)
  {
    multiset(deck) + multiset(pile) + multiset(hand) == multiset(deck0) + multiset(pile0) + multiset(hand0) &&
    |hand| == |hand0| + Min(count, Drawable(deck0, pile0)) &&
    hand[..|hand0|] == hand0 &&
    (|hand| < |hand0| + count ==> deck == [] && |pile| <= 1) &&
    (forall k :: |hand0| <= k < |hand0| + Min(count, |deck0|) ==>
       hand[k] == deck0[|deck0| + |hand0| - 1 - k]) &&
    (0 < |deck0| && count <= |deck0| ==> deck == deck0[..|deck0| - count]) &&
    pile == if (|deck0| == 0 || |deck0| < count) && |pile0| > 1 then [Last(pile0)] else pile0
  }

  /** The state of the drawing loop after i cards: DrawnFrom so far, with the pile already
      recycled when the deck started empty or has run out. */
  ghost predicate DrawingSoFar(deck0: seq<Card>, pile0: seq<Card>, hand0: seq<Card>, i: nat,
                               deck: seq<Card>, pile: seq<Card>, hand: seq<Card>)
  {
    i <= Drawable(deck0, pile0) &&
    Drawable(deck, pile) == Drawable(deck0, pile0) - i &&
    multiset(deck) + multiset(pile) + multiset(hand) == multiset(deck0) + multiset(pile0) + multiset(hand0) &&
    |hand| == |hand0| + i && hand[..|hand0|] == hand0 &&
    (forall k :: |hand0| <= k < |hand0| + Min(i, |deck0|) ==> hand[k] == deck0[|deck0| + |hand0| - 1 - k]) &&
    (|pile0| <= 1 ==> pile == pile0) &&
    ((|deck0| == 0 || i > |deck0|) && |pile0| > 1 ==> pile == [Last(pile0)]) &&
    (0 < |deck0| && i <= |deck0| ==> pile == pile0 && deck == deck0[..|deck0| - i])
  }

  /** The refill that starts draw_cards sets up the loop state for zero cards drawn. */
  lemma DrawingStarts(deck0: seq<Card>, pile0: seq<Card>, hand0: seq<Card>, deck: seq<Card>, pile: seq<Card>)
    requires deck0 == [] && |pile0| > 1 ==>
               pile == [Last(pile0)] && multiset(deck) == multiset(ButLast(pile0)) && |deck| == |pile0| - 1
    requires !(deck0 == [] && |pile0| > 1) ==> deck == deck0 && pile == pile0
    ensures DrawingSoFar(deck0, pile0, hand0, 0, deck, pile, hand0)
  {
    if deck0 == [] && |pile0| > 1 {
      MultisetButLast(pile0);
    }
  }

  /** The loop state once the loop has ended, by reaching count or by running dry. */
  lemma DrawingEnds(deck0: seq<Card>, pile0: seq<Card>, hand0: seq<Card>, count: nat, i: nat,
                    deck: seq<Card>, pile: seq<Card>, hand: seq<Card>)
    requires DrawingSoFar(deck0, pile0, hand0, i, deck, pile, hand)
    requires i == count || (i < count && i == Drawable(deck0, pile0) && deck == [] && |pile| <= 1)
    ensures DrawnFrom(deck0, pile0, hand0, count, deck, pile, hand)
  {
  }

  /** One pass of the drawing loop, stated on the loop state. */
  method DrawStep(deck: CardList, hand: CardList, pile: CardList,
                  ghost deck0: seq<Card>, ghost pile0: seq<Card>, ghost hand0: seq<Card>, ghost i: nat)
    returns (drew: bool)
    requires deck != hand && deck != pile && hand != pile
    requires DrawingSoFar(deck0, pile0, hand0, i, deck.cards, pile.cards, hand.cards)
    modifies deck, hand, pile
    ensures drew ==> DrawingSoFar(deck0, pile0, hand0, i + 1, deck.cards, pile.cards, hand.cards)
    ensures !drew ==> i == Drawable(deck0, pile0) && deck.cards == [] && |pile.cards| <= 1 &&
                      DrawingSoFar(deck0, pile0, hand0, i, deck.cards, pile.cards, hand.cards)
  {
    ghost var deck1, hand1 := deck.cards, hand.cards;
    drew := DrawOne(deck, hand, pile);
    if deck1 != [] {
      assert hand.cards == hand1 + [Last(deck1)];
      if 0 < |deck0| && i < |deck0| {
        assert Last(deck1) == deck0[|deck0| - 1 - i];
        assert deck.cards == deck0[..|deck0| - (i + 1)];
      }
    }
    assert hand.cards[..|hand0|] == hand1[..|hand0|];
  }

  /** Moves up to count cards from the top of the deck to the hand, recycling the discard
      pile into the deck first and whenever the deck runs out, and stopping early once
      neither can supply a card. */
  method DrawCards(deck: CardList, hand: CardList, count: nat, pile: CardList)
    requires deck != hand && deck != pile && hand != pile
    modifies deck, hand, pile
    ensures DrawnFrom(old(deck.cards), old(pile.cards), old(hand.cards), count, deck.cards, pile.cards, hand.cards)
  {
    ghost var deck0, pile0, hand0 := deck.cards, pile.cards, hand.cards;
    RefillDeckIfNeeded(deck, pile);
    DrawingStarts(deck0, pile0, hand0, deck.cards, pile.cards);
    var i := 0;
    while i < count
      invariant i <= count
      invariant DrawingSoFar(deck0, pile0, hand0, i, deck.cards, pile.cards, hand.cards)
    {
      var drew := DrawStep(deck, hand, pile, deck0, pile0, hand0, i);
      if !drew {
        break;
      }
      i := i + 1;
    }
    DrawingEnds(deck0, pile0, hand0, count, i, deck.cards, pile.cards, hand.cards);
  }

  /** Drawing two cards from a one-card deck: the deck's own ♣4 comes first, then the pile
      under its top ♥3 is recycled, so the second card is ◆7 or ♠5, the other one is left in
      the deck, and only ♥3 stays on the pile. */
  method DrawAcrossRefillScenario() returns (hand: seq<Card>, left: seq<Card>, top: seq<Card>)
    ensures |hand| == 2 && hand[0] == Card(Club, Four)
    ensures multiset(left + [hand[1]]) == multiset{Card(Diamond, Seven), Card(Spade, Five)}
    ensures top == [Card(Heart, Three)]
  {
    var deck := new CardList([Card(Club, Four)]);
    var pile := new CardList([Card(Diamond, Seven), Card(Spade, Five), Card(Heart, Three)]);
    var player := new CardList([]);
    ghost var deck0, pile0 := deck.cards, pile.cards;
    DrawCards(deck, player, 2, pile);
    hand, left, top := player.cards, deck.cards, pile.cards;
    TwoDrawnAcrossRefill(deck0, pile0, left, top, hand);
  }

  lemma TwoDrawnAcrossRefill(deck0: seq<Card>, pile0: seq<Card>, deck: seq<Card>, pile: seq<Card>, hand: seq<Card>)
    requires deck0 == [Card(Club, Four)] && pile0 == [Card(Diamond, Seven), Card(Spade, Five), Card(Heart, Three)]
    requires DrawnFrom(deck0, pile0, [], 2, deck, pile, hand)
    ensures |hand| == 2 && hand[0] == Card(Club, Four)
    ensures multiset(deck + [hand[1]]) == multiset{Card(Diamond, Seven), Card(Spade, Five)}
    ensures pile == [Card(Heart, Three)]
  {
    assert Drawable(deck0, pile0) == 3 && Min(2, 3) == 2 && Min(2, 1) == 1;
    assert hand[0] == deck0[0];
    assert multiset(deck) + multiset(pile) + multiset(hand) == multiset(deck0) + multiset(pile0) + multiset([]);
    RecycledPair(deck, hand);
  }

  /** What is left when ♣4 was drawn first and only ♥3 stays on the pile. */
  lemma RecycledPair(deck: seq<Card>, hand: seq<Card>)
    requires |hand| == 2 && hand[0] == Card(Club, Four)
    requires multiset(deck) + multiset([Card(Heart, Three)]) + multiset(hand) ==
             multiset([Card(Club, Four)]) + multiset([Card(Diamond, Seven), Card(Spade, Five), Card(Heart, Three)]) + multiset([])
    ensures multiset(deck + [hand[1]]) == multiset{Card(Diamond, Seven), Card(Spade, Five)}
  {
    assert hand == [hand[0], hand[1]];
    var all := multiset{Card(Club, Four), Card(Diamond, Seven), Card(Spade, Five), Card(Heart, Three)};
    assert multiset([Card(Club, Four)]) + multiset([Card(Diamond, Seven), Card(Spade, Five), Card(Heart, Three)]) + multiset([]) == all;
    assert multiset(deck) + multiset{Card(Heart, Three)} + multiset{Card(Club, Four), hand[1]} == all;
    assert multiset(deck + [hand[1]]) == multiset(deck) + multiset{hand[1]};
    forall c ensures (multiset(deck) + multiset{hand[1]})[c] == multiset{Card(Diamond, Seven), Card(Spade, Five)}[c] {
      assert (multiset(deck) + multiset{Card(Heart, Three)} + multiset{Card(Club, Four), hand[1]})[c] == all[c];
    }
  }
}
