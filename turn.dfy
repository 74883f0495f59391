/** One player's turn: pick a legal card and play it, extending or ending the attack chain,
    or draw the penalty when nothing can be played; then report whether the hand is empty. */
module Turn {
  import opened Seqs
  import opened Cards
  import opened Deck

  datatype Option<T> = None | Some(value: T)

  /** What the human player typed: an integer, or text that is not one. */
  datatype Input = Number(n: int) | Unreadable

  /** Python's s[i]: a negative index counts back from the end; out of range is an error. */
  function PyIndex<T>(s: seq<T>, i: int): (r: Option<T>)
  {
    if 0 <= i < |s| then Some(s[i])
    else if -|s| <= i < 0 then Some(s[|s| + i])
    else None
  }

  /** The human's pick exactly as the prompt code computes it, available[int(input) - 1];
      None stands for the exception that triggers the random fallback. */
  function HumanSelectionAsWritten(available: seq<Card>, input: Input): (r: Option<Card>)
    ensures r.Some? ==> r.value in available
  {
    match input
    case Unreadable => None
    case Number(n) => PyIndex(available, n - 1)
  }

  /** The human's pick as the prompt "1~N" means it: a number from 1 to N selects that
      card; anything else leaves the choice to the random fallback. */
  function HumanSelection(available: seq<Card>, input: Input): (r: Option<Card>)
    ensures r.Some? <==> input.Number? && 1 <= input.n <= |available|
    ensures r.Some? ==> r.value == available[input.n - 1]
    ensures r.Some? ==> r == HumanSelectionAsWritten(available, input) && r.value in available
  {
    if input.Number? && 1 <= input.n <= |available| then Some(available[input.n - 1]) else None
  }

  /** Typing 0 (or a negative number down to -(N-1)) does not reach the fallback: it selects
      a card counted from the end, where the prompt's range says it should be rejected. */
  lemma ZeroSelectsLast(available: seq<Card>)
    requires available != []
    ensures HumanSelectionAsWritten(available, Number(0)) == Some(Last(available))
    ensures HumanSelection(available, Number(0)) == None
    ensures forall n :: -(|available| - 1) <= n <= 0 ==>
      HumanSelectionAsWritten(available, Number(n)) == Some(available[|available| - 1 + n])
    ensures forall n :: n < -(|available| - 1) || n > |available| ==>
      HumanSelectionAsWritten(available, Number(n)) == None
  {
  }

  /** The attack-chain state threaded from turn to turn. */
  datatype Attack = Attack(active: bool, damage: nat)

  /** The chain invariant: an active chain sits on an attack card and owes at least that
      card's (positive) damage; an inactive chain owes nothing. */
  predicate ChainOk(st: Attack, top: Card)
  {
    if st.active then IsAttackCard(top) && 0 < Damage(top) <= st.damage else st.damage == 0
  }

  /** The chain state after c is played. */
  function AfterPlay(st: Attack, c: Card): (r: Attack)
    ensures ValidCard(c) ==> ChainOk(r, c)
    ensures ValidCard(c) && IsAttackCard(c) ==> r.active && r.damage > st.damage
    ensures !IsAttackCard(c) ==> !r.active && r.damage == 0
  {
    if IsAttackCard(c) then Attack(true, st.damage + Damage(c)) else Attack(false, 0)
  }

  /** How many cards a player who cannot play must draw. */
  function Penalty(st: Attack): (r: nat)
    ensures r >= 1 <==> !st.active || st.damage > 0
  {
    if st.active then st.damage else 1
  }

  /** Under the chain invariant the penalty is never zero: it is the owed damage during an
      attack and one card otherwise. */
  lemma PenaltyPositive(st: Attack, top: Card)
    requires ChainOk(st, top)
    ensures Penalty(st) >= 1
    ensures st.active ==> Penalty(st) == st.damage && Penalty(st) >= Damage(top)
  {
  }

  /** The chain state after a run of plays. */
  function PlayAll(st: Attack, plays: seq<Card>): Attack
    decreases |plays|
  {
    if plays == [] then st else AfterPlay(PlayAll(st, ButLast(plays)), Last(plays))
  }

  function TotalDamage(plays: seq<Card>): nat
    decreases |plays|
  {
    if plays == [] then 0 else TotalDamage(ButLast(plays)) + Damage(Last(plays))
  }

  /** Consecutive attack plays accumulate exactly the sum of their damages. */
  lemma {:induction false} AttackRunAccumulates(st: Attack, plays: seq<Card>)
    requires forall c :: c in plays ==> IsAttackCard(c)
    ensures PlayAll(st, plays).damage == st.damage + TotalDamage(plays)
    ensures plays != [] ==> PlayAll(st, plays).active
    decreases |plays|
  {
    if plays != [] {
      assert forall c :: c in ButLast(plays) ==> c in plays;
      AttackRunAccumulates(st, ButLast(plays));
    }
  }

  /** A non-attack play anywhere in a run resets the owed damage to what came after it. */
  lemma {:induction false} ResetForgetsEarlierDamage(st: Attack, before: seq<Card>, c: Card, after: seq<Card>)
    requires !IsAttackCard(c)
    ensures PlayAll(st, before + [c] + after) == PlayAll(Attack(false, 0), after)
    decreases |after|
  {
    if after == [] {
      assert ButLast(before + [c]) == before;
    } else {
      assert ButLast(before + [c] + after) == before + [c] + ButLast(after);
      ResetForgetsEarlierDamage(st, before, c, ButLast(after));
    }
  }

  /** The card the acting player picks from the non-empty legal set: the human's valid
      selection, or else some legal card (the random choice is left unspecified). */
  method ChooseCard(playerIdx: nat, available: seq<Card>, input: Input) returns (selected: Card)
    requires available != []
    ensures selected in available
    ensures playerIdx == 0 && HumanSelection(available, input).Some? ==>
              selected == HumanSelection(available, input).value
  {
    assert available[0] in available;
    if playerIdx == 0 {
      var pick := HumanSelection(available, input);
      if pick.Some? {
        selected := pick.value;
      } else {
        selected :| selected in available;
      }
    } else {
      selected :| selected in available;
    }
  }

  /** Moves the selected card from the hand onto the discard pile and updates the chain. */
  method PlayCard(hand: CardList, pile: CardList, selected: Card, isAttack: bool, damage: nat)
    returns (isAttack': bool, damage': nat)
    requires hand != pile && selected in hand.cards
    modifies hand, pile
    ensures hand.cards == RemoveFirst(old(hand.cards), selected)
    ensures pile.cards == old(pile.cards) + [selected]
    ensures multiset(hand.cards) + multiset(pile.cards) == old(multiset(hand.cards) + multiset(pile.cards))
    ensures Attack(isAttack', damage') == AfterPlay(Attack(isAttack, damage), selected)
  {
    ghost var hand0, pile0 := hand.cards, pile.cards;
    hand.Remove(selected);
    assert pile.cards == pile0;
    pile.Append(selected);
    assert hand.cards == RemoveFirst(hand0, selected);
    assert multiset(hand.cards) + multiset{selected} == multiset(hand0);
    assert multiset(pile.cards) == multiset(pile0) + multiset{selected};
    if IsAttackCard(selected) {
      damage' := damage + Damage(selected);
      isAttack' := true;
    } else {
      isAttack' := false;
      damage' := 0;
    }
  }

  /** Plays one legal card or draws, and reports whether the acting hand is now empty.
      Player 0 is the human, whose input selects the card; every other player, and the
      human's unusable input, leaves the choice among the legal cards open. */
  method PlayerTurn(playerIdx: nat, hands: seq<CardList>, pile: CardList, deck: CardList,
                    isAttack: bool, damage: nat, input: Input)
    returns (gameOver: bool, isAttack': bool, damage': nat)
    requires playerIdx < |hands|
    requires pile.cards != []
    requires hands[playerIdx] != pile && hands[playerIdx] != deck && pile != deck
    modifies hands[playerIdx], pile, deck
    ensures pile.cards != []
    ensures multiset(deck.cards) + multiset(pile.cards) + multiset(hands[playerIdx].cards) ==
            old(multiset(deck.cards) + multiset(pile.cards) + multiset(hands[playerIdx].cards))
    ensures gameOver <==> hands[playerIdx].cards == []
    ensures ValidCard(Last(pile.cards)) ==> ChainOk(Attack(isAttack', damage'), Last(pile.cards))
    ensures var available := Available(old(hands[playerIdx].cards), Last(old(pile.cards)), isAttack);
            available != [] ==>
              var played := Last(pile.cards);
              pile.cards == old(pile.cards) + [played] &&
              played in available &&
              hands[playerIdx].cards == RemoveFirst(old(hands[playerIdx].cards), played) &&
              deck.cards == old(deck.cards) &&
              Attack(isAttack', damage') == AfterPlay(Attack(isAttack, damage), played) &&
              (playerIdx == 0 && HumanSelection(available, input).Some? ==>
                 played == HumanSelection(available, input).value)
    ensures var available := Available(old(hands[playerIdx].cards), Last(old(pile.cards)), isAttack);
            available == [] ==>
              DrawnFrom(old(deck.cards), old(pile.cards), old(hands[playerIdx].cards), Penalty(Attack(isAttack, damage)),
                        deck.cards, pile.cards, hands[playerIdx].cards) &&
              !isAttack' && damage' == 0
  {
    var hand := hands[playerIdx];
    var available := GetAvailableCards(hand.cards, Last(pile.cards), isAttack);
    if available != [] {
      var selected := ChooseCard(playerIdx, available, input);
      isAttack', damage' := PlayCard(hand, pile, selected, isAttack, damage);
    } else {
      if isAttack {
        DrawCards(deck, hand, damage, pile);
      } else {
        DrawCards(deck, hand, 1, pile);
      }
      isAttack' := false;
      damage' := 0;
    }
    gameOver := hand.cards == [];
  }

  /** A heart Two on a club Two with no attack active is offered, and playing it starts an
      attack that owes two cards. */
  lemma TwoOnTwo()
    ensures Available([Card(Heart, Two)], Card(Club, Two), false) == [Card(Heart, Two)]
    ensures AfterPlay(Attack(false, 0), Card(Heart, Two)) == Attack(true, 2)
  {
    var hand := [Card(Heart, Two)];
    assert Matches(Card(Heart, Two), Card(Club, Two), false);
    assert ButLast(hand) == [] && Last(hand) == Card(Heart, Two);
    assert Filter([], Card(Club, Two), false) == [];
    assert Filter(hand, Card(Club, Two), false) == hand;
  }

  /** A spade Nine cannot answer an attack on the heart Ace. */
  lemma NoCounterToAce()
    ensures Available([Card(Spade, Nine)], Card(Heart, Ace), true) == []
  {
    var hand := [Card(Spade, Nine)];
    assert !Matches(Card(Spade, Nine), Card(Heart, Ace), true);
    assert ButLast(hand) == [] && Last(hand) == Card(Spade, Nine);
    assert Filter([], Card(Heart, Ace), true) == [];
    assert Filter(hand, Card(Heart, Ace), true) == [];
  }

  /** With an attack of 5 pending and no counter in hand, the player draws the five top
      cards of a six-card deck, in pop order; the deck keeps its bottom card, the pile is
      untouched, the chain closes and the game goes on. */
  method FivePenaltyScenario() returns (hand: seq<Card>, left: seq<Card>, isAttack: bool, damage: nat, gameOver: bool)
    ensures hand == [Card(Spade, Nine), Card(Club, Eight), Card(Club, Seven), Card(Club, Six), Card(Club, Five), Card(Club, Four)]
    ensures left == [Card(Club, Three)]
    ensures !isAttack && damage == 0 && !gameOver
  {
    var deck := new CardList([Card(Club, Three), Card(Club, Four), Card(Club, Five),
                              Card(Club, Six), Card(Club, Seven), Card(Club, Eight)]);
    var pile := new CardList([Card(Heart, Three), Card(Heart, Ace)]);
    var player := new CardList([Card(Spade, Nine)]);
    NoCounterToAce();
    ghost var deck0, pile0, held := deck.cards, pile.cards, player.cards;
    gameOver, isAttack, damage := PlayerTurn(0, [player], pile, deck, true, 5, Unreadable);
    hand, left := player.cards, deck.cards;
    FiveDrawn(deck0, pile0, held, deck.cards, pile.cards, hand);
  }

  /** The cards a draw of five leaves from the deck ♣3..♣8 (top ♣8), the pile ♥3, ♥A and
      the hand ♠9. */
  lemma FiveDrawn(deck0: seq<Card>, pile0: seq<Card>, hand0: seq<Card>, deck: seq<Card>, pile: seq<Card>, hand: seq<Card>)
    requires deck0 == [Card(Club, Three), Card(Club, Four), Card(Club, Five),
                       Card(Club, Six), Card(Club, Seven), Card(Club, Eight)]
    requires pile0 == [Card(Heart, Three), Card(Heart, Ace)] && hand0 == [Card(Spade, Nine)]
    requires DrawnFrom(deck0, pile0, hand0, 5, deck, pile, hand)
    ensures hand == [Card(Spade, Nine), Card(Club, Eight), Card(Club, Seven), Card(Club, Six), Card(Club, Five), Card(Club, Four)]
    ensures deck == [Card(Club, Three)] && pile == pile0
  {
    assert Drawable(deck0, pile0) == 7 && Min(5, 7) == 5 && Min(5, 6) == 5;
    assert |hand| == 6 && hand[..1] == hand0;
    assert hand[0] == hand[..1][0];
    assert hand[1] == deck0[5] && hand[2] == deck0[4] && hand[3] == deck0[3];
    assert hand[4] == deck0[2] && hand[5] == deck0[1];
  }
}
