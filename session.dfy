/** The game session: build and deal the deck, then let the players take turns in strict
    round-robin order until one of them empties their hand. */
module Session {
  import opened Seqs
  import opened Cards
  import opened Deck
  import opened Turn

  const MaxPlayers: nat := 2

  /** The deck, the discard pile and the hands are pairwise different lists. */
  ghost predicate Separate(deck: CardList, pile: CardList, hands: seq<CardList>)
  {
    deck != pile &&
    (forall i :: 0 <= i < |hands| ==> hands[i] != deck && hands[i] != pile) &&
    (forall i, j :: 0 <= i < j < |hands| ==> hands[i] != hands[j])
  }

  /** Every card on the table, with multiplicity. */
  ghost function TableCards(deck: CardList, pile: CardList, hands: seq<CardList>): multiset<Card>
    reads deck, pile, set h | h in hands
  {
    multiset(deck.cards) + multiset(pile.cards) + SumCards(HandContents(hands))
  }

  /** A turn that trades cards between the deck, the pile and one hand leaves the table's
      cards unchanged. */
  lemma TurnConservesTable(deck: seq<Card>, pile: seq<Card>, hs: seq<seq<Card>>, i: nat,
                           deck': seq<Card>, pile': seq<Card>, hand': seq<Card>)
    requires i < |hs|
    requires multiset(deck') + multiset(pile') + multiset(hand') == multiset(deck) + multiset(pile) + multiset(hs[i])
    ensures multiset(deck') + multiset(pile') + SumCards(hs[i := hand']) == multiset(deck) + multiset(pile) + SumCards(hs)
  {
    SumCardsUpdate(hs, i, hand');
    var kept, was := multiset(deck') + multiset(pile'), multiset(deck) + multiset(pile);
    var updated := SumCards(hs[i := hand']);
    forall c ensures (kept + updated)[c] == (was + SumCards(hs))[c] {
      assert (kept + multiset(hand'))[c] == (was + multiset(hs[i]))[c];
      assert (updated + multiset(hs[i]))[c] == (SumCards(hs) + multiset(hand'))[c];
    }
    assert kept + updated == was + SumCards(hs);
  }

  /** The table invariants the session keeps between turns: the lists are separate, the
      table holds exactly universe, all of it valid cards, the pile has a top card and the
      attack chain fits that top card. */
  ghost predicate TableOk(deck: CardList, pile: CardList, hands: seq<CardList>, st: Attack, universe: multiset<Card>)
    reads deck, pile, set h | h in hands
  {
    Separate(deck, pile, hands) &&
    (forall c :: c in universe ==> ValidCard(c)) &&
    TableCards(deck, pile, hands) == universe &&
    pile.cards != [] &&
    ChainOk(st, Last(pile.cards))
  }

  /** One turn of player p, seen from the session: the table invariants survive it and the
      game is over exactly when p's hand is empty. */
  method TakeTurn(deck: CardList, pile: CardList, hands: seq<CardList>, p: nat, st: Attack, input: Input,
                  ghost universe: multiset<Card>)
    returns (gameOver: bool, st': Attack)
    requires p < |hands| && TableOk(deck, pile, hands, st, universe)
    modifies hands[p], pile, deck
    ensures TableOk(deck, pile, hands, st', universe)
    ensures gameOver <==> hands[p].cards == []
    ensures forall i :: 0 <= i < |hands| && i != p ==> hands[i].cards == old(hands[i].cards)
  {
    ghost var before, deck0, pile0 := HandContents(hands), deck.cards, pile.cards;
    var isAttack, damage;
    gameOver, isAttack, damage := PlayerTurn(p, hands, pile, deck, st.active, st.damage, input);
    st' := Attack(isAttack, damage);
    assert forall i :: 0 <= i < |hands| && i != p ==> hands[i].cards == before[i];
    HandContentsIs(hands, before[p := hands[p].cards]);
    TurnConservesTable(deck0, pile0, before, p, deck.cards, pile.cards, hands[p].cards);
    assert multiset(pile.cards)[Last(pile.cards)] > 0;
  }

  /** Turn t was taken by player t % MaxPlayers, for every turn of the trace. */
  ghost predicate RoundRobin(actors: seq<nat>)
  {
    forall t :: 0 <= t < |actors| ==> actors[t] == t % MaxPlayers
  }

  /** after holds the same MaxPlayers hands as before, except possibly hand p. */
  ghost predicate SameExcept(before: seq<seq<Card>>, after: seq<seq<Card>>, p: nat)
  {
    |before| == |after| == MaxPlayers && forall j :: 0 <= j < MaxPlayers && j != p ==> after[j] == before[j]
  }

  /** history[t] holds the hands before turn t (history[t + 1] after it): each turn changes
      only the hand of the player who took it. */
  ghost predicate OnlyActorsHandMoves(actors: seq<nat>, history: seq<seq<seq<Card>>>)
  {
    |history| == |actors| + 1 && |history[0]| == MaxPlayers &&
    forall t {:trigger actors[t]} :: 0 <= t < |actors| ==> SameExcept(history[t], history[t + 1], actors[t])
  }

  /** Recording one more turn that changed only the actor's hand keeps the history sound. */
  lemma HistorySnoc(actors: seq<nat>, history: seq<seq<seq<Card>>>, p: nat, post: seq<seq<Card>>)
    requires OnlyActorsHandMoves(actors, history) && SameExcept(Last(history), post, p)
    ensures OnlyActorsHandMoves(actors + [p], history + [post])
  {
    var actors', history' := actors + [p], history + [post];
    forall t | 0 <= t < |actors'|
      ensures SameExcept(history'[t], history'[t + 1], actors'[t])
    {
      if t < |actors| {
        assert actors'[t] == actors[t] && history'[t] == history[t] && history'[t + 1] == history[t + 1];
      }
    }
  }

  /** One turn of player turn % MaxPlayers, with the acting player and the resulting hands
      appended to the ghost trace and history. */
  method RecordedTurn(deck: CardList, pile: CardList, hands: seq<CardList>, turn: nat, st: Attack, input: Input,
                      ghost universe: multiset<Card>, ghost actors: seq<nat>, ghost history: seq<seq<seq<Card>>>)
    returns (gameOver: bool, st': Attack, ghost actors': seq<nat>, ghost history': seq<seq<seq<Card>>>)
    requires |hands| == MaxPlayers && TableOk(deck, pile, hands, st, universe)
    requires |actors| == turn && RoundRobin(actors)
    requires OnlyActorsHandMoves(actors, history) && Last(history) == HandContents(hands)
    modifies hands[turn % MaxPlayers], pile, deck
    ensures TableOk(deck, pile, hands, st', universe)
    ensures gameOver <==> hands[turn % MaxPlayers].cards == []
    ensures forall i :: 0 <= i < |hands| && i != turn % MaxPlayers ==> hands[i].cards == old(hands[i].cards)
    ensures actors' == actors + [turn % MaxPlayers] && RoundRobin(actors')
    ensures OnlyActorsHandMoves(actors', history') && history'[0] == history[0] && Last(history') == HandContents(hands)
  {
    var p := turn % MaxPlayers;
    ghost var pre := HandContents(hands);
    gameOver, st' := TakeTurn(deck, pile, hands, p, st, input, universe);
    ghost var post := HandContents(hands);
    assert SameExcept(pre, post, p);
    HistorySnoc(actors, history, p, post);
    actors', history' := actors + [p], history + [post];
  }

  /** Runs turns 0, 1, 2, ... with player turn % MaxPlayers acting, for at most maxTurns
      turns, stopping at the first turn that empties the acting hand. inputs(t) is what the
      human types on turn t. */
  method RunTurns(deck: CardList, pile: CardList, hands: seq<CardList>, maxTurns: nat, inputs: nat -> Input,
                  ghost universe: multiset<Card>)
    returns (attack: Attack, winner: Option<nat>, turn: nat, ghost actors: seq<nat>, ghost history: seq<seq<seq<Card>>>)
    requires |hands| == MaxPlayers && TableOk(deck, pile, hands, Attack(false, 0), universe)
    requires forall i :: 0 <= i < |hands| ==> hands[i].cards != []
    modifies deck, pile, set h | h in hands
    ensures TableOk(deck, pile, hands, attack, universe)
    ensures RoundRobin(actors) && |actors| == if winner.Some? then turn + 1 else turn
    ensures OnlyActorsHandMoves(actors, history)
    ensures history[0] == old(HandContents(hands)) && Last(history) == HandContents(hands)
    ensures forall j :: 0 <= j < MaxPlayers ==> |history[0][j]| == old(|hands[j].cards|)
    ensures winner.Some? ==> winner.value == turn % MaxPlayers && turn < maxTurns && hands[winner.value].cards == []
    ensures winner.Some? ==> forall i :: 0 <= i < |hands| && i != winner.value ==> hands[i].cards != []
    ensures winner.None? ==> turn == maxTurns && forall i :: 0 <= i < |hands| ==> hands[i].cards != []
  {
    attack := Attack(false, 0);
    winner := None;
    turn := 0;
    ghost var dealt := HandContents(hands);
    actors, history := [], [dealt];
    while turn < maxTurns
      invariant turn <= maxTurns
      invariant TableOk(deck, pile, hands, attack, universe)
      invariant forall i :: 0 <= i < |hands| ==> hands[i].cards != []
      invariant winner == None
      invariant |actors| == turn && RoundRobin(actors)
      invariant OnlyActorsHandMoves(actors, history)
      invariant history[0] == dealt && Last(history) == HandContents(hands)
    {
      var p := turn % MaxPlayers;
      var gameOver;
      gameOver, attack, actors, history := RecordedTurn(deck, pile, hands, turn, attack, inputs(turn), universe, actors, history);
      if gameOver {
        winner := Some(p);
        break;
      }
      turn := turn + 1;
    }
  }

  /** The whole game: create the deck, shuffle and deal two hands and the starting card,
      then run at most maxTurns turns. */
  method PlayGame(maxTurns: nat, inputs: nat -> Input)
    returns (deck: CardList, pile: CardList, hands: seq<CardList>, attack: Attack, winner: Option<nat>, turn: nat,
             ghost actors: seq<nat>, ghost history: seq<seq<seq<Card>>>)
    ensures |hands| == MaxPlayers && Separate(deck, pile, hands)
    ensures TableCards(deck, pile, hands) == multiset(CreateDeck())
    ensures |deck.cards| + |pile.cards| + TotalSize(HandContents(hands)) == 54
    ensures pile.cards != []
    ensures ChainOk(attack, Last(pile.cards))
    ensures RoundRobin(actors) && |actors| == if winner.Some? then turn + 1 else turn
    ensures OnlyActorsHandMoves(actors, history) && Last(history) == HandContents(hands)
    ensures forall j :: 0 <= j < MaxPlayers ==> |history[0][j]| == CardsPerPlayer
    ensures winner.Some? ==> winner.value == turn % MaxPlayers && turn < maxTurns && hands[winner.value].cards == []
    ensures winner.Some? ==> forall i :: 0 <= i < |hands| && i != winner.value ==> hands[i].cards != []
    ensures winner.None? ==> turn == maxTurns && forall i :: 0 <= i < |hands| ==> hands[i].cards != []
  {
    deck := new CardList(CreateDeck());
    hands, pile := ShuffleAndDistribute(deck, MaxPlayers);
    attack, winner, turn, actors, history := RunTurns(deck, pile, hands, maxTurns, inputs, multiset(CreateDeck()));
    TableSize(deck.cards, pile.cards, HandContents(hands));
  }
}
