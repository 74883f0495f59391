# One Card game engine in Dafny

This project models the game-state engine of the two-player "One Card" game, a variant of
UNO, in `Onecard.py`. The model keeps the program's structure:

- **Card rules** (`cards.dfy`, module `Cards`) are pure. They cover the attack-card test,
  the damage table, and the legal-move filter with its Joker-wild shortcut.
- **Deck manager** (`deck.dfy`, module `Deck`) is imperative. The deck, the discard pile
  and every hand are separate mutable lists (`CardList` objects). The top of each list is
  its last element.
  - `CreateDeck` builds the 54 cards.
  - `ShuffleAndDistribute` shuffles the deck, deals 7 cards per player, and pops the
    starting discard card.
  - `RefillDeckIfNeeded` recycles the discard pile, minus its top card, into an empty deck.
  - `DrawCards` draws up to `count` cards and stops early when both piles run out.
- **Turn step** (`turn.dfy`, module `Turn`). `PlayerTurn` either plays one legal card,
  extending or ending the attack chain, or draws the penalty (the chain's damage) or one
  card. It then reports whether the acting hand is empty.
- **Session** (`session.dfy`, module `Session`). `PlayGame` builds the table and runs turns
  in strict round-robin order, stopping at the first turn that empties a hand.
- `seqs.dfy` (module `Seqs`) holds sequence helpers. These include Python's `list.remove`,
  modelled as `RemoveFirst`.

Randomness is nondeterminism. `random.shuffle` yields some permutation, and
`random.choice(available)` yields some element of `available`. What the human types is a
parameter of type `Input`: an integer, or `Unreadable` when `int()` rejects the text.

The properties proved:
- Card conservation: the table always holds exactly the multiset of the 54-card deck, so
  the deck, pile and hands together hold 54 cards.
- The discard pile is never empty.
- The legal-move filter is sound and complete, counts duplicates, and preserves hand order.
- The attack chain invariant holds. An active chain sits on an attack card and owes at
  least its positive damage; an inactive chain owes nothing.
- Damage accumulates over a run of attack plays and resets on any other play or any draw.
- Each draw gives exactly `min(count, drawable)` cards.
- The winner is the player whose turn emptied their hand, and that player is
  `turn % 2`.

## Model

| member | source | states |
|---|---|---|
| `Cards.IsAttackCard` | Onecard.py:28-30 | on the 54-card universe a card attacks (a Joker, an A or a 2) exactly when its rank is a key of the damage map |
| `Cards.Damage` | Onecard.py:28-34 | damage is at most 10; on the 54-card universe a card has positive damage exactly when it is an attack card (a Joker, an A or a 2); a Joker carries at least 7 |
| `Cards.Filter` | Onecard.py:69-76 | the result is an order-preserving subsequence of the hand that holds every card passing the suit/rank/damage rule exactly as often as the hand does, and no other card |
| `Cards.Available` | Onecard.py:64-76 | with no attack and a Joker on top the whole hand is returned unchanged; in every case the result is a subsequence of the hand, a card occurs in it iff it is in the hand and legal, and with the hand's multiplicity |
| `Cards.GetAvailableCards` | Onecard.py:64-76 | the filtering loop returns exactly `Available(hand, top, isAttack)` |
| `Cards.CounterIsAttack` | Onecard.py:69-75 | while an attack on an attack card is active, every offered card is itself an attack card |
| `Cards.WeakCounterRefused` | Onecard.py:72-74 | with an attack active, a non-Joker whose damage is below the top card's is never offered, even if suit or rank match |
| `Cards.ColoredJokerAlwaysOffered` | Onecard.py:70-71 | the colored Joker is offered on any top card when no attack is active |
| `Deck.Product` | Onecard.py:18 | the suit-major product has `|ss|*|rs|` cards, and a card is in it iff its suit is in `ss` and its rank is in `rs` |
| `Deck.ProductDistinct` | Onecard.py:18 | the product of duplicate-free suit and rank lists has no duplicates |
| `Deck.CreateDeck` | Onecard.py:16-18 | the deck has 54 pairwise-distinct cards, and a card is in it iff it is one of the 4×13 standard cards or one of the two Jokers |
| `Deck.CardList.Shuffle` | Onecard.py:22 | the list becomes some permutation of itself |
| `Deck.DealHand` | Onecard.py:23 | a fresh hand of 7 cards whose k-th card is the deck's k-th card from the top (pop order); the deck keeps exactly its cards below those 7, and deck and hand together keep the deck's old cards |
| `Deck.DealHands` | Onecard.py:23 | `playerCount` pairwise-distinct fresh hands; hand i holds, in pop order, the 7 cards that started `7*i` places below the top of the deck, the deck keeps exactly its bottom `len - 7*playerCount` cards, and the cards now held are exactly the ones the deck lost |
| `Deck.DealtInPopOrder` | Onecard.py:23 | one more hand popped off the remaining deck keeps every dealt card at its place in the pop order of the original deck |
| `Deck.DealtSoFarSnoc` | Onecard.py:23 | popping one more hand keeps the deal's record: remaining deck a prefix of the original, hand sizes, pop order and conservation |
| `Deck.ShuffleAndDistribute` | Onecard.py:20-25 | each of `playerCount` fresh, distinct hands holds 7 cards and the new pile holds 1; the deck shrinks by `7*playerCount+1`; deck, pile and hands together hold the old deck's multiset |
| `Deck.RefillDeckIfNeeded` | Onecard.py:78-86 | if the deck is empty and the pile has more than one card, the pile becomes `[old top]` and the deck a permutation of the rest of the old pile; otherwise nothing changes |
| `Deck.DrawOne` | Onecard.py:92-97 | one loop pass draws a card iff the deck, after a possible refill, can supply one; it keeps the cards and the old hand as a prefix; from a non-empty deck it moves exactly the top card and leaves the pile alone; from an empty deck it cuts a pile of two or more cards back to its top card and otherwise leaves the pile alone |
| `Deck.DrawCards` | Onecard.py:88-97 | conserves the multiset of deck, pile and hand; the old hand stays a prefix; the hand grows by exactly min(count, cards drawable from deck and pile), and by fewer than count only when the deck is empty and the pile holds at most one card; the deck's own min(count, len(deck)) cards are drawn first, from its top, in pop order; when the deck alone suffices it keeps its bottom cards; the pile is cut back to its old top card exactly when the deck was empty or too short and the pile had more than one card, and is untouched otherwise |
| `Deck.DrawAcrossRefillScenario` | Onecard.py:80-97 | drawing two cards from the deck [♣4] with pile [◆7, ♠5, ♥3]: ♣4 comes first, then one of ◆7 and ♠5, with the other left in the deck, and the pile is exactly [♥3] |
| `Deck.TwoDrawnAcrossRefill` | Onecard.py:80-97 | the same outcome, derived from the draw contract alone |
| `Turn.HumanSelectionAsWritten` | Onecard.py:109-114 | the human's pick as the code computes it, `available[int(input)-1]`; a pick, when there is one, is a legal card |
| `Turn.HumanSelection` | Onecard.py:110 | a pick exists iff the input is a number from 1 to N; it is then card number `n`, and it agrees with the code's pick |
| `Turn.ZeroSelectsLast` | Onecard.py:110-111 | in the code every number from `-(N-1)` to 0 selects a card counted from the end (0 gives the last legal card), where the 1..N prompt calls for the fallback; a number below `-(N-1)` or above N reaches the fallback |
| `Turn.ChooseCard` | Onecard.py:105-117 | the chosen card is one of the available cards; for player 0, a valid input decides it |
| `Turn.PlayCard` | Onecard.py:119-129 | one occurrence of the selected card leaves the hand and becomes the new pile top; the chain state becomes `AfterPlay` of the old one |
| `Turn.AfterPlay` | Onecard.py:124-129 | playing a valid attack card makes the chain active and strictly raises the owed damage; any other card resets to (inactive, 0); the result always satisfies the chain invariant for the new top |
| `Turn.Penalty` | Onecard.py:133-138 | the number of cards to draw is at least one except in an active chain that owes nothing |
| `Turn.PenaltyPositive` | Onecard.py:133-138 | under the chain invariant the draw penalty is at least one card, and during an attack it is the owed damage, which is no less than the top card's damage |
| `Turn.AttackRunAccumulates` | Onecard.py:124-126 | after a run of attack plays the chain is active and owes the starting damage plus the sum of the played cards' damage |
| `Turn.ResetForgetsEarlierDamage` | Onecard.py:127-129 | after a non-attack play, the chain no longer depends on anything played before it |
| `Turn.PlayerTurn` | Onecard.py:99-148 | when some card is legal, a legal card (the human's valid choice, if any) leaves the hand once, becomes the new top, and the deck is untouched; the chain becomes `AfterPlay`. Otherwise the turn is a `DrawCards` of the penalty (the deck's top cards first, in pop order, the pile recycled only when needed) and the chain resets to (false, 0). In both cases the cards are conserved, the pile stays non-empty, the chain invariant holds for the new top, and game over iff the hand is empty |
| `Turn.TwoOnTwo` | Onecard.py:72-129 | a heart 2 on a club 2 with no attack active is offered (the legal moves are exactly `[(♥,2)]`), and playing it gives the chain state (true, 2) |
| `Turn.NoCounterToAce` | Onecard.py:69-76 | with an attack active on ♥A, a hand holding only ♠9 has no legal move |
| `Turn.FivePenaltyScenario` | Onecard.py:131-148 | a turn with damage 5 pending, top card ♥A and only ♠9 in hand, over the deck ♣3..♣8: the hand becomes exactly ♠9, ♣8, ♣7, ♣6, ♣5, ♣4, the deck keeps ♣3, the chain resets to (false, 0) and the game is not over |
| `Turn.FiveDrawn` | Onecard.py:88-97 | a draw of five from the deck ♣3..♣8 into the hand ♠9 gives exactly ♠9, ♣8, ♣7, ♣6, ♣5, ♣4, leaves ♣3 in the deck and the pile untouched |
| `Session.TurnConservesTable` | Onecard.py:160 | a turn that only trades cards between deck, pile and one hand leaves the table's multiset unchanged |
| `Session.TakeTurn` | Onecard.py:160-162 | one turn keeps the table invariants: separate lists, the full deck's multiset, a non-empty pile, and a chain that fits the top; it reports game over iff the acting hand is empty |
| `Session.RecordedTurn` | Onecard.py:160 | the turn of player `turn % 2` keeps the table invariants, reports game over exactly when that hand is empty, leaves the other hand untouched, and extends the ghost trace by that player and the ghost history by the hands it leaves, so the history still shows each turn changing only its own player's hand |
| `Session.RunTurns` | Onecard.py:158-163 | the ghost trace of acting players has turn t taken by player t % 2, and the ghost history of hand contents shows that turn t changed no hand but that player's, starting from the dealt hands and ending at the final ones; it ends with the winning turn (its length is `turn + 1` on a win, `turn` otherwise), so no turn runs after a win; on a win the winner is `turn % 2`, their hand is empty and every other hand is not; otherwise every hand is non-empty after `maxTurns` turns; the table invariants hold throughout |
| `Session.PlayGame` | Onecard.py:151-163 | from the created deck, the game ends with the table still holding exactly the 54-card multiset (54 cards in all), a non-empty pile, a consistent chain, a history that starts from two 7-card hands and lets each turn change only the acting player's hand, and the round-robin trace and win report of `RunTurns` |

## Left out

- Display is not modelled: `print_game_state`, `card_str`, `hand_str`, the screen clearing and every `print`. They have no bearing on state.
- The message log (`message_log`, `log`) is not modelled. It is append-only text, and its wording is not behaviour.
- `random.shuffle` and `random.choice` are modelled as "some permutation" and "some element of `available`", not as a random number generator.
- `input()` and `int()` are modelled by the `Input` parameter. Text that `int()` rejects is `Unreadable`, and `PlayGame` takes what the human types on each turn as a function `inputs`.
- `RunTurns` and `PlayGame` bound the `while True` loop by `maxTurns`. A game need not end, so the model does not claim termination; it proves the per-turn invariants and the win report.
- `Deck.ShuffleAndDistribute` requires the deck to hold at least `7*playerCount+1` cards. The code would raise `IndexError` from `pop` otherwise; its only caller passes 54 cards for 2 players.
- `Deck.ShuffleAndDistribute`: states counts and card conservation, not which card of the shuffled deck lands in which hand (DealHands states that for its input), since the shuffle leaves the order open anyway.
- `Turn.PlayerTurn`: for player 0 it uses the corrected selection (see Findings). When the human types 0 or a negative number down to -(N-1), the model plays some legal card where the code always plays one counted from the end of the list. The code's pick is one of the model's possible outcomes.
- `Deck.CardList.Remove` requires the card to be present, where Python's `list.remove` would raise `ValueError`. The selected card always comes from the legal moves, and those are part of the hand.

## Findings

| source | as written | input that shows it | evidently intended | confidence | as-written member | corrected member |
|---|---|---|---|---|---|---|
| Onecard.py:110-111 | `available[int(input) - 1]` accepts 0 and the negative numbers down to `-(N-1)`, because Python counts negative indices from the end | legal moves `[c1, c2]`, the human types `0`: the code plays `c2`, with no "invalid input" message and no random fallback | the prompt offers `1~N`, so only 1..N should select a card and anything else should fall back to a random legal card | not executed; medium | `Turn.HumanSelectionAsWritten` (shown by `Turn.ZeroSelectsLast`) | `Turn.HumanSelection` (used by `Turn.ChooseCard`) |
