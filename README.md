# Blackjack game core in Dafny

A model of the game logic of a single-player browser blackjack game (`src/game.tsx`).

- `cards.dfy` (module `Cards`) has the card model: suits, ranks (number cards 2 to 10, then
  jack, queen, king and ace), and cards as (suit, rank) pairs. It builds the unshuffled
  52-card deck suit by suit, and it models `takeCard`, which takes the top card, the last
  element of the deck sequence.
- `scoring.dfy` (module `Scoring`) has the scorer `calculateHandScore` as a method with the
  source's two loops. The method is proved against `HandScore`, a closed-form definition.
  `HandScore` counts every ace as 1 and adds 10 when one ace counts as 11. That happens when
  the non-ace total is below 10, or is exactly 10 with a single ace. The source's special
  case for a total of 10 with two or more aces counts all of them as 1. Lemmas state the
  special cases, the greedy ace rule and "at most one ace counts as 11". They also prove that
  the score does not depend on card order and that a two-card 21 is exactly an ace plus a
  ten-valued card.
- `game.dfy` (module `Game`) has the game state: player hand, dealer hand, deck, and whose
  turn it is. It models `setupGame` as a function of the already shuffled deck, the resolver
  `determineGameResult`, and the two actions `playerHits` and `playerStands`. All of them
  are pure functions, as in the source: setup maps a deck to a state, the resolver a state
  to a result, and each action a state to a new state. The lemmas show:
  - the resolver never reaches its `no_result` default;
  - it equals one comparison of hand "strengths" (bust, blackjack, score);
  - it is symmetric in player and dealer when nobody is bust;
  - both actions keep all 52 cards in the state;
  - once the turn is the dealer's, it never goes back.

Drawing from an empty deck gives an `undefined` card in the source: `deck[deck.length - 1]`
is `undefined` and `slice(0, -1)` is `[]`. That `undefined` goes into a hand, where the next
scoring of the hand fails. The
model makes this an explicit error instead: `TakeCard`, `PlayerHits` and the drawing branch of
`PlayerStands` return `Err(DeckExhausted)` on an empty deck. Neither action checks whose turn
it is, in the source or in the model; only the user interface disables the buttons.

## Model

| member | source | states |
|---|---|---|
| `Cards.AllSuits` | src/game.tsx:34 | the suit enumeration lists each of the four suits, each at its own index |
| `Cards.AllRanks` | src/game.tsx:36 | the rank enumeration lists each of the thirteen ranks, each at its own index |
| `Cards.Flatten` | src/game.tsx:41 | the concatenated rows hold exactly the cards that some row holds |
| `Cards.SuitRow` | src/game.tsx:35-39 | one suit's row has 13 cards and holds exactly the cards of that suit |
| `Cards.NewCardDeck` | src/game.tsx:33-41 | the new deck holds every card |
| `Cards.FlattenAt` | src/game.tsx:41 | concatenating equally long rows puts element j of row i at position i * n + j |
| `Cards.FlattenLength` | src/game.tsx:41 | concatenating m rows of length n gives m * n cards |
| `Cards.NewCardDeckLayout` | src/game.tsx:33-41 | the new deck has 4 * 13 cards, and position p holds suit p / 13 with rank p % 13 |
| `Cards.NewCardDeckSuitMajor` | src/game.tsx:33-41 | suit-major order: element i * 13 + j is (suit i, rank j); derived from `NewCardDeckLayout` |
| `Cards.NewCardDeckHoldsEachCardOnce` | src/game.tsx:33-41 | every (suit, rank) pair is in the deck at exactly one position and occurs there exactly once |
| `Cards.TakeCard` | src/game.tsx:47-51 | an empty deck gives DeckExhausted; otherwise the remaining deck followed by the taken card is the original deck |
| `Cards.TakeCardAfterPut` | src/game.tsx:47-51 | taking from `deck + [c]` gives back exactly `c` and `deck` |
| `Scoring.CardValue` | src/game.tsx:72-79 | what a card adds before aces are resolved: 0 exactly for an ace, otherwise between 2 and 10 |
| `Scoring.NonAceTotal` | src/game.tsx:66-80 | the running total of the first loop: between 2 and 10 for every non-ace card of the hand |
| `Scoring.AceCount` | src/game.tsx:67-79 | the ace count of the first loop: at most the hand's size, and 0 exactly when no card is an ace |
| `Scoring.HardTotal` | src/game.tsx:66-90 | the hand's total with every ace as 1: at least one point per card |
| `Scoring.SoftAce` | src/game.tsx:82-90 | when one ace counts as 11: only with an ace and a non-ace total of at most 10 |
| `Scoring.HandScore` | src/game.tsx:65-93 | the score is the hard total, or 10 more when one ace counts as 11 |
| `Scoring.CalculateHandScore` | src/game.tsx:65-93 | the two-loop scorer with its early returns computes `HandScore`: the total with aces as 1, plus 10 exactly when one ace counts as 11 |
| `Scoring.ScoreIsHardOrSoft` | src/game.tsx:85-90 | at most one ace counts as 11: the score is the hard total or 10 more, and 10 more only with an ace |
| `Scoring.AceFreeScore` | src/game.tsx:65-92 | a hand without aces scores the plain sum of its card values; an empty hand scores 0 |
| `Scoring.TenTotalScore` | src/game.tsx:82-83 | with a non-ace total of 10, one ace scores 21 and k >= 2 aces score 10 + k |
| `Scoring.GreedyAceScore` | src/game.tsx:85-90 | otherwise the first ace counts 11 if the total stays at most 21 and every further ace counts 1 |
| `Scoring.CountsOfConcat` | src/game.tsx:69-80 | the non-ace total and the ace count of two hands put together add up |
| `Scoring.CountsIgnoreOrder` | src/game.tsx:66-80 | two hands with the same cards in any order have the same non-ace total and the same number of aces |
| `Scoring.ScoreIgnoresOrder` | src/game.tsx:65-93 | two hands with the same cards in any order have the same score |
| `Scoring.BlackjackIsAceAndTen` | src/game.tsx:65-93 | a two-card hand scores 21 exactly when it is an ace and a card worth 10 |
| `Scoring.SmallHandScore` | src/game.tsx:65-93 | no hand of at most two cards scores over 21; a two-card 21 has one ace and a non-ace total of 10 |
| `Scoring.ScoreExamples` | src/game.tsx:65-93 | A,K scores 21; A,A scores 12; 9,A scores 20; K,A,A scores 12 |
| `Scoring.GreedyOvershoot` | src/game.tsx:85-90 | 9,A,A,A scores 22 although its hard total is 12: the greedy rule can bust a hand |
| `Game.SetupGame` | src/game.tsx:53-61 | the player gets two cards and the dealer two; deck, dealer hand and player hand together are the shuffled deck in its order; the turn is the player's |
| `Game.SetupFromFullDeck` | src/game.tsx:53-61 | from a shuffle of the full deck, 48 cards stay in the deck and the state holds exactly the 52 cards |
| `Game.Bust` | src/game.tsx:100-101 | a hand over 21; such a hand has at least three cards |
| `Game.Blackjack` | src/game.tsx:102-103 | a two-card 21, which is exactly a two-card hand with one ace and a non-ace total of 10 |
| `Game.DetermineGameResult` | src/game.tsx:95-118 | the decision chain never reaches its `no_result` default |
| `Game.ResultByStrength` | src/game.tsx:95-117 | the result is: a bust player loses; otherwise the hand with higher strength wins (bust -1, blackjack 22, else the score) and equal strength draws |
| `Game.BustRules` | src/game.tsx:100-106 | a player bust is a dealer win even when the dealer is bust too; a dealer bust alone is a player win |
| `Game.BlackjackRules` | src/game.tsx:102-110 | with no bust, two blackjacks draw and a single blackjack wins |
| `Game.ScoreRules` | src/game.tsx:112-115 | with no bust and no blackjack, the higher score wins and equal scores draw |
| `Game.ResultSymmetric` | src/game.tsx:105-115 | with no bust, swapping the hands swaps the winner and keeps a draw |
| `Game.PlayerHits` | src/game.tsx:143-150 | an empty deck gives DeckExhausted; otherwise the deck's last card moves to the end of the player's hand, the dealer's hand and the turn stay, and the multiset of all cards is unchanged |
| `Game.PlayerStands` | src/game.tsx:122-141 | the turn becomes the dealer's and the player's hand stays; a dealer at 16 or less gets exactly the deck's last card (DeckExhausted if there is none); above 16 the dealer's hand and the deck stay; the multiset of all cards is unchanged |
| `Game.ActionsKeepFullDeck` | src/game.tsx:122-150 | both actions keep the cards of the full deck in the state, so player, dealer and deck sizes add up to 52 |
| `Game.DealerTurnIsFinal` | src/game.tsx:122-150 | once the turn is the dealer's, neither action gives it back |
| `Game.FirstHitAfterSetup` | src/game.tsx:143-150 | after setting up from a full deck the player's first hit succeeds and leaves three cards in the player's hand |

## Left out

- `shuffle` (src/game.tsx:43-45) depends on `Math.random` and on how `sort` treats an
  inconsistent comparator. `SetupGame` takes the shuffled deck as a parameter.
  `SetupFromFullDeck` assumes only that this deck is a permutation of the new deck.
- `SetupGame`: the model requires at least four cards. The source always deals from a full
  52-card deck, so this never excludes a real case. JavaScript's `slice` with negative
  bounds on a shorter deck is not modelled.
- `TakeCard`, `PlayerHits`, `PlayerStands`: on an empty deck the source puts `undefined` into
  a hand. The model returns `Err(DeckExhausted)` instead.
- The string values of the suit and rank enumerations and the `parseInt` of a rank are not
  modelled. `./types` is not part of this model. Ranks are a closed datatype whose number
  cards carry their value.
- The order of the enumerations in `./types` is not visible. The model takes the suits as
  hearts, diamonds, clubs, spades and the ranks as 2 to 10, jack, queen, king, ace. Only
  `SuitAt`, `RankAt` and `CardIndex` depend on this choice, and through `CardIndex` the
  position that `NewCardDeckHoldsEachCardOnce` names for each card.
- The user interface is presentation: card images, image paths, the `Game` component, its
  state hook, the disabled buttons, the hidden dealer card and the result text
  (src/game.tsx:14-29, 154-200).
- JavaScript numbers are doubles. Every score here is a small integer, which doubles
  represent exactly, so the model uses unbounded integers.
