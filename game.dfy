/** Game setup, the resolver and the two player actions of the blackjack game. */
module Game {
  import opened Cards
  import opened Scoring

  datatype Turn = PlayerTurn | DealerTurn

  datatype GameState = GameState(playerHand: seq<Card>, dealerHand: seq<Card>, cardDeck: seq<Card>, turn: Turn)

  datatype GameResult = PlayerWin | DealerWin | Draw | NoResult

  /** Every card of the state, deck first, then the dealer's hand, then the player's. */
  function AllCards(s: GameState): seq<Card>
  {
    s.cardDeck + s.dealerHand + s.playerHand
  }

  /** The cards of the state are exactly the cards of one full deck. */
  ghost predicate HoldsFullDeck(s: GameState)
  {
    multiset(AllCards(s)) == multiset(NewCardDeck())
  }

  /** The source's `setupGame`, given the shuffled deck: the player takes the last two cards,
      the dealer the two before them, the rest stays in the deck in its order. */
  function SetupGame(shuffled: seq<Card>): (s: GameState)
    requires |shuffled| >= 4
    ensures |s.playerHand| == 2 && |s.dealerHand| == 2
    ensures AllCards(s) == shuffled
    ensures s.turn == PlayerTurn
  {
    var n := |shuffled|;
    GameState(shuffled[n - 2..n], shuffled[n - 4..n - 2], shuffled[..n - 4], PlayerTurn)
  }

  /** Setting up from a shuffle of the full deck leaves 48 cards in the deck and every card
      of the deck somewhere in the state. */
  lemma SetupFromFullDeck(shuffled: seq<Card>)
    requires multiset(shuffled) == multiset(NewCardDeck())
    ensures |shuffled| == 52
    ensures |SetupGame(shuffled).cardDeck| == 48
    ensures HoldsFullDeck(SetupGame(shuffled))
  {
    NewCardDeckLayout();
    assert |shuffled| == |multiset(shuffled)| == |multiset(NewCardDeck())| == |NewCardDeck()|;
  }

  /** A hand that has gone over 21; it takes at least three cards. */
  predicate Bust(hand: seq<Card>)
    ensures Bust(hand) ==> |hand| >= 3
  {
    SmallHandScore(hand);
    HandScore(hand) > 21
  }

  /** A two-card hand scoring 21: exactly one ace and a non-ace total of 10. */
  predicate Blackjack(hand: seq<Card>)
    ensures Blackjack(hand) <==> |hand| == 2 && AceCount(hand) == 1 && NonAceTotal(hand) == 10
  {
    SmallHandScore(hand);
    |hand| == 2 && HandScore(hand) == 21
  }

  /** The source's `determineGameResult`: the first matching rule of bust, blackjack and
      score comparison decides; the final `no_result` default is never reached. */
  function DetermineGameResult(s: GameState): (r: GameResult)
    ensures r != NoResult
  {
    var playerScore := HandScore(s.playerHand);
    var dealerScore := HandScore(s.dealerHand);
    if Bust(s.playerHand) then DealerWin
    else if Bust(s.dealerHand) then PlayerWin
    else if Blackjack(s.playerHand) && Blackjack(s.dealerHand) then Draw
    else if Blackjack(s.playerHand) then PlayerWin
    else if Blackjack(s.dealerHand) then DealerWin
    else if playerScore > dealerScore then PlayerWin
    else if dealerScore > playerScore then DealerWin
    else if playerScore == dealerScore then Draw
    else NoResult
  }

  /** A hand's standing for comparison: -1 when bust, 22 for a blackjack, else its score. */
  function Strength(hand: seq<Card>): int
  {
    if Bust(hand) then -1 else if Blackjack(hand) then 22 else HandScore(hand)
  }

  /** The resolver as one comparison: a bust player loses, and otherwise the stronger hand
      wins and equal strengths draw. */
  lemma ResultByStrength(s: GameState)
    ensures DetermineGameResult(s) ==
      if Bust(s.playerHand) then DealerWin
      else if Strength(s.playerHand) > Strength(s.dealerHand) then PlayerWin
      else if Strength(s.playerHand) < Strength(s.dealerHand) then DealerWin
      else Draw
  {
  }

  /** A player bust loses even when the dealer is bust too; a dealer bust alone loses. */
  lemma BustRules(s: GameState)
    ensures Bust(s.playerHand) ==> DetermineGameResult(s) == DealerWin
    ensures !Bust(s.playerHand) && Bust(s.dealerHand) ==> DetermineGameResult(s) == PlayerWin
  {
  }

  /** A blackjack beats any other 21, and two blackjacks draw. */
  lemma BlackjackRules(s: GameState)
    requires !Bust(s.playerHand) && !Bust(s.dealerHand)
    ensures Blackjack(s.playerHand) && Blackjack(s.dealerHand) ==> DetermineGameResult(s) == Draw
    ensures Blackjack(s.playerHand) && !Blackjack(s.dealerHand) ==> DetermineGameResult(s) == PlayerWin
    ensures !Blackjack(s.playerHand) && Blackjack(s.dealerHand) ==> DetermineGameResult(s) == DealerWin
  {
  }

  /** Without any bust or blackjack, the higher score wins and equal scores draw. */
  lemma ScoreRules(s: GameState)
    requires !Bust(s.playerHand) && !Bust(s.dealerHand)
    requires !Blackjack(s.playerHand) && !Blackjack(s.dealerHand)
    ensures DetermineGameResult(s) ==
      if HandScore(s.playerHand) > HandScore(s.dealerHand) then PlayerWin
      else if HandScore(s.playerHand) < HandScore(s.dealerHand) then DealerWin
      else Draw
  {
  }

  /** When neither hand is bust the rules treat player and dealer alike: swapping the hands
      swaps the winner and keeps a draw. */
  lemma ResultSymmetric(s: GameState)
    requires !Bust(s.playerHand) && !Bust(s.dealerHand)
    ensures var swapped := s.(playerHand := s.dealerHand, dealerHand := s.playerHand);
      DetermineGameResult(swapped) ==
        match DetermineGameResult(s)
        case PlayerWin => DealerWin
        case DealerWin => PlayerWin
        case Draw => Draw
        case NoResult => NoResult
  {
  }

  /** The source's `playerHits`: the deck's last card goes to the end of the player's hand.
      The source never checks whose turn it is; an empty deck is reported as DeckExhausted. */
  function PlayerHits(s: GameState): (r: Result<GameState>)
    ensures r.Err? <==> s.cardDeck == []
    ensures r.Ok? ==> exists c: Card ::
      r.value.cardDeck + [c] == s.cardDeck && r.value.playerHand == s.playerHand + [c]
    ensures r.Ok? ==> r.value.dealerHand == s.dealerHand && r.value.turn == s.turn
    ensures r.Ok? ==> multiset(AllCards(r.value)) == multiset(AllCards(s))
  {
    match TakeCard(s.cardDeck)
    case Err(e) => Err(e)
    case Ok(d) =>
      var next := s.(cardDeck := d.remaining, playerHand := s.playerHand + [d.card]);
      assert AllCards(s) == d.remaining + [d.card] + s.dealerHand + s.playerHand;
      Ok(next)
  }

  /** The source's `playerStands`: a dealer scoring 16 or less takes the deck's last card
      (one card, once), and the turn passes to the dealer either way. */
  function PlayerStands(s: GameState): (r: Result<GameState>)
    ensures r.Err? <==> HandScore(s.dealerHand) <= 16 && s.cardDeck == []
    ensures r.Ok? ==> r.value.turn == DealerTurn && r.value.playerHand == s.playerHand
    ensures r.Ok? && HandScore(s.dealerHand) <= 16 ==> exists c: Card ::
      r.value.cardDeck + [c] == s.cardDeck && r.value.dealerHand == s.dealerHand + [c]
    ensures r.Ok? && HandScore(s.dealerHand) > 16 ==>
      r.value.dealerHand == s.dealerHand && r.value.cardDeck == s.cardDeck
    ensures r.Ok? ==> multiset(AllCards(r.value)) == multiset(AllCards(s))
  {
    var score := HandScore(s.dealerHand);
    if score <= 16 then
      match TakeCard(s.cardDeck)
      case Err(e) => Err(e)
      case Ok(d) =>
        var next := s.(dealerHand := s.dealerHand + [d.card], cardDeck := d.remaining, turn := DealerTurn);
        assert AllCards(s) == d.remaining + [d.card] + s.dealerHand + s.playerHand;
        Ok(next)
    else
      Ok(s.(turn := DealerTurn))
  }

  /** Both actions keep every card of the full deck in the state, and so keep
      |player| + |dealer| + |deck| at 52. */
  lemma ActionsKeepFullDeck(s: GameState)
    requires HoldsFullDeck(s)
    ensures PlayerHits(s).Ok? ==> HoldsFullDeck(PlayerHits(s).value)
    ensures PlayerStands(s).Ok? ==> HoldsFullDeck(PlayerStands(s).value)
    ensures |s.playerHand| + |s.dealerHand| + |s.cardDeck| == 52
  {
    NewCardDeckLayout();
    assert |AllCards(s)| == |multiset(AllCards(s))| == |multiset(NewCardDeck())| == 52;
  }

  /** Once the turn has passed to the dealer no action gives it back. */
  lemma DealerTurnIsFinal(s: GameState)
    requires s.turn == DealerTurn
    ensures PlayerHits(s).Ok? ==> PlayerHits(s).value.turn == DealerTurn
    ensures PlayerStands(s).Ok? ==> PlayerStands(s).value.turn == DealerTurn
  {
  }

  /** A deck holding the cards of a fresh setup never runs out on the player's first hit. */
  lemma FirstHitAfterSetup(shuffled: seq<Card>)
    requires multiset(shuffled) == multiset(NewCardDeck())
    ensures |shuffled| == 52
    ensures PlayerHits(SetupGame(shuffled)).Ok?
    ensures |PlayerHits(SetupGame(shuffled)).value.playerHand| == 3
  {
    SetupFromFullDeck(shuffled);
  }
}
