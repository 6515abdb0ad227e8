/** The older, self-contained `BlackjackGame` at the top of the scripts folder. It keeps its own
    `Card` and `Deck`, scores Aces the flexible way always, never lets the dealer win a tie, clamps
    the bet of a new hand with three separate `if`s and has a fixed minimum bet. Its abilities are
    not part of this model, so no ability is ever in effect here. */
module Legacy {
  import opened Cards
  import opened Options
  import opened Decks
  import opened Scoring
  import opened Betting
  import opened Outcomes
  import Round

  /** `minBet`, a constant in this engine. */
  const MinBet := 100

  /** `DetermineWinner` of the legacy engine: equal scores that are not busts are always a tie. */
  function LegacyDetermineWinner(playerValue: int, dealerValue: int): (m: Message)
    ensures Announced(m) == Win <==> playerValue <= 21 && (dealerValue > 21 || playerValue > dealerValue)
    ensures Announced(m) == Push <==> playerValue <= 21 && dealerValue <= 21 && playerValue == dealerValue
    ensures m in {PlayerBusts, DealerBusts, PlayerWins, DealerWins, Tie}
  {
    if playerValue > 21 then PlayerBusts
    else if dealerValue > 21 then DealerBusts
    else if playerValue > dealerValue then PlayerWins
    else if dealerValue > playerValue then DealerWins
    else Tie
  }

  /** The legacy outcome is the main engine's with the dealer-wins-ties rule switched off. */
  lemma WinnerIsMainWithoutTieRule(playerValue: int, dealerValue: int)
    ensures LegacyDetermineWinner(playerValue, dealerValue) == Outcomes.DetermineWinner(playerValue, dealerValue, false)
  {
  }

  /** The score of a hand in this engine: Aces as 11, demoted while the total is over 21. */
  function LegacyValue(hand: seq<CardInstance>, dealerHand: seq<CardInstance>, reduction: int): int
    requires NoJokers(hand)
  {
    HandValue(hand, Flexible, Target(dealerHand, reduction), reduction)
  }

  /** Two cards of the pack never score over 21 in this engine: only two Aces reach 22, and one
      of them is then demoted. */
  lemma OpeningHandNeverBusts(hand: seq<CardInstance>, target: Option<nat>, reduction: int)
    requires |hand| == 2 && StandardCards(hand) && reduction >= 0
    ensures NoJokers(hand)
    ensures HandValue(hand, Flexible, target, reduction) <= 21
  {
    StandardHasNoJokers(hand);
    RawTotalDecomposed(hand, Flexible, target, reduction);
    var h := Hits(hand, target);
    assert reduction * h >= 0;
    var first := hand[..1];
    assert first[..0] == [] && hand[..|hand| - 1] == first && first[0] == hand[0];
    assert LowTotal(first) == LowPoints(hand[0].card);
    assert AceCount(first) == if hand[0].card.rank == Ace then 1 else 0;
    assert LowTotal(hand) == LowPoints(hand[0].card) + LowPoints(hand[1].card);
    assert AceCount(hand) == (if hand[0].card.rank == Ace then 1 else 0) + (if hand[1].card.rank == Ace then 1 else 0);
  }

  /** The `new Deck()` of `Start`: the full 52-card pack, which a rebuild always restores. */
  method NewFullDeck() returns (d: Deck)
    ensures fresh(d) && d.Valid() && !d.jokersInDeck && |d.Fresh()| == 52 && d.cards == d.Fresh()
  {
    d := new Deck();
    FullPack();
  }

  class BlackjackGame {
    const deck: Deck

    var playerHand: seq<CardInstance>
    var dealerHand: seq<CardInstance>
    /** The identity the next `new CardInstance` receives. */
    var nextId: nat

    var playerMoney: int
    var currentBet: int
    var isRoundActive: bool
    var isActionLocked: bool
    /** The scissors reduction the scoring loop reads; `StartGame` clears it. */
    var scissorsValueReduction: int

    /** The deck never loses a rank or a suit in this engine, so a rebuild deals again; the table
        holds only deck cards, each a distinct object. */
    ghost predicate Valid()
      reads this`playerHand, this`dealerHand, this`nextId, this`scissorsValueReduction, deck
    {
      deck.Valid() && !deck.jokersInDeck && |deck.Fresh()| == 52 &&
      StandardCards(playerHand) && StandardCards(dealerHand) &&
      DistinctIds(playerHand) && DistinctIds(dealerHand) && Disjoint(playerHand, dealerHand) &&
      IdsBelow(playerHand, nextId) && IdsBelow(dealerHand, nextId) &&
      scissorsValueReduction >= 0
    }

    function Score(hand: seq<CardInstance>): int
      reads this`dealerHand, this`scissorsValueReduction
      requires NoJokers(hand)
    {
      LegacyValue(hand, dealerHand, scissorsValueReduction)
    }

    /** `Start`, with the field initializers: a fresh deck, then a new hand. */
    constructor ()
      ensures Valid()
      ensures playerMoney == 500 && currentBet == 100
      ensures playerHand == [] && dealerHand == [] && !isRoundActive && !isActionLocked && scissorsValueReduction == 0
      ensures multiset(deck.cards) == multiset(deck.Fresh())
    {
      var gameDeck := NewFullDeck();
      deck := gameDeck;
      playerHand := [];
      dealerHand := [];
      nextId := 0;
      playerMoney := 500;
      currentBet := 100;
      isRoundActive := false;
      isActionLocked := false;
      scissorsValueReduction := 0;
      new;
      StartGame();
    }

    /** `CalculateHandValue`: the summing loop with every Ace as 11, then the demotion loop. */
    method CalculateHandValue(hand: seq<CardInstance>) returns (value: int)
      requires NoJokers(hand)
      ensures value == Score(hand)
    {
      value := 0;
      var aceCount: nat := 0;
      var targeted: Option<nat> := Option.None;
      if scissorsValueReduction > 0 && |dealerHand| > 1 {
        targeted := Some(dealerHand[1].id);
      }
      var i := 0;
      while i < |hand|
        invariant 0 <= i <= |hand|
        invariant NoJokers(hand[..i])
        invariant value == RawTotal(hand[..i], Flexible, targeted, scissorsValueReduction)
        invariant aceCount == AceCount(hand[..i])
      {
        var cardInstance := hand[i];
        var card := cardInstance.card;
        var cardValue := card.GetValue();
        if targeted.Some? && cardInstance.id == targeted.value {
          cardValue := cardValue - scissorsValueReduction;
        }
        if card.rank == Ace {
          aceCount := aceCount + 1;
        }
        value := value + cardValue;
        assert hand[..i + 1][..i] == hand[..i];
        i := i + 1;
      }
      assert hand[..i] == hand;
      while value > 21 && aceCount > 0
        invariant Demote(value, aceCount) == Demote(RawTotal(hand, Flexible, targeted, scissorsValueReduction), AceCount(hand))
        decreases aceCount
      {
        value := value - 10;
        aceCount := aceCount - 1;
      }
    }

    // -------------------------------------------------------------------------------------
    // Betting
    // -------------------------------------------------------------------------------------

    method IncreaseBet()
      modifies this`currentBet
      ensures currentBet == if old(isRoundActive) then old(currentBet) else LegacyIncreasedBet(old(currentBet), playerMoney)
    {
      if isRoundActive {
        return;
      }
      var nextBet := currentBet + BetStep;
      if nextBet > playerMoney {
        currentBet := playerMoney;
      } else {
        currentBet := nextBet;
      }
    }

    method DecreaseBet()
      modifies this`currentBet
      ensures currentBet == if old(isRoundActive) then old(currentBet) else DecreasedBet(old(currentBet), MinBet)
    {
      if isRoundActive {
        return;
      }
      if currentBet > MinBet {
        currentBet := currentBet - BetStep;
      }
      if currentBet < MinBet {
        currentBet := MinBet;
      }
    }

    /** `LoseAmount` of this engine takes the money and leaves the bet alone. */
    method LoseAmount(amount: int)
      modifies this`playerMoney
      ensures playerMoney == old(playerMoney) - amount
    {
      playerMoney := playerMoney - amount;
    }

    // -------------------------------------------------------------------------------------
    // A new hand
    // -------------------------------------------------------------------------------------

    /** `ClearTable`: both hands leave the table. */
    method ClearTable()
      requires Valid()
      modifies this`playerHand, this`dealerHand
      ensures Valid()
      ensures playerHand == [] && dealerHand == []
    {
      playerHand := [];
      dealerHand := [];
    }

    /** The round flags and the scissors reset of `StartGame`. */
    method ResetRound()
      requires Valid()
      modifies this`isRoundActive, this`isActionLocked, this`scissorsValueReduction
      ensures Valid()
      ensures !isRoundActive && !isActionLocked && scissorsValueReduction == 0
    {
      isRoundActive := false;
      isActionLocked := false;
      scissorsValueReduction := 0;
    }

    /** The bet clamp of `StartGame`: three `if`s applied in turn. */
    method ClampBet()
      requires Valid()
      modifies this`currentBet
      ensures Valid()
      ensures currentBet == LegacyStartingBet(old(currentBet), playerMoney, MinBet)
    {
      if currentBet > playerMoney {
        currentBet := playerMoney;
      }
      if currentBet < MinBet {
        currentBet := MinBet;
      }
      if playerMoney < MinBet {
        currentBet := playerMoney;
      }
    }

    /** `StartGame`: clears the table, reshuffles the deck, resets the round and clamps the bet. */
    method StartGame()
      requires Valid()
      modifies this`playerHand, this`dealerHand, this`isRoundActive, this`isActionLocked,
        this`scissorsValueReduction, this`currentBet, deck`cards
      ensures Valid()
      ensures playerHand == [] && dealerHand == [] && !isRoundActive && !isActionLocked && scissorsValueReduction == 0
      ensures currentBet == LegacyStartingBet(old(currentBet), playerMoney, MinBet)
      ensures multiset(deck.cards) == multiset(old(deck.cards))
    {
      ClearTable();
      ghost var ks := deck.Shuffle();
      ResetRound();
      ClampBet();
    }

    // -------------------------------------------------------------------------------------
    // Dealing
    // -------------------------------------------------------------------------------------

    /** `DealCardToPlayerCoroutine` without an ability in effect: the top card, face up, in front
        of the player's hand. The deck is rebuilt when empty, so a card always comes. */
    method DealCardToPlayer()
      requires Valid()
      modifies this`playerHand, this`nextId, deck`cards
      ensures Valid()
      ensures |playerHand| == |old(playerHand)| + 1 && playerHand[1..] == old(playerHand)
      ensures playerHand[0] == CardInstance(old(nextId), playerHand[0].card, false)
      ensures old(deck.cards) != [] ==> playerHand[0].card == old(deck.cards)[0] && deck.cards == old(deck.cards)[1..]
    {
      var newCard := deck.DealCard();
      if newCard.None? {
        assert false;
        return;
      }
      var instance := CardInstance(nextId, newCard.value, false);
      PrependFresh(instance, playerHand, dealerHand, nextId);
      playerHand := [instance] + playerHand;
      nextId := nextId + 1;
    }

    /** `DealCardToDealerCoroutine`: the top card, face up or down, in front of the dealer's hand. */
    method DealCardToDealer(isHidden: bool)
      requires Valid()
      modifies this`dealerHand, this`nextId, deck`cards
      ensures Valid()
      ensures |dealerHand| == |old(dealerHand)| + 1 && dealerHand[1..] == old(dealerHand)
      ensures dealerHand[0] == CardInstance(old(nextId), dealerHand[0].card, isHidden)
      ensures old(deck.cards) != [] ==> dealerHand[0].card == old(deck.cards)[0] && deck.cards == old(deck.cards)[1..]
    {
      var newCard := deck.DealCard();
      if newCard.None? {
        assert false;
        return;
      }
      var instance := CardInstance(nextId, newCard.value, isHidden);
      PrependFresh(instance, dealerHand, playerHand, nextId);
      dealerHand := [instance] + dealerHand;
      nextId := nextId + 1;
    }

    /** The four deals of `DealRoundCoroutine` on an empty table: player, dealer face up, player,
        dealer face down. */
    method DealOpening()
      requires Valid() && playerHand == [] && dealerHand == []
      modifies this`playerHand, this`dealerHand, this`nextId, deck`cards
      ensures Valid()
      ensures |playerHand| == 2 && |dealerHand| == 2
      ensures dealerHand[0].hidden && !dealerHand[1].hidden && !playerHand[0].hidden && !playerHand[1].hidden
    {
      DealCardToPlayer();
      DealCardToDealer(false);
      DealCardToPlayer();
      DealCardToDealer(true);
    }

    // -------------------------------------------------------------------------------------
    // Round flow
    // -------------------------------------------------------------------------------------

    /** The opening of `EndGame`: the round ends and the bet is paid out as decided by the words
        in the message. */
    method Settle(message: Message)
      requires Valid()
      modifies this`playerMoney, this`isRoundActive, this`isActionLocked
      ensures Valid()
      ensures playerMoney == old(playerMoney) + Delta(Announced(message), currentBet)
      ensures !isRoundActive && !isActionLocked
    {
      isRoundActive := false;
      ClassifyAgrees(message);
      var text := Text(message);
      if Contains(text, "You win") || Contains(text, "Blackjack! You win") {
        playerMoney := playerMoney + currentBet;
      } else if Contains(text, "It's a tie") {
      } else {
        playerMoney := playerMoney - currentBet;
      }
      isActionLocked := false;
    }

    /** `EndGame`: the payout, then a new hand. Whether the session ends (the scene reload the
        method requests for a player below the minimum bet or at the winning money) is returned;
        `StartGame` runs in either case. */
    method EndGame(message: Message) returns (sessionOver: bool)
      requires Valid()
      modifies this`playerHand, this`dealerHand, this`playerMoney, this`isRoundActive, this`isActionLocked,
        this`scissorsValueReduction, this`currentBet, deck`cards
      ensures Valid()
      ensures playerMoney == old(playerMoney) + Delta(Announced(message), old(currentBet))
      ensures sessionOver <==> playerMoney < MinBet || playerMoney >= Round.WinningMoney
      ensures playerHand == [] && dealerHand == [] && !isRoundActive && !isActionLocked
      ensures currentBet == LegacyStartingBet(old(currentBet), playerMoney, MinBet)
    {
      Settle(message);
      sessionOver := playerMoney < MinBet || playerMoney >= Round.WinningMoney;
      StartGame();
    }

    /** The hole card is turned up, which changes no score. */
    method RevealHoleCard()
      requires Valid()
      modifies this`dealerHand
      ensures Valid()
      ensures dealerHand == Round.RevealFirst(old(dealerHand))
      ensures Score(dealerHand) == old(Score(dealerHand))
    {
      StandardHasNoJokers(dealerHand);
      SameCardsSameScore(dealerHand, Round.RevealFirst(dealerHand), Flexible,
                         Target(dealerHand, scissorsValueReduction), scissorsValueReduction);
      dealerHand := Round.RevealFirst(dealerHand);
    }

    /** `DealerTurnCoroutine(true)`, after a player blackjack: the hole card is turned up, the
        dealer never draws, and the round ends as a blackjack win or, against a dealer 21, a tie. */
    method BlackjackFinish() returns (message: Message, sessionOver: bool)
      requires Valid()
      modifies this`playerHand, this`dealerHand, this`playerMoney, this`isRoundActive, this`isActionLocked,
        this`scissorsValueReduction, this`currentBet, deck`cards
      ensures Valid()
      ensures message == if old(Score(dealerHand)) != 21 then Outcomes.Blackjack else BothBlackjack
      ensures playerMoney == old(playerMoney) + Delta(Announced(message), old(currentBet))
      ensures sessionOver <==> playerMoney < MinBet || playerMoney >= Round.WinningMoney
    {
      RevealHoleCard();
      var dealerValue := CalculateHandValue(dealerHand);
      message := if dealerValue != 21 then Outcomes.Blackjack else BothBlackjack;
      sessionOver := EndGame(message);
    }

    /** `DealRoundCoroutine`: a round starts only when none is in play, the bet reaches the
        minimum, the money covers the bet and nothing is in progress. Two cards never bust, so
        after the deal the player either has a blackjack, which ends the round at once, or plays
        on. Between rounds the table is clear, as `EndGame` always starts a new hand. */
    method DealRound() returns (step: Round.Step)
      requires Valid() && (!isRoundActive ==> playerHand == [] && dealerHand == [])
      modifies this`playerHand, this`dealerHand, this`nextId, this`playerMoney, this`isRoundActive, this`isActionLocked,
        this`scissorsValueReduction, this`currentBet, deck`cards
      ensures Valid()
      ensures step.Ignored? <==> old(isRoundActive || currentBet < MinBet || playerMoney < currentBet || isActionLocked)
      ensures step.Ignored? ==>
        playerMoney == old(playerMoney) && currentBet == old(currentBet) &&
        playerHand == old(playerHand) && dealerHand == old(dealerHand) &&
        isRoundActive == old(isRoundActive) && isActionLocked == old(isActionLocked)
      ensures step.Ignored? || step.Continues? || step.Ended?
      ensures step.Continues? ==>
        isRoundActive && !isActionLocked && |playerHand| == 2 && |dealerHand| == 2 && Score(playerHand) < 21 &&
        dealerHand[0].hidden && !dealerHand[1].hidden && !playerHand[0].hidden && !playerHand[1].hidden
      ensures step.Ended? ==>
        step.message in {Outcomes.Blackjack, BothBlackjack} &&
        playerMoney == old(playerMoney) + Delta(Announced(step.message), old(currentBet))
    {
      if isRoundActive || currentBet < MinBet || playerMoney < currentBet || isActionLocked {
        return Round.Ignored;
      }
      isActionLocked := true;
      isRoundActive := true;
      DealOpening();
      step := AfterOpening();
    }

    /** The end of `DealRoundCoroutine`, once two cards each are out: 21 hands the turn to the
        dealer at once; anything less unlocks the table. */
    method AfterOpening() returns (step: Round.Step)
      requires Valid() && |playerHand| == 2
      modifies this`playerHand, this`dealerHand, this`playerMoney, this`isRoundActive, this`isActionLocked,
        this`scissorsValueReduction, this`currentBet, deck`cards
      ensures Valid()
      ensures step.Continues? || step.Ended?
      ensures step.Ended? <==> old(Score(playerHand)) == 21
      ensures step.Continues? ==>
        !isActionLocked && Score(playerHand) < 21 && isRoundActive == old(isRoundActive) &&
        playerHand == old(playerHand) && dealerHand == old(dealerHand)
      ensures step.Ended? ==>
        step.message in {Outcomes.Blackjack, BothBlackjack} &&
        playerMoney == old(playerMoney) + Delta(Announced(step.message), old(currentBet))
    {
      OpeningHandNeverBusts(playerHand, Target(dealerHand, scissorsValueReduction), scissorsValueReduction);
      var playerValue := CalculateHandValue(playerHand);
      if playerValue == 21 {
        var message, over := BlackjackFinish();
        step := Round.Ended(message, over);
      } else {
        isActionLocked := false;
        step := Round.Continues;
      }
    }
  }
}
