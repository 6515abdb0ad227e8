/** The round engine of the main game (`BlackjackGame`) with its coroutines run to completion: each
    public operation performs the whole chain of steps the coroutines would perform one frame at a
    time. Rendering, audio, timing and input polling are not part of it. */
module Round {
  import opened Cards
  import opened Options
  import opened Decks
  import opened Scoring
  import opened Betting
  import opened Outcomes
  import opened Events
  import Random

  /** Money at which the session ends in the player's favour. */
  const WinningMoney := 10000

  /** `Mathf.Min`. */
  function Min(a: int, b: int): int { if a <= b then a else b }

  /** How an operation of the round left the table. `Faulted`: the deck could not deal even after a
      rebuild, where the source's `cards[0]` throws. In a deal the coroutine waits on (the opening
      deals, the dealer's drawing loop) the coroutine stops and the table stays locked; `Hit` does
      not wait on its deal, so its count goes on with the hand as it was.
      `Ended` carries the result message and whether the session then ends (`LoadSceneAsync(0)`). */
  datatype Step = Ignored | Continues | Ended(message: Message, sessionOver: bool) | Faulted

  /** The position of the first face-down card, or `|hand|`. */
  function IndexOfHidden(hand: seq<CardInstance>): (i: nat)
    ensures i <= |hand|
    ensures i < |hand| ==> hand[i].hidden
    ensures forall j | 0 <= j < i :: !hand[j].hidden
  {
    if hand == [] then 0 else if hand[0].hidden then 0 else 1 + IndexOfHidden(hand[1..])
  }

  /** `dealerHand.FirstOrDefault(x => x.isHidden)` turned face up. */
  function RevealFirst(hand: seq<CardInstance>): (r: seq<CardInstance>)
    ensures SameCards(hand, r)
    ensures forall j | 0 <= j < |r| :: r[j].hidden ==> hand[j].hidden
    ensures forall j | 0 <= j <= IndexOfHidden(hand) && j < |r| :: !r[j].hidden
  {
    var i := IndexOfHidden(hand);
    if i < |hand| then hand[i := hand[i].(hidden := false)] else hand
  }

  /** Some rank that the prayer beads search for, a value from 2 up to `searchMax`, is in `cards`. */
  predicate HasSearchedRank(cards: seq<Card>, searchMax: int)
  {
    exists r: Rank | Two <= r <= King && RankValue(r) <= searchMax :: HasRank(cards, r)
  }

  /** `c` is the first card of its rank in `cards`, and taking it out leaves `rest`. */
  predicate TakesFirstOfRank(cards: seq<Card>, c: Card, rest: seq<Card>)
  {
    var i := IndexOfRank(cards, c.rank);
    i < |cards| && cards[i] == c && rest == RemoveAt(cards, i)
  }

  /** `DealCard` on `cards`: the top card, or, from an empty deck, a card of the rebuild, none
      exactly when the rebuild `rebuilt` is empty. */
  predicate DealsTop(cards: seq<Card>, dealt: Option<Card>, rest: seq<Card>, rebuilt: seq<Card>)
  {
    if cards != [] then dealt == Some(cards[0]) && rest == cards[1..]
    else (dealt.None? <==> rebuilt == [])
  }

  /** The draw under the prayer beads: the card of the highest value up to `searchMax` that the
      deck holds (for the value 10 the first of Ten, Jack, Queen, King held); failing that the
      first Ace; failing that `DealCard`. */
  predicate PrayerDraw(cards: seq<Card>, searchMax: int, dealt: Option<Card>, rest: seq<Card>, rebuilt: seq<Card>)
  {
    if HasSearchedRank(cards, searchMax) then
      dealt.Some? && TakesFirstOfRank(cards, dealt.value, rest) &&
      Two <= dealt.value.rank <= King && RankValue(dealt.value.rank) <= searchMax &&
      (forall r: Rank | Two <= r <= King && RankValue(dealt.value.rank) < RankValue(r) <= searchMax :: !HasRank(cards, r)) &&
      (forall r: Rank | Ten <= r < dealt.value.rank :: !HasRank(cards, r))
    else if HasRank(cards, Ace) then
      dealt.Some? && dealt.value.rank == Ace && TakesFirstOfRank(cards, dealt.value, rest)
    else
      DealsTop(cards, dealt, rest, rebuilt)
  }

  /** What the events have changed so far and can still change: the thresholds fired, the events
      left in each pool and the rules in force. */
  datatype RuleState = RuleState(triggered: seq<nat>, low: seq<BlackjackEvent>, medium: seq<BlackjackEvent>,
                                 high: seq<BlackjackEvent>, aceRule: AceValueRule, dealerWinsTies: bool,
                                 minBet: int, removedRanks: seq<Rank>, removedSuits: seq<Suit>)

  /** Recording a threshold that has not fired keeps the record free of repeats. */
  lemma RecordKeepsDistinct(triggered: seq<nat>, i: nat)
    requires Distinct(triggered) && i !in triggered
    ensures Distinct(triggered + [i])
  {
    var t := triggered + [i];
    forall j, k | 0 <= j < k < |t|
      ensures t[j] != t[k]
    {
      if k == |triggered| {
        assert t[j] == triggered[j];
      }
    }
  }

  /** A card the prayer beads draw is of a searched rank, or no searched rank was in the deck. */
  lemma PrayerDrawWithinBound(cards: seq<Card>, searchMax: int, dealt: Option<Card>, rest: seq<Card>, rebuilt: seq<Card>)
    requires PrayerDraw(cards, searchMax, dealt, rest, rebuilt)
    ensures dealt.Some? ==>
      (Two <= dealt.value.rank <= King && RankValue(dealt.value.rank) <= searchMax) ||
      (forall r: Rank | Two <= r <= King && RankValue(r) <= searchMax :: !HasRank(cards, r))
  {
  }

  /** The `new Deck()` of `Start`, seen from the game: a freshly built deck without Jokers. The
      removal lists it starts with are stated by `Decks.Deck`'s constructor. */
  method NewDeck() returns (d: Deck)
    ensures fresh(d) && d.Valid() && !d.jokersInDeck && d.cards == d.Fresh()
  {
    d := new Deck();
  }

  class BlackjackGame {
    const deck: Deck
    const eventThresholds: seq<Threshold>
    var availableLowEvents: seq<BlackjackEvent>
    var availableMediumEvents: seq<BlackjackEvent>
    var availableHighEvents: seq<BlackjackEvent>
    /** The thresholds that have fired, by their position in `eventThresholds`. */
    var triggeredThresholds: seq<nat>

    var currentAceRule: AceValueRule
    var dealerWinsTies: bool

    var playerHand: seq<CardInstance>
    var dealerHand: seq<CardInstance>
    /** The identity the next `new CardInstance` receives. */
    var nextId: nat

    var playerMoney: int
    var currentBet: int
    var minBet: int
    var isRoundActive: bool
    var isActionLocked: bool

    var isKnifeActive: bool
    var scissorsValueReduction: int
    var isPrayerBeadsActive: bool
    /** The card shown by the sunglasses (`peekedCardObject`), if any. */
    var peekedCard: Option<Card>
    var isKnifeAvailable: bool
    var isScissorsAvailable: bool
    var isPrayerBeadsAvailable: bool
    var isSunglassesAvailable: bool

    /** The deck keeps its own invariant and never holds Jokers (nothing in the engine enables
        them); the table holds only deck cards, each a distinct object. */
    ghost predicate Valid()
      reads this`playerHand, this`dealerHand, this`nextId, this`scissorsValueReduction, deck
    {
      deck.Valid() && !deck.jokersInDeck &&
      StandardCards(playerHand) && StandardCards(dealerHand) &&
      DistinctIds(playerHand) && DistinctIds(dealerHand) && Disjoint(playerHand, dealerHand) &&
      IdsBelow(playerHand, nextId) && IdsBelow(dealerHand, nextId) &&
      scissorsValueReduction >= 0
    }

    /** The four abilities as a new hand finds them. */
    predicate AbilitiesReset()
      reads this`isKnifeActive, this`isKnifeAvailable, this`isScissorsAvailable, this`scissorsValueReduction,
        this`isPrayerBeadsAvailable, this`isPrayerBeadsActive, this`isSunglassesAvailable
    {
      !isKnifeActive && isKnifeAvailable && isScissorsAvailable && scissorsValueReduction == 0 &&
      isPrayerBeadsAvailable && !isPrayerBeadsActive && isSunglassesAvailable
    }

    /** The score `CalculateHandValue` gives `hand` in the current state. */
    function Score(hand: seq<CardInstance>): int
      reads this`currentAceRule, this`dealerHand, this`scissorsValueReduction
      requires NoJokers(hand)
    {
      HandValue(hand, currentAceRule, Target(dealerHand, scissorsValueReduction), scissorsValueReduction)
    }

    /** The event pool of a severity. */
    function Pool(s: Severity): seq<BlackjackEvent>
      reads this`availableLowEvents, this`availableMediumEvents, this`availableHighEvents
    {
      match s
      case Low => availableLowEvents
      case Medium => availableMediumEvents
      case High => availableHighEvents
    }

    /** The event state of the session. */
    function Rules(): RuleState
      reads this`triggeredThresholds, this`availableLowEvents, this`availableMediumEvents, this`availableHighEvents,
        this`currentAceRule, this`dealerWinsTies, this`minBet, deck`removedRanks, deck`removedSuits
    {
      RuleState(triggeredThresholds, availableLowEvents, availableMediumEvents, availableHighEvents,
                currentAceRule, dealerWinsTies, minBet, deck.removedRanks, deck.removedSuits)
    }

    /** `Start`, with the field initializers: a fresh deck, copies of the configured event lists,
        then a new hand. */
    constructor (eventThresholds: seq<Threshold>, lowSeverityEvents: seq<BlackjackEvent>,
                 mediumSeverityEvents: seq<BlackjackEvent>, highSeverityEvents: seq<BlackjackEvent>)
      ensures Valid()
      ensures this.eventThresholds == eventThresholds && triggeredThresholds == []
      ensures Pool(Low) == lowSeverityEvents && Pool(Medium) == mediumSeverityEvents && Pool(High) == highSeverityEvents
      ensures playerMoney == 500 && currentBet == 100 && minBet == 100
      ensures currentAceRule == Flexible && !dealerWinsTies
      ensures playerHand == [] && dealerHand == [] && !isRoundActive && !isActionLocked && AbilitiesReset()
      ensures multiset(deck.cards) == multiset(deck.Fresh())
    {
      this.eventThresholds := eventThresholds;
      var gameDeck := NewDeck();
      deck := gameDeck;
      availableLowEvents := lowSeverityEvents;
      availableMediumEvents := mediumSeverityEvents;
      availableHighEvents := highSeverityEvents;
      triggeredThresholds := [];
      currentAceRule := Flexible;
      dealerWinsTies := false;
      playerHand := [];
      dealerHand := [];
      nextId := 0;
      playerMoney := 500;
      currentBet := 100;
      minBet := 100;
      isRoundActive := false;
      isActionLocked := false;
      isKnifeActive := false;
      scissorsValueReduction := 0;
      isPrayerBeadsActive := false;
      peekedCard := Option.None;
      isKnifeAvailable := true;
      isScissorsAvailable := true;
      isPrayerBeadsAvailable := true;
      isSunglassesAvailable := true;
      new;
      ghost var ks := StartGame();
    }

    // -------------------------------------------------------------------------------------
    // Scoring
    // -------------------------------------------------------------------------------------

    /** `CalculateHandValue`: the summing loop, then the Flexible demotion loop. */
    method CalculateHandValue(hand: seq<CardInstance>) returns (value: int)
      requires NoJokers(hand)
      ensures value == Score(hand)
    {
      value := 0;
      var aceCount: nat := 0;
      var targeted: Option<nat> := Option.None;
      if scissorsValueReduction > 0 && |dealerHand| > 1 {
        targeted := Some(dealerHand[1].id);
      }
      var i := 0;
      while i < |hand|
        invariant 0 <= i <= |hand|
        invariant NoJokers(hand[..i])
        invariant value == RawTotal(hand[..i], currentAceRule, targeted, scissorsValueReduction)
        invariant aceCount == AceCount(hand[..i])
      {
        var cardInstance := hand[i];
        var card := cardInstance.card;
        var cardValue := card.GetValue();
        if card.rank == Ace {
          aceCount := aceCount + 1;
          if currentAceRule == Always1 {
            cardValue := 1;
          } else {
            cardValue := 11;
          }
        } else if card.rank >= Ten && card.rank <= King {
          cardValue := 10;
        } else {
          cardValue := card.rank;
        }
        if targeted.Some? && cardInstance.id == targeted.value {
          cardValue := cardValue - scissorsValueReduction;
        }
        value := value + cardValue;
        assert hand[..i + 1][..i] == hand[..i];
        i := i + 1;
      }
      assert hand[..i] == hand;
      if currentAceRule == Flexible {
        while value > 21 && aceCount > 0
          invariant Demote(value, aceCount) == Demote(RawTotal(hand, currentAceRule, targeted, scissorsValueReduction), AceCount(hand))
          decreases aceCount
        {
          value := value - 10;
          aceCount := aceCount - 1;
        }
      }
    }

    // -------------------------------------------------------------------------------------
    // Betting
    // -------------------------------------------------------------------------------------

    method IncreaseBet()
      modifies this`currentBet
      ensures currentBet == if old(isRoundActive) then old(currentBet) else IncreasedBet(old(currentBet), playerMoney)
    {
      if isRoundActive {
        return;
      }
      if currentBet < playerMoney {
        var nextBet := currentBet + BetStep;
        if nextBet > playerMoney {
          currentBet := playerMoney;
        } else {
          currentBet := nextBet;
        }
      }
    }

    method DecreaseBet()
      modifies this`currentBet
      ensures currentBet == if old(isRoundActive) then old(currentBet) else DecreasedBet(old(currentBet), minBet)
    {
      if isRoundActive {
        return;
      }
      if currentBet > minBet {
        currentBet := currentBet - BetStep;
      }
      if currentBet < minBet {
        currentBet := minBet;
      }
    }

    method IncreaseMinimumBet(amount: int)
      modifies this`minBet, this`currentBet
      ensures minBet == old(minBet) + amount
      ensures currentBet == BetAfterNewMinimum(old(currentBet), minBet)
    {
      minBet := minBet + amount;
      if currentBet < minBet {
        currentBet := minBet;
      }
    }

    method LoseAmount(amount: int)
      modifies this`playerMoney, this`currentBet
      ensures playerMoney == old(playerMoney) - amount
      ensures currentBet == BetAfterLoss(old(currentBet), playerMoney, minBet)
    {
      playerMoney := playerMoney - amount;
      if currentBet > playerMoney {
        currentBet := playerMoney;
      }
      if currentBet < minBet && playerMoney >= minBet {
        currentBet := minBet;
      }
    }

    /** `ClearTable`: both hands and the peeked card leave the table. */
    method ClearTable()
      requires Valid()
      modifies this`playerHand, this`dealerHand, this`peekedCard
      ensures Valid()
      ensures playerHand == [] && dealerHand == [] && peekedCard.None?
    {
      playerHand := [];
      dealerHand := [];
      peekedCard := Option.None;
    }

    /** The ability reset of `StartGame`: every ability available again and none in effect. */
    method ResetAbilities()
      requires Valid()
      modifies this`isKnifeActive, this`isKnifeAvailable, this`isScissorsAvailable, this`scissorsValueReduction,
        this`isPrayerBeadsAvailable, this`isPrayerBeadsActive, this`isSunglassesAvailable
      ensures Valid() && AbilitiesReset()
    {
      isKnifeActive := false;
      isKnifeAvailable := true;
      isScissorsAvailable := true;
      scissorsValueReduction := 0;
      isPrayerBeadsAvailable := true;
      isPrayerBeadsActive := false;
      isSunglassesAvailable := true;
    }

    /** `StartGame`: clears the table, reshuffles what is left of the deck, resets the abilities
        and clamps the bet. */
    method StartGame() returns (ghost ks: seq<int>)
      requires Valid()
      modifies this`playerHand, this`dealerHand, this`peekedCard, this`isRoundActive, this`isActionLocked,
        this`isKnifeActive, this`isKnifeAvailable, this`isScissorsAvailable, this`scissorsValueReduction,
        this`isPrayerBeadsAvailable, this`isPrayerBeadsActive, this`isSunglassesAvailable, this`currentBet,
        deck`cards
      ensures Valid()
      ensures playerHand == [] && dealerHand == [] && peekedCard.None?
      ensures !isRoundActive && !isActionLocked && AbilitiesReset()
      ensures currentBet == StartingBet(old(currentBet), playerMoney, minBet)
      ensures FullDraws(ks, |old(deck.cards)|) && deck.cards == Shuffled(old(deck.cards), ks)
      ensures multiset(deck.cards) == multiset(old(deck.cards))
    {
      ClearTable();
      ks := deck.Shuffle();
      EndRound();
      ResetAbilities();
      ClampBet();
    }

    /** The round flags of `StartGame`: no round is in play and input is accepted. */
    method EndRound()
      requires Valid()
      modifies this`isRoundActive, this`isActionLocked
      ensures Valid() && !isRoundActive && !isActionLocked
    {
      isRoundActive := false;
      isActionLocked := false;
    }

    /** The bet clamp of `StartGame`, one `else if` chain. */
    method ClampBet()
      requires Valid()
      modifies this`currentBet
      ensures Valid()
      ensures currentBet == StartingBet(old(currentBet), playerMoney, minBet)
    {
      if playerMoney < minBet {
        currentBet := playerMoney;
      } else if currentBet > playerMoney {
        currentBet := playerMoney;
      } else if currentBet < minBet {
        currentBet := minBet;
      }
    }

    // -------------------------------------------------------------------------------------
    // Abilities
    // -------------------------------------------------------------------------------------

    /** The knife: the dealer will not draw this round. */
    method ActivateKnife()
      modifies this`isKnifeActive, this`isKnifeAvailable
      ensures var guard := old(isRoundActive) && !old(isKnifeActive) && old(isKnifeAvailable);
        if guard then isKnifeActive && !isKnifeAvailable
        else isKnifeActive == old(isKnifeActive) && isKnifeAvailable == old(isKnifeAvailable)
    {
      if !isRoundActive || isKnifeActive || !isKnifeAvailable {
        return;
      }
      isKnifeActive := true;
      isKnifeAvailable := false;
    }

    /** The scissors: the card at `dealerHand[1]` loses the part of its value above half. */
    method ActivateScissors()
      requires Valid()
      modifies this`scissorsValueReduction, this`isScissorsAvailable
      ensures Valid()
      ensures var guard := old(isRoundActive) && old(isScissorsAvailable) && old(Score(playerHand)) <= 21 && |dealerHand| >= 2;
        if guard then
          scissorsValueReduction == ScissorsReduction(dealerHand[1].card.GetValue()) && !isScissorsAvailable
        else
          scissorsValueReduction == old(scissorsValueReduction) && isScissorsAvailable == old(isScissorsAvailable)
    {
      if !isRoundActive || !isScissorsAvailable {
        return;
      }
      var playerValue := CalculateHandValue(playerHand);
      if playerValue > 21 {
        return;
      }
      if |dealerHand| < 2 {
        return;
      }
      var visibleDealerCard := dealerHand[1];
      var originalValue := visibleDealerCard.card.GetValue();
      var halvedValue := CeilHalf(originalValue);
      scissorsValueReduction := originalValue - halvedValue;
      isScissorsAvailable := false;
    }

    /** The prayer beads: the player's next card is chosen not to bust. */
    method ActivatePrayerBeads()
      requires Valid()
      modifies this`isPrayerBeadsActive, this`isPrayerBeadsAvailable
      ensures var guard := old(isRoundActive) && !old(isPrayerBeadsActive) && old(isPrayerBeadsAvailable) && Score(playerHand) <= 21;
        if guard then isPrayerBeadsActive && !isPrayerBeadsAvailable
        else isPrayerBeadsActive == old(isPrayerBeadsActive) && isPrayerBeadsAvailable == old(isPrayerBeadsAvailable)
    {
      if !isRoundActive || isPrayerBeadsActive || !isPrayerBeadsAvailable {
        return;
      }
      var playerValue := CalculateHandValue(playerHand);
      if playerValue > 21 {
        return;
      }
      isPrayerBeadsActive := true;
      isPrayerBeadsAvailable := false;
    }

    /** The sunglasses: show the top card of the deck without dealing it. The deck is not in the
        frame, so it cannot change. */
    method ActivateSunglasses()
      requires Valid()
      modifies this`peekedCard, this`isSunglassesAvailable
      ensures var guard := old(isRoundActive) && old(isSunglassesAvailable) && old(peekedCard).None? &&
                           Score(playerHand) <= 21 && deck.cards != [];
        if guard then peekedCard == Some(deck.cards[0]) && !isSunglassesAvailable
        else peekedCard == old(peekedCard) && isSunglassesAvailable == old(isSunglassesAvailable)
    {
      if !isRoundActive || !isSunglassesAvailable || peekedCard.Some? {
        return;
      }
      var playerValue := CalculateHandValue(playerHand);
      if playerValue > 21 {
        return;
      }
      var nextCard := deck.PeekCard();
      if nextCard.None? {
        return;
      }
      peekedCard := nextCard;
      isSunglassesAvailable := false;
    }

    // -------------------------------------------------------------------------------------
    // Event effects
    // -------------------------------------------------------------------------------------

    method RemoveRankFromDeck(rank: Rank) returns (ghost ks: seq<int>)
      requires Valid()
      modifies deck`cards, deck`removedRanks
      ensures Valid()
      ensures deck.removedRanks == Added(old(deck.removedRanks), rank)
      ensures FullDraws(ks, |deck.Fresh()|) && deck.cards == Shuffled(deck.Fresh(), ks)
    {
      ks := deck.AddRemovedRank(rank);
    }

    method RemoveSuitFromDeck(suit: Suit) returns (ghost ks: seq<int>)
      requires Valid()
      modifies deck`cards, deck`removedSuits
      ensures Valid()
      ensures deck.removedSuits == Added(old(deck.removedSuits), suit)
      ensures FullDraws(ks, |deck.Fresh()|) && deck.cards == Shuffled(deck.Fresh(), ks)
    {
      ks := deck.AddRemovedSuit(suit);
    }

    method SetAceRule(newRule: AceValueRule)
      modifies this`currentAceRule
      ensures currentAceRule == newRule
    {
      currentAceRule := newRule;
    }

    method SetDealerWinsTies(newRule: bool)
      modifies this`dealerWinsTies
      ensures dealerWinsTies == newRule
    {
      dealerWinsTies := newRule;
    }

    /** `BlackjackEvent.Apply`: each event calls one setter of the engine. */
    method Apply(e: BlackjackEvent)
      requires Valid()
      modifies this`currentAceRule, this`dealerWinsTies, this`minBet, this`currentBet,
        deck`cards, deck`removedRanks, deck`removedSuits
      ensures Valid()
      ensures currentAceRule == if e.AceRule? then e.ruleToSet else old(currentAceRule)
      ensures dealerWinsTies == if e.TieRule? then e.dealerWillWinTies else old(dealerWinsTies)
      ensures minBet == old(minBet) + (if e.IncreaseMinBet? then e.increaseAmount else 0)
      ensures currentBet == if e.IncreaseMinBet? then BetAfterNewMinimum(old(currentBet), minBet) else old(currentBet)
      ensures deck.removedRanks == if e.RemoveRank? then Added(old(deck.removedRanks), e.rankToRemove) else old(deck.removedRanks)
      ensures deck.removedSuits == if e.RemoveSuit? then Added(old(deck.removedSuits), e.suitToRemove) else old(deck.removedSuits)
      ensures if e.RemoveRank? || e.RemoveSuit? then multiset(deck.cards) == multiset(deck.Fresh())
              else deck.cards == old(deck.cards)
    {
      match e
      case AceRule(r) => SetAceRule(r);
      case TieRule(b) => SetDealerWinsTies(b);
      case IncreaseMinBet(a) => IncreaseMinimumBet(a);
      case RemoveRank(r) =>
        ghost var ks := RemoveRankFromDeck(r);
        ShufflePermutes(deck.Fresh(), ks);
      case RemoveSuit(s) =>
        ghost var ks := RemoveSuitFromDeck(s);
        ShufflePermutes(deck.Fresh(), ks);
    }

    /** The scan of `CheckForEventTriggerCoroutine`: the first threshold in list order that the
        money reaches and that has not fired. */
    method FindThreshold() returns (picked: Option<nat>)
      ensures picked == FirstDue(eventThresholds, triggeredThresholds, playerMoney, 0)
    {
      picked := Option.None;
      var i := 0;
      while i < |eventThresholds|
        invariant 0 <= i <= |eventThresholds|
        invariant picked.None?
        invariant forall j | 0 <= j < i :: !Due(eventThresholds, triggeredThresholds, playerMoney, j)
      {
        if playerMoney >= eventThresholds[i].moneyAmount && i !in triggeredThresholds {
          picked := Some(i);
          break;
        }
        i := i + 1;
      }
      ScanFindsFirstDue(eventThresholds, triggeredThresholds, playerMoney, i);
    }

    /** The draw of `CheckForEventTriggerCoroutine`: if the pool of the severity is not empty, an
        event at a random position is applied and removed from the pool. */
    method DrawEvent(severity: Severity) returns (applied: Option<BlackjackEvent>, ghost randomIndex: nat)
      requires Valid()
      modifies this`availableLowEvents, this`availableMediumEvents, this`availableHighEvents,
        this`currentAceRule, this`dealerWinsTies, this`minBet, this`currentBet,
        deck`cards, deck`removedRanks, deck`removedSuits
      ensures Valid()
      ensures applied.Some? <==> old(Pool(severity)) != []
      ensures applied.Some? ==>
        randomIndex < |old(Pool(severity))| && applied.value == old(Pool(severity))[randomIndex] &&
        Pool(severity) == RemoveAt(old(Pool(severity)), randomIndex)
      ensures applied.None? || severity != Low ==> availableLowEvents == old(availableLowEvents)
      ensures applied.None? || severity != Medium ==> availableMediumEvents == old(availableMediumEvents)
      ensures applied.None? || severity != High ==> availableHighEvents == old(availableHighEvents)
      ensures applied.None? ==>
        currentAceRule == old(currentAceRule) && dealerWinsTies == old(dealerWinsTies) &&
        minBet == old(minBet) && currentBet == old(currentBet) && deck.cards == old(deck.cards) &&
        deck.removedRanks == old(deck.removedRanks) && deck.removedSuits == old(deck.removedSuits)
    {
      applied := Option.None;
      randomIndex := 0;
      var eventPool := Pool(severity);
      if |eventPool| > 0 {
        var k := Random.Range(0, |eventPool|);
        randomIndex := k;
        var chosenEvent := eventPool[k];
        Apply(chosenEvent);
        assert Pool(severity) == eventPool;
        TakeFromPool(severity, k);
        applied := Some(chosenEvent);
      }
    }

    /** `eventPool.RemoveAt(randomIndex)`: the drawn event leaves its pool and the other pools stay. */
    method TakeFromPool(severity: Severity, k: nat)
      requires Valid()
      requires k < |Pool(severity)|
      modifies this`availableLowEvents, this`availableMediumEvents, this`availableHighEvents
      ensures Valid()
      ensures Pool(severity) == RemoveAt(old(Pool(severity)), k)
      ensures severity != Low ==> availableLowEvents == old(availableLowEvents)
      ensures severity != Medium ==> availableMediumEvents == old(availableMediumEvents)
      ensures severity != High ==> availableHighEvents == old(availableHighEvents)
    {
      match severity {
        case Low => availableLowEvents := RemoveAt(availableLowEvents, k);
        case Medium => availableMediumEvents := RemoveAt(availableMediumEvents, k);
        case High => availableHighEvents := RemoveAt(availableHighEvents, k);
      }
    }

    /** `CheckForEventTriggerCoroutine`: the threshold found is recorded as fired, and an event of
        its severity is drawn. */
    method CheckForEventTrigger() returns (picked: Option<nat>, applied: Option<BlackjackEvent>, ghost randomIndex: nat)
      requires Valid()
      modifies this`triggeredThresholds, this`availableLowEvents, this`availableMediumEvents, this`availableHighEvents,
        this`currentAceRule, this`dealerWinsTies, this`minBet, this`currentBet,
        deck`cards, deck`removedRanks, deck`removedSuits
      ensures Valid()
      ensures picked == FirstDue(eventThresholds, old(triggeredThresholds), playerMoney, 0)
      ensures picked.None? ==> triggeredThresholds == old(triggeredThresholds) && applied.None? && Rules() == old(Rules())
      ensures picked.Some? ==> triggeredThresholds == old(triggeredThresholds) + [picked.value]
      ensures applied.Some? <==> picked.Some? && old(Pool(eventThresholds[picked.value].severityToTrigger)) != []
      ensures applied.Some? ==>
        var s := eventThresholds[picked.value].severityToTrigger;
        randomIndex < |old(Pool(s))| && applied.value == old(Pool(s))[randomIndex] &&
        Pool(s) == RemoveAt(old(Pool(s)), randomIndex)
      ensures applied.None? ==> forall s: Severity :: Pool(s) == old(Pool(s))
      ensures applied.Some? ==>
        forall s: Severity | s != eventThresholds[picked.value].severityToTrigger :: Pool(s) == old(Pool(s))
      ensures applied.None? ==>
        currentAceRule == old(currentAceRule) && dealerWinsTies == old(dealerWinsTies) &&
        minBet == old(minBet) && currentBet == old(currentBet) && deck.cards == old(deck.cards) &&
        deck.removedRanks == old(deck.removedRanks) && deck.removedSuits == old(deck.removedSuits)
    {
      applied := Option.None;
      randomIndex := 0;
      picked := FindThreshold();
      if picked.None? {
        return;
      }
      var threshold := eventThresholds[picked.value];
      triggeredThresholds := triggeredThresholds + [picked.value];
      applied, randomIndex := DrawEvent(threshold.severityToTrigger);
    }

    // -------------------------------------------------------------------------------------
    // Dealing
    // -------------------------------------------------------------------------------------

    /** The card search of the prayer beads: values from `searchMaxValue` down to 2, the value 10
        probed as Ten, Jack, Queen, King in that order; the first rank the deck holds is dealt. */
    method SearchPrayerCard(searchMaxValue: int) returns (dealtCard: Option<Card>)
      requires Valid() && searchMaxValue <= 10
      modifies deck`cards
      ensures Valid()
      ensures dealtCard.None? ==>
        deck.cards == old(deck.cards) &&
        forall r: Rank | Two <= r <= King && RankValue(r) <= searchMaxValue :: !HasRank(old(deck.cards), r)
      ensures dealtCard.Some? ==>
        var c := dealtCard.value;
        var i := IndexOfRank(old(deck.cards), c.rank);
        i < |old(deck.cards)| && c == old(deck.cards)[i] && deck.cards == RemoveAt(old(deck.cards), i) &&
        Two <= c.rank <= King && RankValue(c.rank) <= searchMaxValue &&
        (forall r: Rank | Two <= r <= King && RankValue(c.rank) < RankValue(r) <= searchMaxValue :: !HasRank(old(deck.cards), r)) &&
        (forall r: Rank | Ten <= r < c.rank :: !HasRank(old(deck.cards), r))
    {
      ghost var start := deck.cards;
      dealtCard := Option.None;
      var value := searchMaxValue;
      while value >= 2
        invariant value <= searchMaxValue
        invariant Valid() && dealtCard.None? && deck.cards == start
        invariant forall r: Rank | Two <= r <= King && value < RankValue(r) <= searchMaxValue :: !HasRank(start, r)
      {
        if value >= 10 {
          var faceRanks: seq<Rank> := [Ten, Jack, Queen, King];
          var j := 0;
          while j < 4
            invariant 0 <= j <= 4
            invariant Valid() && dealtCard.None? && deck.cards == start
            invariant forall r: Rank | Ten <= r < Ten + j :: !HasRank(start, r)
          {
            dealtCard := deck.DealSpecificCard(faceRanks[j]);
            if dealtCard.Some? {
              break;
            }
            j := j + 1;
          }
        } else {
          var rankToSearch: Rank := value;
          dealtCard := deck.DealSpecificCard(rankToSearch);
        }
        if dealtCard.Some? {
          break;
        }
        value := value - 1;
      }
    }

    /** The opening of `DealCardToPlayerCoroutine`: the peeked card is discarded and a card is
        taken from the deck. Under the prayer beads (which this clears) the best card that does
        not bust is searched for, then an Ace, then the top card; otherwise the top card. */
    method DrawForPlayer() returns (newCard: Option<Card>)
      requires Valid()
      modifies this`peekedCard, this`isPrayerBeadsActive, deck`cards
      ensures Valid() && peekedCard.None? && !isPrayerBeadsActive
      ensures newCard.None? ==> deck.cards == []
      ensures newCard.Some? ==> Allowed(newCard.value, deck.removedRanks, deck.removedSuits, false)
      ensures !old(isPrayerBeadsActive) && old(deck.cards) != [] ==>
        newCard == Some(old(deck.cards)[0]) && deck.cards == old(deck.cards)[1..]
      ensures old(isPrayerBeadsActive) && newCard.Some? ==>
        var searchMax := Min(21 - old(Score(playerHand)), 10);
        (Two <= newCard.value.rank <= King && RankValue(newCard.value.rank) <= searchMax) ||
        (forall r: Rank | Two <= r <= King && RankValue(r) <= searchMax :: !HasRank(old(deck.cards), r))
      ensures !old(isPrayerBeadsActive) ==> DealsTop(old(deck.cards), newCard, deck.cards, deck.Fresh())
      ensures old(isPrayerBeadsActive) ==>
        PrayerDraw(old(deck.cards), Min(21 - old(Score(playerHand)), 10), newCard, deck.cards, deck.Fresh())
    {
      peekedCard := Option.None;
      if isPrayerBeadsActive {
        isPrayerBeadsActive := false;
        var playerValue := CalculateHandValue(playerHand);
        var idealValue := 21 - playerValue;
        var searchMaxValue := Min(idealValue, 10);
        ghost var start := deck.cards;
        newCard := DrawUnderPrayerBeads(searchMaxValue);
        PrayerDrawWithinBound(start, searchMaxValue, newCard, deck.cards, deck.Fresh());
      } else {
        newCard := deck.DealCard();
      }
    }

    /** The draw of `DealCardToPlayerCoroutine` under the prayer beads: the search, then the first
        Ace, then the top card. */
    method DrawUnderPrayerBeads(searchMaxValue: int) returns (newCard: Option<Card>)
      requires Valid() && searchMaxValue <= 10
      modifies deck`cards
      ensures Valid()
      ensures newCard.None? ==> deck.cards == []
      ensures newCard.Some? ==> Allowed(newCard.value, deck.removedRanks, deck.removedSuits, false)
      ensures PrayerDraw(old(deck.cards), searchMaxValue, newCard, deck.cards, deck.Fresh())
    {
      newCard := SearchPrayerCard(searchMaxValue);
      if newCard.None? {
        newCard := deck.DealSpecificCard(Ace);
      }
      if newCard.None? {
        newCard := deck.DealCard();
      }
    }

    /** `DealCardToPlayerCoroutine`: the peeked card is discarded and the drawn card goes face up
        in front of the player's hand (`Insert(0, …)`). */
    method DealCardToPlayer() returns (ok: bool, newCard: Option<Card>)
      requires Valid()
      modifies this`playerHand, this`nextId, this`peekedCard, this`isPrayerBeadsActive, deck`cards
      ensures Valid()
      ensures peekedCard.None? && !isPrayerBeadsActive
      ensures ok ==>
        |playerHand| == |old(playerHand)| + 1 && playerHand[1..] == old(playerHand) &&
        playerHand[0].id == old(nextId) && !playerHand[0].hidden && nextId == old(nextId) + 1
      ensures !ok ==> playerHand == old(playerHand) && deck.cards == []
      ensures ok && !old(isPrayerBeadsActive) && old(deck.cards) != [] ==>
        playerHand[0].card == old(deck.cards)[0] && deck.cards == old(deck.cards)[1..]
      ensures ok && old(isPrayerBeadsActive) ==>
        var searchMax := Min(21 - old(Score(playerHand)), 10);
        (Two <= playerHand[0].card.rank <= King && RankValue(playerHand[0].card.rank) <= searchMax) ||
        (forall r: Rank | Two <= r <= King && RankValue(r) <= searchMax :: !HasRank(old(deck.cards), r))
      ensures ok <==> newCard.Some?
      ensures ok ==> playerHand[0].card == newCard.value
      ensures !old(isPrayerBeadsActive) ==> DealsTop(old(deck.cards), newCard, deck.cards, deck.Fresh())
      ensures old(isPrayerBeadsActive) ==>
        PrayerDraw(old(deck.cards), Min(21 - old(Score(playerHand)), 10), newCard, deck.cards, deck.Fresh())
    {
      newCard := DrawForPlayer();
      if newCard.None? {
        return false, newCard;
      }
      PutInPlayerHand(newCard.value);
      return true, newCard;
    }

    /** `playerHand.Insert(0, …)` of a new face-up instance of `card`. */
    method PutInPlayerHand(card: Card)
      requires Valid() && IsStandard(card.rank)
      modifies this`playerHand, this`nextId
      ensures Valid()
      ensures playerHand == [CardInstance(old(nextId), card, false)] + old(playerHand) && nextId == old(nextId) + 1
    {
      var instance := CardInstance(nextId, card, false);
      PrependFresh(instance, playerHand, dealerHand, nextId);
      playerHand := [instance] + playerHand;
      nextId := nextId + 1;
    }

    /** `DealCardToDealerCoroutine`: the peeked card is discarded and the top card goes in front of
        the dealer's hand, face down if asked. */
    method DealCardToDealer(isHidden: bool) returns (ok: bool)
      requires Valid()
      modifies this`dealerHand, this`nextId, this`peekedCard, deck`cards
      ensures Valid()
      ensures peekedCard.None?
      ensures ok ==>
        |dealerHand| == |old(dealerHand)| + 1 && dealerHand[1..] == old(dealerHand) &&
        dealerHand[0] == CardInstance(old(nextId), dealerHand[0].card, isHidden) && nextId == old(nextId) + 1
      ensures ok && old(deck.cards) != [] ==> dealerHand[0].card == old(deck.cards)[0] && deck.cards == old(deck.cards)[1..]
      ensures !ok ==> dealerHand == old(dealerHand) && deck.cards == []
    {
      peekedCard := Option.None;
      var newCard := deck.DealCard();
      if newCard.None? {
        return false;
      }
      var instance := CardInstance(nextId, newCard.value, isHidden);
      PrependFresh(instance, dealerHand, playerHand, nextId);
      dealerHand := [instance] + dealerHand;
      nextId := nextId + 1;
      return true;
    }

    /** One pass of the dealer's drawing loop, entered with a score below 17: a face-up card for the
        dealer and the new score. The all-Aces-as-1 sum of the dealer's hand was below 17 plus the
        scissors reduction, and it grows. */
    method DealerHit() returns (ok: bool, dealerValue: int)
      requires Valid() && Score(dealerHand) < 17
      modifies this`dealerHand, this`nextId, this`peekedCard, deck`cards
      ensures Valid()
      ensures LowTotal(old(dealerHand)) < 17 + scissorsValueReduction
      ensures ok ==>
        |dealerHand| > 0 && dealerHand == [dealerHand[0]] + old(dealerHand) &&
        LowTotal(dealerHand) > LowTotal(old(dealerHand)) && dealerValue == Score(dealerHand)
      ensures !ok ==> dealerHand == old(dealerHand)
    {
      StandardHasNoJokers(dealerHand);
      ScoreAtLeastLowTotal(dealerHand, currentAceRule, Target(dealerHand, scissorsValueReduction), scissorsValueReduction);
      dealerValue := 0;
      ok := DealCardToDealer(false);
      if !ok {
        return;
      }
      assert dealerHand == [dealerHand[0]] + old(dealerHand);
      LowTotalPrepend(dealerHand[0], old(dealerHand));
      dealerValue := CalculateHandValue(dealerHand);
    }

    /** The dealer's drawing loop: cards are drawn while the dealer's score is below 17. The score
        is never below the all-Aces-as-1 sum less the scissors reduction, and every draw raises that
        sum, so the loop ends. */
    method DealerDraws() returns (ok: bool, dealerValue: int)
      requires Valid()
      modifies this`dealerHand, this`nextId, this`peekedCard, deck`cards
      ensures Valid()
      ensures |dealerHand| >= |old(dealerHand)|
      ensures ok ==> dealerValue == Score(dealerHand) && dealerValue >= 17
      ensures old(Score(dealerHand)) >= 17 ==> ok && dealerHand == old(dealerHand)
    {
      dealerValue := CalculateHandValue(dealerHand);
      ok := true;
      if dealerValue >= 17 {
        return;
      }
      while dealerValue < 17
        invariant Valid()
        invariant |dealerHand| >= |old(dealerHand)|
        invariant dealerValue == Score(dealerHand)
        decreases 17 + scissorsValueReduction - LowTotal(dealerHand)
      {
        ok, dealerValue := DealerHit();
        if !ok {
          return;
        }
      }
    }

    // -------------------------------------------------------------------------------------
    // Round flow
    // -------------------------------------------------------------------------------------

    /** The opening of `EndGameCoroutine`: the round ends, the bet is paid out as decided by the
        words in the message, and actions are unlocked. */
    method Settle(message: Message)
      modifies this`playerMoney, this`isRoundActive, this`isActionLocked
      ensures playerMoney == old(playerMoney) + Delta(Announced(message), currentBet)
      ensures !isRoundActive && !isActionLocked
    {
      isRoundActive := false;
      ClassifyAgrees(message);
      var text := Text(message);
      if Contains(text, "You win") || Contains(text, "Blackjack! You win") {
        playerMoney := playerMoney + currentBet;
      } else if Contains(text, "It's a tie") {
      } else {
        playerMoney := playerMoney - currentBet;
      }
      isActionLocked := false;
    }

    /** `EndGameCoroutine`: the payout, the event check, then either the end of the session or a
        new hand. */
    method EndGame(message: Message) returns (sessionOver: bool)
      requires Valid()
      modifies this, deck`cards, deck`removedRanks, deck`removedSuits
      ensures Valid()
      ensures playerMoney == old(playerMoney) + Delta(Announced(message), old(currentBet))
      ensures !isRoundActive && !isActionLocked
      ensures sessionOver <==> playerMoney < minBet || playerMoney >= WinningMoney
      ensures !sessionOver ==> minBet <= currentBet <= playerMoney && playerHand == [] && dealerHand == [] && AbilitiesReset()
      ensures var due := FirstDue(eventThresholds, old(triggeredThresholds), playerMoney, 0);
        triggeredThresholds == old(triggeredThresholds) + (if due.Some? then [due.value] else []) &&
        (due.None? ==> Rules() == old(Rules()))
      ensures old(triggeredThresholds) <= triggeredThresholds && |triggeredThresholds| <= |old(triggeredThresholds)| + 1
      ensures Distinct(old(triggeredThresholds)) ==> Distinct(triggeredThresholds)
    {
      Settle(message);
      var picked, applied, k := CheckForEventTrigger();
      if picked.Some? && Distinct(old(triggeredThresholds)) {
        RecordKeepsDistinct(old(triggeredThresholds), picked.value);
      }
      sessionOver := FinishSession();
    }

    /** The close of `EndGameCoroutine`: a player who can no longer cover the minimum bet, or who has
        reached the winning money, ends the session (the scene is reloaded); anyone else starts a
        new hand. */
    method FinishSession() returns (sessionOver: bool)
      requires Valid()
      modifies this`playerHand, this`dealerHand, this`peekedCard, this`isRoundActive, this`isActionLocked,
        this`isKnifeActive, this`isKnifeAvailable, this`isScissorsAvailable, this`scissorsValueReduction,
        this`isPrayerBeadsAvailable, this`isPrayerBeadsActive, this`isSunglassesAvailable, this`currentBet,
        deck`cards
      ensures Valid()
      ensures sessionOver <==> playerMoney < minBet || playerMoney >= WinningMoney
      ensures sessionOver ==> isRoundActive == old(isRoundActive) && isActionLocked == old(isActionLocked) && currentBet == old(currentBet)
      ensures unchanged(this`triggeredThresholds, this`availableLowEvents, this`availableMediumEvents, this`availableHighEvents,
        this`currentAceRule, this`dealerWinsTies, this`minBet, deck`removedRanks, deck`removedSuits)
      ensures !sessionOver ==>
        !isRoundActive && !isActionLocked && minBet <= currentBet <= playerMoney &&
        playerHand == [] && dealerHand == [] && AbilitiesReset()
    {
      if playerMoney < minBet {
        return true;
      }
      if playerMoney >= WinningMoney {
        return true;
      }
      ghost var ks := StartGame();
      return false;
    }

    /** The reveal of `DealerTurnCoroutine`: the first face-down dealer card is turned up, which
        changes no score. */
    method RevealHoleCard()
      requires Valid()
      modifies this`dealerHand
      ensures Valid()
      ensures dealerHand == RevealFirst(old(dealerHand))
      ensures forall j | 0 <= j < |dealerHand| :: dealerHand[j].hidden ==> old(dealerHand)[j].hidden
      ensures Score(dealerHand) == old(Score(dealerHand)) && Score(playerHand) == old(Score(playerHand))
    {
      StandardHasNoJokers(dealerHand);
      StandardHasNoJokers(playerHand);
      SameCardsSameScore(dealerHand, RevealFirst(dealerHand), currentAceRule,
                         Target(dealerHand, scissorsValueReduction), scissorsValueReduction);
      dealerHand := RevealFirst(dealerHand);
    }

    /** What the dealer's turn decides: the hole card is turned up, then after a player blackjack
        the dealer never draws; with the knife the dealer stands on the cards held; otherwise the
        dealer draws to 17 and the scores are compared. */
    method DealerPlay(playerHasBlackjack: bool) returns (message: Option<Message>, dealerValue: int)
      requires Valid()
      modifies this`dealerHand, this`nextId, this`peekedCard, deck`cards
      ensures Valid()
      ensures message.None? ==> !isKnifeActive && !playerHasBlackjack
      ensures playerHasBlackjack ==>
        dealerValue == old(Score(dealerHand)) && dealerHand == RevealFirst(old(dealerHand)) &&
        message == Some(if dealerValue != 21 then Outcomes.Blackjack else BothBlackjack)
      ensures !playerHasBlackjack && isKnifeActive ==>
        dealerValue == old(Score(dealerHand)) && dealerHand == RevealFirst(old(dealerHand))
      ensures !playerHasBlackjack && message.Some? ==>
        message.value == DetermineWinner(old(Score(playerHand)), dealerValue, dealerWinsTies)
      ensures !playerHasBlackjack && !isKnifeActive && message.Some? ==> dealerValue >= 17
    {
      RevealHoleCard();
      dealerValue := CalculateHandValue(dealerHand);
      var playerValue := CalculateHandValue(playerHand);
      if playerHasBlackjack {
        message := Some(if dealerValue != 21 then Outcomes.Blackjack else BothBlackjack);
        return;
      }
      if !isKnifeActive {
        var ok;
        ok, dealerValue := DealerDraws();
        if !ok {
          return Option.None, dealerValue;
        }
      }
      message := Some(DetermineWinner(playerValue, dealerValue, dealerWinsTies));
    }

    /** `DealerTurnCoroutine`: the hole card is turned up, the dealer plays, and the round ends. */
    method DealerTurn(playerHasBlackjack: bool) returns (step: Step, dealerValue: int, dealerShown: seq<CardInstance>)
      requires Valid()
      modifies this, deck`cards, deck`removedRanks, deck`removedSuits
      ensures Valid()
      ensures step.Ended? || step.Faulted?
      ensures step.Faulted? ==>
        !old(isKnifeActive) && !playerHasBlackjack && isRoundActive == old(isRoundActive) &&
        isActionLocked == old(isActionLocked)
      ensures step.Faulted? ==> dealerHand == dealerShown
      ensures playerHasBlackjack ==>
        dealerValue == old(Score(dealerHand)) && dealerShown == RevealFirst(old(dealerHand)) &&
        step.Ended? && step.message == (if dealerValue != 21 then Outcomes.Blackjack else BothBlackjack)
      ensures !playerHasBlackjack && old(isKnifeActive) ==>
        dealerValue == old(Score(dealerHand)) && dealerShown == RevealFirst(old(dealerHand))
      ensures !playerHasBlackjack && step.Ended? ==>
        step.message == DetermineWinner(old(Score(playerHand)), dealerValue, old(dealerWinsTies))
      ensures !playerHasBlackjack && !old(isKnifeActive) && step.Ended? ==> dealerValue >= 17
      ensures step.Ended? ==> playerMoney == old(playerMoney) + Delta(Announced(step.message), old(currentBet))
      ensures step.Faulted? ==> 
        unchanged(this`triggeredThresholds, this`availableLowEvents, this`availableMediumEvents, this`availableHighEvents,
          this`currentAceRule, this`dealerWinsTies, this`minBet, deck`removedRanks, deck`removedSuits)
      ensures old(triggeredThresholds) <= triggeredThresholds && |triggeredThresholds| <= |old(triggeredThresholds)| + 1
      ensures Distinct(old(triggeredThresholds)) ==> Distinct(triggeredThresholds)
    {
      var message;
      message, dealerValue := DealerPlay(playerHasBlackjack);
      dealerShown := dealerHand;
      if message.None? {
        return Faulted, dealerValue, dealerShown;
      }
      var over := EndGame(message.value);
      step := Ended(message.value, over);
    }

    /** The four deals of `DealRoundCoroutine`: player, dealer face up, player, dealer face down.
        Stops at the first deal that faults. */
    method DealOpening() returns (ok: bool)
      requires Valid()
      modifies this`playerHand, this`dealerHand, this`nextId, this`peekedCard, this`isPrayerBeadsActive, deck`cards
      ensures Valid()
      ensures ok ==>
        |playerHand| == |old(playerHand)| + 2 && playerHand[2..] == old(playerHand) &&
        |dealerHand| == |old(dealerHand)| + 2 && dealerHand[2..] == old(dealerHand) &&
        dealerHand[0].hidden && !dealerHand[1].hidden && !playerHand[0].hidden && !playerHand[1].hidden
    {
      var card;
      ok, card := DealCardToPlayer();
      if !ok {
        return;
      }
      ok := DealCardToDealer(false);
      if !ok {
        return;
      }
      ok, card := DealCardToPlayer();
      if !ok {
        return;
      }
      ok := DealCardToDealer(true);
    }

    /** `DealRoundCoroutine`: the bet is locked in and two cards each are dealt, the dealer's second
        face down. A player blackjack goes straight to the dealer's turn; a player already over 21
        (two Aces under Always11) loses through the bust check. */
    method DealRound() returns (step: Step)
      requires Valid()
      modifies this, deck`cards, deck`removedRanks, deck`removedSuits
      ensures Valid()
      ensures old(isRoundActive || playerMoney < currentBet || isActionLocked) ==>
        step == Ignored && playerMoney == old(playerMoney) && currentBet == old(currentBet) &&
        playerHand == old(playerHand) && dealerHand == old(dealerHand) && isRoundActive == old(isRoundActive)
      ensures step == Continues ==>
        isRoundActive && !isActionLocked && Score(playerHand) < 21 &&
        |playerHand| == |old(playerHand)| + 2 && playerHand[2..] == old(playerHand) &&
        |dealerHand| == |old(dealerHand)| + 2 && dealerHand[2..] == old(dealerHand) &&
        dealerHand[0].hidden && !dealerHand[1].hidden && !playerHand[0].hidden && !playerHand[1].hidden
      ensures step.Faulted? ==> isRoundActive && isActionLocked
      ensures step.Ended? ==>
        step.message in {Outcomes.Blackjack, BothBlackjack, BustChecked} &&
        playerMoney == old(playerMoney) + Delta(Announced(step.message), old(currentBet))
      ensures step == Ignored <==> old(isRoundActive || playerMoney < currentBet || isActionLocked)
      ensures !step.Ended? ==>
        unchanged(this`triggeredThresholds, this`availableLowEvents, this`availableMediumEvents, this`availableHighEvents,
          this`currentAceRule, this`dealerWinsTies, this`minBet, deck`removedRanks, deck`removedSuits)
      ensures old(triggeredThresholds) <= triggeredThresholds && |triggeredThresholds| <= |old(triggeredThresholds)| + 1
      ensures Distinct(old(triggeredThresholds)) ==> Distinct(triggeredThresholds)
    {
      if isRoundActive || playerMoney < currentBet || isActionLocked {
        return Ignored;
      }
      isActionLocked := true;
      isRoundActive := true;
      step := OpenRound();
    }

    /** `DealRoundCoroutine` once the bet is locked in: the four deals, then the end of the opening
        unless a deal faults. */
    method OpenRound() returns (step: Step)
      requires Valid() && isRoundActive && isActionLocked
      modifies this, deck`cards, deck`removedRanks, deck`removedSuits
      ensures Valid()
      ensures step != Ignored
      ensures step == Continues ==>
        isRoundActive && !isActionLocked && Score(playerHand) < 21 &&
        |playerHand| == |old(playerHand)| + 2 && playerHand[2..] == old(playerHand) &&
        |dealerHand| == |old(dealerHand)| + 2 && dealerHand[2..] == old(dealerHand) &&
        dealerHand[0].hidden && !dealerHand[1].hidden && !playerHand[0].hidden && !playerHand[1].hidden
      ensures step.Faulted? ==> isRoundActive && isActionLocked
      ensures step.Ended? ==>
        step.message in {Outcomes.Blackjack, BothBlackjack, BustChecked} &&
        playerMoney == old(playerMoney) + Delta(Announced(step.message), old(currentBet))
      ensures !step.Ended? ==>
        unchanged(this`triggeredThresholds, this`availableLowEvents, this`availableMediumEvents, this`availableHighEvents,
          this`currentAceRule, this`dealerWinsTies, this`minBet, deck`removedRanks, deck`removedSuits)
      ensures old(triggeredThresholds) <= triggeredThresholds && |triggeredThresholds| <= |old(triggeredThresholds)| + 1
      ensures Distinct(old(triggeredThresholds)) ==> Distinct(triggeredThresholds)
    {
      var ok := DealOpening();
      if !ok {
        return Faulted;
      }
      step := AfterOpening();
    }

    /** The end of `DealRoundCoroutine`, once four cards are out: 21 is a blackjack and the dealer
        plays at once; over 21 the bust check ends the round; otherwise the player may act. */
    method AfterOpening() returns (step: Step)
      requires Valid()
      modifies this, deck`cards, deck`removedRanks, deck`removedSuits
      ensures Valid()
      ensures step == Continues ==>
        !isActionLocked && Score(playerHand) < 21 && isRoundActive == old(isRoundActive) &&
        playerHand == old(playerHand) && dealerHand == old(dealerHand)
      ensures step.Ended? || step == Continues
      ensures step.Ended? ==>
        step.message in {Outcomes.Blackjack, BothBlackjack, BustChecked} &&
        (step.message == BustChecked <==> old(Score(playerHand)) > 21)
      ensures step.Ended? ==> playerMoney == old(playerMoney) + Delta(Announced(step.message), old(currentBet))
      ensures step == Continues <==> old(Score(playerHand)) < 21
      ensures step == Continues ==> 
        unchanged(this`triggeredThresholds, this`availableLowEvents, this`availableMediumEvents, this`availableHighEvents,
          this`currentAceRule, this`dealerWinsTies, this`minBet, deck`removedRanks, deck`removedSuits)
      ensures old(triggeredThresholds) <= triggeredThresholds && |triggeredThresholds| <= |old(triggeredThresholds)| + 1
      ensures Distinct(old(triggeredThresholds)) ==> Distinct(triggeredThresholds)
    {
      var playerValue := CalculateHandValue(playerHand);
      if playerValue == 21 {
        var dealerValue, dealerShown;
        step, dealerValue, dealerShown := DealerTurn(true);
      } else if playerValue > 21 {
        var over := EndGame(BustChecked);
        step := Ended(BustChecked, over);
      } else {
        isActionLocked := false;
        step := Continues;
      }
    }

    /** `HitCoroutine`: one more card for the player; seven cards without busting win at once, and a
        player over 21 loses through the bust check. When the deck cannot deal, the hand as it was
        is counted the same way, and only the bust check (which the deal itself starts) is missed. */
    method Hit() returns (step: Step, newCard: Option<Card>, playerValue: int)
      requires Valid()
      modifies this, deck`cards, deck`removedRanks, deck`removedSuits
      ensures Valid()
      ensures old(!isRoundActive || isActionLocked) ==>
        step == Ignored && playerMoney == old(playerMoney) && playerHand == old(playerHand) && dealerHand == old(dealerHand)
      ensures step == Continues ==>
        isRoundActive && !isActionLocked && |playerHand| == |old(playerHand)| + 1 &&
        playerHand[1..] == old(playerHand) && Score(playerHand) <= 21 && |playerHand| != 7
      ensures step.Faulted? ==>
        isRoundActive && newCard.None? && playerHand == old(playerHand) && (isActionLocked <==> playerValue > 21)
      ensures step.Ended? ==>
        step.message in {LuckySeven, BustChecked} &&
        playerMoney == old(playerMoney) + Delta(Announced(step.message), old(currentBet))
      ensures step.Ended? && step.message == LuckySeven ==> |old(playerHand)| == (if newCard.Some? then 6 else 7)
      ensures step == Ignored <==> old(!isRoundActive || isActionLocked)
      ensures step == Ignored ==> newCard.None?
      ensures newCard.Some? ==> step == Continues || step.Ended?
      ensures step != Ignored && newCard.None? ==>
        playerValue == old(Score(playerHand)) &&
        (step.Ended? <==> playerValue <= 21 && |old(playerHand)| == 7) &&
        (step.Ended? ==> step.message == LuckySeven)
      ensures newCard.Some? ==> IsStandard(newCard.value.rank)
      ensures newCard.Some? ==>
        playerValue == old(HandValue([CardInstance(nextId, newCard.value, false)] + playerHand, currentAceRule,
                                     Target(dealerHand, scissorsValueReduction), scissorsValueReduction))
      ensures newCard.Some? ==>
        (step == Continues <==> playerValue <= 21 && |old(playerHand)| != 6) &&
        (step.Ended? && step.message == LuckySeven <==> playerValue <= 21 && |old(playerHand)| == 6) &&
        (step.Ended? && step.message == BustChecked <==> playerValue > 21)
      ensures !step.Ended? ==>
        unchanged(this`triggeredThresholds, this`availableLowEvents, this`availableMediumEvents, this`availableHighEvents,
          this`currentAceRule, this`dealerWinsTies, this`minBet, deck`removedRanks, deck`removedSuits)
      ensures old(triggeredThresholds) <= triggeredThresholds && |triggeredThresholds| <= |old(triggeredThresholds)| + 1
      ensures Distinct(old(triggeredThresholds)) ==> Distinct(triggeredThresholds)
    {
      newCard, playerValue := Option.None, 0;
      if !isRoundActive || isActionLocked {
        return Ignored, newCard, playerValue;
      }
      newCard, playerValue := DealHitCard();
      step := HitOutcome(newCard.Some?, playerValue);
    }

    /** The count of `HitCoroutine` after its deal, which it does not wait on: when the deal threw,
        the count goes on with the hand as it was. Seven cards at 21 or below win; 21 or below
        unlocks the table; over 21 loses through the bust check when a card came, and otherwise
        leaves the table locked. */
    method HitOutcome(dealt: bool, playerValue: int) returns (step: Step)
      requires Valid() && isRoundActive && isActionLocked && playerValue == Score(playerHand)
      modifies this, deck`cards, deck`removedRanks, deck`removedSuits
      ensures Valid()
      ensures step.Ended? ==>
        step.message in {LuckySeven, BustChecked} &&
        playerMoney == old(playerMoney) + Delta(Announced(step.message), old(currentBet))
      ensures step == Continues <==> dealt && playerValue <= 21 && old(|playerHand|) != 7
      ensures step.Ended? && step.message == LuckySeven <==> playerValue <= 21 && old(|playerHand|) == 7
      ensures step.Ended? && step.message == BustChecked <==> dealt && playerValue > 21
      ensures step.Faulted? <==> !dealt && !(playerValue <= 21 && old(|playerHand|) == 7)
      ensures !step.Ended? ==>
        isRoundActive && playerHand == old(playerHand) && Score(playerHand) == playerValue &&
        (isActionLocked <==> playerValue > 21)
      ensures !step.Ended? ==>
        unchanged(this`triggeredThresholds, this`availableLowEvents, this`availableMediumEvents, this`availableHighEvents,
          this`currentAceRule, this`dealerWinsTies, this`minBet, deck`removedRanks, deck`removedSuits)
      ensures old(triggeredThresholds) <= triggeredThresholds && |triggeredThresholds| <= |old(triggeredThresholds)| + 1
      ensures Distinct(old(triggeredThresholds)) ==> Distinct(triggeredThresholds)
    {
      if |playerHand| == 7 && playerValue <= 21 {
        var over := EndGame(LuckySeven);
        step := Ended(LuckySeven, over);
      } else if playerValue <= 21 {
        isActionLocked := false;
        step := if dealt then Continues else Faulted;
      } else if dealt {
        var over := EndGame(BustChecked);
        step := Ended(BustChecked, over);
      } else {
        step := Faulted;
      }
    }

    /** The lock, the deal and the count of `HitCoroutine`: a face-up card in front of the player's
        hand and the new score, or the hand as it was when the deck cannot deal. */
    method DealHitCard() returns (newCard: Option<Card>, playerValue: int)
      requires Valid()
      modifies this`isActionLocked, this`playerHand, this`nextId, this`peekedCard, this`isPrayerBeadsActive, deck`cards
      ensures Valid() && isActionLocked && playerValue == Score(playerHand)
      ensures newCard.None? ==> playerHand == old(playerHand) && playerValue == old(Score(playerHand))
      ensures newCard.Some? ==>
        IsStandard(newCard.value.rank) && nextId == old(nextId) + 1 &&
        playerHand == [CardInstance(old(nextId), newCard.value, false)] + old(playerHand) &&
        playerValue == old(HandValue([CardInstance(nextId, newCard.value, false)] + playerHand, currentAceRule,
                                     Target(dealerHand, scissorsValueReduction), scissorsValueReduction))
    {
      isActionLocked := true;
      var ok;
      ok, newCard := DealCardToPlayer();
      if ok {
        assert playerHand[0] == CardInstance(old(nextId), newCard.value, false);
        assert playerHand == [playerHand[0]] + playerHand[1..];
      }
      playerValue := CalculateHandValue(playerHand);
    }

    /** `StandCoroutine`: the dealer plays out the round. */
    method Stand() returns (step: Step, dealerValue: int, dealerShown: seq<CardInstance>)
      requires Valid()
      modifies this, deck`cards, deck`removedRanks, deck`removedSuits
      ensures Valid()
      ensures old(!isRoundActive || isActionLocked) ==>
        step == Ignored && playerMoney == old(playerMoney) && playerHand == old(playerHand) && dealerHand == old(dealerHand)
      ensures step.Ended? ==>
        playerMoney == old(playerMoney) + Delta(Announced(step.message), old(currentBet))
      ensures step == Ignored <==> old(!isRoundActive || isActionLocked)
      ensures step != Ignored ==> step.Ended? || step.Faulted?
      ensures step.Faulted? ==> !old(isKnifeActive) && isRoundActive && isActionLocked
      ensures step != Ignored && old(isKnifeActive) ==>
        dealerValue == old(Score(dealerHand)) && dealerShown == RevealFirst(old(dealerHand))
      ensures step.Ended? ==> step.message == DetermineWinner(old(Score(playerHand)), dealerValue, old(dealerWinsTies))
      ensures step.Ended? && !old(isKnifeActive) ==> dealerValue >= 17
      ensures !step.Ended? ==>
        unchanged(this`triggeredThresholds, this`availableLowEvents, this`availableMediumEvents, this`availableHighEvents,
          this`currentAceRule, this`dealerWinsTies, this`minBet, deck`removedRanks, deck`removedSuits)
      ensures old(triggeredThresholds) <= triggeredThresholds && |triggeredThresholds| <= |old(triggeredThresholds)| + 1
      ensures Distinct(old(triggeredThresholds)) ==> Distinct(triggeredThresholds)
    {
      dealerValue, dealerShown := 0, dealerHand;
      if !isRoundActive || isActionLocked {
        return Ignored, dealerValue, dealerShown;
      }
      isActionLocked := true;
      step, dealerValue, dealerShown := DealerTurn(false);
    }
  }
}
