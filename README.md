# Second-Dealing rules engine in Dafny

This project models the rules engine of Second-Dealing, a single-player blackjack game, and
proves properties of that model. The game adds one-shot abilities and money-triggered events that
change the house rules for the rest of a session. The game itself is C#. The model covers:

- `Cards` (cards.dfy): the `Card` value and `GetValue`.
- `Decks` (decks.dfy): the `Deck` class. It holds the deck's list of cards, the ranks and suits
  removed from it, and the Joker flag. Its methods are the filtered rebuild, the Fisher-Yates
  shuffle, dealing with automatic refill, peeking, dealing a card of a given rank, and the three
  permanent changes to the composition. The shuffle takes its random draws from an oracle.
- `Scoring` (scoring.dfy): hand values under the three Ace rules, with the scissors reduction.
  A hand is a sequence of card instances. Each instance carries an identity, so "the same card
  object" can be stated.
- `Betting` (betting.dfy): the bet arithmetic of both engines.
- `Outcomes` (outcomes.dfy): the result messages, the substring test that pays them out, and
  `DetermineWinner`.
- `Events` (events.dfy): the rule-changing events and the money thresholds that fire them.
- `Round` (round.dfy): the main engine, `BlackjackGame` in `Assets/Scripts/Blackjack`, as a
  class. Each coroutine of the source is a method that runs all of its steps at once. The
  covered logic is betting, the four abilities, the prayer-beads deal, the dealer's turn with
  the knife, the payout and the end-of-session check, and the event check.
- `Legacy` (legacy.dfy): the older, self-contained `BlackjackGame` in `Assets/Scripts`. It has
  its own card and deck, always scores Aces the flexible way, never gives the dealer a tie, and
  clamps bets differently.
- `Options` (options.dfy): `Option`, plus `Random.Range`. Its result is any value in the range,
  so every proof holds for every random choice.

The code behaves in these ways, which a reader may not expect:

- Deck.cs uses a `Joker` rank that the `Card.Rank` enum of Card.cs does not declare. The model's
  `Rank` has `Joker` as value 14. `GetValue` and scoring require that no card is a Joker, because
  no code defines a Joker's value.
- The main engine starts a round whenever the money covers the bet, without checking the minimum
  bet. Only the legacy engine checks it.
- The event check records a threshold as fired even when its event pool is empty.
- The legacy `EndGame` requests the scene reload and then still starts a new hand.
- `EndGame` can emit ten result messages. The tenth is the bust check's "Bust! You lose.".

## Model

| member | source | states |
|---|---|---|
| Cards.Card.GetValue | Assets/Scripts/Blackjack/Card.cs:10-16 | Ten to King are worth 10, an Ace 11, None 0, Two to Nine their ordinal; every rank from Ace to King is worth 2 to 11 |
| Cards.RankValue | Assets/Scripts/Blackjack/Card.cs:10-16 | the value of a card depends only on its rank, never on its suit |
| Decks.Added | Assets/Scripts/Blackjack/Deck.cs:116-130 | inserting into a removal list adds exactly the new element, keeps it free of repetitions, and leaves a list that already holds the element as it was |
| Decks.AddedIdempotent | Assets/Scripts/Blackjack/Deck.cs:116-130 | adding the same rank or suit twice gives the list that adding it once gives |
| Decks.CardAt | Assets/Scripts/Blackjack/Deck.cs:19-44 | the model numbers 60 slots (14 per suit, then 4 Jokers), including one `None` slot per suit that no rebuild fills, since the source's loops visit only Ace..King and the four Jokers; each slot holds exactly one card, and that card's position is the slot |
| Decks.CompositionShape | Assets/Scripts/Blackjack/Deck.cs:17-45 | after a rebuild a card is in the deck iff its suit is not removed and it is an unremoved rank from Ace to King, or a Joker when Jokers are on (Jokers are filtered by suit only); the cards are in suit-major enum order, Jokers last, and each appears exactly once |
| Decks.CompositionWellFormed | Assets/Scripts/Blackjack/Deck.cs:17-45 | a fresh rebuild satisfies the deck invariant |
| Decks.WellFormedIffSubComposition | Assets/Scripts/Blackjack/Deck.cs:17-141 | a deck meets the invariant (no card twice, only allowed cards) iff it is a sub-multiset of a fresh rebuild |
| Decks.SubcollectionWellFormed | Assets/Scripts/Blackjack/Deck.cs:64-114 | removing cards from a well-formed deck keeps it well-formed |
| Decks.FullPack | Assets/Scripts/BlackjackGame.cs:53-66 | with nothing removed and no Jokers the rebuild holds 52 cards |
| Decks.ShufflePermutes | Assets/Scripts/Blackjack/Deck.cs:47-62 | for every sequence of draws with `0 <= k <= n`, the swaps leave the length and the multiset of cards unchanged |
| Decks.IndexOfRank | Assets/Scripts/Blackjack/Deck.cs:95-104 | the position found is the first card of the rank, or the length when no card has it |
| Decks.RemoveAt | Assets/Scripts/Blackjack/Deck.cs:106-110 | removing one position takes exactly that card out of the multiset and shortens the list by one |
| Decks.Deck.constructor | Assets/Scripts/Blackjack/Deck.cs:12-15 | a new deck has no removals, no Jokers and holds a fresh rebuild |
| Decks.Deck.InitializeDeck | Assets/Scripts/Blackjack/Deck.cs:17-45 | the cards become exactly the filtered composition, and the invariant holds |
| Decks.Deck.Shuffle | Assets/Scripts/Blackjack/Deck.cs:47-62 | the new order is the old cards permuted by the recorded draws; same multiset; the invariant is kept |
| Decks.Deck.Refill | Assets/Scripts/Blackjack/Deck.cs:66-71 | an empty deck is refilled with a permutation of the filtered composition |
| Decks.Deck.DealCard | Assets/Scripts/Blackjack/Deck.cs:64-78 | a non-empty deck deals its old top card and keeps exactly the rest; an empty deck is refilled first, and dealing fails iff the composition is empty; a dealt card is always one the removals allow |
| Decks.Deck.PeekCard | Assets/Scripts/Blackjack/Deck.cs:81-86 | none iff the deck is empty, otherwise the top card; the deck is not in the frame, so it cannot change |
| Decks.Deck.FindRank | Assets/Scripts/Blackjack/Deck.cs:89-101 | the search returns the first card of the rank and its index, or none and -1 |
| Decks.Deck.DealSpecificCard | Assets/Scripts/Blackjack/Deck.cs:89-114 | the first card of the rank is returned and only its position is removed, so the rest keep their order; an absent rank leaves the deck unchanged |
| Decks.Deck.AddRemovedRank | Assets/Scripts/Blackjack/Deck.cs:116-122 | the rank joins the removal list without repetition; the deck becomes a shuffle of the new composition |
| Decks.Deck.AddRemovedSuit | Assets/Scripts/Blackjack/Deck.cs:124-130 | the suit joins the removal list without repetition; the deck becomes a shuffle of the new composition |
| Decks.Deck.AddJokersToDeck | Assets/Scripts/Blackjack/Deck.cs:132-141 | Jokers are on afterwards; with Jokers already on nothing changes (no rebuild, no shuffle); otherwise the deck is a shuffle of the composition with Jokers |
| Decks.RemoveRankTwiceIsOnce | Assets/Scripts/Blackjack/Deck.cs:116-122 | removing a rank twice leaves the same removal list and the same deck contents as removing it once, whatever the draws of either shuffle |
| Decks.RemoveSuitTwiceIsOnce | Assets/Scripts/Blackjack/Deck.cs:124-130 | the same for a suit |
| Scoring.CardPoints | Assets/Scripts/Blackjack/BlackjackGame.cs:328-344 | an Ace counts 1 under Always1 and 11 otherwise; every other card counts its `GetValue` |
| Scoring.LowPoints | Assets/Scripts/Blackjack/BlackjackGame.cs:328-344 | with Aces as 1, every card of the pack counts 1 to 10 |
| Scoring.Target | Assets/Scripts/Blackjack/BlackjackGame.cs:315-320 | a card is targeted iff the reduction is positive and the dealer holds two cards; the target is the identity of `dealerHand[1]` |
| Scoring.Demote | Assets/Scripts/Blackjack/BlackjackGame.cs:355-362 | the demotion loop takes 10 off per Ace at most once each; it stops at 21 or below, or with every Ace demoted; it never takes a total to 11 or below |
| Scoring.ScissorsReduction | Assets/Scripts/Blackjack/BlackjackGame.cs:222-225 | the reduction `v - ceil(v/2)` equals `v div 2` |
| Scoring.ScissorsReductionOfCards | Assets/Scripts/Blackjack/BlackjackGame.cs:220-225 | for a card of the pack the reduction is 1 to 5, and 5 for an Ace or a ten-valued card |
| Scoring.RawTotalDecomposed | Assets/Scripts/Blackjack/BlackjackGame.cs:322-352 | the summing loop's total is the Aces-as-1 sum, plus 10 per Ace unless the rule is Always1, less the reduction for each targeted card |
| Scoring.ReductionAppliesOnce | Assets/Scripts/Blackjack/BlackjackGame.cs:346-349 | in a hand of distinct instances the reduction applies once if the targeted instance is in the hand, otherwise not at all |
| Scoring.SameCardsSameScore | Assets/Scripts/Blackjack/BlackjackGame.cs:310-365 | turning cards face up or down never changes a score |
| Scoring.ScoreOfEmptyHand | Assets/Scripts/Blackjack/BlackjackGame.cs:310-365 | an empty hand scores 0 |
| Scoring.FixedRuleScore | Assets/Scripts/Blackjack/BlackjackGame.cs:355-364 | under Always1 or Always11 the score is the plain sum, with no demotion |
| Scoring.FlexibleBustDemotesAll | Assets/Scripts/Blackjack/BlackjackGame.cs:355-362 | a Flexible score above 21 means every Ace was demoted: it is the Aces-as-1 sum less the reduction |
| Scoring.DemoteIsBest | Assets/Scripts/Blackjack/BlackjackGame.cs:355-362 | no other number of demoted Aces gives a total that is higher and still at most 21 |
| Scoring.FlexibleIsBest | Assets/Scripts/Blackjack/BlackjackGame.cs:355-362 | the Flexible score is the best hand value that is not bust |
| Scoring.ScoreAtLeastLowTotal | Assets/Scripts/Blackjack/BlackjackGame.cs:310-365 | under every rule a score is at least the Aces-as-1 sum less one reduction |
| Scoring.LowTotalPrepend | Assets/Scripts/Blackjack/BlackjackGame.cs:500 | a prepended card adds its Aces-as-1 points to the Aces-as-1 sum |
| Scoring.DealerReductionOnce | Assets/Scripts/Blackjack/BlackjackGame.cs:315-349 | the dealer's own hand loses the reduction exactly once |
| Scoring.UntargetedHand | Assets/Scripts/Blackjack/BlackjackGame.cs:346-349 | a hand without the targeted instance (the player's) scores as if no card were targeted |
| Scoring.TargetedAceUnderAlways1 | Assets/Scripts/Blackjack/BlackjackGame.cs:330-349 | a targeted Ace under Always1 counts 1 less the reduction, so it can count negative |
| Scoring.ExampleHands | Assets/Scripts/Blackjack/BlackjackGame.cs:310-365 | Ace and King score 21 under Flexible and 11 under Always1; two Aces and a Nine score 21 under Flexible and 31 under Always11 |
| Betting.IncreasedBet | Assets/Scripts/Blackjack/BlackjackGame.cs:167-185 | a bet below the money rises by at most one step and never above the money; a bet at or above the money stays |
| Betting.DecreasedBet | Assets/Scripts/Blackjack/BlackjackGame.cs:187-201 | the bet falls one step at most and is never left below the minimum |
| Betting.BetAfterNewMinimum | Assets/Scripts/Blackjack/BlackjackGame.cs:279-286 | after the minimum rises the bet is at least the new minimum and at least the old bet, and one of the two |
| Betting.BetAfterLoss | Assets/Scripts/Blackjack/BlackjackGame.cs:989-998 | after a loss the bet is at most the money, and at least the minimum when the money covers it |
| Betting.StartingBet | Assets/Scripts/Blackjack/BlackjackGame.cs:408-410 | a player who can cover the minimum bets between the minimum and the money, keeping a bet already in range; a player who cannot bets all their money |
| Betting.LegacyIncreasedBet | Assets/Scripts/BlackjackGame.cs:294-310 | the bet becomes one step more or the money, whichever is less, so a bet above the money is cut down |
| Betting.LegacyStartingBet | Assets/Scripts/BlackjackGame.cs:490-503 | the three clamps in turn give the main engine's range |
| Betting.StartingBetsAgree | Assets/Scripts/BlackjackGame.cs:490-503 | the legacy clamps and the main engine's `else if` chain give the same bet on every input |
| Betting.IncreasedBetsAgree | Assets/Scripts/BlackjackGame.cs:294-310 | the two engines raise a bet below the money alike |
| Betting.DecreaseUndoesIncrease | Assets/Scripts/Blackjack/BlackjackGame.cs:167-201 | lowering the bet undoes raising it by a full step |
| Outcomes.ClassifyAgrees | Assets/Scripts/Blackjack/BlackjackGame.cs:950-964 | for each of the ten messages, the `Contains` tests pay out what the message announces: a win, a tie or a loss |
| Outcomes.DetermineWinner | Assets/Scripts/Blackjack/BlackjackGame.cs:930-944 | the player wins iff not bust and the dealer busts or scores lower; a tie iff equal non-bust scores and ties are not the dealer's; equal non-bust scores go to the dealer iff the rule says so |
| Events.FirstDue | Assets/Scripts/Blackjack/BlackjackGame.cs:511-519 | the threshold picked is one that the money reaches and that has not fired, and no earlier threshold qualifies; none is picked iff none qualifies |
| Events.ScanFindsFirstDue | Assets/Scripts/Blackjack/BlackjackGame.cs:511-519 | a scan that stops at the first qualifying threshold finds the first one due |
| Events.FiresOnce | Assets/Scripts/Blackjack/BlackjackGame.cs:521-523 | a recorded threshold is never due again, whatever the money |
| Events.RecordingAdvances | Assets/Scripts/Blackjack/BlackjackGame.cs:511-523 | at the same money, the next threshold picked after recording comes later in the list |
| Round.IndexOfHidden | Assets/Scripts/Blackjack/BlackjackGame.cs:862 | the position found is the first face-down card, or the length |
| Round.RevealFirst | Assets/Scripts/Blackjack/BlackjackGame.cs:862-868 | the same card instances, with the first face-down card turned up and no card turned down |
| Round.NewDeck | Assets/Scripts/Blackjack/BlackjackGame.cs:107 | the game's deck starts as a fresh rebuild without Jokers |
| Round.BlackjackGame.constructor | Assets/Scripts/Blackjack/BlackjackGame.cs:105-116 | the game starts with 500 money, a bet and minimum of 100, Flexible Aces, no dealer ties, copies of the event pools, an empty table and every ability available |
| Round.BlackjackGame.CalculateHandValue | Assets/Scripts/Blackjack/BlackjackGame.cs:310-365 | the summing loop and the demotion loop compute the hand's score under the current Ace rule and reduction |
| Round.BlackjackGame.IncreaseBet | Assets/Scripts/Blackjack/BlackjackGame.cs:167-185 | no change while a round is active; otherwise the bet follows `IncreasedBet` |
| Round.BlackjackGame.DecreaseBet | Assets/Scripts/Blackjack/BlackjackGame.cs:187-201 | no change while a round is active; otherwise the bet follows `DecreasedBet` |
| Round.BlackjackGame.IncreaseMinimumBet | Assets/Scripts/Blackjack/BlackjackGame.cs:279-286 | the minimum rises by the amount and the bet follows it |
| Round.BlackjackGame.LoseAmount | Assets/Scripts/Blackjack/BlackjackGame.cs:989-998 | the money falls by the amount and the bet is clamped by `BetAfterLoss` |
| Round.BlackjackGame.ClearTable | Assets/Scripts/Blackjack/BlackjackGame.cs:141-158 | both hands and the peeked card leave the table |
| Round.BlackjackGame.ResetAbilities | Assets/Scripts/Blackjack/BlackjackGame.cs:395-402 | every ability is available again, none is in effect, and the reduction is 0 |
| Round.BlackjackGame.StartGame | Assets/Scripts/Blackjack/BlackjackGame.cs:382-413 | the table is clear, the deck holds a permutation of its cards, no round is active or locked, the abilities are reset and the bet follows `StartingBet` |
| Round.BlackjackGame.EndRound | Assets/Scripts/Blackjack/BlackjackGame.cs:392-393 | no round is active and input is unlocked |
| Round.BlackjackGame.ClampBet | Assets/Scripts/Blackjack/BlackjackGame.cs:408-410 | the bet follows `StartingBet` |
| Round.BlackjackGame.ActivateKnife | Assets/Scripts/Blackjack/BlackjackGame.cs:204-210 | with a round active, the knife unused and still available, the knife takes effect and is used up; otherwise nothing changes |
| Round.BlackjackGame.ActivateScissors | Assets/Scripts/Blackjack/BlackjackGame.cs:212-230 | with a round active, the scissors available, the player at 21 or below and two dealer cards, the reduction becomes `ScissorsReduction` of `dealerHand[1]` and the scissors are used up; otherwise nothing changes |
| Round.BlackjackGame.ActivatePrayerBeads | Assets/Scripts/Blackjack/BlackjackGame.cs:232-240 | with a round active, the beads unused and available, and the player at 21 or below, the beads take effect and are used up; otherwise nothing changes |
| Round.BlackjackGame.ActivateSunglasses | Assets/Scripts/Blackjack/BlackjackGame.cs:242-275 | with a round active, the sunglasses available, no card peeked, the player at 21 or below and a card in the deck, the top card is shown and the sunglasses are used up; otherwise nothing changes; the deck never changes |
| Round.BlackjackGame.RemoveRankFromDeck | Assets/Scripts/Blackjack/BlackjackGame.cs:288-291 | the rank is removed for good and the deck is reshuffled from the new composition |
| Round.BlackjackGame.RemoveSuitFromDeck | Assets/Scripts/Blackjack/BlackjackGame.cs:293-296 | the suit is removed for good and the deck is reshuffled from the new composition |
| Round.BlackjackGame.SetAceRule | Assets/Scripts/Blackjack/BlackjackGame.cs:298-301 | the Ace rule becomes the one given |
| Round.BlackjackGame.SetDealerWinsTies | Assets/Scripts/Blackjack/BlackjackGame.cs:303-306 | the tie rule becomes the one given |
| Round.BlackjackGame.Apply | Assets/Scripts/Blackjack/Events/AceRuleEvent.cs:8-11 | each event changes exactly the rule its setter changes and leaves the others; rank and suit removals leave the deck a permutation of the new composition |
| Round.BlackjackGame.FindThreshold | Assets/Scripts/Blackjack/BlackjackGame.cs:509-519 | the scan picks `FirstDue` |
| Round.BlackjackGame.DrawEvent | Assets/Scripts/Blackjack/BlackjackGame.cs:525-554 | an event is applied iff the pool of the severity is not empty; the applied event is the one at the random position, that pool loses exactly it, and the other pools are unchanged; with an empty pool nothing changes |
| Round.BlackjackGame.TakeFromPool | Assets/Scripts/Blackjack/BlackjackGame.cs:549 | the pool of the severity loses the element at the position and no other pool changes |
| Round.BlackjackGame.CheckForEventTrigger | Assets/Scripts/Blackjack/BlackjackGame.cs:507-556 | at most one threshold fires, the first due one; it is recorded even if its pool is empty; an event is applied iff that pool is not empty, it leaves its pool and the other two pools are unchanged; when no event is applied no pool, rule, bet or deck changes; when no threshold is due nothing of the event state changes |
| Round.BlackjackGame.SearchPrayerCard | Assets/Scripts/Blackjack/BlackjackGame.cs:649-675 | a card found is the first of its rank in the deck and exactly it leaves; its value is at most the search bound; no higher searched value was in the deck; for value 10, Ten, Jack, Queen and King are probed in order; when nothing is found the deck is unchanged and no searched rank was in it |
| Round.BlackjackGame.DrawForPlayer | Assets/Scripts/Blackjack/BlackjackGame.cs:629-688 | the peeked card is discarded and the beads are cleared; without them `DealCard` decides the card; with them `PrayerDraw` does: the highest searched value up to the bound that the deck holds (no higher one was there, Ten before Jack, Queen, King), else the first Ace, else `DealCard`; a card comes unless even a rebuilt deck is empty |
| Round.BlackjackGame.DrawUnderPrayerBeads | Assets/Scripts/Blackjack/BlackjackGame.cs:650-682 | the search, the Ace and the top card fall back on each other as `PrayerDraw` states, and each card taken out is the first of its rank |
| Round.BlackjackGame.DealCardToPlayer | Assets/Scripts/Blackjack/BlackjackGame.cs:627-718 | the peeked card is discarded; the drawn card, chosen as `DrawForPlayer` states (`DealsTop` or `PrayerDraw`), goes face up, as a new instance, in front of the player's hand |
| Round.BlackjackGame.DealCardToDealer | Assets/Scripts/Blackjack/BlackjackGame.cs:720-761 | the peeked card is discarded; the top card goes in front of the dealer's hand as a new instance, face down if asked |
| Round.BlackjackGame.DealerHit | Assets/Scripts/Blackjack/BlackjackGame.cs:902-911 | one pass of the dealer's loop prepends a card and strictly raises the Aces-as-1 sum, which is below 17 plus the reduction on entry |
| Round.BlackjackGame.DealerDraws | Assets/Scripts/Blackjack/BlackjackGame.cs:902-911 | the loop ends; the dealer finishes at 17 or more; a dealer already at 17 draws nothing |
| Round.BlackjackGame.Settle | Assets/Scripts/Blackjack/BlackjackGame.cs:946-968 | the round ends, the money changes by +bet, 0 or -bet as the message announces, and input is unlocked |
| Round.BlackjackGame.EndGame | Assets/Scripts/Blackjack/BlackjackGame.cs:946-987 | the payout is made; the fired thresholds grow by exactly the `FirstDue` pick at the new money, so they stay free of repeats, and with none due the event state is unchanged; the session ends iff the money is below the minimum or at least 10000; otherwise a new hand starts with the bet between the minimum and the money |
| Round.BlackjackGame.FinishSession | Assets/Scripts/Blackjack/BlackjackGame.cs:972-986 | the session ends iff the money is below the minimum or at least 10000; otherwise `StartGame` runs; the event state is untouched |
| Round.BlackjackGame.RevealHoleCard | Assets/Scripts/Blackjack/BlackjackGame.cs:862-874 | the first face-down dealer card is turned up, which changes neither score |
| Round.BlackjackGame.DealerPlay | Assets/Scripts/Blackjack/BlackjackGame.cs:856-927 | after a player blackjack the dealer never draws (the hand is the old one with the hole card turned up), and a dealer 21 is a tie while anything else is a blackjack win; with the knife the dealer keeps the cards held; otherwise the dealer ends at 17 or more; the result is `DetermineWinner` |
| Round.BlackjackGame.DealerTurn | Assets/Scripts/Blackjack/BlackjackGame.cs:856-928 | the dealer's turn ends the round with the `DealerPlay` result and its payout; after a player blackjack, and with the knife, the dealer's hand as the turn ends is the old one with the hole card turned up; a fault leaves the lock and the event state as they were; the fired thresholds grow by at most one and stay free of repeats |
| Round.BlackjackGame.DealOpening | Assets/Scripts/Blackjack/BlackjackGame.cs:428-431 | two face-up cards for the player, and for the dealer one face up and then one face down in front |
| Round.BlackjackGame.DealRound | Assets/Scripts/Blackjack/BlackjackGame.cs:416-453 | the call is ignored iff a round is active, input is locked, or the money does not cover the bet; otherwise four cards are dealt, and a blackjack or a bust ends the round with its payout, or the player may act with less than 21; the event state changes only when the round ends |
| Round.BlackjackGame.OpenRound | Assets/Scripts/Blackjack/BlackjackGame.cs:422-452 | once the bet is locked in the call is never ignored: it faults on an empty rebuild, ends the round, or leaves the player to act below 21 with the event state unchanged |
| Round.BlackjackGame.AfterOpening | Assets/Scripts/Blackjack/BlackjackGame.cs:439-452 | 21 gives the dealer's turn at once; the bust check ends the round iff the score is over 21; the player may act, with the event state unchanged, iff the score is below 21 |
| Round.BlackjackGame.Hit | Assets/Scripts/Blackjack/BlackjackGame.cs:809-839 | the call is ignored iff no round is active or input is locked; with a card, the score of the new hand decides: Lucky 7 iff a seventh card at 21 or below, the bust check iff over 21, the player acts again iff neither; with no card the old hand is scored the same way: Lucky 7 iff seven cards at 21 or below, otherwise a fault that keeps the hand and unlocks the table iff the score is 21 or below; the event state changes only when the round ends |
| Round.BlackjackGame.HitOutcome | Assets/Scripts/Blackjack/BlackjackGame.cs:827-838 | seven cards at 21 or below win; otherwise 21 or below unlocks the table; over 21 goes to the bust check only when a card came, and the table stays locked otherwise; any step but an ending keeps the hand, its score and the event state |
| Round.BlackjackGame.DealHitCard | Assets/Scripts/Blackjack/BlackjackGame.cs:812-829 | input is locked; the card goes face up in front of the player's hand and the value returned is the new hand's score, or the hand and its score are unchanged when no card comes |
| Round.BlackjackGame.Stand | Assets/Scripts/Blackjack/BlackjackGame.cs:841-854 | the call is ignored iff no round is active or input is locked; otherwise the dealer's turn ends the round with `DetermineWinner` of the two scores and its payout, or faults on an empty rebuild when the knife is off, with the table still locked; with the knife the dealer's final hand is the old one with the hole card turned up |
| Legacy.LegacyDetermineWinner | Assets/Scripts/BlackjackGame.cs:980-1002 | the player wins iff not bust and the dealer busts or scores lower; equal non-bust scores are always a tie |
| Legacy.WinnerIsMainWithoutTieRule | Assets/Scripts/BlackjackGame.cs:980-1002 | the legacy outcome is the main engine's with the dealer-wins-ties rule off |
| Legacy.OpeningHandNeverBusts | Assets/Scripts/BlackjackGame.cs:406-447 | under flexible Aces two cards of the pack never score over 21 |
| Legacy.NewFullDeck | Assets/Scripts/BlackjackGame.cs:48-66 | the nested deck is built as the full 52-card pack, and every rebuild restores it |
| Legacy.BlackjackGame.constructor | Assets/Scripts/BlackjackGame.cs:219-226 | the game starts with 500 money, a bet of 100 and an empty table |
| Legacy.BlackjackGame.CalculateHandValue | Assets/Scripts/BlackjackGame.cs:406-447 | every Ace counts 11 and is demoted by 10 while the total is over 21, with the reduction on `dealerHand[1]` once |
| Legacy.BlackjackGame.IncreaseBet | Assets/Scripts/BlackjackGame.cs:294-310 | no change while a round is active; otherwise the bet follows `LegacyIncreasedBet` |
| Legacy.BlackjackGame.DecreaseBet | Assets/Scripts/BlackjackGame.cs:312-327 | no change while a round is active; otherwise the bet follows `DecreasedBet` with the fixed minimum |
| Legacy.BlackjackGame.LoseAmount | Assets/Scripts/BlackjackGame.cs:1032-1035 | the money falls by the amount and the bet is left alone |
| Legacy.BlackjackGame.ClearTable | Assets/Scripts/BlackjackGame.cs:265-285 | both hands leave the table |
| Legacy.BlackjackGame.ResetRound | Assets/Scripts/BlackjackGame.cs:474-481 | no round is active, input is unlocked and the reduction is 0 |
| Legacy.BlackjackGame.ClampBet | Assets/Scripts/BlackjackGame.cs:490-503 | the bet follows `LegacyStartingBet` |
| Legacy.BlackjackGame.StartGame | Assets/Scripts/BlackjackGame.cs:464-506 | the table is clear, the deck holds a permutation of its cards, the round is reset and the bet follows `LegacyStartingBet` |
| Legacy.BlackjackGame.DealCardToPlayer | Assets/Scripts/BlackjackGame.cs:670-767 | a card always comes, face up, in front of the player's hand, and it is the top card when the deck is not empty |
| Legacy.BlackjackGame.DealCardToDealer | Assets/Scripts/BlackjackGame.cs:769-810 | a card always comes, face up or down, in front of the dealer's hand, and it is the top card when the deck is not empty |
| Legacy.BlackjackGame.DealOpening | Assets/Scripts/BlackjackGame.cs:521-524 | two face-up cards for the player, and for the dealer one face up and one face down in front |
| Legacy.BlackjackGame.Settle | Assets/Scripts/BlackjackGame.cs:1004-1023 | the round ends, the money changes by +bet, 0 or -bet as the message announces, and input is unlocked |
| Legacy.BlackjackGame.EndGame | Assets/Scripts/BlackjackGame.cs:1004-1030 | the payout is made; the session ends iff the money is below the minimum or at least 10000; a new hand starts in either case |
| Legacy.BlackjackGame.RevealHoleCard | Assets/Scripts/BlackjackGame.cs:912-924 | the first face-down dealer card is turned up, which changes no score |
| Legacy.BlackjackGame.BlackjackFinish | Assets/Scripts/BlackjackGame.cs:905-944 | after a player blackjack the dealer never draws; a dealer 21 is a tie and anything else a blackjack win, paid out |
| Legacy.BlackjackGame.DealRound | Assets/Scripts/BlackjackGame.cs:509-549 | a round starts iff none is active, the bet reaches the minimum, the money covers the bet and input is unlocked; two cards never bust, so a blackjack ends the round with its payout and anything else lets the player act |
| Legacy.BlackjackGame.AfterOpening | Assets/Scripts/BlackjackGame.cs:532-548 | 21 gives the dealer's blackjack turn at once; anything less unlocks the table |

## Left out

- Rendering, animation, audio, tooltips, camera and shop UI are left out. They are float
  transforms and Unity objects that hold no game rule.
- Prefab lookup failures in `DealCardInstance` are left out. They return null only when a Unity
  asset is missing.
- Coroutine timing (`WaitForSeconds`) is left out. Each coroutine runs all of its steps in one
  method.
- Keyboard polling in `Update` is left out. Its only rule content is the guards, which the
  methods check themselves.
- The bust check's hand-off through `UpdateUI` becomes a direct `EndGame` call with the bust
  message.
- `Hit`, `Stand` and `DealCardToPlayer` return the card dealt and the scores computed, which
  the source keeps in local variables, so that their contracts can name them. `Stand` and
  `DealerTurn` also return the dealer's hand as the turn ends, before the next hand clears it.
- `SceneManager.LoadSceneAsync` is returned as the `sessionOver` flag instead of loading a scene.
- An exception from an empty rebuilt deck is returned as `Faulted`. In the deals a coroutine
  waits on (the opening deals of `DealRoundCoroutine` and the dealer's drawing loop) the round
  stays locked, as it does when the coroutine dies. `HitCoroutine` does not wait on its deal, so
  `Hit` goes on counting the unchanged hand and unlocks the table at 21 or below.
- The events for rank multipliers, alternate blackjack values and adding Jokers are left out.
  They call engine methods (`SetRankMultiplier`, `SetAlternateBlackjackValue`, `AddJokers`) that
  do not exist in the main engine. `Decks.Deck.AddJokersToDeck` itself is modelled, and the
  main engine's deck never holds Jokers.
- The random choice of an event and the shuffle's swaps are oracle values. Uniformity is left
  out.
- Threshold identity is modelled by position in the threshold list. The source compares
  `EventThreshold` object references.
- The scissors value computed and then discarded inside `HitCoroutine` is left out, because it
  has no effect.
- The `continue` for the values 11 and 1 in the prayer-beads loop is left out. The loop only
  visits the values 2 to 10.
- `Round.BlackjackGame.DealerDraws`: it states that the dealer's hand only grows and ends at 17 or
  more. It does not state that the cards held before keep their places.
- `Decks.Deck.DealCard`: after a refill it states that the remaining cards and the dealt card
  make up the composition. It does not state which card the shuffle put on top.
- `Round.BlackjackGame.constructor`: it states that the deck holds the fresh composition. The
  empty removal lists it starts with are stated by the `Decks.Deck` constructor and are not
  repeated.
- `Legacy.BlackjackGame.CalculateHandValue`: the legacy engine's abilities (the knife, scissors,
  prayer beads and sunglasses) are left out, so the scissors reduction stays 0 after every new
  hand.
- The legacy prayer-beads deal is left out along with the legacy abilities.
- The legacy engine's hit, stand and dealer-drawing turn are left out. They repeat the main
  engine's logic, knife included, without the Lucky 7 rule and the dealer-wins-ties rule. Only
  the blackjack branch of the dealer's turn is modelled, as `Legacy.BlackjackGame.BlackjackFinish`.
- The legacy nested `Card` and `Deck` are modelled by `Cards.Card` and `Decks.Deck` with no
  removals and no Jokers. The legacy `Rank` has no Joker.
- `Legacy.BlackjackGame.DealRound`: it requires the table to be clear between rounds, which
  `EndGame` guarantees by always starting a new hand.
