/** The bet arithmetic of both engines: what the bet becomes when the player raises or lowers it,
    when the minimum rises, when money is lost and when a new hand begins. The game classes assign
    these values to their `currentBet` fields. */
module Betting {

  /** `betStep`: the amount one key press moves the bet by. */
  const BetStep := 100

  /** `Math.Max`, for reading the contracts. */
  function Max(a: int, b: int): int { if a >= b then a else b }

  /** `IncreaseBet` of the main engine: a bet below the player's money goes up one step, but never
      past the money; a bet already at or above the money stays. */
  function IncreasedBet(bet: int, money: int): (r: int)
    ensures bet < money ==> bet < r <= money && r <= bet + BetStep
    ensures bet < money && bet + BetStep <= money ==> r == bet + BetStep
    ensures bet >= money ==> r == bet
  {
    if bet < money then (if bet + BetStep > money then money else bet + BetStep) else bet
  }

  /** `DecreaseBet` of both engines: a bet above the minimum goes down one step, and the result is
      lifted to the minimum when it falls below. */
  function DecreasedBet(bet: int, minBet: int): (r: int)
    ensures r >= minBet
    ensures bet > minBet ==> r == Max(bet - BetStep, minBet) && r < bet
    ensures bet <= minBet ==> r == minBet
  {
    var lowered := if bet > minBet then bet - BetStep else bet;
    if lowered < minBet then minBet else lowered
  }

  /** `IncreaseMinimumBet`: the bet follows a minimum that rises above it. */
  function BetAfterNewMinimum(bet: int, minBet: int): (r: int)
    ensures r >= minBet && r >= bet
    ensures r == bet || r == minBet
  {
    if bet < minBet then minBet else bet
  }

  /** `LoseAmount` of the main engine, with `money` the amount left afterwards: the bet is capped at
      the money, then lifted to the minimum if the money still covers it. */
  function BetAfterLoss(bet: int, money: int, minBet: int): (r: int)
    ensures r <= money
    ensures money >= minBet ==> minBet <= r
    ensures bet <= money && (bet >= minBet || money < minBet) ==> r == bet
  {
    var capped := if bet > money then money else bet;
    if capped < minBet && money >= minBet then minBet else capped
  }

  /** The `StartGame` clamp of the main engine, one `else if` chain: a player who cannot afford the
      minimum bets everything; otherwise the bet is brought into [minBet, money]. */
  function StartingBet(bet: int, money: int, minBet: int): (r: int)
    ensures money >= minBet ==> minBet <= r <= money
    ensures money < minBet ==> r == money
    ensures minBet <= bet <= money ==> r == bet
  {
    if money < minBet then money
    else if bet > money then money
    else if bet < minBet then minBet
    else bet
  }

  /** `IncreaseBet` of the legacy engine: one step up, capped at the money, with no check that the
      bet is below the money first, so a bet above the money is cut down to it. */
  function LegacyIncreasedBet(bet: int, money: int): (r: int)
    ensures r <= money && r <= bet + BetStep
    ensures r == bet + BetStep || r == money
    ensures bet > money ==> r == money && r < bet
  {
    if bet + BetStep > money then money else bet + BetStep
  }

  /** The `StartGame` clamp of the legacy engine, three `if`s applied in turn. */
  function LegacyStartingBet(bet: int, money: int, minBet: int): (r: int)
    ensures money >= minBet ==> minBet <= r <= money
    ensures money < minBet ==> r == money
  {
    var capped := if bet > money then money else bet;
    var lifted := if capped < minBet then minBet else capped;
    if money < minBet then money else lifted
  }

  /** The two engines clamp a new hand's bet alike, although one writes it as a chain and the other
      as a sequence. */
  lemma StartingBetsAgree(bet: int, money: int, minBet: int)
    ensures LegacyStartingBet(bet, money, minBet) == StartingBet(bet, money, minBet)
  {
  }

  /** The two engines raise a bet alike unless it already reaches the money. */
  lemma IncreasedBetsAgree(bet: int, money: int)
    requires bet < money
    ensures LegacyIncreasedBet(bet, money) == IncreasedBet(bet, money)
  {
  }

  /** Lowering the bet undoes raising it when both steps are full steps above the minimum. */
  lemma DecreaseUndoesIncrease(bet: int, money: int, minBet: int)
    requires minBet <= bet && bet + BetStep <= money
    ensures DecreasedBet(IncreasedBet(bet, money), minBet) == bet
  {
  }
}
