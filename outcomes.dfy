/** How a round ends: the result messages the engines show, the `Contains` tests `EndGame` pays out
    by, and `DetermineWinner`. */
module Outcomes {

  /** The ten result messages of the main engine. */
  datatype Message =
    | BustChecked      // the bust check's "Bust! You lose."
    | PlayerBusts      // "Bust... You lose"
    | DealerBusts      // "Dealer busts... You win"
    | PlayerWins       // "You win"
    | DealerWins       // "Dealer wins"
    | DealerWinsOnTie  // "Dealer wins on tie"
    | Tie              // "It's a tie"
    | Blackjack        // "Blackjack! You win"
    | BothBlackjack    // "Both have Blackjack! It's a tie"
    | LuckySeven       // "Lucky 7! You win!"

  function Text(m: Message): string
  {
    match m
    case BustChecked => "Bust! You lose."
    case PlayerBusts => "Bust... You lose"
    case DealerBusts => "Dealer busts... You win"
    case PlayerWins => "You win"
    case DealerWins => "Dealer wins"
    case DealerWinsOnTie => "Dealer wins on tie"
    case Tie => "It's a tie"
    case Blackjack => "Blackjack! You win"
    case BothBlackjack => "Both have Blackjack! It's a tie"
    case LuckySeven => "Lucky 7! You win!"
  }

  /** What a round pays: the bet won, nothing, or the bet lost. */
  datatype Payout = Win | Push | Loss

  /** The payout each message announces, read off its meaning. */
  function Announced(m: Message): Payout
  {
    match m
    case DealerBusts | PlayerWins | Blackjack | LuckySeven => Win
    case Tie | BothBlackjack => Push
    case BustChecked | PlayerBusts | DealerWins | DealerWinsOnTie => Loss
  }

  /** The change in the player's money for a payout on a bet. */
  function Delta(p: Payout, bet: int): int
  {
    match p
    case Win => bet
    case Push => 0
    case Loss => -bet
  }

  predicate OccursAt(s: string, p: string, k: nat)
  {
    k + |p| <= |s| && s[k..k + |p|] == p
  }

  /** `string.Contains`: `p` occurs somewhere in `s`. */
  predicate Contains(s: string, p: string)
  {
    exists k: nat | k <= |s| :: OccursAt(s, p, k)
  }

  /** The test `EndGame` pays out by. */
  function Classify(s: string): Payout
  {
    if Contains(s, "You win") || Contains(s, "Blackjack! You win") then Win
    else if Contains(s, "It's a tie") then Push
    else Loss
  }

  /** A string lacking some character of `p` does not contain `p`. */
  lemma MissingChar(s: string, p: string, c: char)
    requires c in p && c !in s
    ensures !Contains(s, p)
  {
    var i :| 0 <= i < |p| && p[i] == c;
    forall k: nat | k <= |s| ensures !OccursAt(s, p, k) {
      if k + |p| <= |s| {
        assert s[k..k + |p|][i] == s[k + i];
      }
    }
  }

  lemma ClassifyBustChecked()
    ensures Classify(Text(BustChecked)) == Loss
  {
    MissingChar(Text(BustChecked), "You win", 'w');
    MissingChar(Text(BustChecked), "Blackjack! You win", 'w');
    MissingChar(Text(BustChecked), "It's a tie", '\'');
  }

  lemma ClassifyPlayerBusts()
    ensures Classify(Text(PlayerBusts)) == Loss
  {
    MissingChar(Text(PlayerBusts), "You win", 'w');
    MissingChar(Text(PlayerBusts), "Blackjack! You win", 'w');
    MissingChar(Text(PlayerBusts), "It's a tie", '\'');
  }

  lemma ClassifyDealerBusts()
    ensures Classify(Text(DealerBusts)) == Win
  {
    assert OccursAt(Text(DealerBusts), "You win", 16);
  }

  lemma ClassifyPlayerWins()
    ensures Classify(Text(PlayerWins)) == Win
  {
    assert OccursAt(Text(PlayerWins), "You win", 0);
  }

  lemma ClassifyDealerWins()
    ensures Classify(Text(DealerWins)) == Loss
  {
    MissingChar(Text(DealerWins), "You win", 'Y');
    MissingChar(Text(DealerWins), "Blackjack! You win", 'Y');
    MissingChar(Text(DealerWins), "It's a tie", '\'');
  }

  lemma ClassifyDealerWinsOnTie()
    ensures Classify(Text(DealerWinsOnTie)) == Loss
  {
    MissingChar(Text(DealerWinsOnTie), "You win", 'Y');
    MissingChar(Text(DealerWinsOnTie), "Blackjack! You win", 'Y');
    MissingChar(Text(DealerWinsOnTie), "It's a tie", '\'');
  }

  lemma ClassifyTie()
    ensures Classify(Text(Tie)) == Push
  {
    MissingChar(Text(Tie), "You win", 'Y');
    MissingChar(Text(Tie), "Blackjack! You win", 'Y');
    assert OccursAt(Text(Tie), "It's a tie", 0);
  }

  lemma ClassifyBlackjack()
    ensures Classify(Text(Blackjack)) == Win
  {
    assert OccursAt(Text(Blackjack), "You win", 11);
  }

  lemma ClassifyBothBlackjack()
    ensures Classify(Text(BothBlackjack)) == Push
  {
    MissingChar(Text(BothBlackjack), "You win", 'Y');
    MissingChar(Text(BothBlackjack), "Blackjack! You win", 'Y');
    assert OccursAt(Text(BothBlackjack), "It's a tie", 21);
  }

  lemma ClassifyLuckySeven()
    ensures Classify(Text(LuckySeven)) == Win
  {
    assert OccursAt(Text(LuckySeven), "You win", 9);
  }

  /** The substring tests pay every message out as the message announces. */
  lemma ClassifyAgrees(m: Message)
    ensures Classify(Text(m)) == Announced(m)
  {
    match m
    case BustChecked => ClassifyBustChecked();
    case PlayerBusts => ClassifyPlayerBusts();
    case DealerBusts => ClassifyDealerBusts();
    case PlayerWins => ClassifyPlayerWins();
    case DealerWins => ClassifyDealerWins();
    case DealerWinsOnTie => ClassifyDealerWinsOnTie();
    case Tie => ClassifyTie();
    case Blackjack => ClassifyBlackjack();
    case BothBlackjack => ClassifyBothBlackjack();
    case LuckySeven => ClassifyLuckySeven();
  }

  /** `DetermineWinner` of the main engine, after the dealer has played. */
  function DetermineWinner(playerValue: int, dealerValue: int, dealerWinsTies: bool): (m: Message)
    ensures Announced(m) == Win <==> playerValue <= 21 && (dealerValue > 21 || playerValue > dealerValue)
    ensures Announced(m) == Push <==> playerValue <= 21 && dealerValue <= 21 && playerValue == dealerValue && !dealerWinsTies
    ensures m in {PlayerBusts, DealerBusts, PlayerWins, DealerWins, DealerWinsOnTie, Tie}
    ensures m == DealerWinsOnTie <==> playerValue <= 21 && dealerValue <= 21 && playerValue == dealerValue && dealerWinsTies
  {
    if playerValue > 21 then PlayerBusts
    else if dealerValue > 21 then DealerBusts
    else if playerValue > dealerValue then PlayerWins
    else if dealerValue > playerValue then DealerWins
    else if dealerWinsTies then DealerWinsOnTie
    else Tie
  }
}
