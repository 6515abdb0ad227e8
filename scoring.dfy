/** Hand scoring (`CalculateHandValue`) as functions over the cards on the table: the three ace
    rules and the scissors reduction of one dealer card. The loop methods that compute these
    values live with the game state they read (`Round`, `Legacy`). */
module Scoring {
  import opened Cards
  import opened Options

  /** `BlackjackGame.AceValueRule`. */
  datatype AceValueRule = Flexible | Always1 | Always11

  /** A card on the table (`CardInstance`). The engine compares instances by reference; `id`
      stands for that identity. `hidden` is the face-down flag. */
  datatype CardInstance = CardInstance(id: nat, card: Card, hidden: bool)

  /** A hand scoring can be asked about: it holds no Joker, whose value nothing defines. */
  predicate NoJokers(hand: seq<CardInstance>)
  {
    forall i | 0 <= i < |hand| :: hand[i].card.rank != Joker
  }

  /** Every card of the hand is Ace..King, as every card a deck without Jokers deals. */
  predicate StandardCards(hand: seq<CardInstance>)
  {
    forall i | 0 <= i < |hand| :: IsStandard(hand[i].card.rank)
  }

  /** No object appears twice in the hand. */
  predicate DistinctIds(hand: seq<CardInstance>)
  {
    forall i, j | 0 <= i < j < |hand| :: hand[i].id != hand[j].id
  }

  /** The hand holds the instance `id`. */
  predicate Holds(hand: seq<CardInstance>, id: nat)
  {
    exists i | 0 <= i < |hand| :: hand[i].id == id
  }

  /** Every instance in the hand was made before the `n`-th. */
  predicate IdsBelow(hand: seq<CardInstance>, n: nat)
  {
    forall i | 0 <= i < |hand| :: hand[i].id < n
  }

  /** The two hands share no object. */
  predicate Disjoint(a: seq<CardInstance>, b: seq<CardInstance>)
  {
    forall i, j | 0 <= i < |a| && 0 <= j < |b| :: a[i].id != b[j].id
  }

  /** The hands agree card for card on everything scoring looks at; they may differ in which
      cards are face down. */
  predicate SameCards(a: seq<CardInstance>, b: seq<CardInstance>)
  {
    |a| == |b| && forall i | 0 <= i < |a| :: a[i].id == b[i].id && a[i].card == b[i].card
  }

  /** A new instance put in front of a hand (`hand.Insert(0, …)`) keeps the objects on the table
      distinct, whichever of the two hands receives it. */
  lemma PrependFresh(ci: CardInstance, hand: seq<CardInstance>, other: seq<CardInstance>, n: nat)
    requires ci.id == n && IdsBelow(hand, n) && IdsBelow(other, n) && DistinctIds(hand)
    requires IsStandard(ci.card.rank) && StandardCards(hand)
    ensures IdsBelow([ci] + hand, n + 1) && IdsBelow(other, n + 1) && DistinctIds([ci] + hand)
    ensures StandardCards([ci] + hand) && NoJokers([ci] + hand)
    ensures Disjoint(hand, other) ==> Disjoint([ci] + hand, other)
    ensures Disjoint(other, hand) ==> Disjoint(other, [ci] + hand)
  {
    var h := [ci] + hand;
    forall i | 0 < i < |h| ensures h[i] == hand[i - 1] {
    }
  }

  lemma StandardHasNoJokers(hand: seq<CardInstance>)
    requires StandardCards(hand)
    ensures NoJokers(hand)
  {
  }

  /** The points one card contributes before the ace adjustment and the scissors reduction. */
  function CardPoints(c: Card, rule: AceValueRule): (v: int)
    requires c.rank != Joker
    ensures c.rank == Ace ==> v == (if rule == Always1 then 1 else 11)
    ensures c.rank != Ace ==> v == c.GetValue()
  {
    if c.rank == Ace then (if rule == Always1 then 1 else 11)
    else if c.rank >= Ten && c.rank <= King then 10
    else c.rank
  }

  /** The points of one card with every Ace counted as 1 and no reduction. */
  function LowPoints(c: Card): (v: int)
    requires c.rank != Joker
    ensures IsStandard(c.rank) ==> 1 <= v <= 10
  {
    if c.rank == Ace then 1 else c.GetValue()
  }

  /** The instance the scissors reduction applies to: whatever sits at `dealerHand[1]` when a hand
      is scored, provided a reduction is in force and the dealer holds two cards or more. */
  function Target(dealerHand: seq<CardInstance>, reduction: int): (t: Option<nat>)
    ensures t.Some? <==> reduction > 0 && |dealerHand| > 1
    ensures t.Some? ==> Holds(dealerHand, t.value) && t.value == dealerHand[1].id
  {
    if reduction > 0 && |dealerHand| > 1 then Some(dealerHand[1].id) else Option.None
  }

  function Points(ci: CardInstance, rule: AceValueRule, target: Option<nat>, reduction: int): int
    requires ci.card.rank != Joker
  {
    CardPoints(ci.card, rule) - (if target == Some(ci.id) then reduction else 0)
  }

  /** The running total of the scoring loop: the cards summed in hand order. */
  function RawTotal(hand: seq<CardInstance>, rule: AceValueRule, target: Option<nat>, reduction: int): int
    requires NoJokers(hand)
  {
    if hand == [] then 0
    else RawTotal(hand[..|hand| - 1], rule, target, reduction) + Points(hand[|hand| - 1], rule, target, reduction)
  }

  /** The Aces counted by the scoring loop. */
  function AceCount(hand: seq<CardInstance>): nat
  {
    if hand == [] then 0
    else AceCount(hand[..|hand| - 1]) + (if hand[|hand| - 1].card.rank == Ace then 1 else 0)
  }

  /** The hand summed with every Ace as 1 and no reduction. */
  function LowTotal(hand: seq<CardInstance>): int
    requires NoJokers(hand)
  {
    if hand == [] then 0 else LowTotal(hand[..|hand| - 1]) + LowPoints(hand[|hand| - 1].card)
  }

  /** How many instances of the hand are the object `target`. */
  function Hits(hand: seq<CardInstance>, target: Option<nat>): nat
  {
    if hand == [] then 0
    else Hits(hand[..|hand| - 1], target) + (if target == Some(hand[|hand| - 1].id) then 1 else 0)
  }

  /** `total` with `k` of its Aces turned from 11 into 1. */
  function AcesAsOne(total: int, k: nat): int
  {
    total - 10 * k
  }

  /** The Flexible adjustment: while the total is over 21 and an undemoted Ace remains, count one
      more Ace as 1. */
  function Demote(total: int, aces: nat): (r: int)
    ensures r <= total && total - r <= 10 * aces && (total - r) % 10 == 0
    ensures r <= 21 || r == AcesAsOne(total, aces)
    ensures r < total ==> r > 11
    decreases aces
  {
    if total > 21 && aces > 0 then Demote(total - 10, aces - 1) else total
  }

  /** `CalculateHandValue`: the aces adjusted only under the Flexible rule. */
  function HandValue(hand: seq<CardInstance>, rule: AceValueRule, target: Option<nat>, reduction: int): int
    requires NoJokers(hand)
  {
    var total := RawTotal(hand, rule, target, reduction);
    if rule == Flexible then Demote(total, AceCount(hand)) else total
  }

  /** `Mathf.CeilToInt((float)v / 2f)` for the non-negative card values it is applied to. */
  function CeilHalf(v: nat): nat
  {
    (v + 1) / 2
  }

  /** The scissors reduction of a card of value `v`: what is left after keeping half, rounded up. */
  function ScissorsReduction(v: nat): (r: nat)
    ensures r == v / 2
    ensures r + CeilHalf(v) == v
  {
    v - CeilHalf(v)
  }

  lemma ScissorsReductionOfCards(c: Card)
    requires IsStandard(c.rank)
    ensures 1 <= ScissorsReduction(c.GetValue()) <= 5
    ensures IsTenValued(c.rank) || c.rank == Ace ==> ScissorsReduction(c.GetValue()) == 5
  {
  }

  /** Under either fixed rule the score is the plain sum, Aces counted as 1 or 11, less the
      reduction once for every time the targeted object appears. */
  lemma {:induction false} RawTotalDecomposed(hand: seq<CardInstance>, rule: AceValueRule, target: Option<nat>, reduction: int)
    requires NoJokers(hand)
    ensures RawTotal(hand, rule, target, reduction) ==
      LowTotal(hand) + (if rule == Always1 then 0 else 10 * AceCount(hand)) - reduction * Hits(hand, target)
  {
    if hand != [] {
      var init, last := hand[..|hand| - 1], hand[|hand| - 1];
      assert NoJokers(init) by {
        forall i | 0 <= i < |init| ensures init[i].card.rank != Joker {
          assert init[i] == hand[i];
        }
      }
      RawTotalDecomposed(init, rule, target, reduction);
      var hit := if target == Some(last.id) then 1 else 0;
      var ace := if last.card.rank == Ace then 1 else 0;
      var h := Hits(init, target);
      assert Hits(hand, target) == h + hit;
      assert AceCount(hand) == AceCount(init) + ace;
      assert LowTotal(hand) == LowTotal(init) + LowPoints(last.card);
      assert RawTotal(hand, rule, target, reduction) == RawTotal(init, rule, target, reduction) + Points(last, rule, target, reduction);
      assert Points(last, rule, target, reduction) ==
        LowPoints(last.card) + (if rule == Always1 then 0 else 10 * ace) - reduction * hit;
      assert reduction * (h + hit) == reduction * h + reduction * hit;
    }
  }

  /** A hand of distinct objects holds the target at most once, so the reduction is subtracted
      exactly once when the target is in the hand and not at all otherwise. */
  lemma {:induction false} ReductionAppliesOnce(hand: seq<CardInstance>, id: nat)
    requires DistinctIds(hand)
    ensures Hits(hand, Some(id)) == if Holds(hand, id) then 1 else 0
  {
    if hand != [] {
      var init := hand[..|hand| - 1];
      assert DistinctIds(init) by {
        forall i, j | 0 <= i < j < |init| ensures init[i].id != init[j].id {
          assert init[i] == hand[i] && init[j] == hand[j];
        }
      }
      ReductionAppliesOnce(init, id);
      if hand[|hand| - 1].id == id {
        assert !Holds(init, id) by {
          forall i | 0 <= i < |init| ensures init[i].id != id {
            assert init[i] == hand[i];
          }
        }
      } else {
        assert Holds(hand, id) ==> Holds(init, id) by {
          if Holds(hand, id) {
            var i :| 0 <= i < |hand| && hand[i].id == id;
            assert i < |init| && init[i] == hand[i];
          }
        }
        assert Holds(init, id) ==> Holds(hand, id) by {
          if Holds(init, id) {
            var i :| 0 <= i < |init| && init[i].id == id;
            assert hand[i] == init[i];
          }
        }
      }
    }
  }

  /** Which cards are face down does not change a score. */
  lemma {:induction false} SameCardsSameScore(a: seq<CardInstance>, b: seq<CardInstance>, rule: AceValueRule, target: Option<nat>, reduction: int)
    requires NoJokers(a) && SameCards(a, b)
    ensures NoJokers(b)
    ensures RawTotal(b, rule, target, reduction) == RawTotal(a, rule, target, reduction)
    ensures AceCount(b) == AceCount(a)
    ensures HandValue(b, rule, target, reduction) == HandValue(a, rule, target, reduction)
    decreases |a|
  {
    assert NoJokers(b) by {
      forall i | 0 <= i < |b| ensures b[i].card.rank != Joker {
        assert a[i].card == b[i].card;
      }
    }
    if a != [] {
      var ia, ib := a[..|a| - 1], b[..|b| - 1];
      assert NoJokers(ia) && SameCards(ia, ib) by {
        forall i | 0 <= i < |ia| ensures ia[i] == a[i] && ib[i] == b[i] {
        }
      }
      SameCardsSameScore(ia, ib, rule, target, reduction);
      assert a[|a| - 1].id == b[|b| - 1].id && a[|a| - 1].card == b[|b| - 1].card;
    }
  }

  lemma ScoreOfEmptyHand(rule: AceValueRule, target: Option<nat>, reduction: int)
    ensures HandValue([], rule, target, reduction) == 0
  {
  }

  /** Under Always1 and Always11 the score is the plain sum with no demotion. */
  lemma FixedRuleScore(hand: seq<CardInstance>, rule: AceValueRule, target: Option<nat>, reduction: int)
    requires NoJokers(hand) && rule != Flexible
    ensures HandValue(hand, rule, target, reduction) ==
      LowTotal(hand) + (if rule == Always11 then 10 * AceCount(hand) else 0) - reduction * Hits(hand, target)
  {
    RawTotalDecomposed(hand, rule, target, reduction);
  }

  /** A Flexible score over 21 means every Ace already counts as 1. */
  lemma FlexibleBustDemotesAll(hand: seq<CardInstance>, target: Option<nat>, reduction: int)
    requires NoJokers(hand)
    requires HandValue(hand, Flexible, target, reduction) > 21
    ensures HandValue(hand, Flexible, target, reduction) == LowTotal(hand) - reduction * Hits(hand, target)
  {
    RawTotalDecomposed(hand, Flexible, target, reduction);
  }

  /** The Flexible adjustment demotes as few Aces as needed: no other number of Aces counted as 1
      gives a higher total that is not over 21. */
  lemma {:induction false} DemoteIsBest(total: int, aces: nat, k: nat)
    requires k <= aces && AcesAsOne(total, k) <= 21
    ensures AcesAsOne(total, k) <= Demote(total, aces)
    decreases aces
  {
    if total > 21 && aces > 0 {
      assert k > 0;
      assert AcesAsOne(total, k) == AcesAsOne(total - 10, k - 1);
      DemoteIsBest(total - 10, aces - 1, k - 1);
    }
  }

  lemma FlexibleIsBest(hand: seq<CardInstance>, target: Option<nat>, reduction: int, k: nat)
    requires NoJokers(hand)
    requires k <= AceCount(hand) && AcesAsOne(RawTotal(hand, Flexible, target, reduction), k) <= 21
    ensures AcesAsOne(RawTotal(hand, Flexible, target, reduction), k) <= HandValue(hand, Flexible, target, reduction)
  {
    DemoteIsBest(RawTotal(hand, Flexible, target, reduction), AceCount(hand), k);
  }

  /** Whatever the ace rule, a hand of distinct objects scores at least its all-Aces-as-1 sum less
      one reduction. */
  lemma ScoreAtLeastLowTotal(hand: seq<CardInstance>, rule: AceValueRule, target: Option<nat>, reduction: int)
    requires NoJokers(hand) && DistinctIds(hand) && reduction >= 0
    ensures HandValue(hand, rule, target, reduction) >= LowTotal(hand) - reduction
  {
    RawTotalDecomposed(hand, rule, target, reduction);
    if target.Some? {
      ReductionAppliesOnce(hand, target.value);
    } else {
      HitsOfNone(hand);
    }
    var h := Hits(hand, target);
    assert reduction * h <= reduction by {
      if h == 0 {
        assert reduction * h == 0;
      } else {
        assert h == 1;
      }
    }
  }

  lemma {:induction false} HitsOfNone(hand: seq<CardInstance>)
    ensures Hits(hand, Option.None) == 0
  {
    if hand != [] {
      HitsOfNone(hand[..|hand| - 1]);
    }
  }

  /** Putting a card in front of a hand (`hand.Insert(0, …)`) adds its low points to the
      all-Aces-as-1 sum. */
  lemma {:induction false} LowTotalPrepend(ci: CardInstance, hand: seq<CardInstance>)
    requires ci.card.rank != Joker && NoJokers(hand)
    ensures NoJokers([ci] + hand)
    ensures LowTotal([ci] + hand) == LowPoints(ci.card) + LowTotal(hand)
    decreases |hand|
  {
    var h := [ci] + hand;
    assert NoJokers(h) by {
      forall i | 0 <= i < |h| ensures h[i].card.rank != Joker {
        if i > 0 { assert h[i] == hand[i - 1]; }
      }
    }
    if hand != [] {
      var init := hand[..|hand| - 1];
      assert NoJokers(init) by {
        forall i | 0 <= i < |init| ensures init[i].card.rank != Joker {
          assert init[i] == hand[i];
        }
      }
      assert h[..|h| - 1] == [ci] + init;
      assert h[|h| - 1] == hand[|hand| - 1];
      LowTotalPrepend(ci, init);
    }
  }

  /** The scissors reduction depends only on which objects are in the dealer's hand: the reduction
      is taken once from any dealer hand of two cards or more, whichever card is at index 1. */
  lemma DealerReductionOnce(dealerHand: seq<CardInstance>, rule: AceValueRule, reduction: int)
    requires NoJokers(dealerHand) && DistinctIds(dealerHand)
    requires reduction > 0 && |dealerHand| > 1
    ensures RawTotal(dealerHand, rule, Target(dealerHand, reduction), reduction) ==
      LowTotal(dealerHand) + (if rule == Always1 then 0 else 10 * AceCount(dealerHand)) - reduction
  {
    RawTotalDecomposed(dealerHand, rule, Target(dealerHand, reduction), reduction);
    ReductionAppliesOnce(dealerHand, dealerHand[1].id);
  }

  /** A hand that does not hold the target loses nothing to the reduction; the player's hand in
      particular, which never shares an object with the dealer's. */
  lemma UntargetedHand(hand: seq<CardInstance>, rule: AceValueRule, id: nat, reduction: int)
    requires NoJokers(hand) && DistinctIds(hand) && !Holds(hand, id)
    ensures HandValue(hand, rule, Some(id), reduction) == HandValue(hand, rule, Option.None, reduction)
  {
    RawTotalDecomposed(hand, rule, Some(id), reduction);
    RawTotalDecomposed(hand, rule, Option.None, reduction);
    ReductionAppliesOnce(hand, id);
    HitsOfNone(hand);
  }

  /** A targeted Ace under Always1 is worth 1 less the reduction computed from its nominal 11. */
  lemma TargetedAceUnderAlways1(id: nat, s: Suit)
    ensures Points(CardInstance(id, Card(Ace, s), false), Always1, Some(id),
                   ScissorsReduction(Card(Ace, s).GetValue())) == -4
  {
  }

  lemma ExampleHands()
    ensures HandValue([CardInstance(0, Card(Ace, Spades), false), CardInstance(1, Card(King, Hearts), false)],
                      Flexible, Option.None, 0) == 21
    ensures HandValue([CardInstance(0, Card(Ace, Spades), false), CardInstance(1, Card(King, Hearts), false)],
                      Always1, Option.None, 0) == 11
    ensures HandValue([CardInstance(0, Card(Ace, Spades), false), CardInstance(1, Card(Ace, Hearts), false),
                       CardInstance(2, Card(Nine, Clubs), false)], Flexible, Option.None, 0) == 21
    ensures HandValue([CardInstance(0, Card(Ace, Spades), false), CardInstance(1, Card(Ace, Hearts), false),
                       CardInstance(2, Card(Nine, Clubs), false)], Always11, Option.None, 0) == 31
  {
    var a, k := CardInstance(0, Card(Ace, Spades), false), CardInstance(1, Card(King, Hearts), false);
    var b, n := CardInstance(1, Card(Ace, Hearts), false), CardInstance(2, Card(Nine, Clubs), false);
    var two, three := [a, k], [a, b, n];
    assert two[..1] == [a] && [a][..0] == [];
    assert three[..2] == [a, b] && [a, b][..1] == [a];
    assert AceCount([a][..0]) == 0;
    assert AceCount([a]) == AceCount([a][..0]) + 1;
    assert RawTotal([a], Flexible, Option.None, 0) == 11;
    assert RawTotal([a], Always1, Option.None, 0) == 1;
    assert RawTotal([a], Always11, Option.None, 0) == 11;
    assert RawTotal([a, b], Flexible, Option.None, 0) == 22 && AceCount([a, b]) == 2;
    assert RawTotal([a, b], Always11, Option.None, 0) == 22;
  }
}
