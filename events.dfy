/** The rule-changing events and the money thresholds that trigger them. */
module Events {
  import opened Cards
  import opened Options
  import opened Scoring

  /** `BlackjackEvent.EventSeverity`. */
  datatype Severity = Low | Medium | High

  /** `EventThreshold`: reaching `moneyAmount` triggers one event of the given severity. */
  datatype Threshold = Threshold(severityToTrigger: Severity, moneyAmount: int)

  /** The event assets whose `Apply` reaches a method of the engine, each with its parameter:
      `AceRuleEvent`, `SetTieRuleEvent`, `IncreaseMinBetEvent`, `RemoveRankEvent` and
      `RemoveSuitEvent`. */
  datatype BlackjackEvent =
    | AceRule(ruleToSet: AceValueRule)
    | TieRule(dealerWillWinTies: bool)
    | IncreaseMinBet(increaseAmount: int)
    | RemoveRank(rankToRemove: Rank)
    | RemoveSuit(suitToRemove: Suit)

  /** The threshold at `i` may fire: the money reaches it and it has not fired before. */
  predicate Due(thresholds: seq<Threshold>, triggered: seq<nat>, money: int, i: nat)
    requires i < |thresholds|
  {
    money >= thresholds[i].moneyAmount && i !in triggered
  }

  /** The first threshold at or after `from`, in list order, that may fire. */
  function FirstDue(thresholds: seq<Threshold>, triggered: seq<nat>, money: int, from: nat): (r: Option<nat>)
    requires from <= |thresholds|
    ensures r.Some? ==> from <= r.value < |thresholds| && Due(thresholds, triggered, money, r.value)
    ensures r.Some? ==> forall j | from <= j < r.value :: !Due(thresholds, triggered, money, j)
    ensures r.None? ==> forall j | from <= j < |thresholds| :: !Due(thresholds, triggered, money, j)
    decreases |thresholds| - from
  {
    if from == |thresholds| then Option.None
    else if Due(thresholds, triggered, money, from) then Some(from)
    else FirstDue(thresholds, triggered, money, from + 1)
  }

  /** The threshold the scan in list order stops at is the first one due; a scan that passes every
      threshold finds none. */
  lemma ScanFindsFirstDue(thresholds: seq<Threshold>, triggered: seq<nat>, money: int, i: nat)
    requires i <= |thresholds|
    requires forall j | 0 <= j < i :: !Due(thresholds, triggered, money, j)
    ensures i < |thresholds| && Due(thresholds, triggered, money, i) ==> FirstDue(thresholds, triggered, money, 0) == Some(i)
    ensures i == |thresholds| ==> FirstDue(thresholds, triggered, money, 0).None?
  {
    var r := FirstDue(thresholds, triggered, money, 0);
    if r.Some? && i < |thresholds| && Due(thresholds, triggered, money, i) {
      assert !(r.value < i);
      assert !(r.value > i);
    }
  }

  /** Once a threshold is recorded as triggered it is never due again, whatever the money. */
  lemma FiresOnce(thresholds: seq<Threshold>, triggered: seq<nat>, money: int, later: int)
    requires FirstDue(thresholds, triggered, money, 0).Some?
    ensures var i := FirstDue(thresholds, triggered, money, 0).value;
      i < |thresholds| && !Due(thresholds, triggered + [i], later, i) &&
      FirstDue(thresholds, triggered + [i], later, 0) != Some(i)
  {
  }

  /** With a recorded threshold removed from consideration, the search moves past it: a fixed
      amount of money fires each of the thresholds it reaches at most once, in list order. */
  lemma RecordingAdvances(thresholds: seq<Threshold>, triggered: seq<nat>, money: int, from: nat)
    requires from <= |thresholds|
    requires FirstDue(thresholds, triggered, money, from).Some?
    ensures var i := FirstDue(thresholds, triggered, money, from).value;
      var next := FirstDue(thresholds, triggered + [i], money, from);
      next.Some? ==> next.value > i
  {
    var i := FirstDue(thresholds, triggered, money, from).value;
    forall j | from <= j <= i ensures !Due(thresholds, triggered + [i], money, j) {
      if j < i {
        assert !Due(thresholds, triggered, money, j);
      }
    }
  }
}
