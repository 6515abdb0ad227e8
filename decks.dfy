/** The filtered deck: its composition, the Fisher-Yates shuffle, dealing and the permanent
    composition changes that events make (Assets/Scripts/Blackjack/Deck.cs). */
module Decks {

  import opened Cards
  import opened Options
  import Random

  predicate Distinct<T(==)>(s: seq<T>)
  {
    forall i, j :: 0 <= i < j < |s| ==> s[i] != s[j]
  }

  /** `List.Add` guarded by `List.Contains`: the list insertion the removal setters use. */
  function Added<T(==,!new)>(l: seq<T>, x: T): (r: seq<T>)
    ensures x in r
    ensures forall y :: y in r <==> y in l || y == x
    ensures Distinct(l) ==> Distinct(r)
    ensures x in l ==> r == l
  {
    if x in l then l else l + [x]
  }

  /** Adding the same element twice leaves the list as adding it once. */
  lemma AddedIdempotent<T(!new)>(l: seq<T>, x: T)
    ensures Added(Added(l, x), x) == Added(l, x)
  {
  }

  // ---------------------------------------------------------------------------------------
  // Composition
  // ---------------------------------------------------------------------------------------

  /** A card the deck may hold under the current removals: its suit is not removed, and it is either
      a non-removed rank in Ace..King or a Joker while jokers are enabled. Jokers ignore removed ranks. */
  predicate Allowed(c: Card, removedRanks: seq<Rank>, removedSuits: seq<Suit>, jokers: bool)
  {
    c.suit !in removedSuits &&
    ((IsStandard(c.rank) && c.rank !in removedRanks) || (c.rank == Joker && jokers))
  }

  /** The rebuild's cards are numbered by 60 slots: for each suit (enum order) 14 slots, one per
      rank ordinal `None..King`, then one Joker slot per suit. Slot `p` holds `CardAt(p)`. The `None`
      slot of each suit is a numbering device that `Allowed` always rejects, so no rebuild fills it;
      the loops of `InitializeDeck` visit only `Ace..King` for each suit and the four Jokers. */
  const Slots := 60

  function CardAt(p: nat): (c: Card)
    requires p < Slots
    ensures Position(c) == p
  {
    if p < 56 then
      var suit := if p < 14 then Clubs else if p < 28 then Diamonds else if p < 42 then Hearts else Spades;
      Card(p - 14 * suit, suit)
    else Card(Joker, p - 56)
  }

  /** A card's slot: the non-Joker cards by suit and then by rank, then the Jokers by suit. */
  function Position(c: Card): (p: nat)
    ensures p < Slots
  {
    if c.rank == Joker then 56 + c.suit else 14 * c.suit + c.rank
  }

  /** Every card sits in its own slot. */
  lemma CardAtPosition(c: Card)
    ensures CardAt(Position(c)) == c
  {
  }

  /** Slot `14 * suit + r` holds the card of rank `r` and suit `suit`. */
  lemma CardAtSlot(suit: Suit, r: Rank)
    requires r <= King
    ensures CardAt(14 * suit + r) == Card(r, suit)
  {
  }

  /** What `InitializeDeck` has built once it has passed the first `p` slots. */
  function Layout(removedRanks: seq<Rank>, removedSuits: seq<Suit>, jokers: bool, p: nat): seq<Card>
    requires p <= Slots
  {
    if p == 0 then []
    else Layout(removedRanks, removedSuits, jokers, p - 1) +
         (if Allowed(CardAt(p - 1), removedRanks, removedSuits, jokers) then [CardAt(p - 1)] else [])
  }

  /** What `InitializeDeck` builds. */
  function Composition(removedRanks: seq<Rank>, removedSuits: seq<Suit>, jokers: bool): seq<Card>
  {
    Layout(removedRanks, removedSuits, jokers, Slots)
  }

  predicate InSuitMajorOrder(s: seq<Card>)
  {
    forall i, j :: 0 <= i < j < |s| ==> Position(s[i]) < Position(s[j])
  }

  /** Two ordered lists, the first wholly before the second, concatenate to an ordered list. */
  lemma ConcatOrdered(a: seq<Card>, b: seq<Card>)
    requires InSuitMajorOrder(a) && InSuitMajorOrder(b)
    requires forall x, y :: x in a && y in b ==> Position(x) < Position(y)
    ensures InSuitMajorOrder(a + b)
  {
    var ab := a + b;
    forall i, j | 0 <= i < j < |ab| ensures Position(ab[i]) < Position(ab[j]) {
      if j < |a| {
        assert ab[i] == a[i] && ab[j] == a[j];
      } else if i >= |a| {
        assert ab[i] == b[i - |a|] && ab[j] == b[j - |a|];
      } else {
        assert ab[i] in a && ab[j] in b;
      }
    }
  }

  lemma {:induction false} LayoutMembers(removedRanks: seq<Rank>, removedSuits: seq<Suit>, jokers: bool, p: nat)
    requires p <= Slots
    ensures forall c :: c in Layout(removedRanks, removedSuits, jokers, p) <==>
      Allowed(c, removedRanks, removedSuits, jokers) && Position(c) < p
  {
    if p > 0 {
      LayoutMembers(removedRanks, removedSuits, jokers, p - 1);
      forall c: Card | Position(c) == p - 1 ensures c == CardAt(p - 1) {
        CardAtPosition(c);
      }
    }
  }

  lemma {:induction false} LayoutOrdered(removedRanks: seq<Rank>, removedSuits: seq<Suit>, jokers: bool, p: nat)
    requires p <= Slots
    ensures InSuitMajorOrder(Layout(removedRanks, removedSuits, jokers, p))
  {
    if p > 0 {
      LayoutOrdered(removedRanks, removedSuits, jokers, p - 1);
      LayoutMembers(removedRanks, removedSuits, jokers, p - 1);
      var c := CardAt(p - 1);
      ConcatOrdered(Layout(removedRanks, removedSuits, jokers, p - 1),
                    if Allowed(c, removedRanks, removedSuits, jokers) then [c] else []);
    }
  }

  /** Without Jokers the Joker slots add nothing. */
  lemma {:induction false} NoJokerSlots(removedRanks: seq<Rank>, removedSuits: seq<Suit>, k: nat)
    requires k <= 4
    ensures Layout(removedRanks, removedSuits, false, 56 + k) == Layout(removedRanks, removedSuits, false, 56)
  {
    if k > 0 {
      NoJokerSlots(removedRanks, removedSuits, k - 1);
    }
  }

  /** `InitializeDeck` builds exactly the allowed cards, in suit-major enum order, Jokers last;
      in particular each allowed card appears exactly once. */
  lemma CompositionShape(removedRanks: seq<Rank>, removedSuits: seq<Suit>, jokers: bool)
    ensures forall c :: c in Composition(removedRanks, removedSuits, jokers) <==>
      Allowed(c, removedRanks, removedSuits, jokers)
    ensures InSuitMajorOrder(Composition(removedRanks, removedSuits, jokers))
    ensures Distinct(Composition(removedRanks, removedSuits, jokers))
    ensures forall c ::
              multiset(Composition(removedRanks, removedSuits, jokers))[c] ==
              (if Allowed(c, removedRanks, removedSuits, jokers) then 1 else 0)
  {
    LayoutMembers(removedRanks, removedSuits, jokers, Slots);
    LayoutOrdered(removedRanks, removedSuits, jokers, Slots);
    var all := Composition(removedRanks, removedSuits, jokers);
    OrderedIsDistinct(all);
    forall c: Card ensures multiset(all)[c] == (if Allowed(c, removedRanks, removedSuits, jokers) then 1 else 0) {
      DistinctCount(all, c);
    }
  }

  lemma OrderedIsDistinct(s: seq<Card>)
    requires InSuitMajorOrder(s)
    ensures Distinct(s)
  {
  }

  /** What `InitializeDeck` guarantees after passing the first `p` slots, stated without the
      layout: the allowed cards of those slots, each once, in slot order. */
  ghost predicate BuiltUpTo(built: seq<Card>, removedRanks: seq<Rank>, removedSuits: seq<Suit>, jokers: bool, p: nat)
  {
    InSuitMajorOrder(built) &&
    forall c :: c in built <==> Allowed(c, removedRanks, removedSuits, jokers) && Position(c) < p
  }

  /** Visiting slot `p`: the card there is appended when it is allowed. */
  lemma BuildStep(built: seq<Card>, removedRanks: seq<Rank>, removedSuits: seq<Suit>, jokers: bool, p: nat)
    requires p < Slots && BuiltUpTo(built, removedRanks, removedSuits, jokers, p)
    ensures BuiltUpTo(built + (if Allowed(CardAt(p), removedRanks, removedSuits, jokers) then [CardAt(p)] else []),
                      removedRanks, removedSuits, jokers, p + 1)
  {
    var c := CardAt(p);
    forall d: Card | Position(d) == p ensures d == c {
      CardAtPosition(d);
    }
    ConcatOrdered(built, if Allowed(c, removedRanks, removedSuits, jokers) then [c] else []);
  }

  /** Skipping a removed suit passes its 14 slots. */
  lemma SkipSuit(built: seq<Card>, removedRanks: seq<Rank>, removedSuits: seq<Suit>, jokers: bool, si: nat)
    requires si < 4 && si in removedSuits
    requires BuiltUpTo(built, removedRanks, removedSuits, jokers, 14 * si)
    ensures BuiltUpTo(built, removedRanks, removedSuits, jokers, 14 * si + 14)
  {
    forall c: Card | 14 * si <= Position(c) < 14 * si + 14 ensures c.suit == si {
    }
  }

  /** Without Jokers the Joker slots are passed at once. */
  lemma SkipJokers(built: seq<Card>, removedRanks: seq<Rank>, removedSuits: seq<Suit>)
    requires BuiltUpTo(built, removedRanks, removedSuits, false, 56)
    ensures BuiltUpTo(built, removedRanks, removedSuits, false, Slots)
  {
  }

  /** Having passed every slot, `InitializeDeck` has built exactly the composition. */
  lemma BuiltAll(built: seq<Card>, removedRanks: seq<Rank>, removedSuits: seq<Suit>, jokers: bool)
    requires BuiltUpTo(built, removedRanks, removedSuits, jokers, Slots)
    ensures built == Composition(removedRanks, removedSuits, jokers)
  {
    LayoutMembers(removedRanks, removedSuits, jokers, Slots);
    LayoutOrdered(removedRanks, removedSuits, jokers, Slots);
    OrderedUnique(built, Composition(removedRanks, removedSuits, jokers));
  }

  /** Two lists in suit-major order with the same members start with the same card. */
  lemma SameFirst(a: seq<Card>, b: seq<Card>)
    requires InSuitMajorOrder(a) && InSuitMajorOrder(b) && a != [] && b != []
    requires forall c :: c in a <==> c in b
    ensures a[0] == b[0]
  {
    assert a[0] in b && b[0] in a;
    var i :| 0 <= i < |a| && a[i] == b[0];
    var j :| 0 <= j < |b| && b[j] == a[0];
    assert Position(a[0]) <= Position(a[i]);
    assert Position(b[0]) <= Position(b[j]);
    CardAtPosition(a[0]);
    CardAtPosition(b[0]);
  }

  /** ... and then the same members after it. */
  lemma SameRest(a: seq<Card>, b: seq<Card>)
    requires InSuitMajorOrder(a) && InSuitMajorOrder(b) && a != [] && b != [] && a[0] == b[0]
    requires forall c :: c in a <==> c in b
    ensures forall c :: c in a[1..] <==> c in b[1..]
  {
    forall c ensures c in a[1..] <==> c in b[1..] {
      if c in a[1..] {
        var k :| 1 <= k < |a| && a[k] == c;
        assert Position(a[0]) < Position(c);
        assert c in b;
      }
      if c in b[1..] {
        var k :| 1 <= k < |b| && b[k] == c;
        assert Position(b[0]) < Position(c);
        assert c in a;
      }
    }
  }

  /** A list in suit-major order is determined by its members. */
  lemma {:induction false} OrderedUnique(a: seq<Card>, b: seq<Card>)
    requires InSuitMajorOrder(a) && InSuitMajorOrder(b)
    requires forall c :: c in a <==> c in b
    ensures a == b
  {
    if a != [] {
      assert a[0] in b;
    }
    if b != [] {
      assert b[0] in a;
    }
    if a != [] && b != [] {
      SameFirst(a, b);
      SameRest(a, b);
      assert InSuitMajorOrder(a[1..]) && InSuitMajorOrder(b[1..]);
      OrderedUnique(a[1..], b[1..]);
      assert a == [a[0]] + a[1..] && b == [b[0]] + b[1..];
    }
  }

  /** In a list without repetitions every element occurs once. */
  lemma {:induction false} DistinctCount<T>(s: seq<T>, x: T)
    requires Distinct(s)
    ensures multiset(s)[x] == if x in s then 1 else 0
  {
    if s != [] {
      assert s == [s[0]] + s[1..];
      DistinctCount(s[1..], x);
      if x == s[0] {
        assert x !in s[1..];
      }
    }
  }

  /** A sub-collection of a list without repetitions has none either. */
  lemma SubmultisetDistinct<T>(s: seq<T>, t: seq<T>)
    requires Distinct(t) && multiset(s) <= multiset(t)
    ensures Distinct(s)
  {
    forall i, j | 0 <= i < j < |s| ensures s[i] != s[j] {
      if s[i] == s[j] {
        var x := s[i];
        assert s[..j] + s[j..] == s;
        assert s[i] in s[..j];
        assert s[j] in s[j..];
        assert multiset(s)[x] == multiset(s[..j])[x] + multiset(s[j..])[x];
        DistinctCount(t, x);
        assert false;
      }
    }
  }

  /** What the deck's contents always satisfy: no card twice, and every card allowed by the removals. */
  predicate WellFormed(cards: seq<Card>, removedRanks: seq<Rank>, removedSuits: seq<Suit>, jokers: bool)
  {
    Distinct(cards) && forall c :: c in cards ==> Allowed(c, removedRanks, removedSuits, jokers)
  }

  /** Taking cards away from a well-formed deck, or permuting it, leaves it well formed. */
  lemma SubcollectionWellFormed(s: seq<Card>, t: seq<Card>,
                                removedRanks: seq<Rank>, removedSuits: seq<Suit>, jokers: bool)
    requires WellFormed(t, removedRanks, removedSuits, jokers) && multiset(s) <= multiset(t)
    ensures WellFormed(s, removedRanks, removedSuits, jokers)
  {
    SubmultisetDistinct(s, t);
    forall c | c in s ensures Allowed(c, removedRanks, removedSuits, jokers) {
      assert c in multiset(s);
    }
  }

  /** A freshly built deck is well formed. */
  lemma CompositionWellFormed(removedRanks: seq<Rank>, removedSuits: seq<Suit>, jokers: bool)
    ensures WellFormed(Composition(removedRanks, removedSuits, jokers), removedRanks, removedSuits, jokers)
  {
    CompositionShape(removedRanks, removedSuits, jokers);
  }

  /** Being well formed is the same as being a sub-collection of a freshly built deck. */
  lemma WellFormedIffSubComposition(cards: seq<Card>, removedRanks: seq<Rank>, removedSuits: seq<Suit>, jokers: bool)
    ensures WellFormed(cards, removedRanks, removedSuits, jokers) <==>
            multiset(cards) <= multiset(Composition(removedRanks, removedSuits, jokers))
  {
    var comp := Composition(removedRanks, removedSuits, jokers);
    CompositionShape(removedRanks, removedSuits, jokers);
    if WellFormed(cards, removedRanks, removedSuits, jokers) {
      forall c ensures multiset(cards)[c] <= multiset(comp)[c] {
        DistinctCount(cards, c);
      }
    }
    if multiset(cards) <= multiset(comp) {
      CompositionWellFormed(removedRanks, removedSuits, jokers);
      SubcollectionWellFormed(cards, comp, removedRanks, removedSuits, jokers);
    }
  }

  /** With nothing removed and no Jokers the deck is the 52-card pack. */
  lemma FullPack()
    ensures |Composition([], [], false)| == 52
  {
    PackLength(56);
    NoJokerSlots([], [], 4);
  }

  /** Without removals, every slot but the `None` slot of each suit holds a card. */
  lemma {:induction false} PackLength(p: nat)
    requires p <= 56
    ensures |Layout([], [], false, p)| ==
            p - (if p > 0 then 1 else 0) - (if p > 14 then 1 else 0) - (if p > 28 then 1 else 0) - (if p > 42 then 1 else 0)
  {
    if p > 0 {
      PackLength(p - 1);
    }
  }

  // ---------------------------------------------------------------------------------------
  // Fisher-Yates
  // ---------------------------------------------------------------------------------------

  /** Draws `ks` that the shuffle loop can have made on a list of length `len`: the j-th draw is
      `Random.Range(0, n + 1)` with `n = len - 1 - j`, so it lies in [0, len - 1 - j]. */
  predicate ValidDraws(ks: seq<int>, len: nat)
  {
    |ks| <= (if len == 0 then 0 else len - 1) &&
    forall j :: 0 <= j < |ks| ==> 0 <= ks[j] < len - j
  }

  /** All the draws of one complete shuffle (one per pass while `n > 1`). */
  predicate FullDraws(ks: seq<int>, len: nat)
  {
    ValidDraws(ks, len) && |ks| == (if len == 0 then 0 else len - 1)
  }

  /** Exchanges the elements at `i` and `j`. */
  function Swap<T>(s: seq<T>, i: nat, j: nat): (r: seq<T>)
    requires i < |s| && j < |s|
    ensures |r| == |s|
  {
    s[i := s[j]][j := s[i]]
  }

  /** An exchange only permutes. */
  lemma SwapPermutes<T>(s: seq<T>, i: nat, j: nat)
    requires i < |s| && j < |s|
    ensures multiset(Swap(s, i, j)) == multiset(s)
  {
  }

  /** The list after the shuffle loop has made the draws `ks`: the pass with draw `ks[j]` swaps
      positions `ks[j]` and `len - 1 - j`. */
  function Partial<T>(s: seq<T>, ks: seq<int>): (r: seq<T>)
    requires ValidDraws(ks, |s|)
    ensures |r| == |s|
  {
    if ks == [] then s
    else
      assert ValidDraws(ks[..|ks| - 1], |s|);
      Swap(Partial(s, ks[..|ks| - 1]), ks[|ks| - 1], |s| - |ks|)
  }

  /** The result of a complete shuffle with draws `ks`. */
  function Shuffled<T>(s: seq<T>, ks: seq<int>): seq<T>
    requires FullDraws(ks, |s|)
  {
    Partial(s, ks)
  }

  /** Whatever the draws, the shuffle only permutes: same length, same multiset of cards. */
  lemma {:induction false} ShufflePermutes<T>(s: seq<T>, ks: seq<int>)
    requires ValidDraws(ks, |s|)
    ensures |Partial(s, ks)| == |s|
    ensures multiset(Partial(s, ks)) == multiset(s)
  {
    if ks != [] {
      assert ValidDraws(ks[..|ks| - 1], |s|);
      ShufflePermutes(s, ks[..|ks| - 1]);
      SwapPermutes(Partial(s, ks[..|ks| - 1]), ks[|ks| - 1], |s| - |ks|);
    }
  }

  // ---------------------------------------------------------------------------------------
  // Scanning
  // ---------------------------------------------------------------------------------------

  /** The position of the first card of rank `rank`, or `|s|` when there is none. */
  function IndexOfRank(s: seq<Card>, rank: Rank): (i: nat)
    ensures i <= |s|
    ensures i < |s| ==> s[i].rank == rank
    ensures forall j :: 0 <= j < i ==> s[j].rank != rank
  {
    if s == [] then 0
    else if s[0].rank == rank then 0
    else 1 + IndexOfRank(s[1..], rank)
  }

  predicate HasRank(s: seq<Card>, rank: Rank)
  {
    IndexOfRank(s, rank) < |s|
  }

  /** `RemoveAt(i)`. */
  function RemoveAt<T>(s: seq<T>, i: nat): (r: seq<T>)
    requires i < |s|
    ensures |r| == |s| - 1
    ensures multiset(r) + multiset{s[i]} == multiset(s)
  {
    assert s == s[..i] + [s[i]] + s[i + 1..];
    s[..i] + s[i + 1..]
  }

  // ---------------------------------------------------------------------------------------
  // The deck
  // ---------------------------------------------------------------------------------------

  class Deck {
    var cards: seq<Card>
    var removedRanks: seq<Rank>
    var removedSuits: seq<Suit>
    var jokersInDeck: bool

    /** The deck holds no card twice and only cards its removals allow (equivalently, a
        sub-collection of a fresh build: `WellFormedIffSubComposition`); the removal lists hold no
        repetitions. */
    ghost predicate Valid()
      reads this
    {
      WellFormed(cards, removedRanks, removedSuits, jokersInDeck) &&
      Distinct(removedRanks) && Distinct(removedSuits)
    }

    /** The composition a rebuild would produce now. */
    function Fresh(): seq<Card>
      reads this
    {
      Composition(removedRanks, removedSuits, jokersInDeck)
    }

    constructor ()
      ensures Valid()
      ensures removedRanks == [] && removedSuits == [] && !jokersInDeck
      ensures cards == Fresh()
    {
      cards := [];
      removedRanks := [];
      removedSuits := [];
      jokersInDeck := false;
      new;
      InitializeDeck();
    }

    /** Rebuilds the deck from scratch, unshuffled. */
    method InitializeDeck()
      modifies this`cards
      ensures cards == Fresh()
      ensures Distinct(removedRanks) && Distinct(removedSuits) ==> Valid()
    {
      var rr, rs, jokers := removedRanks, removedSuits, jokersInDeck;
      var built := [];
      var si := 0;
      while si < 4
        invariant 0 <= si <= 4
        invariant BuiltUpTo(built, rr, rs, jokers, 14 * si)
      {
        var s: Suit := si;
        ghost var base := 14 * si;
        if s !in rs {
          CardAtSlot(s, NoRank);
          BuildStep(built, rr, rs, jokers, base);
          var r: int := Ace;
          while r <= King
            invariant Ace <= r <= King + 1
            invariant BuiltUpTo(built, rr, rs, jokers, base + r)
          {
            var rank: Rank := r;
            CardAtSlot(s, rank);
            BuildStep(built, rr, rs, jokers, base + r);
            if rank !in rr {
              built := built + [Card(rank, s)];
            }
            r := r + 1;
          }
        } else {
          SkipSuit(built, rr, rs, jokers, si);
        }
        assert 14 * (si + 1) == base + 14;
        si := si + 1;
      }
      if jokers {
        si := 0;
        while si < 4
          invariant 0 <= si <= 4
          invariant BuiltUpTo(built, rr, rs, jokers, 56 + si)
        {
          var s: Suit := si;
          BuildStep(built, rr, rs, jokers, 56 + si);
          if s !in rs {
            built := built + [Card(Joker, s)];
          }
          si := si + 1;
        }
      } else {
        SkipJokers(built, rr, rs);
      }
      BuiltAll(built, rr, rs, jokers);
      CompositionWellFormed(rr, rs, jokers);
      cards := built;
    }

    /** Fisher-Yates from the end. `ks` are the draws it made. */
    method Shuffle() returns (ghost ks: seq<int>)
      modifies this`cards
      ensures FullDraws(ks, |old(cards)|) && cards == Shuffled(old(cards), ks)
      ensures multiset(cards) == multiset(old(cards))
      ensures old(Valid()) ==> Valid()
    {
      ghost var start := cards;
      var n := |cards|;
      ks := [];
      while n > 1
        invariant 0 <= n <= |start| == |cards|
        invariant n == |start| - |ks|
        invariant ValidDraws(ks, |start|)
        invariant cards == Partial(start, ks)
      {
        n := n - 1;
        var k := Random.Range(0, n + 1);
        var value := cards[k];
        ghost var before := cards;
        cards := cards[k := cards[n]];
        cards := cards[n := value];
        ghost var drawn := ks;
        ks := ks + [k];
        assert ks[..|ks| - 1] == drawn;
        assert ValidDraws(ks, |start|);
        assert cards == Swap(before, k, n) == Partial(start, ks);
      }
      ShufflePermutes(start, ks);
      if old(Valid()) {
        SubcollectionWellFormed(cards, start, removedRanks, removedSuits, jokersInDeck);
      }
    }

    /** The refill of an empty deck: `InitializeDeck` followed by `Shuffle`, which leaves a
        reshuffled fresh build. */
    method Refill()
      requires Distinct(removedRanks) && Distinct(removedSuits)
      modifies this`cards
      ensures Valid()
      ensures multiset(cards) == multiset(Fresh())
    {
      InitializeDeck();
      ghost var ks := Shuffle();
    }

    /** Deals the top card, first rebuilding and reshuffling an empty deck. `None` stands for the
        fault of `cards[0]` when even the rebuilt deck is empty. */
    method DealCard() returns (dealt: Option<Card>)
      requires Valid()
      modifies this`cards
      ensures Valid()
      ensures old(cards) != [] ==> dealt == Some(old(cards)[0]) && cards == old(cards)[1..]
      ensures old(cards) == [] ==> (dealt.None? <==> Fresh() == [])
      ensures old(cards) == [] && dealt.Some? ==> multiset(cards) + multiset{dealt.value} == multiset(Fresh())
      ensures dealt.None? ==> cards == []
      ensures dealt.Some? ==> Allowed(dealt.value, removedRanks, removedSuits, jokersInDeck)
    {
      if |cards| == 0 {
        Refill();
      }
      if |cards| == 0 {
        return Option.None;
      }
      var top := cards[0];
      assert top in cards;
      assert cards == [top] + cards[1..];
      SubcollectionWellFormed(cards[1..], cards, removedRanks, removedSuits, jokersInDeck);
      cards := cards[1..];
      dealt := Some(top);
    }

    /** The top card without removing it, or `None` for an empty deck. */
    method PeekCard() returns (top: Option<Card>)
      ensures top.None? <==> cards == []
      ensures top.Some? ==> top.value == cards[0]
    {
      if |cards| == 0 {
        return Option.None;
      }
      return Some(cards[0]);
    }

    /** The search loop of `DealSpecificCard`: the first card of rank `rank` and its position, or
        `None` and -1. */
    method FindRank(rank: Rank) returns (dealt: Option<Card>, cardIndex: int)
      ensures var i := IndexOfRank(cards, rank);
        if i < |cards| then dealt == Some(cards[i]) && cardIndex == i
        else dealt.None? && cardIndex == -1
    {
      dealt := Option.None;
      cardIndex := -1;
      var i := 0;
      while i < |cards|
        invariant 0 <= i <= |cards|
        invariant forall j :: 0 <= j < i ==> cards[j].rank != rank
        invariant dealt.None? && cardIndex == -1
      {
        if cards[i].rank == rank {
          dealt := Some(cards[i]);
          cardIndex := i;
          break;
        }
        i := i + 1;
      }
    }

    /** Removes and returns the first card of rank `rank`; the other cards keep their order.
        `None`, with the deck untouched, when no card has that rank. */
    method DealSpecificCard(rank: Rank) returns (dealt: Option<Card>)
      requires Valid()
      modifies this`cards
      ensures Valid()
      ensures var i := IndexOfRank(old(cards), rank);
        if i < |old(cards)| then dealt == Some(old(cards)[i]) && cards == RemoveAt(old(cards), i)
        else dealt.None? && cards == old(cards)
      ensures dealt.Some? ==> dealt.value.rank == rank && Allowed(dealt.value, removedRanks, removedSuits, jokersInDeck)
    {
      var cardIndex;
      dealt, cardIndex := FindRank(rank);
      if cardIndex != -1 {
        assert cards[cardIndex] in cards;
        SubcollectionWellFormed(RemoveAt(cards, cardIndex), cards, removedRanks, removedSuits, jokersInDeck);
        cards := RemoveAt(cards, cardIndex);
        return dealt;
      }
      return Option.None;
    }

    /** Permanently removes a rank, then rebuilds and reshuffles. */
    method AddRemovedRank(rank: Rank) returns (ghost ks: seq<int>)
      requires Valid()
      modifies this`cards, this`removedRanks
      ensures Valid()
      ensures removedRanks == Added(old(removedRanks), rank)
      ensures FullDraws(ks, |Fresh()|) && cards == Shuffled(Fresh(), ks)
      ensures multiset(cards) == multiset(Fresh())
    {
      if rank !in removedRanks {
        removedRanks := removedRanks + [rank];
      }
      InitializeDeck();
      ks := Shuffle();
    }

    /** Permanently removes a suit, then rebuilds and reshuffles. */
    method AddRemovedSuit(suit: Suit) returns (ghost ks: seq<int>)
      requires Valid()
      modifies this`cards, this`removedSuits
      ensures Valid()
      ensures removedSuits == Added(old(removedSuits), suit)
      ensures FullDraws(ks, |Fresh()|) && cards == Shuffled(Fresh(), ks)
      ensures multiset(cards) == multiset(Fresh())
    {
      if suit !in removedSuits {
        removedSuits := removedSuits + [suit];
      }
      InitializeDeck();
      ks := Shuffle();
    }

    /** Enables Jokers and rebuilds and reshuffles; nothing at all happens when they already are. */
    method AddJokersToDeck() returns (ghost ks: seq<int>)
      requires Valid()
      modifies this`cards, this`jokersInDeck
      ensures Valid()
      ensures jokersInDeck
      ensures old(jokersInDeck) ==> cards == old(cards)
      ensures !old(jokersInDeck) ==> FullDraws(ks, |Fresh()|) && cards == Shuffled(Fresh(), ks)
    {
      ks := [];
      if !jokersInDeck {
        jokersInDeck := true;
        InitializeDeck();
        ks := Shuffle();
      }
    }
  }

  /** Removing a rank twice yields the same deck composition as removing it once, whatever the
      draws of the two reshuffles. */
  lemma RemoveRankTwiceIsOnce(removedRanks: seq<Rank>, removedSuits: seq<Suit>, jokers: bool, rank: Rank,
                              ks1: seq<int>, ks2: seq<int>)
    requires FullDraws(ks1, |Composition(Added(removedRanks, rank), removedSuits, jokers)|)
    requires FullDraws(ks2, |Composition(Added(Added(removedRanks, rank), rank), removedSuits, jokers)|)
    ensures Added(Added(removedRanks, rank), rank) == Added(removedRanks, rank)
    ensures multiset(Shuffled(Composition(Added(Added(removedRanks, rank), rank), removedSuits, jokers), ks2)) ==
            multiset(Shuffled(Composition(Added(removedRanks, rank), removedSuits, jokers), ks1))
  {
    var once := Composition(Added(removedRanks, rank), removedSuits, jokers);
    ShufflePermutes(once, ks1);
    ShufflePermutes(once, ks2);
  }

  /** Removing a suit twice yields the same deck composition as removing it once. */
  lemma RemoveSuitTwiceIsOnce(removedRanks: seq<Rank>, removedSuits: seq<Suit>, jokers: bool, suit: Suit,
                              ks1: seq<int>, ks2: seq<int>)
    requires FullDraws(ks1, |Composition(removedRanks, Added(removedSuits, suit), jokers)|)
    requires FullDraws(ks2, |Composition(removedRanks, Added(Added(removedSuits, suit), suit), jokers)|)
    ensures Added(Added(removedSuits, suit), suit) == Added(removedSuits, suit)
    ensures multiset(Shuffled(Composition(removedRanks, Added(Added(removedSuits, suit), suit), jokers), ks2)) ==
            multiset(Shuffled(Composition(removedRanks, Added(removedSuits, suit), jokers), ks1))
  {
    var once := Composition(removedRanks, Added(removedSuits, suit), jokers);
    ShufflePermutes(once, ks1);
    ShufflePermutes(once, ks2);
  }
}
