/** Playing cards and their nominal values (the `Card` struct with its `Rank` and `Suit` enums).
    Both enums are integer-backed, as in the source, so casts and comparisons such as
    `rank >= Rank.Ten` keep their meaning. */
module Cards {

  /** `Card.Rank`: `None = 0, Ace = 1, ..., King = 13`, plus `Joker`, which the deck builds but the
      enum as shown lacks; it is given the next free value. */
  type Rank = r: int | 0 <= r <= 14

  /** The enum member `Rank.None`. */
  const NoRank: Rank := 0
  const Ace: Rank := 1
  const Two: Rank := 2
  const Three: Rank := 3
  const Four: Rank := 4
  const Five: Rank := 5
  const Six: Rank := 6
  const Seven: Rank := 7
  const Eight: Rank := 8
  const Nine: Rank := 9
  const Ten: Rank := 10
  const Jack: Rank := 11
  const Queen: Rank := 12
  const King: Rank := 13
  const Joker: Rank := 14

  /** `Card.Suit`: `Clubs, Diamonds, Hearts, Spades` = 0..3, the order `Enum.GetValues` yields. */
  type Suit = s: int | 0 <= s < 4

  const Clubs: Suit := 0
  const Diamonds: Suit := 1
  const Hearts: Suit := 2
  const Spades: Suit := 3

  datatype Card = Card(rank: Rank, suit: Suit)
  {
    /** `GetValue`: Ten to King count 10, an Ace 11 (before any ace rule), the others their
        ordinal. No shown code defines the value of a Joker, so it is excluded. */
    function GetValue(): (v: int)
      requires rank != Joker
      ensures IsTenValued(rank) ==> v == 10
      ensures rank == Ace ==> v == 11
      ensures rank == NoRank ==> v == 0
      ensures IsPip(rank) ==> v == rank
      ensures IsStandard(rank) ==> 2 <= v <= 11
    {
      if rank >= Ten && rank <= King then 10
      else if rank == Ace then 11
      else rank
    }
  }

  /** The value of a rank, the same in every suit. */
  function RankValue(r: Rank): (v: int)
    requires r != Joker
    ensures forall s: Suit :: Card(r, s).GetValue() == v
  {
    Card(r, Clubs).GetValue()
  }

  /** The ranks a deck is built from: Ace through King. */
  predicate IsStandard(r: Rank) { Ace <= r <= King }

  predicate IsTenValued(r: Rank) { Ten <= r <= King }

  /** Two through Nine. */
  predicate IsPip(r: Rank) { Two <= r <= Nine }
}
