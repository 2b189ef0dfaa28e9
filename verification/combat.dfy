/**
 * The card game of 2020 day 22, part 1.  Each player holds a deck, top
 * card first.  In a round both draw their top card; the higher card's
 * owner puts their own card and then the other one at the bottom of their
 * deck, and on a tie the second player takes both.  The game ends when a
 * deck is empty, and the winner's deck is scored.
 */
module Combat {
  import opened Outcomes
  import opened Arithmetic

  /** A card is a `u8`; a deck lists its cards from top to bottom. */
  type Card = Byte
  type Deck = seq<Card>

  datatype Decks = Decks(one: Deck, two: Deck)

  /** Every card in play. */
  function Cards(d: Decks): multiset<Card>
  {
    multiset(d.one) + multiset(d.two)
  }

  predicate Over(d: Decks)
  {
    d.one == [] || d.two == []
  }

  /** `round`: `None` when either deck is empty. */
  function Round(d: Decks): (r: Option<Decks>)
    ensures r.None? <==> Over(d)
  {
    if Over(d) then None
    else
      var (a, b) := (d.one[0], d.two[0]);
      if a > b then Some(Decks(d.one[1..] + [a, b], d.two[1..]))
      else Some(Decks(d.one[1..], d.two[1..] + [b, a]))
  }

  /**
   * The owner of the higher card keeps the rest of their deck and puts
   * their own card and then the other one underneath; the loser just
   * loses their top card.  A tie goes to the second player.
   */
  lemma RoundWinner(d: Decks)
    requires !Over(d)
    ensures d.one[0] > d.two[0] ==>
      Round(d) == Some(Decks(d.one[1..] + [d.one[0], d.two[0]], d.two[1..]))
    ensures d.one[0] <= d.two[0] ==>
      Round(d) == Some(Decks(d.one[1..], d.two[1..] + [d.two[0], d.one[0]]))
  {
  }

  /** A round keeps every card in play, so the number of cards too. */
  lemma RoundKeepsCards(d: Decks)
    requires !Over(d)
    ensures Cards(Round(d).value) == Cards(d)
    ensures |Round(d).value.one| + |Round(d).value.two| == |d.one| + |d.two|
  {
    assert d.one == [d.one[0]] + d.one[1..];
    assert d.two == [d.two[0]] + d.two[1..];
  }

  /** The decks after at most `fuel` rounds, or `None` if the game is
    * still going after that many. */
  function Played(d: Decks, fuel: nat): Option<Decks>
    decreases fuel
  {
    if Over(d) then Some(d)
    else if fuel == 0 then None
    else Played(Round(d).value, fuel - 1)
  }

  /** A finished game has an empty deck and still holds every card. */
  lemma {:induction false} PlayedOver(d: Decks, fuel: nat)
    ensures Played(d, fuel).Some? ==> Over(Played(d, fuel).value)
    ensures Played(d, fuel).Some? ==> Cards(Played(d, fuel).value) == Cards(d)
    decreases fuel
  {
    if !Over(d) && fuel > 0 {
      RoundKeepsCards(d);
      PlayedOver(Round(d).value, fuel - 1);
    }
  }

  /** More rounds never change a finished game's result. */
  lemma {:induction false} PlayedMonotone(d: Decks, fuel: nat, more: nat)
    requires fuel <= more && Played(d, fuel).Some?
    ensures Played(d, more) == Played(d, fuel)
    decreases fuel
  {
    if !Over(d) {
      var next := Round(d).value;
      assert Played(d, fuel) == Played(next, fuel - 1);
      assert Played(d, more) == Played(next, more - 1);
      PlayedMonotone(next, fuel - 1, more - 1);
    }
  }

  /**
   * `play`: run rounds until a deck is empty.  The game need not end, so
   * the loop is bounded by `fuel` rounds and answers `None` when they run
   * out.
   */
  method Play(decks: Decks, fuel: nat) returns (r: Option<Decks>)
    ensures r == Played(decks, fuel)
  {
    var d, left := decks, fuel;
    while !(d.one == [] || d.two == [])
      invariant Played(d, left) == Played(decks, fuel)
      decreases left
    {
      if left == 0 {
        return None;
      }
      d, left := Round(d).value, left - 1;
    }
    return Some(d);
  }

  /** `deck::score`: the bottom card counts once, the next twice, and so
    * on up to the top card. */
  function Score(deck: Deck): nat
  {
    if deck == [] then 0 else |deck| * deck[0] + Score(deck[1..])
  }

  /** The sum of the cards. */
  function Sum(deck: Deck): nat
  {
    if deck == [] then 0 else deck[0] + Sum(deck[1..])
  }

  /** Putting a card under the deck adds it once and every card above it
    * once more. */
  lemma {:induction false} ScoreSnoc(deck: Deck, c: Card)
    ensures Score(deck + [c]) == Score(deck) + Sum(deck) + c
    decreases |deck|
  {
    if deck == [] {
      assert [] + [c] == [c];
    } else {
      assert (deck + [c])[1..] == deck[1..] + [c];
      ScoreSnoc(deck[1..], c);
    }
  }

  /** `solve`: the winner's score, or `None` when `fuel` rounds do not
    * finish the game. */
  method Solve(decks: Decks, fuel: nat) returns (r: Option<nat>)
    ensures r.Some? <==> Played(decks, fuel).Some?
    ensures r.Some? ==> r.value == Score(Winner(Played(decks, fuel).value))
  {
    var played := Play(decks, fuel);
    if played.None? {
      return None;
    }
    var d := played.value;
    var winner := if d.one == [] then d.two else d.one;
    return Some(Score(winner));
  }

  /** The deck that is not empty once the game is over. */
  function Winner(d: Decks): (w: Deck)
    ensures Over(d) ==> multiset(w) == Cards(d)
  {
    if d.one == [] then d.two else d.one
  }

  /** The winner of a finished game holds every card dealt. */
  lemma WinnerHoldsAll(decks: Decks, fuel: nat)
    requires Played(decks, fuel).Some?
    ensures multiset(Winner(Played(decks, fuel).value)) == Cards(decks)
  {
    PlayedOver(decks, fuel);
  }
}
