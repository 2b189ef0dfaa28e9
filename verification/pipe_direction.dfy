/** Compass directions on the pipe maze (2023/day10/src/direction.rs). */
module PipeDirection {

  /** The four directions, numbered 0 to 3 in declaration order. */
  datatype Direction = North | East | South | West

  /** The number of a direction, as its `u32` representation. */
  function Index(d: Direction): (r: nat)
    ensures r < 4
  {
    match d
    case North => 0
    case East => 1
    case South => 2
    case West => 3
  }

  lemma IndexInjective(d: Direction, e: Direction)
    requires Index(d) == Index(e)
    ensures d == e
  {
  }

  /** The directions in iteration order. */
  function Iter(): (r: seq<Direction>)
    ensures |r| == 4
    ensures forall i :: 0 <= i < 4 ==> Index(r[i]) == i
  {
    [North, East, South, West]
  }

  /** Iteration yields every direction exactly once. */
  lemma IterOnce(d: Direction)
    ensures multiset(Iter())[d] == 1
  {
    var r := Iter();
    assert r == [r[0]] + [r[1]] + [r[2]] + [r[3]];
    assert multiset(r) == multiset{r[0], r[1], r[2], r[3]};
    assert forall i :: 0 <= i < 4 ==> (r[i] == d <==> i == Index(d));
  }

  /** The opposite direction: half a turn. */
  function Reverse(d: Direction): (r: Direction)
    ensures Index(r) == (Index(d) + 2) % 4
  {
    match d
    case North => South
    case East => West
    case South => North
    case West => East
  }

  /** A quarter turn counter-clockwise. */
  function Left(d: Direction): (r: Direction)
    ensures Index(r) == (Index(d) + 3) % 4
  {
    match d
    case North => West
    case East => North
    case South => East
    case West => South
  }

  /** A quarter turn clockwise. */
  function Right(d: Direction): (r: Direction)
    ensures Index(r) == (Index(d) + 1) % 4
  {
    match d
    case North => East
    case East => South
    case South => West
    case West => North
  }

  /** Half a turn twice is no turn at all. */
  lemma {:induction false} ReverseInvolution(d: Direction)
    ensures Reverse(Reverse(d)) == d
  {
    IndexInjective(Reverse(Reverse(d)), d);
  }

  /** A left turn undoes a right turn and the other way round. */
  lemma {:induction false} LeftRightInverse(d: Direction)
    ensures Left(Right(d)) == d && Right(Left(d)) == d
  {
    IndexInjective(Left(Right(d)), d);
    IndexInjective(Right(Left(d)), d);
  }

  /** Two quarter turns either way are half a turn. */
  lemma {:induction false} LeftTwiceReverses(d: Direction)
    ensures Left(Left(d)) == Reverse(d) && Right(Right(d)) == Reverse(d)
  {
    IndexInjective(Left(Left(d)), Reverse(d));
    IndexInjective(Right(Right(d)), Reverse(d));
  }

  /** Four quarter turns come back to the start. */
  lemma {:induction false} LeftFourTimes(d: Direction)
    ensures Left(Left(Left(Left(d)))) == d
  {
    LeftTwiceReverses(d);
    LeftTwiceReverses(Reverse(d));
    ReverseInvolution(d);
  }
}
