/** Directions and turns of the mine carts (2018/13/day13/rotation.py). */
module MineRotation {
  import opened Outcomes

  /** The facing of a cart, in the order the direction enum enumerates its
      members: down, left, right, up.  Rows grow downwards. */
  datatype Direction = Down | Left | Right | Up

  /** The glyph a cart facing `d` is drawn with. */
  function Glyph(d: Direction): char
  {
    match d
    case Down => 'v'
    case Left => '<'
    case Right => '>'
    case Up => '^'
  }

  /** The direction drawn by glyph `c`, or nothing for a cell without a cart. */
  function ParseDirection(c: char): (r: Option<Direction>)
    ensures r.Some? <==> c in "v<>^"
    ensures r.Some? ==> Glyph(r.value) == c
    ensures forall d: Direction :: c == Glyph(d) ==> r == Some(d)
  {
    match c
    case 'v' => Some(Down)
    case '<' => Some(Left)
    case '>' => Some(Right)
    case '^' => Some(Up)
    case _ => None
  }

  /** The turn a cart takes at an intersection. */
  datatype Rotation = TurnLeft | GoStraight | TurnRight

  /** The turn after `r` in the cycle right, left, straight, right, ... */
  function NextRotation(r: Rotation): (n: Rotation)
    ensures n != r
  {
    if r == TurnRight then TurnLeft
    else if r == TurnLeft then GoStraight
    else TurnRight
  }

  type DirectionDict = map<Rotation, map<Direction, Direction>>

  /** The directions in enumeration order. */
  const Dlru: seq<Direction> := [Down, Left, Right, Up]

  /** Row `rot` lists the images of down, left, right and up under `rot`. */
  function RotatedRow(rot: Rotation): seq<Direction>
  {
    match rot
    case TurnLeft => [Right, Down, Up, Left]
    case GoStraight => [Down, Left, Right, Up]
    case TurnRight => [Left, Up, Down, Right]
  }

  /** Pairs each direction of the enumeration order with the direction at
      the same position of `news`. */
  function ZipDlru(news: seq<Direction>): (m: map<Direction, Direction>)
    requires |news| == 4
    ensures m.Keys == {Down, Left, Right, Up}
    ensures m[Down] == news[0] && m[Left] == news[1] && m[Right] == news[2] && m[Up] == news[3]
  {
    map[Dlru[0] := news[0], Dlru[1] := news[1], Dlru[2] := news[2], Dlru[3] := news[3]]
  }

  /** The table of rotated directions, keyed by rotation, then by direction. */
  function MakeRotatedDirections(): (t: DirectionDict)
    ensures t.Keys == {TurnLeft, GoStraight, TurnRight}
    ensures t[TurnLeft] == ZipDlru(RotatedRow(TurnLeft))
    ensures t[GoStraight] == ZipDlru(RotatedRow(GoStraight))
    ensures t[TurnRight] == ZipDlru(RotatedRow(TurnRight))
  {
    map[TurnLeft := ZipDlru(RotatedRow(TurnLeft)),
        GoStraight := ZipDlru(RotatedRow(GoStraight)),
        TurnRight := ZipDlru(RotatedRow(TurnRight))]
  }

  const RotatedDirections: DirectionDict := MakeRotatedDirections()

  datatype RotationError = BadRotation | BadDirection

  /** Looks `d` up in row `rot` of `table`; a missing rotation or direction
      is an error. */
  function RotateIn(table: DirectionDict, d: Direction, rot: Rotation): (r: Result<Direction, RotationError>)
    ensures r == Err(BadRotation) <==> rot !in table
    ensures r == Err(BadDirection) <==> rot in table && d !in table[rot]
    ensures r.Ok? ==> rot in table && d in table[rot] && r.value == table[rot][d]
  {
    if rot !in table then Err(BadRotation)
    else if d !in table[rot] then Err(BadDirection)
    else Ok(table[rot][d])
  }

  /** Rotates `d` by `rot` through the rotation table. */
  function RotateDirection(d: Direction, rot: Rotation): Result<Direction, RotationError>
  {
    RotateIn(RotatedDirections, d, rot)
  }

  /** The rotation table covers every rotation and every direction, so
      rotating never fails. */
  lemma {:induction false} RotateDirectionTotal(d: Direction, rot: Rotation)
    ensures RotateDirection(d, rot).Ok?
    ensures RotateDirection(d, rot).value == RotatedRow(rot)[DirectionIndex(d)]
  {
    assert rot in RotatedDirections.Keys;
    assert RotatedDirections[rot] == ZipDlru(RotatedRow(rot)) by {
      match rot
      case TurnLeft =>
      case GoStraight =>
      case TurnRight =>
    }
    match d
    case Down =>
    case Left =>
    case Right =>
    case Up =>
  }

  /** The position of `d` in the enumeration order. */
  function DirectionIndex(d: Direction): (i: nat)
    ensures i < 4 && Dlru[i] == d
  {
    match d
    case Down => 0
    case Left => 1
    case Right => 2
    case Up => 3
  }

  /** The total rotation, once the table is known to be complete. */
  function Rotate(d: Direction, rot: Rotation): (r: Direction)
    ensures RotateDirection(d, rot) == Ok(r)
  {
    RotateDirectionTotal(d, rot);
    RotateDirection(d, rot).value
  }

  /** next_rotation cycles with period three: right, left, straight. */
  lemma NextRotationCycle(r: Rotation)
    ensures NextRotation(NextRotation(NextRotation(r))) == r
    ensures NextRotation(TurnRight) == TurnLeft
    ensures NextRotation(TurnLeft) == GoStraight
    ensures NextRotation(GoStraight) == TurnRight
  {
  }

  /** Going straight leaves every direction as it is. */
  lemma StraightIsIdentity(d: Direction)
    ensures Rotate(d, GoStraight) == d
  {
    RotateDirectionTotal(d, GoStraight);
  }

  /** Turning left and turning right undo each other. */
  lemma LeftRightInverse(d: Direction)
    ensures Rotate(Rotate(d, TurnLeft), TurnRight) == d
    ensures Rotate(Rotate(d, TurnRight), TurnLeft) == d
  {
    RotateDirectionTotal(d, TurnLeft);
    RotateDirectionTotal(d, TurnRight);
    RotateDirectionTotal(Rotate(d, TurnLeft), TurnRight);
    RotateDirectionTotal(Rotate(d, TurnRight), TurnLeft);
  }

  /** Four left turns bring a cart back to its facing. */
  lemma FourLeftTurns(d: Direction)
    ensures Rotate(Rotate(Rotate(Rotate(d, TurnLeft), TurnLeft), TurnLeft), TurnLeft) == d
  {
    var d1 := Rotate(d, TurnLeft);
    var d2 := Rotate(d1, TurnLeft);
    var d3 := Rotate(d2, TurnLeft);
    RotateDirectionTotal(d, TurnLeft);
    RotateDirectionTotal(d1, TurnLeft);
    RotateDirectionTotal(d2, TurnLeft);
    RotateDirectionTotal(d3, TurnLeft);
  }

  /** Every row of the table is a bijection on the four directions. */
  lemma RotationIsBijection(rot: Rotation)
    ensures forall d1: Direction, d2: Direction :: Rotate(d1, rot) == Rotate(d2, rot) ==> d1 == d2
    ensures forall e: Direction :: Rotate(Rotate(e, Inverse(rot)), rot) == e
  {
    forall d: Direction ensures Rotate(d, rot) == RotatedRow(rot)[DirectionIndex(d)] {
      RotateDirectionTotal(d, rot);
    }
    forall e: Direction ensures Rotate(Rotate(e, Inverse(rot)), rot) == e {
      LeftRightInverse(e);
      StraightIsIdentity(e);
    }
  }

  /** The rotation that undoes `rot`. */
  function Inverse(rot: Rotation): Rotation
  {
    match rot
    case TurnLeft => TurnRight
    case GoStraight => GoStraight
    case TurnRight => TurnLeft
  }

  /** Three consecutive intersections, starting from a cart whose last turn
      was right, turn it left, straight and right: its facing is restored. */
  lemma ThreeIntersections(d: Direction)
    ensures var t1 := NextRotation(TurnRight);
            var t2 := NextRotation(t1);
            var t3 := NextRotation(t2);
            t3 == TurnRight && Rotate(Rotate(Rotate(d, t1), t2), t3) == d
  {
    StraightIsIdentity(Rotate(d, TurnLeft));
    LeftRightInverse(d);
  }
}
