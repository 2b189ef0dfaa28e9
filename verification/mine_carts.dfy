/** The mine-cart simulation (2018/13/day13/part1.py): a tick moves every
    cart one cell in reading order, noting the first collision, and then
    turns every cart according to the segment under it. */
module MineCarts {
  import opened Outcomes
  import opened MineRotation
  import opened MineTrack

  datatype Cart = Cart(direction: Direction, lastTurn: Rotation)

  /** (row, column) */
  type Coordinate = (int, int)

  /** The carts at each occupied coordinate, in insertion order. */
  type CartDict = map<Coordinate, seq<Cart>>

  /** The glyph drawn where two or more carts share a cell. */
  const CollisionChar := 'X'

  function Bucket(carts: CartDict, coord: Coordinate): seq<Cart>
  {
    if coord in carts then carts[coord] else []
  }

  /** Appends `cart` to the bucket at `coord`, creating the bucket if needed;
      every other bucket is untouched. */
  function InsertCart(carts: CartDict, coord: Coordinate, cart: Cart): (r: CartDict)
    ensures r.Keys == carts.Keys + {coord}
    ensures r[coord] == Bucket(carts, coord) + [cart]
    ensures forall c :: c in carts && c != coord ==> r[c] == carts[c]
  {
    carts[coord := Bucket(carts, coord) + [cart]]
  }

  // ---------------------------------------------------------------------
  // Reading order

  /** `a` comes before `b` in row-major (reading) order. */
  predicate Before(a: Coordinate, b: Coordinate)
  {
    a.0 < b.0 || (a.0 == b.0 && a.1 < b.1)
  }

  /** Strictly decreasing in reading order: the last element comes first. */
  predicate Descending(q: seq<Coordinate>)
  {
    forall i, j :: 0 <= i < j < |q| ==> Before(q[j], q[i])
  }

  /** `m` is the first of `keys` in reading order. */
  predicate IsLeast(m: Coordinate, keys: set<Coordinate>)
  {
    m in keys && forall c :: c in keys && c != m ==> Before(m, c)
  }

  lemma {:induction false} LeastExists(keys: set<Coordinate>)
    requires keys != {}
    ensures exists m :: IsLeast(m, keys)
    decreases keys
  {
    var x :| x in keys;
    var rest := keys - {x};
    if rest == {} {
      assert keys == {x};
      assert IsLeast(x, keys);
    } else {
      LeastExists(rest);
      var m :| IsLeast(m, rest);
      if Before(x, m) {
        forall c | c in keys && c != x
          ensures Before(x, c)
        {
          if c != m {
            assert c in rest;
          }
        }
        assert IsLeast(x, keys);
      } else {
        assert Before(m, x);
        assert IsLeast(m, keys);
      }
    }
  }

  /** The first of `keys` in reading order. */
  function Least(keys: set<Coordinate>): (m: Coordinate)
    requires keys != {}
    ensures m in keys && forall c :: c in keys && c != m ==> Before(m, c)
  {
    LeastExists(keys);
    var m :| IsLeast(m, keys); m
  }

  /** The keys sorted in reverse reading order, so that popping from the end
      visits them in reading order. */
  function SortedDescending(keys: set<Coordinate>): (q: seq<Coordinate>)
    ensures Descending(q)
    ensures forall c :: c in q <==> c in keys
    ensures |q| == |keys|
    decreases keys
  {
    if keys == {} then []
    else
      var m := Least(keys);
      SortedDescending(keys - {m}) + [m]
  }

  // ---------------------------------------------------------------------
  // The move phase

  /** The cell a cart heading in `d` enters: one cell away, on the column
      for Down and Up and on the row for Left and Right, and later in
      reading order exactly for Down and Right. */
  function Step(coord: Coordinate, d: Direction): (r: Coordinate)
    ensures Distance(coord, r) == 1
    ensures r.1 == coord.1 <==> d == Down || d == Up
    ensures Before(coord, r) <==> d == Down || d == Right
  {
    var (i, j) := coord;
    match d
    case Down => (i + 1, j)
    case Left => (i, j - 1)
    case Right => (i, j + 1)
    case Up => (i - 1, j)
  }

  function Abs(x: int): nat
  {
    if x < 0 then -x else x
  }

  function Distance(a: Coordinate, b: Coordinate): nat
  {
    Abs(a.0 - b.0) + Abs(a.1 - b.1)
  }

  function Opposite(d: Direction): Direction
  {
    match d
    case Down => Up
    case Left => Right
    case Right => Left
    case Up => Down
  }

  /** Stepping back the opposite way returns to the cell left. */
  lemma StepBack(coord: Coordinate, d: Direction)
    ensures Step(Step(coord, d), Opposite(d)) == coord
    ensures Opposite(d) == Rotate(Rotate(d, TurnLeft), TurnLeft)
  {
    match d
    case Down =>
    case Left =>
    case Right =>
    case Up =>
  }

  /** The new carts so far and the first collision seen so far. */
  datatype Moved = Moved(carts: CartDict, collision: Option<Coordinate>)

  /** Moves one cart out of `coord`; `queue` holds the coordinates still to
      be visited. Entering a cell that is still queued or already holds a
      moved cart is a collision, recorded only if none was recorded before. */
  function MoveOne(coord: Coordinate, cart: Cart, queue: seq<Coordinate>, st: Moved): Moved
  {
    var dest := Step(coord, cart.direction);
    var collision := if st.collision.None? && (dest in queue || dest in st.carts) then Some(dest) else st.collision;
    Moved(InsertCart(st.carts, dest, cart), collision)
  }

  /** Moves the carts of `bucket`, first to last. */
  function MoveBucket(coord: Coordinate, bucket: seq<Cart>, queue: seq<Coordinate>, st: Moved): Moved
    decreases |bucket|
  {
    if bucket == [] then st
    else MoveOne(coord, bucket[|bucket| - 1], queue, MoveBucket(coord, bucket[..|bucket| - 1], queue, st))
  }

  /** Pops coordinates off the end of `queue` and moves their buckets. */
  function MoveQueue(carts: CartDict, queue: seq<Coordinate>, st: Moved): Moved
    requires forall c :: c in queue ==> c in carts
    decreases |queue|
  {
    if queue == [] then st
    else
      var coord := queue[|queue| - 1];
      var rest := queue[..|queue| - 1];
      MoveQueue(carts, rest, MoveBucket(coord, carts[coord], rest, st))
  }

  /** The move phase of a tick. */
  function MoveAll(carts: CartDict): Moved
  {
    MoveQueue(carts, SortedDescending(carts.Keys), Moved(map[], None))
  }

  /** Moves every cart one cell, visiting the occupied cells in reading
      order and the carts of a cell in their order. */
  method MoveCarts(carts: CartDict) returns (newCarts: CartDict, collision: Option<Coordinate>)
    ensures Moved(newCarts, collision) == MoveAll(carts)
  {
    newCarts := map[];
    collision := None;
    var queue := SortedDescending(carts.Keys);
    while queue != []
      invariant forall c :: c in queue ==> c in carts
      invariant MoveQueue(carts, queue, Moved(newCarts, collision)) == MoveAll(carts)
      decreases |queue|
    {
      var coord := queue[|queue| - 1];
      ghost var queued := queue;
      queue := queue[..|queue| - 1];
      var bucket := carts[coord];
      ghost var before := Moved(newCarts, collision);
      assert MoveQueue(carts, queued, before) == MoveQueue(carts, queue, MoveBucket(coord, bucket, queue, before));
      for k := 0 to |bucket|
        invariant Moved(newCarts, collision) == MoveBucket(coord, bucket[..k], queue, before)
      {
        var cart := bucket[k];
        ghost var next := MoveOne(coord, cart, queue, Moved(newCarts, collision));
        assert MoveBucket(coord, bucket[..k + 1], queue, before) == next by {
          assert bucket[..k + 1][..k] == bucket[..k];
        }
        var newCoord := Step(coord, cart.direction);
        if collision.None? && (newCoord in queue || newCoord in newCarts) {
          collision := Some(newCoord);
        }
        newCarts := InsertCart(newCarts, newCoord, cart);
      }
      assert bucket[..|bucket|] == bucket;
    }
  }

  // ---------------------------------------------------------------------
  // Properties of the move phase

  /** A recorded collision is never replaced by a later one. */
  lemma {:induction false} CollisionKept(carts: CartDict, queue: seq<Coordinate>, st: Moved)
    requires forall c :: c in queue ==> c in carts
    requires st.collision.Some?
    ensures MoveQueue(carts, queue, st).collision == st.collision
    decreases |queue|
  {
    if queue != [] {
      var coord := queue[|queue| - 1];
      var rest := queue[..|queue| - 1];
      BucketKeepsCollision(coord, carts[coord], rest, st);
      CollisionKept(carts, rest, MoveBucket(coord, carts[coord], rest, st));
    }
  }

  lemma {:induction false} BucketKeepsCollision(coord: Coordinate, bucket: seq<Cart>, queue: seq<Coordinate>, st: Moved)
    requires st.collision.Some?
    ensures MoveBucket(coord, bucket, queue, st).collision == st.collision
    decreases |bucket|
  {
    if bucket != [] {
      BucketKeepsCollision(coord, bucket[..|bucket| - 1], queue, st);
    }
  }

  /** Every bucket holds exactly one cart. */
  predicate Singles(carts: CartDict)
  {
    forall c :: c in carts ==> |carts[c]| == 1
  }

  lemma {:induction false} BucketSingles(coord: Coordinate, bucket: seq<Cart>, queue: seq<Coordinate>, st: Moved)
    requires Singles(st.carts)
    ensures MoveBucket(coord, bucket, queue, st).collision.None? ==> Singles(MoveBucket(coord, bucket, queue, st).carts)
    decreases |bucket|
  {
    if bucket != [] {
      var prior := MoveBucket(coord, bucket[..|bucket| - 1], queue, st);
      BucketSingles(coord, bucket[..|bucket| - 1], queue, st);
      if prior.collision.Some? {
        assert MoveOne(coord, bucket[|bucket| - 1], queue, prior).collision.Some?;
      }
    }
  }

  lemma {:induction false} QueueSingles(carts: CartDict, queue: seq<Coordinate>, st: Moved)
    requires forall c :: c in queue ==> c in carts
    requires Singles(st.carts)
    ensures MoveQueue(carts, queue, st).collision.None? ==> Singles(MoveQueue(carts, queue, st).carts)
    decreases |queue|
  {
    if queue != [] {
      var coord := queue[|queue| - 1];
      var rest := queue[..|queue| - 1];
      var mid := MoveBucket(coord, carts[coord], rest, st);
      BucketSingles(coord, carts[coord], rest, st);
      if mid.collision.Some? {
        CollisionKept(carts, rest, mid);
      } else {
        QueueSingles(carts, rest, mid);
      }
    }
  }

  /** A tick without a collision leaves every cell with at most one cart:
      two carts can only come to share a cell through a recorded collision. */
  lemma NoCollisionNoSharing(carts: CartDict)
    ensures MoveAll(carts).collision.None? ==> Singles(MoveAll(carts).carts)
  {
    QueueSingles(carts, SortedDescending(carts.Keys), Moved(map[], None));
  }

  lemma {:induction false} BucketCollisionLands(coord: Coordinate, bucket: seq<Cart>, queue: seq<Coordinate>, st: Moved)
    requires st.collision.Some? ==> st.collision.value in st.carts
    ensures var r := MoveBucket(coord, bucket, queue, st);
      r.collision.Some? ==> r.collision.value in r.carts
    ensures st.carts.Keys <= MoveBucket(coord, bucket, queue, st).carts.Keys
    decreases |bucket|
  {
    if bucket != [] {
      BucketCollisionLands(coord, bucket[..|bucket| - 1], queue, st);
    }
  }

  lemma {:induction false} QueueCollisionLands(carts: CartDict, queue: seq<Coordinate>, st: Moved)
    requires forall c :: c in queue ==> c in carts
    requires st.collision.Some? ==> st.collision.value in st.carts
    ensures var r := MoveQueue(carts, queue, st);
      r.collision.Some? ==> r.collision.value in r.carts
    decreases |queue|
  {
    if queue != [] {
      var coord := queue[|queue| - 1];
      var rest := queue[..|queue| - 1];
      BucketCollisionLands(coord, carts[coord], rest, st);
      QueueCollisionLands(carts, rest, MoveBucket(coord, carts[coord], rest, st));
    }
  }

  /** The reported collision is a cell some cart moved into. */
  lemma CollisionIsOccupied(carts: CartDict)
    ensures MoveAll(carts).collision.Some? ==> MoveAll(carts).collision.value in MoveAll(carts).carts
  {
    QueueCollisionLands(carts, SortedDescending(carts.Keys), Moved(map[], None));
  }

  /** A cart alone on the track just moves and never collides. */
  lemma LoneCart(coord: Coordinate, cart: Cart)
    ensures MoveAll(map[coord := [cart]]) == Moved(map[Step(coord, cart.direction) := [cart]], None)
  {
    var carts := map[coord := [cart]];
    assert carts.Keys == {coord};
    assert Least({coord}) == coord;
    assert {coord} - {coord} == {};
    assert SortedDescending(carts.Keys) == [coord];
    assert [cart][..0] == [];
    MoveSingle(coord, cart, [], Moved(map[], None));
    InsertIntoEmpty(Step(coord, cart.direction), cart);
    assert [coord][..0] == [];
    assert MoveAll(carts) == MoveQueue(carts, [coord], Moved(map[], None));
    assert MoveQueue(carts, [coord], Moved(map[], None))
        == MoveQueue(carts, [], MoveBucket(coord, [cart], [], Moved(map[], None)));
  }

  lemma MoveSingle(coord: Coordinate, cart: Cart, queue: seq<Coordinate>, st: Moved)
    ensures MoveBucket(coord, [cart], queue, st) == MoveOne(coord, cart, queue, st)
  {
    assert [cart][..0] == [];
  }

  lemma InsertIntoEmpty(coord: Coordinate, cart: Cart)
    ensures InsertCart(map[], coord, cart) == map[coord := [cart]]
  {
    assert Bucket(map[], coord) + [cart] == [cart];
  }

  /** The two carts of "->-<-" meet in the middle cell. */
  lemma HeadOnCollision()
    ensures var carts := map[(0, 1) := [Cart(Right, TurnRight)], (0, 3) := [Cart(Left, TurnRight)]];
      MoveAll(carts) == Moved(map[(0, 2) := [Cart(Right, TurnRight), Cart(Left, TurnRight)]], Some((0, 2)))
  {
    var carts := map[(0, 1) := [Cart(Right, TurnRight)], (0, 3) := [Cart(Left, TurnRight)]];
    HeadOnQueue(carts);
    HeadOnFirst(carts);
    HeadOnSecond(carts);
  }

  /** The two cells of the head-on example, last first. */
  lemma HeadOnQueue(carts: CartDict)
    requires carts == map[(0, 1) := [Cart(Right, TurnRight)], (0, 3) := [Cart(Left, TurnRight)]]
    ensures SortedDescending(carts.Keys) == [(0, 3), (0, 1)]
  {
    var keys := carts.Keys;
    assert keys == {(0, 1), (0, 3)};
    assert Least(keys) == (0, 1);
    assert keys - {(0, 1)} == {(0, 3)};
    assert Least({(0, 3)}) == (0, 3);
    assert {(0, 3)} - {(0, 3)} == {};
  }

  /** The cart moving right goes first and lands alone. */
  lemma HeadOnFirst(carts: CartDict)
    requires carts == map[(0, 1) := [Cart(Right, TurnRight)], (0, 3) := [Cart(Left, TurnRight)]]
    ensures MoveQueue(carts, [(0, 3), (0, 1)], Moved(map[], None))
      == MoveQueue(carts, [(0, 3)], Moved(map[(0, 2) := [Cart(Right, TurnRight)]], None))
  {
    MoveSingle((0, 1), Cart(Right, TurnRight), [(0, 3)], Moved(map[], None));
    InsertIntoEmpty((0, 2), Cart(Right, TurnRight));
    assert [(0, 3), (0, 1)][..1] == [(0, 3)];
  }

  /** The cart moving left then joins it, which is the first collision. */
  lemma HeadOnSecond(carts: CartDict)
    requires carts == map[(0, 1) := [Cart(Right, TurnRight)], (0, 3) := [Cart(Left, TurnRight)]]
    ensures MoveQueue(carts, [(0, 3)], Moved(map[(0, 2) := [Cart(Right, TurnRight)]], None))
      == Moved(map[(0, 2) := [Cart(Right, TurnRight), Cart(Left, TurnRight)]], Some((0, 2)))
  {
    var a, b := Cart(Right, TurnRight), Cart(Left, TurnRight);
    var first := Moved(map[(0, 2) := [a]], None);
    MoveSingle((0, 3), b, [], first);
    assert [(0, 3)][..0] == [];
    assert Step((0, 3), Left) == (0, 2);
    assert Bucket(first.carts, (0, 2)) + [b] == [a, b];
  }

  // ---------------------------------------------------------------------
  // Every cart is moved exactly once

  /** The cells and carts of one bucket. */
  function Entries(coord: Coordinate, bucket: seq<Cart>): (e: seq<(Coordinate, Cart)>)
    ensures |e| == |bucket|
  {
    seq(|bucket|, i requires 0 <= i < |bucket| => (coord, bucket[i]))
  }

  /** Every (cell, cart) of a placement, with multiplicity. */
  ghost function Placed(m: CartDict): multiset<(Coordinate, Cart)>
    decreases m.Keys
  {
    if m == map[] then multiset{}
    else
      var k :| k in m;
      multiset(Entries(k, m[k])) + Placed(m - {k})
  }

  lemma {:induction false} PlacedAt(m: CartDict, k: Coordinate)
    requires k in m
    ensures Placed(m) == multiset(Entries(k, m[k])) + Placed(m - {k})
    decreases m.Keys
  {
    var k' :| k' in m && Placed(m) == multiset(Entries(k', m[k'])) + Placed(m - {k'});
    if k' != k {
      PlacedAt(m - {k'}, k);
      PlacedAt(m - {k}, k');
      assert m - {k'} - {k} == m - {k} - {k'};
    }
  }

  lemma PlacedInsert(m: CartDict, k: Coordinate, cart: Cart)
    ensures Placed(InsertCart(m, k, cart)) == Placed(m) + multiset{(k, cart)}
  {
    PlacedAfterInsert(m, k, cart);
    PlacedBucket(m, k);
    Reorder(multiset(Entries(k, Bucket(m, k))), multiset{(k, cart)}, Placed(m - {k}));
  }

  /** Splits off the bucket at `k`, empty or not. */
  lemma PlacedBucket(m: CartDict, k: Coordinate)
    ensures Placed(m) == multiset(Entries(k, Bucket(m, k))) + Placed(m - {k})
  {
    if k in m {
      PlacedAt(m, k);
    } else {
      assert m - {k} == m;
    }
  }

  lemma PlacedAfterInsert(m: CartDict, k: Coordinate, cart: Cart)
    ensures Placed(InsertCart(m, k, cart))
         == multiset(Entries(k, Bucket(m, k))) + multiset{(k, cart)} + Placed(m - {k})
  {
    var r := InsertCart(m, k, cart);
    PlacedAt(r, k);
    assert Entries(k, Bucket(m, k) + [cart]) == Entries(k, Bucket(m, k)) + [(k, cart)];
    assert r - {k} == m - {k};
  }

  lemma Reorder<T>(a: multiset<T>, b: multiset<T>, c: multiset<T>)
    ensures a + b + c == a + c + b
  {
  }

  /** Each entry moved one step in its cart's direction. */
  function Shifted(e: seq<(Coordinate, Cart)>): (s: seq<(Coordinate, Cart)>)
    ensures |s| == |e|
  {
    seq(|e|, i requires 0 <= i < |e| => (Step(e[i].0, e[i].1.direction), e[i].1))
  }

  lemma {:induction false} BucketPlaced(coord: Coordinate, bucket: seq<Cart>, queue: seq<Coordinate>, st: Moved)
    ensures Placed(MoveBucket(coord, bucket, queue, st).carts)
         == Placed(st.carts) + multiset(Shifted(Entries(coord, bucket)))
    decreases |bucket|
  {
    if bucket != [] {
      var init := bucket[..|bucket| - 1];
      var last := bucket[|bucket| - 1];
      var prior := MoveBucket(coord, init, queue, st);
      BucketPlaced(coord, init, queue, st);
      PlacedInsert(prior.carts, Step(coord, last.direction), last);
      ShiftedEntriesLast(coord, bucket);
    }
  }

  lemma ShiftedEntriesLast(coord: Coordinate, bucket: seq<Cart>)
    requires bucket != []
    ensures var last := bucket[|bucket| - 1];
      multiset(Shifted(Entries(coord, bucket)))
      == multiset(Shifted(Entries(coord, bucket[..|bucket| - 1]))) + multiset{(Step(coord, last.direction), last)}
  {
    var last := bucket[|bucket| - 1];
    assert Shifted(Entries(coord, bucket))
        == Shifted(Entries(coord, bucket[..|bucket| - 1])) + [(Step(coord, last.direction), last)];
  }

  lemma ShiftedConcat(a: seq<(Coordinate, Cart)>, b: seq<(Coordinate, Cart)>)
    ensures multiset(Shifted(a + b)) == multiset(Shifted(a)) + multiset(Shifted(b))
  {
    assert Shifted(a + b) == Shifted(a) + Shifted(b);
  }

  /** The entries of the buckets at `queue`, in the order they are visited. */
  function Listing(carts: CartDict, queue: seq<Coordinate>): seq<(Coordinate, Cart)>
    requires forall c :: c in queue ==> c in carts
    decreases |queue|
  {
    if queue == [] then []
    else
      var coord := queue[|queue| - 1];
      Entries(coord, carts[coord]) + Listing(carts, queue[..|queue| - 1])
  }

  lemma {:induction false} QueuePlaced(carts: CartDict, queue: seq<Coordinate>, st: Moved)
    requires forall c :: c in queue ==> c in carts
    ensures Placed(MoveQueue(carts, queue, st).carts)
         == Placed(st.carts) + multiset(Shifted(Listing(carts, queue)))
    decreases |queue|
  {
    if queue != [] {
      var coord := queue[|queue| - 1];
      var rest := queue[..|queue| - 1];
      BucketPlaced(coord, carts[coord], rest, st);
      QueuePlaced(carts, rest, MoveBucket(coord, carts[coord], rest, st));
      ShiftedConcat(Entries(coord, carts[coord]), Listing(carts, rest));
    }
  }

  lemma {:induction false} ListingAgrees(m1: CartDict, m2: CartDict, queue: seq<Coordinate>)
    requires forall c :: c in queue ==> c in m1 && c in m2 && m1[c] == m2[c]
    ensures Listing(m1, queue) == Listing(m2, queue)
    decreases |queue|
  {
    if queue != [] {
      ListingAgrees(m1, m2, queue[..|queue| - 1]);
    }
  }

  lemma {:induction false} PlacedListing(m: CartDict, queue: seq<Coordinate>)
    requires Descending(queue)
    requires forall c :: c in queue <==> c in m
    ensures Placed(m) == multiset(Listing(m, queue))
    decreases |queue|
  {
    if queue == [] {
      assert m == map[];
    } else {
      var coord := queue[|queue| - 1];
      var rest := queue[..|queue| - 1];
      PlacedAt(m, coord);
      assert forall c :: c in rest ==> c != coord;
      PlacedListing(m - {coord}, rest);
      ListingAgrees(m - {coord}, m, rest);
    }
  }

  /** The move phase relocates every cart exactly once: listing the carts in
      visiting order, the placement before the move holds exactly the listed
      entries and the placement after it holds each of them moved one step. */
  lemma MoveRelocatesEveryCart(carts: CartDict)
    ensures var listing := Listing(carts, SortedDescending(carts.Keys));
      Placed(carts) == multiset(listing)
      && Placed(MoveAll(carts).carts) == multiset(Shifted(listing))
  {
    var queue := SortedDescending(carts.Keys);
    PlacedListing(carts, queue);
    QueuePlaced(carts, queue, Moved(map[], None));
  }

  /** The move phase keeps the number of carts. */
  lemma MoveKeepsCount(carts: CartDict)
    ensures |Placed(MoveAll(carts).carts)| == |Placed(carts)|
  {
    MoveRelocatesEveryCart(carts);
  }

  // ---------------------------------------------------------------------
  // The rotate phase

  datatype CartError = FlewOffTrack | BadCartOrSegment | RotationFailed(reason: RotationError) | OutsideTrack

  /** The turn made on a `\` curve. */
  function BackslashTurn(d: Direction): Direction
  {
    match d
    case Down => Right
    case Left => Up
    case Right => Down
    case Up => Left
  }

  /** The turn made on a `/` curve. */
  function SlashTurn(d: Direction): Direction
  {
    match d
    case Down => Left
    case Left => Down
    case Right => Up
    case Up => Right
  }

  predicate Vertical?(d: Direction)
  {
    d == Down || d == Up
  }

  /** Each curve map is its own inverse, and a curve always swaps the axis. */
  lemma CurvesAreInvolutions(d: Direction)
    ensures BackslashTurn(BackslashTurn(d)) == d
    ensures SlashTurn(SlashTurn(d)) == d
    ensures Vertical?(BackslashTurn(d)) != Vertical?(d)
    ensures Vertical?(SlashTurn(d)) != Vertical?(d)
  {
  }

  /** The cart after the segment under it has turned it. */
  function RotateCart(cart: Cart, segment: Segment): (r: Result<Cart, CartError>)
    ensures segment == CurveLeft || segment == CurveRight ==>
      r.Ok? && r.value.lastTurn == cart.lastTurn
      && Vertical?(r.value.direction) != Vertical?(cart.direction)
    ensures segment == Intersection ==>
      r.Ok? && r.value.lastTurn == NextRotation(cart.lastTurn)
      && r.value.direction == Rotate(cart.direction, r.value.lastTurn)
    ensures segment == Horizontal ==> (r.Ok? <==> !Vertical?(cart.direction)) && (r.Ok? ==> r.value == cart)
    ensures segment == Vertical ==> (r.Ok? <==> Vertical?(cart.direction)) && (r.Ok? ==> r.value == cart)
    ensures segment == Space ==> r == Err(FlewOffTrack)
    ensures r.Err? && segment != Space ==> r == Err(BadCartOrSegment)
  {
    if segment == CurveLeft then
      Ok(Cart(BackslashTurn(cart.direction), cart.lastTurn))
    else if segment == CurveRight then
      Ok(Cart(SlashTurn(cart.direction), cart.lastTurn))
    else if segment == Intersection then
      var turn := NextRotation(cart.lastTurn);
      RotateDirectionTotal(cart.direction, turn);
      match RotateDirection(cart.direction, turn)
      case Ok(direction) => Ok(Cart(direction, turn))
      case Err(e) => Err(RotationFailed(e))
    else if segment == Horizontal && (cart.direction == Left || cart.direction == Right) then
      Ok(cart)
    else if segment == Vertical && (cart.direction == Down || cart.direction == Up) then
      Ok(cart)
    else if segment == Space then
      Err(FlewOffTrack)
    else
      Err(BadCartOrSegment)
  }

  /** `s[k]` with Python's indexing: a negative index counts from the end,
      and an index outside the sequence is an error. */
  function PyIndex<T>(s: seq<T>, k: int): (r: Option<T>)
    ensures 0 <= k < |s| ==> r == Some(s[k])
    ensures -|s| <= k < 0 ==> r == Some(s[|s| + k])
    ensures r.None? <==> k < -|s| || |s| <= k
  {
    if 0 <= k < |s| then Some(s[k])
    else if -|s| <= k < 0 then Some(s[|s| + k])
    else None
  }

  /** The segment at `coord`, indexed as the program indexes the track. */
  function SegmentAt(track: Track, coord: Coordinate): Option<Segment>
  {
    match PyIndex(track, coord.0)
    case None => None
    case Some(row) => PyIndex(row, coord.1)
  }

  /** Every cart of `bucket` turned by `segment`; the first failure wins. */
  function RotateAll(bucket: seq<Cart>, segment: Segment): (r: Result<seq<Cart>, CartError>)
    ensures r.Ok? <==> forall k :: 0 <= k < |bucket| ==> RotateCart(bucket[k], segment).Ok?
    ensures r.Ok? ==> |r.value| == |bucket|
    ensures r.Ok? ==> forall k :: 0 <= k < |bucket| ==> r.value[k] == RotateCart(bucket[k], segment).value
    ensures r.Err? ==> exists k :: 0 <= k < |bucket| && RotateCart(bucket[k], segment) == Err(r.error)
                                 && forall j :: 0 <= j < k ==> RotateCart(bucket[j], segment).Ok?
    decreases |bucket|
  {
    if bucket == [] then Ok([])
    else
      match RotateCart(bucket[0], segment)
      case Err(e) => Err(e)
      case Ok(first) =>
        match RotateAll(bucket[1..], segment)
        case Err(e) => Err(e)
        case Ok(rest) => Ok([first] + rest)
  }

  /** The bucket at `coord` turned by the segment at `coord`. */
  function RotateBucket(track: Track, coord: Coordinate, bucket: seq<Cart>): Result<seq<Cart>, CartError>
  {
    match SegmentAt(track, coord)
    case None => Err(OutsideTrack)
    case Some(segment) => RotateAll(bucket, segment)
  }

  /** Every bucket can be turned without error. */
  predicate RotatesCleanly(carts: CartDict, track: Track)
  {
    forall c :: c in carts ==> RotateBucket(track, c, carts[c]).Ok?
  }

  /** The placement after the rotate phase: same cells, each bucket turned by
      the segment of its own cell, the same number of carts in each. */
  function RotatedPlacement(carts: CartDict, track: Track): (r: CartDict)
    requires RotatesCleanly(carts, track)
    ensures r.Keys == carts.Keys
    ensures forall c :: c in carts ==> |r[c]| == |carts[c]|
  {
    map c | c in carts :: RotateBucket(track, c, carts[c]).value
  }

  /** Turns every cart by the segment under it, bucket by bucket. */
  method RotateCarts(carts: CartDict, track: Track) returns (r: Result<CartDict, CartError>)
    ensures r.Ok? <==> RotatesCleanly(carts, track)
    ensures r.Ok? ==> r.value == RotatedPlacement(carts, track)
    ensures r.Err? ==> exists c :: c in carts && RotateBucket(track, c, carts[c]) == Err(r.error)
  {
    var result: CartDict := map[];
    var remaining := carts.Keys;
    while remaining != {}
      invariant remaining <= carts.Keys
      invariant result.Keys == carts.Keys - remaining
      invariant forall c :: c in result ==> RotateBucket(track, c, carts[c]) == Ok(result[c])
      decreases remaining
    {
      var coord :| coord in remaining;
      var (i, j) := coord;
      var segment := SegmentAt(track, (i, j));
      if segment.None? {
        return Err(OutsideTrack);
      }
      var rotated := RotateAll(carts[coord], segment.value);
      if rotated.Err? {
        return Err(rotated.error);
      }
      result := result[coord := rotated.value];
      remaining := remaining - {coord};
    }
    return Ok(result);
  }

  lemma {:induction false} SameShapeSameCount(m1: CartDict, m2: CartDict)
    requires m1.Keys == m2.Keys
    requires forall c :: c in m1 ==> |m1[c]| == |m2[c]|
    ensures |Placed(m1)| == |Placed(m2)|
    decreases m1.Keys
  {
    if m1 != map[] {
      var k :| k in m1;
      PlacedAt(m1, k);
      PlacedAt(m2, k);
      SameShapeSameCount(m1 - {k}, m2 - {k});
    } else {
      assert m2 == map[];
    }
  }

  /** The rotate phase keeps the number of carts. */
  lemma RotateKeepsCount(carts: CartDict, track: Track)
    requires RotatesCleanly(carts, track)
    ensures |Placed(RotatedPlacement(carts, track))| == |Placed(carts)|
  {
    SameShapeSameCount(RotatedPlacement(carts, track), carts);
  }

  // ---------------------------------------------------------------------
  // Ticks

  /** One tick: move every cart, then turn every cart. */
  method Advance(carts: CartDict, track: Track) returns (r: Result<(CartDict, Option<Coordinate>), CartError>)
    ensures r.Ok? <==> RotatesCleanly(MoveAll(carts).carts, track)
    ensures r.Ok? ==> r.value == (RotatedPlacement(MoveAll(carts).carts, track), MoveAll(carts).collision)
  {
    var moved, collision := MoveCarts(carts);
    var rotated := RotateCarts(moved, track);
    if rotated.Err? {
      return Err(rotated.error);
    }
    return Ok((rotated.value, collision));
  }

  /** A tick that completes keeps the number of carts. */
  lemma TickKeepsCount(carts: CartDict, track: Track)
    requires RotatesCleanly(MoveAll(carts).carts, track)
    ensures |Placed(RotatedPlacement(MoveAll(carts).carts, track))| == |Placed(carts)|
  {
    MoveKeepsCount(carts);
    RotateKeepsCount(MoveAll(carts).carts, track);
  }

  datatype RunOutcome = Collided(at: Coordinate) | Failed | OutOfTicks

  /** What one tick gives: the outcome it stops with, or the carts after it. */
  datatype Ticked = Stopped(outcome: RunOutcome) | Continued(next: CartDict)

  /** One tick: move every cart, then turn them all, stopping at the first
      collision or at a cart that cannot turn. */
  function Tick(carts: CartDict, track: Track): Ticked
  {
    var moved := MoveAll(carts);
    if !RotatesCleanly(moved.carts, track) then Stopped(Failed)
    else if moved.collision.Some? then Stopped(Collided(moved.collision.value))
    else Continued(RotatedPlacement(moved.carts, track))
  }

  /** What ticking at most `ticks` times until the first collision gives. */
  function Simulate(carts: CartDict, track: Track, ticks: nat): RunOutcome
    decreases ticks
  {
    if ticks == 0 then OutOfTicks
    else
      match Tick(carts, track)
      case Stopped(outcome) => outcome
      case Continued(next) => Simulate(next, track, ticks - 1)
  }

  /** More ticks never change an outcome already reached. */
  lemma {:induction false} SimulateSettles(carts: CartDict, track: Track, ticks: nat, more: nat)
    requires Simulate(carts, track, ticks) != OutOfTicks
    ensures Simulate(carts, track, ticks + more) == Simulate(carts, track, ticks)
    decreases ticks
  {
    var tick := Tick(carts, track);
    if tick.Continued? {
      SimulateSettles(tick.next, track, ticks - 1, more);
    }
  }

  /** The outcome a search for the first collision reports: an error is a
      failed tick, no collision means the ticks ran out. */
  function Reported(r: Result<Option<Coordinate>, CartError>): RunOutcome
  {
    match r
    case Err(_) => Failed
    case Ok(None) => OutOfTicks
    case Ok(Some(c)) => Collided(c)
  }

  /** Ticks until the first collision, for at most `maxTicks` ticks. */
  method FindFirstCollision(carts: CartDict, track: Track, maxTicks: nat) returns (r: Result<Option<Coordinate>, CartError>)
    ensures Reported(r) == Simulate(carts, track, maxTicks)
  {
    var current := carts;
    var ticks := 0;
    while ticks < maxTicks
      invariant ticks <= maxTicks
      invariant Simulate(current, track, maxTicks - ticks) == Simulate(carts, track, maxTicks)
      decreases maxTicks - ticks
    {
      ghost var moved := MoveAll(current);
      var advanced := Advance(current, track);
      if advanced.Err? {
        return Err(advanced.error);
      }
      var (next, collision) := advanced.value;
      assert next == RotatedPlacement(moved.carts, track) && collision == moved.collision;
      if collision.Some? {
        return Ok(collision);
      }
      current := next;
      ticks := ticks + 1;
    }
    return Ok(None);
  }

  // ---------------------------------------------------------------------
  // Rendering

  /** What a cell shows: its segment when empty, the cart's glyph when it
      holds one cart, and the collision glyph otherwise. */
  function CellGlyph(carts: CartDict, segment: Segment, coord: Coordinate): char
  {
    var bucket := Bucket(carts, coord);
    if |bucket| == 0 then SegmentGlyph(segment)
    else if |bucket| == 1 then Glyph(bucket[0].direction)
    else CollisionChar
  }

  /** Draws the track with the carts on it, row by row. */
  method RenderState(carts: CartDict, track: Track) returns (lines: seq<string>)
    ensures |lines| == |track|
    ensures forall i :: 0 <= i < |track| ==> |lines[i]| == |track[i]|
    ensures forall i, j :: 0 <= i < |track| && 0 <= j < |track[i]| ==>
      lines[i][j] == CellGlyph(carts, track[i][j], (i, j))
  {
    lines := [];
    var i := 0;
    while i < |track|
      invariant i <= |track| && |lines| == i
      invariant forall r :: 0 <= r < i ==> |lines[r]| == |track[r]|
      invariant forall r, j :: 0 <= r < i && 0 <= j < |track[r]| ==>
        lines[r][j] == CellGlyph(carts, track[r][j], (r, j))
    {
      var row := track[i];
      var chars: string := [];
      var j := 0;
      while j < |row|
        invariant j <= |row| && |chars| == j
        invariant forall k :: 0 <= k < j ==> chars[k] == CellGlyph(carts, row[k], (i, k))
      {
        var segment := row[j];
        var glyph :=
          if (i, j) !in carts || carts[(i, j)] == [] then SegmentGlyph(segment)
          else if |carts[(i, j)]| == 1 then Glyph(carts[(i, j)][0].direction)
          else CollisionChar;
        chars := chars + [glyph];
        j := j + 1;
      }
      lines := lines + [chars];
      i := i + 1;
    }
  }

  /** A cart runs along a straight segment's own axis. */
  predicate Aligned(d: Direction, segment: Segment)
  {
    (segment == Horizontal && !Vertical?(d)) || (segment == Vertical && Vertical?(d))
  }

  /** A rendered cell reads back as its own segment when it is empty or
      holds one cart aligned with a straight segment; a collision glyph is
      not a track glyph. */
  lemma RenderedCellReadsBack(carts: CartDict, segment: Segment, coord: Coordinate)
    ensures |Bucket(carts, coord)| == 0 ==> ParseTrackEntry(CellGlyph(carts, segment, coord)) == Some(segment)
    ensures |Bucket(carts, coord)| == 1 && Aligned(Bucket(carts, coord)[0].direction, segment) ==>
      ParseTrackEntry(CellGlyph(carts, segment, coord)) == Some(segment)
    ensures |Bucket(carts, coord)| >= 2 ==> ParseTrackEntry(CellGlyph(carts, segment, coord)) == None
  {
    var bucket := Bucket(carts, coord);
    if |bucket| == 1 {
      match bucket[0].direction
      case Down =>
      case Left =>
      case Right =>
      case Up =>
    }
  }
}
