/** The deterministic dice game (2021/src/bin/day21.rs): positions on a
    ten-space circular track, a hundred-sided die rolled in order, and the
    first player to reach 1000 points wins. */
module DiracDice {
  import opened Outcomes
  import opened Arithmetic

  // ---------------------------------------------------------------------
  // Counting round a circle

  /** Moves `d` steps from `i` round a circle numbered 1 to `n`. The source
      asserts `i > 0`; a zero modulus would panic there too. */
  function WrapAdd(i: nat, d: nat, n: nat): (r: nat)
    requires i > 0 && n > 0
    ensures 1 <= r <= n
  {
    (i - 1 + d) % n + 1
  }

  /** The space reached is `i + d` counted modulo `n`. */
  lemma WrapAddCongruent(i: nat, d: nat, n: nat)
    requires i > 0 && n > 0
    ensures WrapAdd(i, d, n) % n == (i + d) % n
  {
    ModAdd(i - 1 + d, 1, n);
  }

  function WrapInc(i: nat, n: nat): (r: nat)
    requires i > 0 && n > 0
    ensures 1 <= r <= n
  {
    WrapAdd(i, 1, n)
  }

  /** The last space wraps round to the first. */
  lemma WrapIncLast(n: nat)
    requires n > 0
    ensures WrapInc(n, n) == 1
  {
    MulMod(n, 1);
  }

  /** Moving `a` steps and then `b` steps is moving `a + b` steps. */
  lemma WrapAddCompose(i: nat, a: nat, b: nat, n: nat)
    requires i > 0 && n > 0
    ensures WrapAdd(WrapAdd(i, a, n), b, n) == WrapAdd(i, a + b, n)
  {
    var x := i - 1 + a;
    var j := WrapAdd(i, a, n);
    assert j - 1 + b == x % n + b;
    assert (x + b) % n == (x % n + b) % n by {
      ModAdd(x, b, n);
    }
    assert i - 1 + (a + b) == x + b;
  }

  /** A move that does not pass the last space is plain addition. */
  lemma WrapAddWithin(i: nat, d: nat, n: nat)
    requires i > 0 && n > 0 && i + d <= n
    ensures WrapAdd(i, d, n) == i + d
  {
    DivModUnique(i - 1 + d, n, 0, i - 1 + d);
  }

  // ---------------------------------------------------------------------
  // The die

  const Sides: nat := 100

  /** The roll `k` places after a roll of `start` (zero places: `start`). */
  function Face(start: nat, k: nat): (r: nat)
    requires start > 0
    ensures 1 <= r <= Sides
  {
    WrapAdd(start, k, Sides)
  }

  /** The sum of `n` rolls starting from face `start`. */
  function RollsSum(start: nat, n: nat): nat
    requires start > 0
  {
    if n == 0 then 0 else RollsSum(start, n - 1) + Face(start, n - 1)
  }

  /** A new die shows 1, 2, ..., 100 and then starts again. */
  lemma FreshDieFaces(k: nat)
    ensures Face(1, k) == k % Sides + 1
  {
  }

  /** The die yields its faces cyclically: a hundred rolls later it shows
      the same face again. */
  lemma FacePeriod(start: nat, k: nat)
    requires start > 0
    ensures Face(start, k + Sides) == Face(start, k)
  {
    AddMultiple(start - 1 + k, Sides, 1);
  }

  /** Three rolls that do not pass 100 add up to three times the middle
      face. */
  lemma ThreeRolls(start: nat)
    requires 0 < start && start + 2 <= Sides
    ensures RollsSum(start, 3) == 3 * start + 3
  {
    WrapAddWithin(start, 0, Sides);
    WrapAddWithin(start, 1, Sides);
    WrapAddWithin(start, 2, Sides);
    assert RollsSum(start, 1) == Face(start, 0);
    assert RollsSum(start, 2) == RollsSum(start, 1) + Face(start, 1);
    assert RollsSum(start, 3) == RollsSum(start, 2) + Face(start, 2);
  }

  class Die {
    /** The face the next roll shows. */
    var next: nat

    predicate Valid()
      reads this
    {
      1 <= next <= Sides
    }

    constructor ()
      ensures next == 1 && Valid()
    {
      next := 1;
    }

    method Roll() returns (r: nat)
      requires Valid()
      modifies this
      ensures Valid()
      ensures r == old(next) && next == WrapInc(old(next), Sides)
    {
      r := next;
      next := WrapInc(next, Sides);
    }

    /** Rolls `n` times and returns the total. */
    method RollSum(n: nat) returns (r: nat)
      requires Valid()
      modifies this
      ensures Valid()
      ensures r == RollsSum(old(next), n) && next == Face(old(next), n)
    {
      var start := next;
      r := 0;
      for k := 0 to n
        invariant Valid()
        invariant r == RollsSum(start, k) && next == Face(start, k)
      {
        var face := Roll();
        WrapAddCompose(start, k, 1, Sides);
        r := r + face;
      }
    }
  }

  // ---------------------------------------------------------------------
  // The players

  const Spaces: nat := 10
  const Target: nat := 1000

  class Player {
    var position: nat
    var score: nat

    constructor (start: nat)
      ensures position == start && score == 0
    {
      position := start;
      score := 0;
    }

    /** Moves `distance` spaces and scores the space landed on. */
    method Advance(distance: nat)
      requires position > 0
      modifies this
      ensures position == WrapAdd(old(position), distance, Spaces)
      ensures score == old(score) + position
    {
      position := WrapAdd(position, distance, Spaces);
      score := score + position;
    }
  }

  // ---------------------------------------------------------------------
  // The game

  /** Both players, the die's next face and the number of turns taken.
      Player `turns % 2` moves next. */
  datatype Game = Game(pos0: nat, pos1: nat, score0: nat, score1: nat, die: nat, turns: nat)

  function Score(g: Game, p: nat): nat
  {
    if p % 2 == 0 then g.score0 else g.score1
  }

  /** A game in progress: positions on the board, a die face, and both
      players short of the target. */
  predicate Playing(g: Game)
  {
    g.pos0 > 0 && g.pos1 > 0 && 1 <= g.die <= Sides
    && g.score0 < Target && g.score1 < Target
  }

  /** The player who moved last has reached the target. */
  predicate Over(g: Game)
  {
    g.turns > 0 && Score(g, g.turns - 1) >= Target
  }

  /** One turn: the player to move rolls three times and advances. */
  function TakeTurn(g: Game): (h: Game)
    requires Playing(g)
  {
    var roll := RollsSum(g.die, 3);
    var die := Face(g.die, 3);
    if g.turns % 2 == 0 then
      var p := WrapAdd(g.pos0, roll, Spaces);
      Game(p, g.pos1, g.score0 + p, g.score1, die, g.turns + 1)
    else
      var p := WrapAdd(g.pos1, roll, Spaces);
      Game(g.pos0, p, g.score0, g.score1 + p, die, g.turns + 1)
  }

  /** A turn adds to the mover's score only, and the game goes on unless
      the mover reaches the target. */
  lemma TakeTurnPlaying(g: Game)
    requires Playing(g)
    ensures TakeTurn(g).turns == g.turns + 1
    ensures Score(TakeTurn(g), g.turns) > Score(g, g.turns)
    ensures Score(TakeTurn(g), g.turns + 1) == Score(g, g.turns + 1)
    ensures Over(TakeTurn(g)) || Playing(TakeTurn(g))
  {
  }

  /** Turns are taken until the last mover reaches the target; the other
      player is then still short of it. */
  function Play(g: Game): (h: Game)
    requires Playing(g)
    ensures Over(h) && h.turns > g.turns
    ensures Score(h, h.turns) < Target
    decreases 2 * Target - g.score0 - g.score1
  {
    TakeTurnPlaying(g);
    var next := TakeTurn(g);
    if Over(next) then next else Play(next)
  }

  function Initial(start0: nat, start1: nat): Game
  {
    Game(start0, start1, 0, 0, 1, 0)
  }

  /** The loser's score times the number of rolls, three a turn; a start of
      0, and only that, trips the source's `i > 0` assertion. */
  function Outcome(start0: nat, start1: nat): (r: Option<nat>)
    ensures r.None? <==> start0 == 0 || start1 == 0
    ensures r.Some? ==> r.value % 3 == 0
  {
    if start0 == 0 || start1 == 0 then None
    else
      var g := Play(Initial(start0, start1));
      var loser, rolls := Score(g, g.turns), g.turns * 3;
      var turnsTimesLoser: nat := loser * g.turns;
      assert loser * rolls == 3 * turnsTimesLoser;
      MulMod(3, turnsTimesLoser);
      Some(loser * rolls)
  }

  /** The end of a game that may already be over. */
  function Finish(g: Game): (h: Game)
    requires Over(g) || Playing(g)
    ensures Over(h)
  {
    if Over(g) then g else Play(g)
  }

  /** The source's `while` loop: turns until the last mover has 1000. */
  method PlayOut(die: Die, p0: Player, p1: Player, start: nat) returns (i: nat)
    requires die.Valid() && p0 != p1 && start > 0
    requires Over(Current(p0, p1, die, start)) || Playing(Current(p0, p1, die, start))
    modifies die, p0, p1
    ensures Current(p0, p1, die, i) == Finish(old(Current(p0, p1, die, start)))
  {
    ghost var goal := Finish(Current(p0, p1, die, start));
    i := start;
    while (if (i - 1) % 2 == 0 then p0 else p1).score < Target
      invariant die.Valid() && i > 0
      invariant Over(Current(p0, p1, die, i)) || Playing(Current(p0, p1, die, i))
      invariant Finish(Current(p0, p1, die, i)) == goal
      decreases 2 * Target - p0.score - p1.score
    {
      ghost var g := Current(p0, p1, die, i);
      TakeTurnPlaying(g);
      var d := die.RollSum(3);
      if i % 2 == 0 {
        p0.Advance(d);
      } else {
        p1.Advance(d);
      }
      i := i + 1;
      assert Current(p0, p1, die, i) == TakeTurn(g);
    }
  }

  method Solve(start0: nat, start1: nat) returns (r: Option<nat>)
    ensures r == Outcome(start0, start1)
  {
    if start0 == 0 || start1 == 0 {
      return None;
    }
    var die := new Die();
    var p0 := new Player(start0);
    var p1 := new Player(start1);
    ghost var init := Initial(start0, start1);
    var d := die.RollSum(3);
    p0.Advance(d);
    TakeTurnPlaying(init);
    assert Current(p0, p1, die, 1) == TakeTurn(init);
    var i := PlayOut(die, p0, p1, 1);
    ghost var final := Current(p0, p1, die, i);
    var loser := if i % 2 == 0 then p0.score else p1.score;
    assert loser == Score(final, final.turns) && i == final.turns;
    OutcomeOf(start0, start1, final);
    r := Some(loser * (i * 3));
  }

  lemma OutcomeOf(start0: nat, start1: nat, final: Game)
    requires start0 > 0 && start1 > 0 && final == Play(Initial(start0, start1))
    ensures Outcome(start0, start1) == Some(Score(final, final.turns) * (final.turns * 3))
  {
  }

  /** The game held by two players, a die and a turn count. */
  ghost function Current(p0: Player, p1: Player, die: Die, i: nat): Game
    reads p0, p1, die
  {
    Game(p0.position, p1.position, p0.score, p1.score, die.next, i)
  }
}
