/** The elves' memory game of 2020/src/day15/game.rs: each turn says 0 if
    the last number was new, otherwise how many turns ago it was last said
    before that. */
module MemoryGame {
  import opened Outcomes

  /** The index of the last occurrence of `x` in `s`. */
  function LastIndexOf(s: seq<nat>, x: nat): (r: Option<nat>)
    ensures r.None? <==> x !in s
    ensures r.Some? ==> r.value < |s| && s[r.value] == x
    ensures r.Some? ==> forall j :: r.value < j < |s| ==> s[j] != x
    decreases |s|
  {
    if s == [] then None
    else if s[|s| - 1] == x then Some(|s| - 1)
    else LastIndexOf(s[..|s| - 1], x)
  }

  /** The number said after `spoken`: 0 if its last number had not been said
      before, else how many turns apart its last two sayings are. */
  function Say(spoken: seq<nat>): (r: nat)
    requires spoken != []
  {
    var n := |spoken|;
    match LastIndexOf(spoken[..n - 1], spoken[n - 1])
    case None => 0
    case Some(i) => (n - 1) - i
  }

  /** The first `turns` numbers said, starting from `numbers`. */
  function Spoken(numbers: seq<nat>, turns: nat): seq<nat>
    requires numbers != []
    decreases turns
  {
    if turns <= |numbers| then numbers[..turns]
    else
      var before := Spoken(numbers, turns - 1);
      before + [Say(before)]
  }

  /** Each number said in `spoken`, with the latest 1-based turn it was said. */
  function LatestTurns(spoken: seq<nat>): map<nat, nat>
    decreases |spoken|
  {
    if spoken == [] then map[]
    else LatestTurns(spoken[..|spoken| - 1])[spoken[|spoken| - 1] := |spoken|]
  }

  /** The table of latest turns is the last occurrence, one-based. */
  lemma {:induction false} LatestTurnsAreLastIndices(spoken: seq<nat>, x: nat)
    ensures x in LatestTurns(spoken) <==> x in spoken
    ensures x in spoken ==> LatestTurns(spoken)[x] == LastIndexOf(spoken, x).value + 1
    decreases |spoken|
  {
    if spoken != [] {
      var init := spoken[..|spoken| - 1];
      LatestTurnsAreLastIndices(init, x);
      assert spoken == init + [spoken[|spoken| - 1]];
    }
  }

  class Game {
    var seen: map<nat, nat>
    var last: nat
    var time: nat
    /** Every number said so far. */
    ghost var history: seq<nat>

    /** `time` numbers have been said, `last` is the latest, and `seen` gives
        the latest turn of each number said before it. */
    ghost predicate Valid()
      reads this
    {
      time == |history| && history != [] && last == history[|history| - 1]
      && seen == LatestTurns(history[..|history| - 1])
    }

    /** A game whose first numbers are `numbers`. */
    constructor (numbers: seq<nat>)
      requires numbers != []
      ensures Valid() && history == numbers
    {
      var table := map[];
      for t := 0 to |numbers| - 1
        invariant table == LatestTurns(numbers[..t])
      {
        assert numbers[..t + 1][..t] == numbers[..t];
        table := table[numbers[t] := t + 1];
      }
      seen := table;
      last := numbers[|numbers| - 1];
      time := |numbers|;
      history := numbers;
    }

    /** Says the next number, and always has one to say. */
    method Next() returns (r: Option<nat>)
      requires Valid()
      modifies this
      ensures Valid()
      ensures r == Some(Say(old(history)))
      ensures history == old(history) + [r.value]
    {
      ghost var before := history;
      LatestTurnsAreLastIndices(before[..|before| - 1], last);
      time := time + 1;
      var key := last;
      if key !in seen {
        last := 0;
      } else {
        last := time - 1 - seen[key];
      }
      seen := seen[key := time - 1];
      history := history + [last];
      assert history[..|history| - 1] == before;
      assert before == before[..|before| - 1] + [key];
      r := Some(last);
    }
  }

  /** `said` is what the game says after the starting `numbers`. */
  predicate Follows(numbers: seq<nat>, said: seq<nat>)
  {
    numbers != [] && numbers + said == Spoken(numbers, |numbers| + |said|)
  }

  /** Playing `turns` turns of a game started with `numbers` says the
      numbers that follow `numbers` in `Spoken`. */
  method Play(numbers: seq<nat>, turns: nat) returns (said: seq<nat>)
    requires numbers != []
    ensures |said| == turns && numbers + said == Spoken(numbers, |numbers| + turns)
  {
    var game := new Game(numbers);
    said := [];
    assert Follows(numbers, said) by {
      assert numbers[..|numbers|] == numbers + said;
    }
    for k := 0 to turns
      invariant game.Valid()
      invariant |said| == k && game.history == numbers + said
      invariant Follows(numbers, said)
    {
      var next := game.Next();
      SpokenAppend(numbers, said, next.value);
      said := said + [next.value];
    }
  }

  lemma SpokenAppend(numbers: seq<nat>, said: seq<nat>, next: nat)
    requires Follows(numbers, said) && next == Say(numbers + said)
    ensures Follows(numbers, said + [next]) && numbers + said + [next] == numbers + (said + [next])
  {
    assert numbers + (said + [next]) == (numbers + said) + [next];
  }

  lemma SpokenNext(numbers: seq<nat>, turns: nat)
    requires numbers != [] && turns >= |numbers|
    ensures Spoken(numbers, turns + 1) == Spoken(numbers, turns) + [Say(Spoken(numbers, turns))]
  {
  }

  /** One more turn of a game whose history so far is `prefix`. */
  lemma SpokenStep(numbers: seq<nat>, turns: nat, prefix: seq<nat>, next: nat)
    requires numbers != [] && turns >= |numbers|
    requires Spoken(numbers, turns) == prefix && Say(prefix) == next
    ensures Spoken(numbers, turns + 1) == prefix + [next]
  {
    SpokenNext(numbers, turns);
  }

  lemma SaysAfter036()
    ensures Say([0, 3, 6]) == 0 && Say([0, 3, 6, 0]) == 3 && Say([0, 3, 6, 0, 3]) == 3
    ensures Say([0, 3, 6, 0, 3, 3]) == 1 && Say([0, 3, 6, 0, 3, 3, 1]) == 0
    ensures Say([0, 3, 6, 0, 3, 3, 1, 0]) == 4 && Say([0, 3, 6, 0, 3, 3, 1, 0, 4]) == 0
  {
    assert [0, 3, 6, 0][..3] == [0, 3, 6];
    assert [0, 3, 6, 0, 3][..4] == [0, 3, 6, 0];
    assert [0, 3, 6, 0, 3, 3][..5] == [0, 3, 6, 0, 3];
    assert [0, 3, 6, 0, 3, 3, 1][..6] == [0, 3, 6, 0, 3, 3];
    assert [0, 3, 6, 0, 3, 3, 1, 0][..7] == [0, 3, 6, 0, 3, 3, 1];
    assert [0, 3, 6, 0, 3, 3, 1, 0, 4][..8] == [0, 3, 6, 0, 3, 3, 1, 0];
  }

  /** Starting from 0, 3, 6, the next numbers are 0, 3, 3, 1, 0, 4, 0. */
  lemma Example036(numbers: seq<nat>)
    requires numbers == [0, 3, 6]
    ensures Spoken(numbers, 10) == [0, 3, 6, 0, 3, 3, 1, 0, 4, 0]
  {
    Opening036(numbers);
    Closing036(numbers);
  }

  /** The first three turns after 0, 3, 6. */
  lemma Opening036(numbers: seq<nat>)
    requires numbers == [0, 3, 6]
    ensures Spoken(numbers, 6) == [0, 3, 6, 0, 3, 3]
  {
    assert Spoken(numbers, 3) == numbers by {
      assert numbers[..3] == numbers;
    }
    SaysAfter036();
    SpokenStep(numbers, 3, [0, 3, 6], 0);
    SpokenStep(numbers, 4, [0, 3, 6, 0], 3);
    SpokenStep(numbers, 5, [0, 3, 6, 0, 3], 3);
  }

  /** The next four turns. */
  lemma Closing036(numbers: seq<nat>)
    requires numbers == [0, 3, 6] && Spoken(numbers, 6) == [0, 3, 6, 0, 3, 3]
    ensures Spoken(numbers, 10) == [0, 3, 6, 0, 3, 3, 1, 0, 4, 0]
  {
    SaysAfter036();
    SpokenStep(numbers, 6, [0, 3, 6, 0, 3, 3], 1);
    SpokenStep(numbers, 7, [0, 3, 6, 0, 3, 3, 1], 0);
    SpokenStep(numbers, 8, [0, 3, 6, 0, 3, 3, 1, 0], 4);
    SpokenStep(numbers, 9, [0, 3, 6, 0, 3, 3, 1, 0, 4], 0);
  }
}
