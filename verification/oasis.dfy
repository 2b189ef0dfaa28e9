/**
 * Sequence extrapolation by repeated differences (2023 day 9).  A row of
 * readings is replaced by the differences between consecutive readings
 * until the row is all zeroes; the sum of the last readings of every row
 * along the way is the next reading of the original row.  Reading the row
 * backwards gives the reading before the first one.
 */
module Oasis {
  import opened Outcomes

  /** The differences between consecutive values. */
  function Deltas(s: seq<int>): (r: seq<int>)
    ensures |s| > 0 ==> |r| == |s| - 1
  {
    if |s| == 0 then [] else seq(|s| - 1, i requires 0 <= i < |s| - 1 => s[i + 1] - s[i])
  }

  /** `all_zeroes`: every value is zero (vacuously so for an empty row). */
  predicate AllZero(s: seq<int>)
  {
    forall i :: 0 <= i < |s| ==> s[i] == 0
  }

  /** The value that would come after the last one. */
  function Extrapolate(s: seq<int>): int
    decreases |s|
  {
    if AllZero(s) then 0 else s[|s| - 1] + Extrapolate(Deltas(s))
  }

  /**
   * `into_deltas`: overwrite each value but the last with the difference
   * to its successor, then pop the last value.  An empty row gives an
   * empty row and no last value.
   */
  method IntoDeltas(values: seq<int>) returns (deltas: seq<int>, last: Option<int>)
    ensures |values| == 0 ==> deltas == [] && last == None
    ensures |values| > 0 ==> deltas == Deltas(values) && last == Some(values[|values| - 1])
  {
    if |values| == 0 {
      return [], None;
    }
    var v := values;
    for index := 1 to |v|
      invariant |v| == |values|
      invariant forall i :: 0 <= i < index - 1 ==> v[i] == values[i + 1] - values[i]
      invariant forall i :: index - 1 <= i < |v| ==> v[i] == values[i]
    {
      v := v[index - 1 := v[index] - v[index - 1]];
    }
    deltas, last := v[..|v| - 1], Some(v[|v| - 1]);
  }

  /** `Row::solve`: add up the last values of the difference rows. */
  method Solve(row: seq<int>) returns (sum: int)
    ensures sum == Extrapolate(row)
  {
    sum := 0;
    var values := row;
    while !AllZero(values)
      invariant sum + Extrapolate(values) == Extrapolate(row)
      decreases |values|
    {
      var last;
      values, last := IntoDeltas(values);
      sum := sum + last.value;
    }
  }

  lemma DeltasSnoc(s: seq<int>, x: int)
    requires |s| > 0
    ensures Deltas(s + [x]) == Deltas(s) + [x - s[|s| - 1]]
  {
    var t := s + [x];
    var l, r := Deltas(t), Deltas(s) + [x - s[|s| - 1]];
    forall i | 0 <= i < |s|
      ensures l[i] == r[i]
    {
      assert t[i + 1] == if i + 1 < |s| then s[i + 1] else x;
      assert t[i] == s[i];
    }
    assert l == r;
  }

  /** Appending the extrapolated value extends the difference row by its
    * own extrapolated value: the prediction is consistent at every level. */
  lemma ExtrapolateExtends(s: seq<int>, next: int)
    requires |s| > 0 && next == Extrapolate(s)
    ensures Deltas(s + [next]) == Deltas(s) + [Extrapolate(Deltas(s))]
  {
    var last := s[|s| - 1];
    assert next - last == Extrapolate(Deltas(s)) by {
      ExtrapolateLast(s);
    }
    DeltasSnoc(s, next);
  }

  /** For a nonempty row, the extrapolated value exceeds the last value by
    * the extrapolated difference, all-zero rows included. */
  lemma ExtrapolateLast(s: seq<int>)
    requires |s| > 0
    ensures Extrapolate(s) - s[|s| - 1] == Extrapolate(Deltas(s))
  {
    if AllZero(s) {
      assert AllZero(Deltas(s));
    }
  }

  /** `backward`: the values in reverse order. */
  function Backward(s: seq<int>): (r: seq<int>)
    ensures |r| == |s| && forall i :: 0 <= i < |s| ==> r[i] == s[|s| - 1 - i]
  {
    seq(|s|, i requires 0 <= i < |s| => s[|s| - 1 - i])
  }

  /** Every value negated. */
  function Negate(s: seq<int>): (r: seq<int>)
    ensures |r| == |s| && forall i :: 0 <= i < |s| ==> r[i] == -s[i]
  {
    seq(|s|, i requires 0 <= i < |s| => -s[i])
  }

  lemma {:induction false} ExtrapolateNegate(s: seq<int>)
    ensures Extrapolate(Negate(s)) == -Extrapolate(s)
    decreases |s|
  {
    assert AllZero(Negate(s)) <==> AllZero(s);
    if !AllZero(s) {
      assert Deltas(Negate(s)) == Negate(Deltas(s));
      ExtrapolateNegate(Deltas(s));
    }
  }

  lemma DeltasBackward(s: seq<int>)
    ensures Deltas(Backward(s)) == Negate(Backward(Deltas(s)))
  {
    if |s| > 0 {
      var n, l, r := |s|, Deltas(Backward(s)), Negate(Backward(Deltas(s)));
      assert |l| == |r| == n - 1;
      forall i | 0 <= i < n - 1
        ensures l[i] == r[i]
      {
        assert l[i] == s[n - 2 - i] - s[n - 1 - i];
        assert r[i] == -Deltas(s)[n - 2 - i];
      }
    }
  }

  /**
   * Solving the reversed row gives the value before the first one: the
   * first value minus the value before the first difference.
   */
  lemma BackwardMeaning(s: seq<int>)
    requires !AllZero(s)
    ensures Extrapolate(Backward(s)) == s[0] - Extrapolate(Backward(Deltas(s)))
  {
    var i :| 0 <= i < |s| && s[i] != 0;
    assert Backward(s)[|s| - 1 - i] == s[i];
    DeltasBackward(s);
    ExtrapolateNegate(Backward(Deltas(s)));
  }

  /** Extrapolating a row of zeroes, or the empty row, gives zero. */
  lemma ZeroRow(s: seq<int>)
    requires AllZero(s)
    ensures Extrapolate(s) == 0 && Extrapolate(Backward(s)) == 0
  {
    assert AllZero(Backward(s));
  }

  /** One level of both extrapolations, for a row with a nonzero value. */
  lemma Level(s: seq<int>, i: nat)
    requires i < |s| && s[i] != 0
    ensures Extrapolate(s) == s[|s| - 1] + Extrapolate(Deltas(s))
    ensures Extrapolate(Backward(s)) == s[0] - Extrapolate(Backward(Deltas(s)))
  {
    BackwardMeaning(s);
  }

  /** Two rows of differences above an all-zero row. */
  lemma TwoLevels(s: seq<int>, d1: seq<int>)
    requires d1 == Deltas(s) && !AllZero(s) && !AllZero(d1) && AllZero(Deltas(d1))
    ensures Extrapolate(s) == s[|s| - 1] + d1[|d1| - 1]
    ensures Extrapolate(Backward(s)) == s[0] - d1[0]
  {
    var i :| 0 <= i < |s| && s[i] != 0;
    var j :| 0 <= j < |d1| && d1[j] != 0;
    Level(s, i);
    Level(d1, j);
    ZeroRow(Deltas(d1));
  }

  lemma ThreeLevels(s: seq<int>, d1: seq<int>, d2: seq<int>)
    requires d1 == Deltas(s) && d2 == Deltas(d1) && !AllZero(s)
    requires !AllZero(d1) && !AllZero(d2) && AllZero(Deltas(d2))
    ensures Extrapolate(s) == s[|s| - 1] + d1[|d1| - 1] + d2[|d2| - 1]
    ensures Extrapolate(Backward(s)) == s[0] - (d1[0] - d2[0])
  {
    var i :| 0 <= i < |s| && s[i] != 0;
    Level(s, i);
    TwoLevels(d1, d2);
  }

  lemma FourLevels(s: seq<int>, d1: seq<int>, d2: seq<int>, d3: seq<int>)
    requires d1 == Deltas(s) && d2 == Deltas(d1) && d3 == Deltas(d2) && !AllZero(s)
    requires !AllZero(d1) && !AllZero(d2) && !AllZero(d3) && AllZero(Deltas(d3))
    ensures Extrapolate(s) == s[|s| - 1] + d1[|d1| - 1] + d2[|d2| - 1] + d3[|d3| - 1]
    ensures Extrapolate(Backward(s)) == s[0] - (d1[0] - (d2[0] - d3[0]))
  {
    var i :| 0 <= i < |s| && s[i] != 0;
    Level(s, i);
    ThreeLevels(d1, d2, d3);
  }

  /** The three sample rows, forwards and backwards. */
  lemma SampleA(a: seq<int>)
    requires a == [0, 3, 6, 9, 12, 15]
    ensures Extrapolate(a) == 18 && Extrapolate(Backward(a)) == -3
  {
    var d1 := Deltas(a);
    assert d1 == [3, 3, 3, 3, 3];
    assert Deltas(d1) == [0, 0, 0, 0];
    assert a[1] != 0 && d1[0] != 0;
    TwoLevels(a, d1);
  }

  lemma SampleB(b: seq<int>)
    requires b == [1, 3, 6, 10, 15, 21]
    ensures Extrapolate(b) == 28 && Extrapolate(Backward(b)) == 0
  {
    var d1 := Deltas(b);
    assert d1 == [2, 3, 4, 5, 6];
    var d2 := Deltas(d1);
    assert d2 == [1, 1, 1, 1];
    assert Deltas(d2) == [0, 0, 0];
    assert b[0] != 0 && d1[0] != 0 && d2[0] != 0;
    ThreeLevels(b, d1, d2);
  }

  lemma SampleC(c: seq<int>)
    requires c == [10, 13, 16, 21, 30, 45]
    ensures Extrapolate(c) == 68 && Extrapolate(Backward(c)) == 5
  {
    var d1 := Deltas(c);
    assert d1 == [3, 3, 5, 9, 15];
    var d2 := Deltas(d1);
    assert d2 == [0, 2, 4, 6];
    var d3 := Deltas(d2);
    assert d3 == [2, 2, 2];
    assert Deltas(d3) == [0, 0];
    assert c[0] != 0 && d1[0] != 0 && d2[1] != 0 && d3[0] != 0;
    FourLevels(c, d1, d2, d3);
  }
}
