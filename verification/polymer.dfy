/**
 * Polymer pair insertion (2021 day 14).  A polymer is a chain of bytes; a
 * rule `AB -> C` inserts `C` between every adjacent `A`, `B`.  Rather than
 * building the chain, the program keeps how often each adjacent pair
 * occurs (a `HashMap<Pair, usize>`, here a `multiset<Pair>`) and rewrites
 * those counts once per step.
 *
 * The reference meaning is the chain itself: `Step` performs one round of
 * insertions on the bytes, and `PairsStep` shows that rewriting the pair
 * counts (`Expand`) is the same as counting the pairs of the grown chain.
 * `Solve` is proved to return the spread between the most and the least
 * common byte of the polymer after `n` steps.
 */
module Polymer {
  import opened Outcomes
  import opened Arithmetic

  datatype Pair = Pair(left: Byte, right: Byte)

  /** The insertion rules: the byte inserted between the two of a pair. */
  type Rules = map<Pair, Byte>

  // ---------------------------------------------------------------------
  // The chain itself
  // ---------------------------------------------------------------------

  /** The adjacent pairs of a chain, counted. */
  function Pairs(chain: seq<Byte>): (r: multiset<Pair>)
    ensures |chain| > 0 ==> |r| == |chain| - 1
  {
    if |chain| < 2 then multiset{}
    else multiset{Pair(chain[0], chain[1])} + Pairs(chain[1..])
  }

  /** What a rule inserts between the bytes of `p`: one byte or nothing. */
  function Inserted(p: Pair, rules: Rules): seq<Byte>
  {
    if p in rules then [rules[p]] else []
  }

  /** One round of insertions, applied to every adjacent pair at once. */
  function Step(chain: seq<Byte>, rules: Rules): (r: seq<Byte>)
    ensures |chain| > 0 ==> |r| > 0 && r[0] == chain[0] && r[|r| - 1] == chain[|chain| - 1]
  {
    if |chain| < 2 then chain
    else [chain[0]] + Inserted(Pair(chain[0], chain[1]), rules) + Step(chain[1..], rules)
  }

  /** The adjacent pairs of `chain` that have a rule, in order. */
  function Matches(chain: seq<Byte>, rules: Rules): seq<Pair>
  {
    if |chain| < 2 then []
    else
      var p := Pair(chain[0], chain[1]);
      (if p in rules then [p] else []) + Matches(chain[1..], rules)
  }

  /** Each round inserts one byte per rule-matched pair. */
  lemma {:induction false} StepLength(chain: seq<Byte>, rules: Rules)
    ensures |Step(chain, rules)| == |chain| + |Matches(chain, rules)|
    decreases |chain|
  {
    if |chain| >= 2 {
      StepLength(chain[1..], rules);
    }
  }

  /** The chain after `n` rounds. */
  function Grow(chain: seq<Byte>, rules: Rules, n: nat): (r: seq<Byte>)
    ensures |chain| > 0 ==> |r| > 0 && r[|r| - 1] == chain[|chain| - 1]
  {
    if n == 0 then chain else Step(Grow(chain, rules, n - 1), rules)
  }

  // ---------------------------------------------------------------------
  // Mapping over a multiset of pairs
  // ---------------------------------------------------------------------

  /** The sum of `f(p)` over every pair `p` of `m`, counted with
    * multiplicity. */
  ghost function FlatMap<T>(m: multiset<Pair>, f: Pair -> multiset<T>): multiset<T>
    decreases |m|
  {
    if m == multiset{} then multiset{}
    else
      var p :| p in m;
      f(p) + FlatMap(m - multiset{p}, f)
  }

  /** `x` added up `n` times. */
  function Scaled<T>(x: multiset<T>, n: nat): multiset<T>
  {
    if n == 0 then multiset{} else Scaled(x, n - 1) + x
  }

  lemma {:induction false} ScaledSingle<T>(x: T, n: nat)
    ensures Scaled(multiset{x}, n) == multiset{}[x := n]
  {
    if n > 0 {
      ScaledSingle(x, n - 1);
      assert multiset{}[x := n - 1] + multiset{x} == multiset{}[x := n];
    }
  }

  lemma {:induction false} ScaledUnion<T>(a: multiset<T>, b: multiset<T>, n: nat)
    ensures Scaled(a + b, n) == Scaled(a, n) + Scaled(b, n)
  {
    if n > 0 {
      ScaledUnion(a, b, n - 1);
    }
  }

  /** Any pair of `m` can be taken out first. */
  lemma {:induction false} FlatMapOne<T>(m: multiset<Pair>, f: Pair -> multiset<T>, q: Pair)
    requires q in m
    ensures FlatMap(m, f) == f(q) + FlatMap(m - multiset{q}, f)
    decreases |m|
  {
    var p :| p in m && FlatMap(m, f) == f(p) + FlatMap(m - multiset{p}, f);
    if p != q {
      var both := m - multiset{p} - multiset{q};
      assert FlatMap(m - multiset{p}, f) == f(q) + FlatMap(both, f) by {
        FlatMapOne(m - multiset{p}, f, q);
      }
      assert FlatMap(m - multiset{q}, f) == f(p) + FlatMap(both, f) by {
        assert m - multiset{q} - multiset{p} == both;
        FlatMapOne(m - multiset{q}, f, p);
      }
      Swap(f(p), f(q), FlatMap(both, f));
    }
  }

  lemma Swap<T>(a: multiset<T>, b: multiset<T>, c: multiset<T>)
    ensures a + (b + c) == b + (a + c)
  {
  }

  lemma {:induction false} FlatMapAdd<T>(a: multiset<Pair>, b: multiset<Pair>, f: Pair -> multiset<T>)
    ensures FlatMap(a + b, f) == FlatMap(a, f) + FlatMap(b, f)
    decreases |a|
  {
    if a == multiset{} {
      assert a + b == b;
    } else {
      var p :| p in a;
      var rest := a - multiset{p};
      assert FlatMap(a + b, f) == f(p) + FlatMap(rest + b, f) by {
        FlatMapOne(a + b, f, p);
        assert a + b - multiset{p} == rest + b;
      }
      assert FlatMap(a, f) == f(p) + FlatMap(rest, f) by {
        FlatMapOne(a, f, p);
      }
      FlatMapAdd(rest, b, f);
    }
  }

  lemma FlatMapSingle<T>(p: Pair, f: Pair -> multiset<T>)
    ensures FlatMap(multiset{p}, f) == f(p)
  {
    FlatMapOne(multiset{p}, f, p);
    assert multiset{p} - multiset{p} == multiset{};
  }

  /** All the copies of one pair can be taken out at once, which is how
    * the program walks a map of counts: one entry at a time. */
  lemma {:induction false} FlatMapEntry<T>(m: multiset<Pair>, f: Pair -> multiset<T>, q: Pair)
    ensures FlatMap(m, f) == FlatMap(m[q := 0], f) + Scaled(f(q), m[q])
    decreases m[q]
  {
    if m[q] == 0 {
      assert m[q := 0] == m;
    } else {
      var rest := m - multiset{q};
      var s := Scaled(f(q), rest[q]);
      assert FlatMap(m, f) == f(q) + FlatMap(rest, f) by {
        FlatMapOne(m, f, q);
      }
      assert FlatMap(rest, f) == FlatMap(m[q := 0], f) + s by {
        assert rest[q := 0] == m[q := 0];
        FlatMapEntry(rest, f, q);
      }
      assert Scaled(f(q), m[q]) == s + f(q) by {
        assert rest[q] == m[q] - 1;
      }
      Swap(f(q), FlatMap(m[q := 0], f), s);
    }
  }

  // ---------------------------------------------------------------------
  // count_pairs
  // ---------------------------------------------------------------------

  lemma {:induction false} PairsSnoc(chain: seq<Byte>, i: nat)
    requires 0 < i < |chain|
    ensures Pairs(chain[..i + 1]) == Pairs(chain[..i]) + multiset{Pair(chain[i - 1], chain[i])}
    decreases i
  {
    if i > 1 {
      var rest := chain[1..];
      var pair := multiset{Pair(chain[i - 1], chain[i])};
      assert Pairs(rest[..i]) == Pairs(rest[..i - 1]) + pair by {
        PairsSnoc(rest, i - 1);
      }
      var head := multiset{Pair(chain[0], chain[1])};
      assert Pairs(chain[..i + 1]) == head + Pairs(rest[..i]) by {
        assert chain[..i + 1][1..] == rest[..i];
      }
      assert Pairs(chain[..i]) == head + Pairs(rest[..i - 1]) by {
        assert chain[..i][1..] == rest[..i - 1];
      }
    }
  }

  /**
   * `count_pairs`: count each adjacent pair of the chain.  The source
   * computes `chain.len() - 1` in `usize`, which fails for an empty chain;
   * that failure is `None` here.
   */
  method CountPairs(chain: seq<Byte>) returns (r: Option<multiset<Pair>>)
    ensures r.None? <==> chain == []
    ensures r.Some? ==> r.value == Pairs(chain) && |r.value| == |chain| - 1
  {
    if |chain| == 0 {
      return None;
    }
    var counts: multiset<Pair> := multiset{};
    for i := 0 to |chain| - 1
      invariant counts == Pairs(chain[..i + 1])
    {
      var key := Pair(chain[i], chain[i + 1]);
      assert Pairs(chain[..i + 2]) == counts + multiset{key} by {
        PairsSnoc(chain, i + 1);
      }
      assert counts[key := counts[key] + 1] == counts + multiset{key};
      counts := counts[key := counts[key] + 1];
    }
    assert chain[..|chain|] == chain;
    return Some(counts);
  }

  // ---------------------------------------------------------------------
  // update
  // ---------------------------------------------------------------------

  /** What one occurrence of `p` becomes in the next round. */
  function Image(p: Pair, rules: Rules): multiset<Pair>
  {
    if p in rules then multiset{Pair(p.left, rules[p]), Pair(rules[p], p.right)}
    else multiset{p}
  }

  function ImageOf(rules: Rules): Pair -> multiset<Pair>
  {
    p => Image(p, rules)
  }

  function MatchOf(rules: Rules): Pair -> multiset<Pair>
  {
    p => if p in rules then multiset{p} else multiset{}
  }

  /** The pair counts one round later. */
  ghost function Expand(counts: multiset<Pair>, rules: Rules): multiset<Pair>
  {
    FlatMap(counts, ImageOf(rules))
  }

  /** The pairs of `counts` that have a rule. */
  ghost function Matched(counts: multiset<Pair>, rules: Rules): multiset<Pair>
  {
    FlatMap(counts, MatchOf(rules))
  }

  /**
   * A pair with a rule `AB -> C` passes its count on to `AC` and to `CB`;
   * a pair without a rule keeps its count.
   */
  lemma ExpandEntry(counts: multiset<Pair>, rules: Rules, p: Pair)
    ensures Expand(counts, rules) == Expand(counts[p := 0], rules) + Scaled(Image(p, rules), counts[p])
  {
    FlatMapEntry(counts, ImageOf(rules), p);
  }

  /** Adding `n` to the count of `x` adds `n` copies of `x`. */
  lemma Bump<T>(m: multiset<T>, x: T, n: nat)
    ensures m[x := m[x] + n] == m + Scaled(multiset{x}, n)
  {
    ScaledSingle(x, n);
  }

  /** Adding `n` to the counts of `x` and then of `y` adds `n` copies of
    * both. */
  lemma BumpTwo<T>(m: multiset<T>, x: T, y: T, n: nat)
    ensures var m' := m[x := m[x] + n]; m'[y := m'[y] + n] == m + Scaled(multiset{x, y}, n)
  {
    var m' := m[x := m[x] + n];
    Bump(m, x, n);
    Bump(m', y, n);
    assert multiset{x, y} == multiset{x} + multiset{y};
    ScaledUnion(multiset{x}, multiset{y}, n);
  }

  /** Moving one entry's share from what is left to what is done keeps
    * the total. */
  lemma Shift<T>(done: multiset<T>, left: multiset<T>, total: multiset<T>, share: multiset<T>, left': multiset<T>)
    requires done + left == total && left == left' + share
    ensures (done + share) + left' == total
  {
  }

  /**
   * The body of `update`'s loop: the entry `key -> count` adds `count` to
   * `AC` and to `CB` when `key` is `AB` with a rule `AB -> C`, and to `key`
   * itself otherwise.
   */
  method AddEntry(result: multiset<Pair>, key: Pair, count: nat, rules: Rules) returns (r: multiset<Pair>)
    ensures r == result + Scaled(Image(key, rules), count)
  {
    r := result;
    if key in rules {
      var (a, b, c) := (key.left, rules[key], key.right);
      BumpTwo(r, Pair(a, b), Pair(b, c), count);
      r := r[Pair(a, b) := r[Pair(a, b)] + count];
      r := r[Pair(b, c) := r[Pair(b, c)] + count];
    } else {
      Bump(r, key, count);
      r := r[key := r[key] + count];
    }
  }

  /** `update`: rewrite every entry of the counts by its rule. */
  method Update(counts: multiset<Pair>, rules: Rules) returns (result: multiset<Pair>)
    ensures result == Expand(counts, rules)
  {
    result := multiset{};
    var rest := counts;
    while rest != multiset{}
      invariant result + Expand(rest, rules) == Expand(counts, rules)
      decreases |rest|
    {
      var key :| key in rest;
      var count := rest[key];
      ExpandEntry(rest, rules, key);
      Shift(result, Expand(rest, rules), Expand(counts, rules), Scaled(Image(key, rules), count), Expand(rest[key := 0], rules));
      result := AddEntry(result, key, count, rules);
      rest := rest[key := 0];
    }
    assert Expand(multiset{}, rules) == multiset{};
  }

  /** Each round adds one pair per rule-matched pair. */
  lemma {:induction false} ExpandTotal(counts: multiset<Pair>, rules: Rules)
    ensures |Expand(counts, rules)| == |counts| + |Matched(counts, rules)|
    decreases |counts|
  {
    if counts != multiset{} {
      var p :| p in counts;
      FlatMapOne(counts, ImageOf(rules), p);
      FlatMapOne(counts, MatchOf(rules), p);
      ExpandTotal(counts - multiset{p}, rules);
    }
  }

  /** The pairs of `[x, c] + tail`, where `tail` starts with `y`. */
  lemma PairsInserted(s: seq<Byte>)
    requires |s| >= 3
    ensures Pairs(s) == multiset{Pair(s[0], s[1]), Pair(s[1], s[2])} + Pairs(s[2..])
  {
    var t := s[1..];
    assert Pairs(t) == multiset{Pair(s[1], s[2])} + Pairs(s[2..]) by {
      assert t[1..] == s[2..];
    }
  }

  /** The pairs of one round's output, split at its first pair. */
  lemma StepPairs(chain: seq<Byte>, rules: Rules)
    requires |chain| >= 2
    ensures Pairs(Step(chain, rules)) == Image(Pair(chain[0], chain[1]), rules) + Pairs(Step(chain[1..], rules))
  {
    var x, p, tail := chain[0], Pair(chain[0], chain[1]), Step(chain[1..], rules);
    assert |tail| > 0 && tail[0] == chain[1];
    if p in rules {
      var s := Step(chain, rules);
      assert s == [x, rules[p]] + tail;
      assert s[2..] == tail;
      PairsInserted(s);
    } else {
      assert Step(chain, rules) == [x] + tail;
      assert ([x] + tail)[1..] == tail;
    }
  }

  /** Rewriting the pair counts is counting the pairs of the grown chain. */
  lemma {:induction false} PairsStep(chain: seq<Byte>, rules: Rules)
    ensures Pairs(Step(chain, rules)) == Expand(Pairs(chain), rules)
    decreases |chain|
  {
    if |chain| < 2 {
      assert Expand(multiset{}, rules) == multiset{};
    } else {
      var p, rest := Pair(chain[0], chain[1]), chain[1..];
      assert Expand(Pairs(chain), rules) == Image(p, rules) + Expand(Pairs(rest), rules) by {
        assert Pairs(chain) == multiset{p} + Pairs(rest);
        FlatMapAdd(multiset{p}, Pairs(rest), ImageOf(rules));
        FlatMapSingle(p, ImageOf(rules));
      }
      StepPairs(chain, rules);
      PairsStep(rest, rules);
    }
  }

  /** After `n` rounds of `Update`, the counts are those of the grown chain. */
  lemma {:induction false} PairsGrow(chain: seq<Byte>, rules: Rules, n: nat, counts: multiset<Pair>)
    requires counts == Pairs(Grow(chain, rules, n))
    ensures Expand(counts, rules) == Pairs(Grow(chain, rules, n + 1))
  {
    PairsStep(Grow(chain, rules, n), rules);
  }

  /** Each round lengthens the chain by the number of rule-matched pairs. */
  lemma MatchesAreMatched(chain: seq<Byte>, rules: Rules)
    ensures |Matches(chain, rules)| == |Matched(Pairs(chain), rules)|
  {
    PairsStep(chain, rules);
    ExpandTotal(Pairs(chain), rules);
    StepLength(chain, rules);
  }

  // ---------------------------------------------------------------------
  // solve
  // ---------------------------------------------------------------------

  const FirstOf: Pair -> multiset<Byte> := (p: Pair) => multiset{p.left}

  /** The first byte of each pair, counted. */
  ghost function FirstBytes(counts: multiset<Pair>): multiset<Byte>
  {
    FlatMap(counts, FirstOf)
  }

  /** The first bytes of a chain's pairs and its last byte are all its
    * bytes. */
  lemma FirstBytesCons(chain: seq<Byte>)
    requires |chain| >= 2
    ensures FirstBytes(Pairs(chain)) == multiset{chain[0]} + FirstBytes(Pairs(chain[1..]))
  {
    var p := Pair(chain[0], chain[1]);
    FlatMapAdd(multiset{p}, Pairs(chain[1..]), FirstOf);
    FlatMapSingle(p, FirstOf);
  }

  lemma Regroup<T>(whole: multiset<T>, first: T, m: multiset<T>, last: T, rest: multiset<T>)
    requires whole == multiset{first} + m && m + multiset{last} == rest
    ensures whole + multiset{last} == multiset{first} + rest
  {
  }

  lemma {:induction false} FirstBytesPairs(chain: seq<Byte>)
    requires |chain| > 0
    ensures FirstBytes(Pairs(chain)) + multiset{chain[|chain| - 1]} == multiset(chain)
    decreases |chain|
  {
    if |chain| == 1 {
      assert FirstBytes(multiset{}) == multiset{};
      assert chain == [chain[0]];
    } else {
      var rest, last := chain[1..], chain[|chain| - 1];
      assert rest[|rest| - 1] == last;
      assert multiset(chain) == multiset{chain[0]} + multiset(rest) by {
        assert chain == [chain[0]] + rest;
      }
      FirstBytesCons(chain);
      FirstBytesPairs(rest);
      Regroup(FirstBytes(Pairs(chain)), chain[0], FirstBytes(Pairs(rest)), last, multiset(rest));
    }
  }

  /** The largest multiplicity of a byte `b` or above in `m`. */
  function MostFrom(m: multiset<Byte>, b: nat): (r: nat)
    requires b <= 256
    ensures forall x: Byte :: b <= x ==> m[x] <= r
    ensures r == 0 || exists x: Byte :: b <= x && m[x] == r
    decreases 256 - b
  {
    if b == 256 then 0
    else
      var rest := MostFrom(m, b + 1);
      if m[b as Byte] > rest then m[b as Byte] else rest
  }

  /** The smallest multiplicity of a byte `b` or above that occurs in `m`. */
  function FewestFrom(m: multiset<Byte>, b: nat): (r: Option<nat>)
    requires b <= 256
    ensures r.None? <==> forall x: Byte :: b <= x ==> x !in m
    ensures r.Some? ==> exists x: Byte :: b <= x && x in m && m[x] == r.value
    ensures r.Some? ==> forall x: Byte :: b <= x && x in m ==> r.value <= m[x]
    decreases 256 - b
  {
    if b == 256 then None
    else
      var rest := FewestFrom(m, b + 1);
      if m[b as Byte] == 0 then rest
      else if rest.None? || m[b as Byte] < rest.value then Some(m[b as Byte])
      else rest
  }

  /** The count of the most common byte minus that of the least common. */
  function Spread(m: multiset<Byte>): (r: nat)
    requires m != multiset{}
    ensures exists x, y :: x in m && y in m && r as int == m[x] as int - m[y] as int
    ensures forall x, y :: x in m && y in m ==> m[x] as int - m[y] as int <= r
  {
    var most := MostFrom(m, 0);
    var fewest := FewestFrom(m, 0);
    var x :| x in m;
    assert fewest.Some?;
    most - fewest.value
  }

  /** The loop of `solve` that adds each pair's count to its first byte. */
  method CountFirstBytes(counts: multiset<Pair>) returns (bytes: multiset<Byte>)
    ensures bytes == FirstBytes(counts)
  {
    bytes := multiset{};
    var rest := counts;
    while rest != multiset{}
      invariant bytes + FirstBytes(rest) == FirstBytes(counts)
      decreases |rest|
    {
      var key :| key in rest;
      var count := rest[key];
      FlatMapEntry(rest, FirstOf, key);
      assert FirstOf(key) == multiset{key.left};
      Shift(bytes, FirstBytes(rest), FirstBytes(counts), Scaled(multiset{key.left}, count), FirstBytes(rest[key := 0]));
      Bump(bytes, key.left, count);
      bytes := bytes[key.left := bytes[key.left] + count];
      rest := rest[key := 0];
    }
    assert FirstBytes(multiset{}) == multiset{};
  }

  /**
   * `solve`: count the pairs, update them `n` times, count the first byte
   * of every pair plus the chain's last byte, and take the spread.  The
   * answer is the spread of the bytes of the chain after `n` rounds.  An
   * empty chain fails in the source (`count_pairs` and the `unwrap` of
   * the last byte); that is `None` here.
   */
  method Solve(chain: seq<Byte>, rules: Rules, n: nat) returns (r: Option<nat>)
    ensures r.None? <==> chain == []
    ensures r.Some? ==> r.value == Spread(multiset(Grow(chain, rules, n)))
  {
    var start := CountPairs(chain);
    if start.None? {
      return None;
    }
    var counts := start.value;
    for i := 0 to n
      invariant counts == Pairs(Grow(chain, rules, i))
    {
      PairsGrow(chain, rules, i, counts);
      counts := Update(counts, rules);
    }
    var bytes := CountFirstBytes(counts);
    var last := chain[|chain| - 1];
    assert bytes[last := bytes[last] + 1] == bytes + multiset{last};
    bytes := bytes[last := bytes[last] + 1];
    FirstBytesPairs(Grow(chain, rules, n));
    return Some(Spread(bytes));
  }
}
